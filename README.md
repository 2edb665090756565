# KIIT chat relay, modelled in Dafny

This project models the message relay of a one-to-one socket.io chat. It covers three parts.

- **The server** (`server/index.js`):
  - the registration checks and the record it saves;
  - the socket admission gate, which checks the handshake token;
  - the `connectedUsers` registry, a JavaScript `Map` in insertion order, broadcast as `users` after every change;
  - the `get_messages`, `message` and `disconnect` handlers.
- **The client's socket provider** (`src/contexts/SocketContext.jsx`): the message list that `message` and `existing_messages` update, the optimistic `sendMessage`, and the history request on `connect` and `reconnect`.
- **The chat page** (`src/pages/Chat.jsx`): the online-user list without the current user, the conversation filter and the send handler.

Files:

- `wrappers.dfy`: `Option` and `Result`.
- `identifiers.dfy`: the user id type shared by the server and the browser.
- `sequences.dfy`: `Array.prototype.filter`, with the order and multiplicity it keeps.
- `js_strings.dfy`: the JavaScript string behaviour the code relies on:
  - truthiness of an optional string;
  - the `\s` whitespace class, which is also what `trim` removes;
  - `trim`, `includes`, `length` in UTF-16 code units, `toLowerCase` on ASCII letters;
  - the registration e-mail pattern `^[^\s@]+@[^\s@]+\.[^\s@]+$`. It is given twice: as a split predicate over positions (the language of the regular expression) and as the check the model runs. A lemma proves the two equal.
- `sorting.dfy`: one insertion sort by a numeric key. Both the database's `sort({ timestamp: 1 })` and the client's `Array.prototype.sort` use it. It also shows that a subsequence of a sorted sequence is sorted.
- `ordered_map.dfy`: a `Map` as a sequence of key/value entries. `set` on a known key replaces the value in place, `set` on a new key appends, `delete` removes the entry, and `values()` lists the values in order.
- `registration.dfy`: `POST /api/auth/register` as a function from the user collection and the request to the reply and the new collection.
- `relay.dfy`: the server as a class.
  - Its state: the registry, the message collection (append-only; a message's id is its position) and the log of everything emitted, each emission with its target (everyone or one socket).
  - Each handler is one atomic method.
  - `Valid()` requires one registry entry per user, stored under that user's id. It also requires that every message sent to a socket has been saved first.
- `socket_client.dfy`: the provider as a class holding the message list and the log of what it emitted. The list updaters are pure functions.
- `chat_view.dfy`: the page's filters, and a class holding the input box, the shown list and the selected user.

Things the model takes as parameters:

- token verification: `string -> Option<Identity>`;
- password hashing: `string -> string`;
- encryption: `string -> string`;
- decryption: `string -> Option<string>`, where `None` means the decryption threw;
- the clock: a natural number;
- whether the database answers: a boolean.

Where the relay's intended design and its code disagree, the model follows the code:

- A `message` payload without content or recipient, or one the database refuses, is only logged. The sender is not told.
- The stored sender is the `senderId` of the payload, not the authenticated user.
- A `disconnect` deletes the entry under the user's id even when a newer socket of the same user has replaced it. `Relay.StaleDisconnectDropsNewerSocket` shows this.
- Timestamps come from the server clock and are not assumed to increase. The history query sorts them.
- The duplicate-e-mail lookup uses the e-mail as typed, while the saved e-mail is lower-cased. The unique index on `email` still refuses a case variant of a stored address. `Registration.RegisterRefusesCaseVariant` proves this.
- The schema's `required` check rejects a name that trims to the empty string.

## Model

| member | source | states |
|---|---|---|
| JsStrings.TrimStart | server/index.js:104 | the result is the suffix of the input after a prefix of whitespace only, and it does not start with whitespace |
| JsStrings.TrimEnd | server/index.js:104 | the result is the prefix of the input before a suffix of whitespace only, and it does not end with whitespace |
| JsStrings.Trim | server/index.js:104 | `trim()` is the part of the input between a whitespace-only prefix and a whitespace-only suffix, and it neither starts nor ends with whitespace |
| JsStrings.TrimEmptyIffBlank | src/pages/Chat.jsx:64 | `message.trim()` is falsy exactly when the input is made only of whitespace |
| JsStrings.Utf16Length | server/index.js:93 | `password.length` counts UTF-16 code units: the number of characters plus the number of characters outside the Basic Multilingual Plane; hence between the number of characters and twice that, and equal to it when every character is in the Basic Multilingual Plane |
| JsStrings.AsciiLower | server/index.js:105 | `toLowerCase()` keeps the length, turns each upper-case ASCII letter into its lower-case letter (32 code points on), leaves no upper-case ASCII letter and changes no other character |
| JsStrings.AsciiLowerIdempotent | server/index.js:105 | lower-casing a stored e-mail again changes nothing |
| JsStrings.Truthy | server/index.js:75 | `!x` is false exactly when the field is present and is not the empty string (the presence tests of registration, the socket gate and the `message` handler) |
| JsStrings.IsJsWhitespace | server/index.js:87 | the characters `\s` matches and `trim()` removes: the ECMAScript WhiteSpace and LineTerminator code points |
| JsStrings.Includes | src/contexts/SocketContext.jsx:79 | `s.includes(t)`: `t` occurs in `s` as a contiguous block |
| JsStrings.IsEmailShaped | server/index.js:87-88 | the e-mail check as the model runs it: split at the first '@', a non-empty local part and a domain without whitespace or '@', with a '.' neither first nor last in the domain |
| JsStrings.IndexOf | server/index.js:87 | finds the first occurrence of a character, or reports that there is none |
| JsStrings.EmailCheckMatchesPattern | server/index.js:87-88 | the split check accepts exactly the strings `^[^\s@]+@[^\s@]+\.[^\s@]+$` matches: one '@' with a non-empty part before it, a '.' with non-empty parts on both sides after it, and no whitespace or second '@' |
| JsStrings.DecimalString | src/contexts/SocketContext.jsx:151 | the decimal rendering of `Date.now()` is a non-empty string of digits, without a leading zero unless it is `0`, whose digits spell the number back |
| Sorting.InsertKeepsSorted | server/index.js:253 | inserting into a sorted sequence keeps it sorted and adds exactly that element |
| Sorting.InsertAddsElement | server/index.js:253 | inserting adds exactly the inserted element to the multiset of elements |
| Sorting.InsertKeepsLowerBound | server/index.js:253 | a key bound below the inserted element and every existing element bounds every element afterwards |
| Sorting.SubsequenceKeepsLowerBound | server/index.js:248-253 | a key bound below every element of a sequence bounds every element of a subsequence of it |
| Sorting.SubsequenceKeepsSorted | server/index.js:248-253 | a subsequence of a sequence in key order is in key order |
| Sorting.SortBy | server/index.js:253 | the result is sorted by non-decreasing key and is a permutation of the input |
| Sorting.SortBySortedUnchanged | server/index.js:253 | sorting a sequence that is already in order leaves it unchanged |
| OrderedMap.IndexOfKey | server/index.js:214 | finds the position of a key's entry, which is the first entry with that key |
| OrderedMap.Get | server/index.js:214 | `get` finds a value exactly when the key is present, and that entry exists |
| OrderedMap.Set | server/index.js:232-237 | after `set`, the key maps to the new value and every other key keeps its value; a new key is appended; a known key keeps its position, and every other entry stays where it was; distinct keys stay distinct |
| OrderedMap.Delete | server/index.js:306 | `delete` removes exactly the key's entry and keeps the order of the rest; an absent key leaves the map unchanged; every other key keeps its value; the key is gone |
| OrderedMap.Values | server/index.js:243 | `Array.from(values())` lists the values in entry order |
| Registration.StatusCode | server/index.js:76-122 | the route answers 201 on success, 500 on an internal error and 400 on every other refusal |
| Registration.Validate | server/index.js:75-95 | the request passes exactly when name, e-mail and password are present and non-empty, the e-mail matches the pattern and the password has at least 6 code units; a missing field gets "all fields are required" with one flag per missing field, a bad e-mail gets the format refusal, a short password the strength refusal, in that order; every refusal is a 400 |
| Registration.HasEmail | server/index.js:97-98 | `User.findOne({ email })` finds a record exactly when some stored record has that e-mail, compared exactly |
| Registration.Register | server/index.js:70-124 | a request that fails validation gets that refusal and the collection is untouched; when the backend does not answer the reply is the internal error; an e-mail found as typed is refused as taken; a name that trims to empty is a validation error; a valid request with a non-blank name whose e-mail is new both as typed and lower-cased is created. An account is created only in that case, and then exactly the record {trimmed name, lower-cased e-mail, hash} is appended; any other outcome leaves the collection unchanged |
| Registration.TrimIdempotent | server/index.js:104 | a stored name is already trimmed: trimming it again changes nothing |
| Registration.LowerKeepsEmailPattern | server/index.js:87-105 | the stored, lower-cased e-mail still matches the pattern |
| Registration.StoredRecordWellFormed | server/index.js:103-107 | the record a valid request stores has a non-empty name with no whitespace at either end and a lower-cased e-mail that matches the pattern |
| Registration.AppendKeepsWellFormed | server/index.js:109 | saving a well-formed record keeps every record well formed |
| Registration.AppendKeepsEmailsDistinct | server/index.js:109 | saving a record whose e-mail is not stored keeps e-mails unique |
| Registration.RegisterPreservesCollection | server/index.js:97-121 | registration keeps every stored record well formed and keeps e-mails unique |
| Registration.RegisterRefusesCaseVariant | server/index.js:97-121 | an e-mail whose lower-cased form is already stored is refused as taken, even though the lookup used the e-mail as typed |
| Relay.Authenticate | server/index.js:192-209 | a missing or empty token is refused as absent; a token the verifier rejects is refused as invalid; otherwise the socket's user is exactly the verified identity |
| Relay.FindById | server/index.js:286-287 | `find` returns a listed entry with the requested id, and returns nothing exactly when no entry has that id |
| Relay.FindByIdIsLookup | server/index.js:286-287 | over a consistent registry, searching the broadcast list by id gives the registry's entry for that key |
| Relay.ConnectKeepsPresenceConsistent | server/index.js:232-237 | setting a user's entry under its own id keeps one entry per user, each under its own id |
| Relay.DisconnectKeepsPresenceConsistent | server/index.js:306 | deleting a key keeps one entry per user, each under its own id |
| Relay.StaleDisconnectDropsNewerSocket | server/index.js:304-306 | after a second connection of a user replaces the first, the first socket's disconnect removes the user's entry altogether |
| Relay.ByParticipant | server/index.js:248-252 | the query returns exactly the stored messages the user sent or received, each as often as it is stored, in collection order |
| Relay.History | server/index.js:245-254 | the history is sorted by non-decreasing timestamp and is a permutation of exactly the user's stored messages |
| Relay.StoredMessageInBothHistories | server/index.js:248-252 | every stored message appears in its sender's history and in its recipient's history |
| Relay.HistoryOfOrderedStore | server/index.js:253 | when timestamps never decreased, the history is the collection order itself |
| Relay.ByParticipantKeepsOrder | server/index.js:248-253 | when timestamps never decreased in the collection, the query's result is in timestamp order too |
| Relay.Server.Online | server/index.js:243 | `Array.from(connectedUsers.values())`: the registry's entries in insertion order |
| Relay.Server.constructor | server/index.js:214 | the server starts with no connected users, no messages and nothing emitted |
| Relay.Server.Connect | server/index.js:192-243 | a refused socket changes nothing and broadcasts nothing; an admitted socket sets its user's entry (other users keep theirs), keeps one entry per user, and broadcasts the new list to everyone |
| Relay.Server.GetMessages | server/index.js:245-259 | the requesting socket alone receives its user's history, or an error event when the query fails; nothing else changes |
| Relay.Server.OnMessage | server/index.js:261-301 | a payload without content or recipient, or one that cannot be saved, changes nothing and emits nothing; otherwise exactly one message carrying the payload's fields and the server time is appended. It is pushed to the recipient's socket exactly when the recipient is connected, then echoed to the submitting socket. The registry is unchanged, and nothing unsaved is ever sent |
| Relay.Server.Disconnect | server/index.js:304-313 | the entry under the session user's id is deleted, whatever socket it names; the other entries are unchanged, and the remaining list is broadcast |
| SocketClient.TempId | src/contexts/SocketContext.jsx:151 | an optimistic id starts with `temp-`, followed by digits that spell the clock value, and so includes `temp-` |
| SocketClient.HasId | src/contexts/SocketContext.jsx:70 | `prev.some(msg => msg._id === message._id)`: some entry of the list has that id |
| SocketClient.IsPendingCopy | src/contexts/SocketContext.jsx:75-80 | the `findIndex` test: same sender, same recipient, content equal to the decrypted content, and an id including `temp-` |
| SocketClient.FindPending | src/contexts/SocketContext.jsx:75-80 | `findIndex` returns the first optimistic copy of the incoming message, or reports that there is none |
| SocketClient.Merge | src/contexts/SocketContext.jsx:68-97 | a known id leaves the list unchanged; otherwise the first optimistic copy (same sender, same recipient, same clear content, id including `temp-`) is replaced in place by the decrypted server message; with no such copy, that message is appended; after any of these the id is in the list |
| SocketClient.Receive | src/contexts/SocketContext.jsx:60-101 | a content that fails to decrypt leaves the list unchanged; otherwise the list is the merge of the message with its decrypted content: the message's id ends up in the list, and the list either keeps its length or grows by exactly the decrypted message at the end |
| SocketClient.ReceiveIdempotent | src/contexts/SocketContext.jsx:70-72 | receiving the same message twice gives the same list as receiving it once |
| SocketClient.MergeReplacesOneEntry | src/contexts/SocketContext.jsx:82-90 | replacing an optimistic copy keeps the length and changes exactly one entry, at or before the given copy |
| SocketClient.DecryptAll | src/contexts/SocketContext.jsx:109-123 | the result holds exactly the messages whose content decrypts, with that content in clear, and is no longer than the input |
| SocketClient.DecryptAllIsFilterThenReveal | src/contexts/SocketContext.jsx:109-123 | the result is the filter of the messages that decrypt (each once, in input order), position by position with the content in clear |
| SocketClient.LoadHistory | src/contexts/SocketContext.jsx:108-126 | the new list is sorted by non-decreasing timestamp and is a permutation of exactly the messages that decrypt |
| SocketClient.EchoReplacesOptimisticCopy | src/contexts/SocketContext.jsx:145-155 | once a send appended its optimistic copy, the server's echo replaces that copy, and the list ends with the confirmed message |
| SocketClient.Client.constructor | src/contexts/SocketContext.jsx:13-14 | the provider starts with no socket and an empty list |
| SocketClient.Client.AttachSocket | src/contexts/SocketContext.jsx:129 | the socket is installed; the list and the emitted log are unchanged |
| SocketClient.Client.RequestHistory | src/contexts/SocketContext.jsx:40-58 | each `connect` and each `reconnect` emits exactly one `get_messages` and changes nothing else |
| SocketClient.Client.OnMessage | src/contexts/SocketContext.jsx:60-101 | the list becomes the merge of the incoming message; nothing is emitted |
| SocketClient.Client.OnExistingMessages | src/contexts/SocketContext.jsx:108-127 | the whole list is replaced by the sorted decryptable messages; nothing is emitted |
| SocketClient.Client.SendMessage | src/contexts/SocketContext.jsx:137-167 | with a socket, exactly one entry is appended (clear content, the current user as sender, a `temp-` id) and exactly one `message` event with the encrypted content is emitted; without a socket nothing changes |
| Sequences.Filter | src/pages/Chat.jsx:21 | `filter` keeps exactly the elements that pass, each as often as in the input, in input order |
| Sequences.FilterIdempotent | src/pages/Chat.jsx:70-74 | filtering twice with the same test gives the result of filtering once |
| Sequences.FilterAgrees | src/pages/Chat.jsx:70-74 | two tests that agree on every element filter alike |
| ChatView.OthersOnline | src/pages/Chat.jsx:20-22 | the shown list is the broadcast list without the entries carrying the current user's id, each other entry as often as it is broadcast, in broadcast order |
| ChatView.InConversation | src/pages/Chat.jsx:71-73 | a message belongs to the conversation exactly when a user is selected and it goes from me to that user or from that user to me |
| ChatView.Conversation | src/pages/Chat.jsx:70-74 | the shown messages are exactly those from me to the selected user or from the selected user to me, each as often as it is in the list, in list order; with no selected user, none |
| ChatView.ConversationIdempotent | src/pages/Chat.jsx:70-74 | applying the conversation filter to its own result changes nothing |
| ChatView.ConversationSymmetric | src/pages/Chat.jsx:70-74 | what A sees with B selected is what B sees with A selected |
| ChatView.Page.constructor | src/pages/Chat.jsx:9-13 | the page starts with an empty input, no users and no selection |
| ChatView.Page.OnUsers | src/pages/Chat.jsx:20-22 | the shown list becomes the broadcast list without the current user |
| ChatView.Page.Type | src/pages/Chat.jsx:186 | the input becomes the typed text |
| ChatView.Page.Select | src/pages/Chat.jsx:129 | the clicked user becomes the selected one |
| ChatView.Page.HandleSend | src/pages/Chat.jsx:62-68 | a whitespace-only input, or no selected user, leaves the input and the provider unchanged; otherwise the untrimmed input is sent once to the selected user, exactly as `sendMessage` does, and the input is cleared |

## Left out

- The HTTP and database setup is not modelled: the Express bootstrap, static serving, CORS, the Mongo connection and the schema declarations (server/index.js:1-53). Two effects of the schemas are modelled: the `required` check on the name and the sender, and the unique index on `email`.
- The HTTP token middleware (server/index.js:56-67), the login route (server/index.js:165-189) and the user search route (server/index.js:127-163) are not modelled. They are only foreign calls and database queries; the search passes user-supplied regular expressions to the database.
- `jwt.verify`, `bcrypt.hash` and the database's readiness are not modelled as code. They are parameters.
- Registration.Register: one `backendUp` flag covers the lookup, the hashing and the save. A request field that is not a string (a number, say) is not modelled.
- JsStrings.AsciiLower: only ASCII letters are lowered. `toLowerCase` lowers every Unicode letter, and can change a string's length.
- Relay.Server.OnMessage: `storeAccepts` also stands for an id that does not cast to an ObjectId. Ids are strings compared exactly, as `===` does. ObjectId normalisation is not modelled.
- Relay.History: messages with equal timestamps keep their collection order. The database does not promise an order for ties.
- Server message ids are positions in the collection. The ObjectId `_id` and its string form on the client are not modelled, and the server and client models are not connected into one system.
- Port probing and server start (server/index.js:316-344) are network I/O and are not modelled.
- Console logging is not modelled, `logConnectedUsers` included. Neither are socket.io transport and reconnection options.
- Interleaving across `await` is not modelled: each handler is one atomic step.
- The in-memory `messages` array (server/index.js:216) is never read, so the model leaves it out.
- CryptoJS AES is not modelled. Encryption is a total function, so the `catch` around encryption in `sendMessage` (src/contexts/SocketContext.jsx:163-165) is not modelled. Decryption that throws is `None`.
- SocketClient.Client.SendMessage: one clock value serves both the temporary timestamp and the `temp-` id. The source reads the clock twice.
- `Date` values are natural numbers.
- On the client, the socket is not closed on unmount, and the `connect_error`, `disconnect` and `error` handlers are not modelled; they only log.
- AuthContext (src/contexts/AuthContext.jsx) is not modelled: it is browser storage, HTTP calls and token decoding.
- The debounced user search on the page, the search-result list and the rendering are not modelled.
- ChatView.Page: the selected user is held as its id, the only field the modelled code reads.
