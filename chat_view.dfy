/**
 * The chat page: the online-users list it shows (the broadcast list without
 * the current user), the conversation it shows (the messages between the
 * current user and the selected user), and the send handler that hands a
 * non-blank input to the socket provider and clears the input.
 */
module ChatView {
  import opened Wrappers
  import opened JsStrings
  import Relay
  import SocketClient
  import opened Sequences
  import opened Identifiers

  /** The `users` handler's list: every broadcast entry but the current user's, in broadcast order. */
  function OthersOnline(list: seq<Relay.PresenceEntry>, me: UserId): (r: seq<Relay.PresenceEntry>)
    ensures forall e :: e in r <==> e in list && e.id != me
    ensures forall e :: multiset(r)[e] == if e.id != me then multiset(list)[e] else 0
    ensures IsSubsequence(r, list)
  {
    Filter(list, (e: Relay.PresenceEntry) => e.id != me)
  }

  /** A message from me to the selected user or from the selected user to me. */
  predicate InConversation(m: SocketClient.ChatMessage, me: UserId, selected: Option<UserId>) {
    selected.Some? &&
    ((m.senderId == me && m.recipientId == selected.value) || (m.senderId == selected.value && m.recipientId == me))
  }

  /** `filteredMessages`. */
  function Conversation(messages: seq<SocketClient.ChatMessage>, me: UserId, selected: Option<UserId>)
    : (r: seq<SocketClient.ChatMessage>)
    ensures forall m :: m in r <==> m in messages && InConversation(m, me, selected)
    ensures forall m :: multiset(r)[m] == if InConversation(m, me, selected) then multiset(messages)[m] else 0
    ensures IsSubsequence(r, messages)
    ensures selected.None? ==> r == []
  {
    Filter(messages, (m: SocketClient.ChatMessage) => InConversation(m, me, selected))
  }

  /** Applying the conversation filter to its own result changes nothing. */
  lemma ConversationIdempotent(messages: seq<SocketClient.ChatMessage>, me: UserId, selected: Option<UserId>)
    ensures Conversation(Conversation(messages, me, selected), me, selected) == Conversation(messages, me, selected)
  {
    FilterIdempotent(messages, (m: SocketClient.ChatMessage) => InConversation(m, me, selected));
  }

  /** Both participants see the same conversation: what `a` sees with `b` selected is what `b` sees with `a` selected. */
  lemma ConversationSymmetric(messages: seq<SocketClient.ChatMessage>, a: UserId, b: UserId)
    ensures Conversation(messages, a, Some(b)) == Conversation(messages, b, Some(a))
  {
    FilterAgrees(messages, (m: SocketClient.ChatMessage) => InConversation(m, a, Some(b)),
                           (m: SocketClient.ChatMessage) => InConversation(m, b, Some(a)));
  }

  /** The page's own state: the input box, the shown online list and the selected user's id. */
  class Page {
    const me: UserId
    var input: string
    var users: seq<Relay.PresenceEntry>
    var selected: Option<UserId>

    constructor (me: UserId)
      ensures this.me == me && input == "" && users == [] && selected == None
    {
      this.me := me;
      input, users, selected := "", [], None;
    }

    /** The `users` handler. */
    method OnUsers(list: seq<Relay.PresenceEntry>)
      modifies this
      ensures users == OthersOnline(list, me)
      ensures input == old(input) && selected == old(selected)
    {
      users := OthersOnline(list, me);
    }

    /** Typing in the input box. */
    method Type(text: string)
      modifies this
      ensures input == text && users == old(users) && selected == old(selected)
    {
      input := text;
    }

    /** Clicking a user in either list. */
    method Select(id: UserId)
      modifies this
      ensures selected == Some(id) && input == old(input) && users == old(users)
    {
      selected := Some(id);
    }

    /**
     * `handleSend`: a blank input or no selected user does nothing; otherwise
     * the untrimmed input goes to `sendMessage` for the selected user and the
     * input is cleared.
     */
    method HandleSend(client: SocketClient.Client, encrypt: string -> string, now: nat)
      modifies this, client
      ensures users == old(users) && selected == old(selected)
      ensures client.hasSocket == old(client.hasSocket)
      ensures AllWhitespace(old(input)) || selected.None? ==>
        input == old(input) && client.messages == old(client.messages) && client.sent == old(client.sent)
      ensures !AllWhitespace(old(input)) && selected.Some? ==>
        && input == ""
        && (client.hasSocket ==>
              && client.messages == old(client.messages)
                   + [SocketClient.ChatMessage(SocketClient.TempId(now), old(input), client.me, selected.value, now)]
              && client.sent == old(client.sent) + [SocketClient.Send(encrypt(old(input)), selected.value, client.me)])
        && (!client.hasSocket ==> client.messages == old(client.messages) && client.sent == old(client.sent))
    {
      TrimEmptyIffBlank(input);
      if Trim(input) != "" && selected.Some? {
        client.SendMessage(input, selected.value, encrypt, now);
        input := "";
      }
    }
  }
}
