/**
 * The socket server of the chat: the admission gate that checks the
 * handshake token, the registry of connected users (a `Map` from user id to
 * presence entry, broadcast to everyone after each change), and the handlers
 * a connected socket answers: `get_messages` (history), `message`
 * (store, push to the recipient if online, echo to the sender) and
 * `disconnect`.
 *
 * The message collection is an append-only sequence whose ids are positions;
 * what sockets are sent is an append-only log of emissions. Each handler is
 * one atomic step. Token verification, the clock and the database's
 * willingness to save are parameters.
 */
module Relay {
  import opened Wrappers
  import opened JsStrings
  import OrderedMap
  import Sorting
  import Sequences
  import opened Identifiers

  type SocketId = string

  /** The claims of a verified token: `socket.user`. */
  datatype Identity = Identity(id: UserId, name: string, email: string)

  /** A value of `connectedUsers`. */
  datatype PresenceEntry = PresenceEntry(id: UserId, name: string, email: string, socketId: SocketId)

  /** A saved message document; `id` stands for the generated `_id`. */
  datatype StoredMessage = StoredMessage(id: nat, content: string, senderId: UserId, recipientId: UserId, timestamp: nat)

  /** The payload of an inbound `message` event; each field may be missing. */
  datatype Submission = Submission(content: Option<string>, recipientId: Option<UserId>, senderId: Option<UserId>)

  datatype Event =
    | Users(list: seq<PresenceEntry>)
    | Pushed(message: StoredMessage)
    | ExistingMessages(messages: seq<StoredMessage>)
    | FetchFailed

  /** `io.emit` reaches every socket; `socket.emit` and `io.to(id).emit` reach one. */
  datatype Target = Everyone | Socket(id: SocketId)

  datatype Emission = Emission(target: Target, event: Event)

  datatype AuthError = NoToken | InvalidToken

  /** An admitted socket: its id and the identity the gate attached to it. */
  datatype Session = Session(socketId: SocketId, user: Identity)

  datatype SubmitOutcome =
    | Invalid
    | SaveFailed
    | Relayed(message: StoredMessage, pushedTo: Option<SocketId>)

  /** The admission gate: a missing token and a token the verifier rejects refuse the socket. */
  function Authenticate(token: Option<string>, verify: string -> Option<Identity>): (r: Result<Identity, AuthError>)
    ensures r == Err(NoToken) <==> !Truthy(token)
    ensures r == Err(InvalidToken) <==> Truthy(token) && verify(token.value).None?
    ensures r.Ok? ==> Truthy(token) && verify(token.value) == Some(r.value)
  {
    if !Truthy(token) then Err(NoToken)
    else match verify(token.value)
      case None => Err(InvalidToken)
      case Some(user) => Ok(user)
  }

  type Presence = OrderedMap.Entries<UserId, PresenceEntry>

  /** One entry per user, stored under that user's id. */
  predicate PresenceConsistent(m: Presence) {
    OrderedMap.KeysDistinct(m) && forall i :: 0 <= i < |m| ==> m[i].1.id == m[i].0
  }

  /** `list.find(user => user.id === id)`. */
  function FindById(list: seq<PresenceEntry>, id: UserId): (r: Option<PresenceEntry>)
    ensures r.Some? ==> r.value in list && r.value.id == id
    ensures r.None? <==> forall i :: 0 <= i < |list| ==> list[i].id != id
  {
    if list == [] then None
    else if list[0].id == id then Some(list[0])
    else FindById(list[1..], id)
  }

  /** Searching the broadcast list by id finds exactly the registry's entry for that key. */
  lemma {:induction false} FindByIdIsLookup(m: Presence, id: UserId)
    requires PresenceConsistent(m)
    ensures FindById(OrderedMap.Values(m), id) == OrderedMap.Get(m, id)
  {
    if m != [] {
      assert OrderedMap.Values(m)[1..] == OrderedMap.Values(m[1..]);
      assert PresenceConsistent(m[1..]);
      FindByIdIsLookup(m[1..], id);
      if m[0].0 != id {
        assert OrderedMap.IndexOfKey(m, id) == match OrderedMap.IndexOfKey(m[1..], id)
          case None => None
          case Some(i) => Some(i + 1);
      }
    }
  }

  /** Connecting keeps one entry per user, under its own id. */
  lemma ConnectKeepsPresenceConsistent(m: Presence, e: PresenceEntry)
    requires PresenceConsistent(m)
    ensures PresenceConsistent(OrderedMap.Set(m, e.id, e))
  {
    var r := OrderedMap.Set(m, e.id, e);
    if !OrderedMap.HasKey(m, e.id) {
      assert r == m + [(e.id, e)];
    }
  }

  /** Disconnecting keeps one entry per user, under its own id. */
  lemma DisconnectKeepsPresenceConsistent(m: Presence, id: UserId)
    requires PresenceConsistent(m)
    ensures PresenceConsistent(OrderedMap.Delete(m, id))
  {
    var r := OrderedMap.Delete(m, id);
    if OrderedMap.HasKey(m, id) {
      var i :| 0 <= i < |m| && m[i].0 == id && r == m[..i] + m[i + 1..];
      forall j | 0 <= j < |r| ensures r[j].1.id == r[j].0 {
        if j < i { assert r[j] == m[j]; } else { assert r[j] == m[j + 1]; }
      }
    }
  }

  predicate Participates(m: StoredMessage, user: UserId) {
    m.senderId == user || m.recipientId == user
  }

  /** `Message.find({$or: [{senderId: user}, {recipientId: user}]})`: each of the user's messages once, in collection order. */
  function ByParticipant(store: seq<StoredMessage>, user: UserId): (r: seq<StoredMessage>)
    ensures forall m :: m in r <==> m in store && Participates(m, user)
    ensures forall m :: multiset(r)[m] == if Participates(m, user) then multiset(store)[m] else 0
    ensures Sequences.IsSubsequence(r, store)
  {
    Sequences.Filter(store, (m: StoredMessage) => Participates(m, user))
  }

  function Timestamp(m: StoredMessage): nat {
    m.timestamp
  }

  /** The history a user receives: every stored message they sent or received, by ascending timestamp. */
  function History(store: seq<StoredMessage>, user: UserId): (r: seq<StoredMessage>)
    ensures Sorting.SortedBy(r, Timestamp)
    ensures multiset(r) == multiset(ByParticipant(store, user))
    ensures forall m :: m in r <==> m in store && Participates(m, user)
  {
    var r := Sorting.SortBy(ByParticipant(store, user), Timestamp);
    assert forall m :: m in r <==> m in multiset(r);
    r
  }

  /** A message reaches both its sender's and its recipient's history. */
  lemma StoredMessageInBothHistories(store: seq<StoredMessage>, i: nat)
    requires i < |store|
    ensures store[i] in History(store, store[i].senderId)
    ensures store[i] in History(store, store[i].recipientId)
  {
  }

  /** When the clock never ran backwards, the history is the collection order itself. */
  lemma HistoryOfOrderedStore(store: seq<StoredMessage>, user: UserId)
    requires Sorting.SortedBy(store, Timestamp)
    ensures History(store, user) == ByParticipant(store, user)
  {
    ByParticipantKeepsOrder(store, user);
    Sorting.SortBySortedUnchanged(ByParticipant(store, user), Timestamp);
  }

  /** The participant query keeps the collection's timestamp order. */
  lemma ByParticipantKeepsOrder(store: seq<StoredMessage>, user: UserId)
    requires Sorting.SortedBy(store, Timestamp)
    ensures Sorting.SortedBy(ByParticipant(store, user), Timestamp)
  {
    Sorting.SubsequenceKeepsSorted(ByParticipant(store, user), store, Timestamp);
  }

  /** Every stored message's id is its position: ids are unique. */
  predicate IdsArePositions(store: seq<StoredMessage>) {
    forall i :: 0 <= i < |store| ==> store[i].id == i
  }

  /** Store-and-forward: every message a socket was sent is in the collection. */
  predicate SentOnlyPersisted(emitted: seq<Emission>, store: seq<StoredMessage>) {
    forall k :: 0 <= k < |emitted| ==>
      (emitted[k].event.Pushed? ==> emitted[k].event.message in store)
      && (emitted[k].event.ExistingMessages? ==> forall m :: m in emitted[k].event.messages ==> m in store)
  }

  lemma SentOnlyPersistedAfterSave(emitted: seq<Emission>, store: seq<StoredMessage>, m: StoredMessage)
    requires SentOnlyPersisted(emitted, store)
    ensures SentOnlyPersisted(emitted, store + [m])
  {
    forall k | 0 <= k < |emitted| && emitted[k].event.ExistingMessages?
      ensures forall x :: x in emitted[k].event.messages ==> x in store + [m]
    {
    }
  }

  lemma SentOnlyPersistedAfterPush(emitted: seq<Emission>, store: seq<StoredMessage>, e: Emission)
    requires SentOnlyPersisted(emitted, store)
    requires e.event.Pushed? && e.event.message in store
    ensures SentOnlyPersisted(emitted + [e], store)
  {
  }

  /** The server's shared state. */
  class Server {
    var connectedUsers: Presence
    var messageStore: seq<StoredMessage>
    var emitted: seq<Emission>

    ghost predicate Valid()
      reads this
    {
      && PresenceConsistent(connectedUsers)
      && IdsArePositions(messageStore)
      && SentOnlyPersisted(emitted, messageStore)
    }

    /** The list broadcast as `users`: `Array.from(connectedUsers.values())`. */
    function Online(): seq<PresenceEntry>
      reads this
    {
      OrderedMap.Values(connectedUsers)
    }

    constructor ()
      ensures Valid()
      ensures connectedUsers == [] && messageStore == [] && emitted == []
    {
      connectedUsers, messageStore, emitted := [], [], [];
    }

    /**
     * A socket opens with a handshake token. A refused socket changes
     * nothing. An admitted one sets its user's entry (replacing the entry of
     * an earlier socket of the same user where it stands) and the new list
     * is broadcast.
     */
    method Connect(socketId: SocketId, token: Option<string>, verify: string -> Option<Identity>)
      returns (r: Result<Session, AuthError>)
      requires Valid()
      modifies this
      ensures Valid()
      ensures messageStore == old(messageStore)
      ensures Authenticate(token, verify).Err? ==>
        r == Err(Authenticate(token, verify).error) && connectedUsers == old(connectedUsers) && emitted == old(emitted)
      ensures Authenticate(token, verify).Ok? ==>
        var user := Authenticate(token, verify).value;
        var entry := PresenceEntry(user.id, user.name, user.email, socketId);
        && r == Ok(Session(socketId, user))
        && connectedUsers == OrderedMap.Set(old(connectedUsers), user.id, entry)
        && OrderedMap.Get(connectedUsers, user.id) == Some(entry)
        && (forall id :: id != user.id ==> OrderedMap.Get(connectedUsers, id) == OrderedMap.Get(old(connectedUsers), id))
        && emitted == old(emitted) + [Emission(Everyone, Users(Online()))]
    {
      match Authenticate(token, verify)
      case Err(e) =>
        r := Err(e);
      case Ok(user) =>
        var entry := PresenceEntry(user.id, user.name, user.email, socketId);
        ConnectKeepsPresenceConsistent(connectedUsers, entry);
        connectedUsers := OrderedMap.Set(connectedUsers, user.id, entry);
        emitted := emitted + [Emission(Everyone, Users(Online()))];
        r := Ok(Session(socketId, user));
    }

    /** `get_messages`: the session's user receives their history, or an error event when the query fails. */
    method GetMessages(session: Session, queryOk: bool)
      requires Valid()
      modifies this
      ensures Valid()
      ensures connectedUsers == old(connectedUsers) && messageStore == old(messageStore)
      ensures emitted == old(emitted) + [Emission(Socket(session.socketId),
        if queryOk then ExistingMessages(History(messageStore, session.user.id)) else FetchFailed)]
    {
      var reply := if queryOk then ExistingMessages(History(messageStore, session.user.id)) else FetchFailed;
      emitted := emitted + [Emission(Socket(session.socketId), reply)];
    }

    /**
     * `message`: a payload without content or recipient is dropped; one the
     * database refuses (a missing sender is refused by the schema) is dropped
     * after validation; otherwise the message is saved with the sender the
     * payload names, pushed to the recipient's socket when the recipient is
     * connected, and echoed to the submitting socket. Dropped payloads are
     * only logged: nobody is told.
     */
    method OnMessage(session: Session, data: Submission, now: nat, storeAccepts: bool) returns (outcome: SubmitOutcome)
      requires Valid()
      modifies this
      ensures Valid()
      ensures connectedUsers == old(connectedUsers)
      ensures outcome == Invalid <==> !Truthy(data.content) || !Truthy(data.recipientId)
      ensures outcome == SaveFailed <==>
        Truthy(data.content) && Truthy(data.recipientId) && (!storeAccepts || !Truthy(data.senderId))
      ensures !outcome.Relayed? ==> messageStore == old(messageStore) && emitted == old(emitted)
      ensures outcome.Relayed? ==>
        var m := outcome.message;
        var recipient := OrderedMap.Get(connectedUsers, m.recipientId);
        && m == StoredMessage(|old(messageStore)|, data.content.value, data.senderId.value, data.recipientId.value, now)
        && messageStore == old(messageStore) + [m]
        && outcome.pushedTo == (if recipient.Some? then Some(recipient.value.socketId) else None)
        && emitted == old(emitted)
             + (if recipient.Some? then [Emission(Socket(recipient.value.socketId), Pushed(m))] else [])
             + [Emission(Socket(session.socketId), Pushed(m))]
    {
      if !Truthy(data.content) || !Truthy(data.recipientId) {
        return Invalid;
      }
      if !storeAccepts || !Truthy(data.senderId) {
        return SaveFailed;
      }
      var m := StoredMessage(|messageStore|, data.content.value, data.senderId.value, data.recipientId.value, now);
      SentOnlyPersistedAfterSave(emitted, messageStore, m);
      messageStore := messageStore + [m];
      assert m in messageStore;
      var recipient := FindById(Online(), data.recipientId.value);
      FindByIdIsLookup(connectedUsers, data.recipientId.value);
      var pushedTo := None;
      if recipient.Some? {
        SentOnlyPersistedAfterPush(emitted, messageStore, Emission(Socket(recipient.value.socketId), Pushed(m)));
        emitted := emitted + [Emission(Socket(recipient.value.socketId), Pushed(m))];
        pushedTo := Some(recipient.value.socketId);
      }
      SentOnlyPersistedAfterPush(emitted, messageStore, Emission(Socket(session.socketId), Pushed(m)));
      emitted := emitted + [Emission(Socket(session.socketId), Pushed(m))];
      outcome := Relayed(m, pushedTo);
    }

    /**
     * `disconnect`: the entry under the session user's id is deleted, even
     * when a later socket of the same user has replaced it, and the new list
     * is broadcast.
     */
    method Disconnect(session: Session)
      requires Valid()
      modifies this
      ensures Valid()
      ensures messageStore == old(messageStore)
      ensures connectedUsers == OrderedMap.Delete(old(connectedUsers), session.user.id)
      ensures !OrderedMap.HasKey(connectedUsers, session.user.id)
      ensures forall id :: id != session.user.id ==> OrderedMap.Get(connectedUsers, id) == OrderedMap.Get(old(connectedUsers), id)
      ensures emitted == old(emitted) + [Emission(Everyone, Users(Online()))]
    {
      DisconnectKeepsPresenceConsistent(connectedUsers, session.user.id);
      connectedUsers := OrderedMap.Delete(connectedUsers, session.user.id);
      emitted := emitted + [Emission(Everyone, Users(Online()))];
    }
  }

  /** A later socket's entry is lost when an earlier socket of the same user disconnects. */
  lemma StaleDisconnectDropsNewerSocket(m: Presence, first: PresenceEntry, second: PresenceEntry)
    requires PresenceConsistent(m) && first.id == second.id
    ensures var afterBoth := OrderedMap.Set(OrderedMap.Set(m, first.id, first), second.id, second);
            && OrderedMap.Get(afterBoth, first.id) == Some(second)
            && !OrderedMap.HasKey(OrderedMap.Delete(afterBoth, first.id), first.id)
  {
    ConnectKeepsPresenceConsistent(m, first);
    ConnectKeepsPresenceConsistent(OrderedMap.Set(m, first.id, first), second);
  }

  /**
   * Users "1" on socket "s1" and "2" on socket "s2" are connected: a message
   * from 1 to 2 is pushed to s2, then echoed to s1.
   */
  method OnlineDeliveryScenario(verify: string -> Option<Identity>, t1: string, t2: string)
    requires t1 != "" && t2 != ""
    requires verify(t1) == Some(Identity("1", "Ann", "ann@kiit.in"))
    requires verify(t2) == Some(Identity("2", "Bo", "bo@kiit.in"))
  {
    var server := new Server();
    var a := server.Connect("s1", Some(t1), verify);
    var b := server.Connect("s2", Some(t2), verify);
    assert OrderedMap.Get(server.connectedUsers, "2") == Some(PresenceEntry("2", "Bo", "bo@kiit.in", "s2"));
    var sent := server.OnMessage(a.value, Submission(Some("hi"), Some("2"), Some("1")), 10, true);
    assert sent.Relayed? && sent.pushedTo == Some("s2");
    var n := |server.emitted|;
    assert server.emitted[n - 2] == Emission(Socket("s2"), Pushed(sent.message));
    assert server.emitted[n - 1] == Emission(Socket("s1"), Pushed(sent.message));
  }

  /**
   * User "2" is not connected when "1" sends: the message is stored and only
   * echoed; when 2 connects and asks, the history it receives holds it.
   */
  method OfflineDeliveryScenario(verify: string -> Option<Identity>, t1: string, t2: string)
    requires t1 != "" && t2 != ""
    requires verify(t1) == Some(Identity("1", "Ann", "ann@kiit.in"))
    requires verify(t2) == Some(Identity("2", "Bo", "bo@kiit.in"))
  {
    var server := new Server();
    var a := server.Connect("s1", Some(t1), verify);
    assert !OrderedMap.HasKey(server.connectedUsers, "2");
    var sent := server.OnMessage(a.value, Submission(Some("later"), Some("2"), Some("1")), 20, true);
    assert sent.Relayed? && sent.pushedTo == None;
    var b := server.Connect("s2", Some(t2), verify);
    server.GetMessages(b.value, true);
    assert server.emitted[|server.emitted| - 1] == Emission(Socket("s2"), ExistingMessages(History(server.messageStore, "2")));
    assert sent.message in History(server.messageStore, "2");
  }
}
