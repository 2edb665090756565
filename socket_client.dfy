/**
 * The browser side of the socket: the provider's message list and what it
 * sends. Incoming `message` events are merged into the list (ignored when
 * the id is known, replacing the optimistic copy of a message this client
 * sent, or appended); `existing_messages` replaces the list;
 * `sendMessage` appends an optimistic copy with a `temp-` id and sends the
 * encrypted payload. Encryption and decryption are functions supplied by the
 * caller; a decryption that throws is `None`.
 */
module SocketClient {
  import opened Wrappers
  import opened JsStrings
  import Sorting
  import Sequences
  import opened Identifiers

  /** A message as the client holds it, with its content in clear. */
  datatype ChatMessage = ChatMessage(id: string, content: string, senderId: UserId, recipientId: UserId, timestamp: nat)

  /** What the client emits on its socket. */
  datatype Outbound = GetMessages | Send(content: string, recipientId: UserId, senderId: UserId)

  const TempMarker: string := "temp-"

  /** The id of an optimistic copy: `temp-${Date.now()}`. */
  function TempId(now: nat): (id: string)
    ensures |id| > |TempMarker| && id[..|TempMarker|] == TempMarker
    ensures DigitsValue(id[|TempMarker|..]) == now
    ensures Includes(id, TempMarker)
  {
    var id := TempMarker + DecimalString(now);
    PrefixIncluded(TempMarker, DecimalString(now));
    assert id[|TempMarker|..] == DecimalString(now);
    id
  }

  predicate HasId(list: seq<ChatMessage>, id: string) {
    exists i :: 0 <= i < |list| && list[i].id == id
  }

  /** `local` is an optimistic copy awaiting the server's copy `incoming`, whose clear content is `plain`. */
  predicate IsPendingCopy(local: ChatMessage, incoming: ChatMessage, plain: string) {
    && local.senderId == incoming.senderId
    && local.recipientId == incoming.recipientId
    && local.content == plain
    && Includes(local.id, TempMarker)
  }

  /** `prev.findIndex(...)`: the first optimistic copy of `incoming`. */
  function FindPending(list: seq<ChatMessage>, incoming: ChatMessage, plain: string): (r: Option<nat>)
    ensures r.Some? ==> r.value < |list| && IsPendingCopy(list[r.value], incoming, plain)
    ensures forall j :: 0 <= j < |list| && (r.None? || j < r.value) ==> !IsPendingCopy(list[j], incoming, plain)
  {
    if list == [] then None
    else if IsPendingCopy(list[0], incoming, plain) then Some(0)
    else match FindPending(list[1..], incoming, plain)
      case None => None
      case Some(j) => Some(j + 1)
  }

  /** The list updater of the `message` handler, once the content decrypted to `plain`. */
  function Merge(prev: seq<ChatMessage>, incoming: ChatMessage, plain: string): (r: seq<ChatMessage>)
    ensures HasId(prev, incoming.id) ==> r == prev
    ensures !HasId(prev, incoming.id) ==> HasId(r, incoming.id)
    ensures !HasId(prev, incoming.id) && (exists i :: 0 <= i < |prev| && IsPendingCopy(prev[i], incoming, plain)) ==>
      exists i :: && 0 <= i < |prev| && IsPendingCopy(prev[i], incoming, plain)
                  && (forall j :: 0 <= j < i ==> !IsPendingCopy(prev[j], incoming, plain))
                  && r == prev[i := incoming.(content := plain)]
    ensures !HasId(prev, incoming.id) && (forall i :: 0 <= i < |prev| ==> !IsPendingCopy(prev[i], incoming, plain)) ==>
      r == prev + [incoming.(content := plain)]
  {
    var received := incoming.(content := plain);
    if HasId(prev, incoming.id) then prev
    else match FindPending(prev, incoming, plain)
      case Some(i) =>
        var r := prev[i := received];
        assert r[i].id == incoming.id;
        r
      case None =>
        var r := prev + [received];
        assert r[|prev|].id == incoming.id;
        r
  }

  /** The whole `message` handler: a content that fails to decrypt leaves the list alone. */
  function Receive(prev: seq<ChatMessage>, incoming: ChatMessage, decrypt: string -> Option<string>): (r: seq<ChatMessage>)
    ensures decrypt(incoming.content).None? || HasId(prev, incoming.id) ==> r == prev
    ensures decrypt(incoming.content).Some? ==> HasId(r, incoming.id)
    ensures |r| == |prev| || r == prev + [incoming.(content := decrypt(incoming.content).value)]
    ensures decrypt(incoming.content).Some? ==> r == Merge(prev, incoming, decrypt(incoming.content).value)
  {
    match decrypt(incoming.content)
    case None => prev
    case Some(plain) => Merge(prev, incoming, plain)
  }

  /** Receiving the same message twice leaves the list as receiving it once. */
  lemma ReceiveIdempotent(prev: seq<ChatMessage>, incoming: ChatMessage, decrypt: string -> Option<string>)
    ensures Receive(Receive(prev, incoming, decrypt), incoming, decrypt) == Receive(prev, incoming, decrypt)
  {
  }

  /** Replacing an optimistic copy touches that one entry: the length and every other entry stay. */
  lemma MergeReplacesOneEntry(prev: seq<ChatMessage>, incoming: ChatMessage, plain: string, i: nat)
    requires !HasId(prev, incoming.id)
    requires i < |prev| && IsPendingCopy(prev[i], incoming, plain)
    ensures |Merge(prev, incoming, plain)| == |prev|
    ensures exists k ::
      && 0 <= k <= i && Merge(prev, incoming, plain)[k] == incoming.(content := plain)
      && (forall j :: 0 <= j < |prev| && j != k ==> Merge(prev, incoming, plain)[j] == prev[j])
  {
  }

  /** `m` has a content that `decrypt` accepts. */
  predicate Decrypts(m: ChatMessage, decrypt: string -> Option<string>) {
    decrypt(m.content).Some?
  }

  /**
   * `messages.map(decrypt).filter(Boolean)`: the messages whose content
   * decrypts, in order, with their content in clear.
   */
  function DecryptAll(list: seq<ChatMessage>, decrypt: string -> Option<string>): (r: seq<ChatMessage>)
    ensures |r| <= |list|
    ensures forall m :: m in r <==>
      exists i :: 0 <= i < |list| && decrypt(list[i].content).Some? && m == list[i].(content := decrypt(list[i].content).value)
  {
    if list == [] then []
    else
      var rest := DecryptAll(list[1..], decrypt);
      assert forall i :: 0 < i < |list| ==> list[i] == list[1..][i - 1];
      match decrypt(list[0].content)
      case None => rest
      case Some(plain) => [list[0].(content := plain)] + rest
  }

  /** Decrypting keeps each decryptable message once and in order: it is the filter of those messages, shown in clear. */
  lemma {:induction false} DecryptAllIsFilterThenReveal(list: seq<ChatMessage>, decrypt: string -> Option<string>)
    ensures var kept := Sequences.Filter(list, (m: ChatMessage) => Decrypts(m, decrypt));
      && |DecryptAll(list, decrypt)| == |kept|
      && forall i :: 0 <= i < |kept| ==>
           Decrypts(kept[i], decrypt) && DecryptAll(list, decrypt)[i] == kept[i].(content := decrypt(kept[i].content).value)
  {
    if list != [] {
      DecryptAllIsFilterThenReveal(list[1..], decrypt);
      var keep := (m: ChatMessage) => Decrypts(m, decrypt);
      var kept := Sequences.Filter(list[1..], keep);
      var rest := DecryptAll(list[1..], decrypt);
      var all := Sequences.Filter(list, keep);
      var r := DecryptAll(list, decrypt);
      if Decrypts(list[0], decrypt) {
        assert all == [list[0]] + kept;
        assert r == [list[0].(content := decrypt(list[0].content).value)] + rest;
        forall i | 0 <= i < |all|
          ensures Decrypts(all[i], decrypt) && r[i] == all[i].(content := decrypt(all[i].content).value)
        {
          if i > 0 {
            assert all[i] == kept[i - 1] && r[i] == rest[i - 1];
          }
        }
      } else {
        assert all == kept && r == rest;
      }
    }
  }

  function Timestamp(m: ChatMessage): nat {
    m.timestamp
  }

  /** The list `existing_messages` installs: the messages that decrypt, by ascending timestamp. */
  function LoadHistory(list: seq<ChatMessage>, decrypt: string -> Option<string>): (r: seq<ChatMessage>)
    ensures Sorting.SortedBy(r, Timestamp)
    ensures multiset(r) == multiset(DecryptAll(list, decrypt))
    ensures |r| <= |list|
  {
    var r := Sorting.SortBy(DecryptAll(list, decrypt), Timestamp);
    assert |r| == |multiset(r)|;
    r
  }

  /**
   * The optimistic copy is what the server's echo replaces: after sending
   * `content`, the echo of the stored message (same sender, recipient and,
   * once decrypted, content) takes the copy's place, and the list has one
   * entry more than before the send.
   */
  lemma {:induction false} EchoReplacesOptimisticCopy(prev: seq<ChatMessage>, me: UserId, content: string,
                                                      recipientId: UserId, now: nat, echo: ChatMessage)
    requires echo.senderId == me && echo.recipientId == recipientId
    requires forall i :: 0 <= i < |prev| ==> !IsPendingCopy(prev[i], echo, content)
    requires !HasId(prev, echo.id) && echo.id != TempId(now)
    ensures var sent := prev + [ChatMessage(TempId(now), content, me, recipientId, now)];
            Merge(sent, echo, content) == prev + [echo.(content := content)]
  {
    var copy := ChatMessage(TempId(now), content, me, recipientId, now);
    var sent := prev + [copy];
    assert IsPendingCopy(sent[|prev|], echo, content);
    assert !HasId(sent, echo.id);
    assert FindPending(sent, echo, content) == Some(|prev|);
    assert sent[|prev| := echo.(content := content)] == prev + [echo.(content := content)];
  }

  /** The socket provider's state: whether a socket exists, the message list, and what was emitted. */
  class Client {
    const me: UserId
    var hasSocket: bool
    var messages: seq<ChatMessage>
    var sent: seq<Outbound>

    constructor (me: UserId)
      ensures this.me == me && !hasSocket && messages == [] && sent == []
    {
      this.me := me;
      hasSocket, messages, sent := false, [], [];
    }

    /** `setSocket(newSocket)` once the handlers are installed. */
    method AttachSocket()
      modifies this
      ensures hasSocket && messages == old(messages) && sent == old(sent)
    {
      hasSocket := true;
    }

    /** The `connect` and the `reconnect` handler: each asks for the history once. */
    method RequestHistory()
      modifies this
      ensures hasSocket == old(hasSocket) && messages == old(messages)
      ensures sent == old(sent) + [GetMessages]
    {
      sent := sent + [GetMessages];
    }

    /** The `message` handler. */
    method OnMessage(incoming: ChatMessage, decrypt: string -> Option<string>)
      modifies this
      ensures hasSocket == old(hasSocket) && sent == old(sent)
      ensures messages == Receive(old(messages), incoming, decrypt)
    {
      messages := Receive(messages, incoming, decrypt);
    }

    /** The `existing_messages` handler: the list is replaced. */
    method OnExistingMessages(list: seq<ChatMessage>, decrypt: string -> Option<string>)
      modifies this
      ensures hasSocket == old(hasSocket) && sent == old(sent)
      ensures messages == LoadHistory(list, decrypt)
    {
      messages := LoadHistory(list, decrypt);
    }

    /**
     * `sendMessage`: with a socket, one optimistic copy in clear with a
     * `temp-` id is appended and one encrypted payload is emitted; without a
     * socket nothing happens.
     */
    method SendMessage(content: string, recipientId: UserId, encrypt: string -> string, now: nat)
      modifies this
      ensures hasSocket == old(hasSocket)
      ensures !hasSocket ==> messages == old(messages) && sent == old(sent)
      ensures hasSocket ==>
        && messages == old(messages) + [ChatMessage(TempId(now), content, me, recipientId, now)]
        && sent == old(sent) + [Send(encrypt(content), recipientId, me)]
    {
      if hasSocket {
        var encrypted := encrypt(content);
        messages := messages + [ChatMessage(TempId(now), content, me, recipientId, now)];
        sent := sent + [Send(encrypted, recipientId, me)];
      }
    }
  }
}
