/** Fragmentation of large messages in lib/udptransport.cc: whatever fragments are lost,
    repeated or reordered, only sent messages are ever delivered. */
module UdpFragments {
  import opened ReplicaLog
  import opened Bytes

  const MAX_UDP: nat := 15000

  function Min(a: nat, b: nat): nat {
    if a < b then a else b
  }

  // ----- The sender -----

  /** The fragment of a serialized message that begins at `start`. */
  function Fragment(id: nat, body: seq<byte>, start: nat): seq<byte>
    requires start <= |body|
  {
    Size(0) + Size(id) + Size(start) + Size(|body|) + body[start..start + Min(|body| - start, MAX_UDP)]
  }

  function FragmentsFrom(id: nat, body: seq<byte>, start: nat): seq<seq<byte>>
    decreases |body| - start
  {
    if start >= |body| then [] else [Fragment(id, body, start)] + FragmentsFrom(id, body, start + MAX_UDP)
  }

  /** The packets of SendMessageInternal. */
  function Packets(id: nat, m: Message): seq<seq<byte>> {
    if |Body(m)| <= MAX_UDP then [Body(m)] else FragmentsFrom(id, Body(m), 0)
  }

  method BuildFragment(id: nat, body: seq<byte>, start: nat) returns (packet: seq<byte>)
    requires start <= |body|
    ensures packet == Fragment(id, body, start)
  {
    var len := if |body| - start < MAX_UDP then |body| - start else MAX_UDP;
    packet := Size(0) + Size(id) + Size(start) + Size(|body|) + body[start..start + len];
  }

  method SendFragments(id: nat, body: seq<byte>) returns (packets: seq<seq<byte>>)
    requires |body| > MAX_UDP
    ensures packets == FragmentsFrom(id, body, 0)
    ensures |packets| == (|body| - 1) / MAX_UDP + 1
  {
    packets := [];
    CountFragments(id, body, 0);
    ghost var all := FragmentsFrom(id, body, 0);
    hide FragmentsFrom, Fragment;
    var start := 0;
    while start < |body|
      invariant 0 <= start
      invariant all == packets + FragmentsFrom(id, body, start)
      decreases |body| - start
    {
      var packet := BuildFragment(id, body, start);
      FragmentsFirst(id, body, start);
      MoveOver(packets, packet, FragmentsFrom(id, body, start + MAX_UDP));
      packets := packets + [packet];
      start := start + MAX_UDP;
    }
    FragmentsEnd(id, body, start);
    assert packets + [] == packets;
  }

  lemma MoveOver(packets: seq<seq<byte>>, packet: seq<byte>, rest: seq<seq<byte>>)
    ensures packets + ([packet] + rest) == (packets + [packet]) + rest
  {
  }

  lemma FragmentsEnd(id: nat, body: seq<byte>, start: nat)
    requires start >= |body|
    ensures FragmentsFrom(id, body, start) == []
  {
  }

  /** The loop emits as many fragments as announced. */
  lemma {:induction false} CountFragments(id: nat, body: seq<byte>, start: nat)
    requires start < |body|
    ensures |FragmentsFrom(id, body, start)| == (|body| - start - 1) / MAX_UDP + 1
    decreases |body| - start
  {
    if start + MAX_UDP < |body| {
      CountFragments(id, body, start + MAX_UDP);
    }
  }

  // ----- The receiver -----

  /** UDPTransportFragInfo: what has been put together for one sender; 0 for no message. */
  datatype FragInfo = FragInfo(msgId: nat, data: seq<byte>)

  /** The fragment branch of OnReadable. */
  function AddFragment(info: FragInfo, id: nat, start: nat, len: nat, payload: seq<byte>): (FragInfo, Option<Message>) {
    var current := if info.msgId == 0 || info.msgId != id then FragInfo(id, []) else info;
    if start != |current.data| then (current, None)
    else
      var data := current.data + payload;
      if |data| == len then (FragInfo(0, []), DecodeBody(data, false)) else (FragInfo(id, data), None)
  }

  /** A packet from one sender, in a program built without assertions.  None stands for nothing
      to deliver; so it does where the source would read behind the packet. */
  function Receive(info: FragInfo, packet: seq<byte>): (FragInfo, Option<Message>) {
    if |packet| < 8 then (info, None)
    else if Unword(packet[..8]) != 0 then (info, DecodeBody(packet, false))
    else if |packet| < 32 then (info, None)
    else AddFragment(info, Unword(packet[8..16]), Unword(packet[16..24]), Unword(packet[24..32]), packet[32..])
  }

  class Transport {
    var fragInfo: map<nat, FragInfo>

    constructor ()
      ensures fragInfo == map[]
    {
      fragInfo := map[];
    }

    function Info(sender: nat): FragInfo
      reads this
    {
      if sender in fragInfo then fragInfo[sender] else FragInfo(0, [])
    }

    /** OnReadable, for one packet. */
    method OnPacket(sender: nat, packet: seq<byte>) returns (delivered: Option<Message>)
      modifies this
      ensures (Info(sender), delivered) == Receive(old(Info(sender)), packet)
      ensures forall s :: s != sender ==> Info(s) == old(Info(s))
    {
      if |packet| < 8 {
        return None;
      }
      if Unword(packet[..8]) != 0 {
        return DecodeBody(packet, false);
      }
      if |packet| < 32 {
        return None;
      }
      var id, start, len := Unword(packet[8..16]), Unword(packet[16..24]), Unword(packet[24..32]);
      var info := Info(sender);
      if info.msgId == 0 {
        info := FragInfo(id, []);
      }
      if info.msgId != id {
        info := FragInfo(id, []);
      }
      delivered := None;
      if start == |info.data| {
        info := info.(data := info.data + packet[32..]);
        if |info.data| == len {
          delivered := DecodeBody(info.data, false);
          info := FragInfo(0, []);
        }
      }
      fragInfo := fragInfo[sender := info];
    }
  }

  // ----- Reassembly -----

  /** Messages that can be sent: a named type, and words that hold the lengths. */
  ghost predicate Sendable(m: Message) {
    m.kind != [] && |Body(m)| < MAX_SIZE
  }

  /** What one sender has sent: large messages by their id, and small ones. */
  datatype Sent = Sent(large: map<nat, Message>, small: set<Message>)

  ghost predicate SentOk(sent: Sent) {
    && (forall id :: id in sent.large ==>
          0 < id < MAX_SIZE && Sendable(sent.large[id]) && |Body(sent.large[id])| > MAX_UDP)
    && (forall m :: m in sent.small ==> Sendable(m) && |Body(m)| <= MAX_UDP)
  }

  /** A packet of one of the sent messages. */
  ghost predicate WasSent(sent: Sent, packet: seq<byte>) {
    || (exists m :: m in sent.small && packet == Body(m))
    || (exists id, start :: id in sent.large && 0 <= start < |Body(sent.large[id])| && start % MAX_UDP == 0
                            && packet == Fragment(id, Body(sent.large[id]), start))
  }

  /** The buffered data is a beginning of a sent message, and not all of it. */
  ghost predicate InfoOk(sent: Sent, info: FragInfo) {
    info.msgId != 0 ==>
      && info.msgId in sent.large
      && info.data <= Body(sent.large[info.msgId]) && |info.data| < |Body(sent.large[info.msgId])|
  }

  lemma FragmentParts(id: nat, body: seq<byte>, start: nat)
    requires start < |body| < MAX_SIZE && id < MAX_SIZE
    ensures
      var p := Fragment(id, body, start);
      && |p| == 32 + Min(|body| - start, MAX_UDP)
      && Unword(p[..8]) == 0 && Unword(p[8..16]) == id && Unword(p[16..24]) == start && Unword(p[24..32]) == |body|
      && p[32..] == body[start..start + Min(|body| - start, MAX_UDP)]
  {
    UnwordSize(0);
    UnwordSize(id);
    UnwordSize(start);
    UnwordSize(|body|);
    var p := Fragment(id, body, start);
    assert p[..8] == Size(0) && p[8..16] == Size(id) && p[16..24] == Size(start) && p[24..32] == Size(|body|);
  }

  ghost function Payload(body: seq<byte>, start: nat): seq<byte>
    requires start <= |body|
  {
    body[start..start + Min(|body| - start, MAX_UDP)]
  }

  lemma ReceiveIsAdd(info: FragInfo, id: nat, body: seq<byte>, start: nat)
    requires start < |body| < MAX_SIZE && id < MAX_SIZE
    ensures Receive(info, Fragment(id, body, start)) == AddFragment(info, id, start, |body|, Payload(body, start))
  {
    FragmentParts(id, body, start);
    hide Fragment, Unword, AddFragment;
  }

  /** The data up to `start`, extended by the fragment there. */
  lemma Extended(body: seq<byte>, start: nat, data: seq<byte>)
    requires start < |body| && data <= body && |data| == start
    ensures
      var longer := data + Payload(body, start);
      && |longer| == start + Min(|body| - start, MAX_UDP) <= |body| && longer == body[..|longer|]
      && (|longer| == |body| ==> longer == body)
  {
  }

  /** A fragment that fits extends the data; one that completes it delivers the message. */
  lemma ReceiveFragment(sent: Sent, info: FragInfo, id: nat, start: nat)
    requires SentOk(sent) && InfoOk(sent, info) && id in sent.large && start < |Body(sent.large[id])|
    ensures
      var (next, delivered) := Receive(info, Fragment(id, Body(sent.large[id]), start));
      InfoOk(sent, next) && (delivered.Some? ==> delivered.value == sent.large[id])
  {
    var m := sent.large[id];
    var body := Body(m);
    DecodeBodyBody(m, false);
    hide Receive, Fragment, Unword, Body, DecodeBody, Payload;
    ReceiveIsAdd(info, id, body, start);
    var current := if info.msgId == 0 || info.msgId != id then FragInfo(id, []) else info;
    assert current.data <= body;
    if start == |current.data| {
      Extended(body, start, current.data);
    }
  }

  lemma ReceiveSmall(sent: Sent, info: FragInfo, m: Message)
    requires SentOk(sent) && m in sent.small
    ensures Receive(info, Body(m)) == (info, Some(m))
  {
    BodyParts(m);
    UnwordSize(|m.kind|);
    DecodeBodyBody(m, false);
    hide Body, DecodeBody, Unword;
  }

  function ReceiveAll(info: FragInfo, packets: seq<seq<byte>>): (FragInfo, seq<Message>)
    decreases |packets|
  {
    if packets == [] then (info, [])
    else
      var (next, delivered) := Receive(info, packets[0]);
      var (last, more) := ReceiveAll(next, packets[1..]);
      (last, (if delivered.Some? then [delivered.value] else []) + more)
  }

  ghost predicate Delivers(sent: Sent, m: Message) {
    m in sent.small || exists id :: id in sent.large && sent.large[id] == m
  }

  /** Safety: for any sequence of sent packets, with losses, repetitions and in any order, the
      buffer always holds a proper beginning of one sent message, and every message delivered
      was sent. */
  lemma {:induction false} OnlySentIsDelivered(sent: Sent, info: FragInfo, packets: seq<seq<byte>>)
    requires SentOk(sent) && InfoOk(sent, info)
    requires forall i :: 0 <= i < |packets| ==> WasSent(sent, packets[i])
    ensures InfoOk(sent, ReceiveAll(info, packets).0)
    ensures forall m :: m in ReceiveAll(info, packets).1 ==> Delivers(sent, m)
    decreases |packets|
  {
    if packets != [] {
      assert WasSent(sent, packets[0]);
      ReceiveSent(sent, info, packets[0]);
      hide Receive, WasSent, InfoOk;
      assert forall i :: 0 <= i < |packets[1..]| ==> packets[1..][i] == packets[i + 1];
      OnlySentIsDelivered(sent, Receive(info, packets[0]).0, packets[1..]);
    }
  }

  lemma ReceiveSent(sent: Sent, info: FragInfo, packet: seq<byte>)
    requires SentOk(sent) && InfoOk(sent, info) && WasSent(sent, packet)
    ensures
      var (next, delivered) := Receive(info, packet);
      InfoOk(sent, next) && (delivered.Some? ==> Delivers(sent, delivered.value))
  {
    if m :| m in sent.small && packet == Body(m) {
      ReceiveSmall(sent, info, m);
    } else {
      var id, start :| id in sent.large && 0 <= start < |Body(sent.large[id])| && start % MAX_UDP == 0
                       && packet == Fragment(id, Body(sent.large[id]), start);
      ReceiveFragment(sent, info, id, start);
    }
  }

  // ----- In-order delivery -----

  /** From the point the buffer has reached, the remaining fragments complete the message. */
  lemma {:induction false} RestInOrder(id: nat, m: Message, start: nat, info: FragInfo)
    requires 0 < id < MAX_SIZE && Sendable(m) && start < |Body(m)| && start % MAX_UDP == 0
    requires if start == 0 then info.msgId != id || info.data == []
             else info == FragInfo(id, Body(m)[..start])
    ensures ReceiveAll(info, FragmentsFrom(id, Body(m), start)) == (FragInfo(0, []), [m])
    decreases |Body(m)| - start
  {
    var body := Body(m);
    DecodeBodyBody(m, false);
    hide *;
    ReceiveIsAdd(info, id, body, start);
    NextInOrder(info, id, m, body, start);
    FragmentsFirst(id, body, start);
    var packet, rest := Fragment(id, body, start), FragmentsFrom(id, body, start + MAX_UDP);
    ReceiveFirst(info, packet, rest);
    if start + MAX_UDP < |body| {
      NextStart(start);
      RestInOrder(id, m, start + MAX_UDP, Receive(info, packet).0);
      assert [] + [m] == [m];
    } else {
      ReceiveNothing(FragInfo(0, []));
      assert rest == [];
      assert [m] + [] == [m];
    }
  }

  lemma NextStart(start: nat)
    requires start % MAX_UDP == 0
    ensures (start + MAX_UDP) % MAX_UDP == 0
  {
  }

  lemma FragmentsFirst(id: nat, body: seq<byte>, start: nat)
    requires start < |body|
    ensures FragmentsFrom(id, body, start) == [Fragment(id, body, start)] + FragmentsFrom(id, body, start + MAX_UDP)
    ensures start + MAX_UDP >= |body| ==> FragmentsFrom(id, body, start + MAX_UDP) == []
  {
  }

  lemma ReceiveNothing(info: FragInfo)
    ensures ReceiveAll(info, []) == (info, [])
  {
  }

  lemma ReceiveFirst(info: FragInfo, packet: seq<byte>, rest: seq<seq<byte>>)
    ensures
      var (next, delivered) := Receive(info, packet);
      var (last, more) := ReceiveAll(next, rest);
      ReceiveAll(info, [packet] + rest) == (last, (if delivered.Some? then [delivered.value] else []) + more)
  {
    hide Receive;
    assert ([packet] + rest)[1..] == rest;
  }

  lemma NextInOrder(info: FragInfo, id: nat, m: Message, body: seq<byte>, start: nat)
    requires id > 0 && start < |body| && DecodeBody(body, false) == Some(m)
    requires if start == 0 then info.msgId != id || info.data == []
             else info == FragInfo(id, body[..start])
    ensures AddFragment(info, id, start, |body|, Payload(body, start)) ==
              if start + MAX_UDP < |body| then (FragInfo(id, body[..start + MAX_UDP]), None)
              else (FragInfo(0, []), Some(m))
  {
    var current := if info.msgId == 0 || info.msgId != id then FragInfo(id, []) else info;
    assert body[..0] == [];
    assert current == FragInfo(id, body[..start]);
    Extended(body, start, current.data);
    hide DecodeBody, Payload;
  }

  /** Completeness: the packets of one message, received in order with nothing in between,
      deliver exactly that message and leave the buffer free, whatever it held of other
      messages before. */
  lemma InOrderDelivers(id: nat, m: Message, info: FragInfo)
    requires 0 < id < MAX_SIZE && Sendable(m)
    requires info.msgId != id
    ensures ReceiveAll(info, Packets(id, m)).1 == [m]
    ensures |Body(m)| > MAX_UDP ==> ReceiveAll(info, Packets(id, m)).0 == FragInfo(0, [])
  {
    if |Body(m)| > MAX_UDP {
      RestInOrder(id, m, 0, info);
    } else {
      ReceiveSmall(Sent(map[], {m}), info, m);
      assert [Body(m)][1..] == [];
    }
  }

  // ----- A program built with assertions -----

  /** The data after a fragment, if it is the next one. */
  function Extend(info: FragInfo, id: nat, start: nat, payload: seq<byte>): Option<seq<byte>> {
    var current := if info.msgId == 0 || info.msgId != id then FragInfo(id, []) else info;
    if start != |current.data| then None else Some(current.data + payload)
  }

  /** A difference of lengths is unsigned. */
  function Unsigned(n: int): nat {
    n % MAX_SIZE
  }

  /** A length as a C int. */
  function Int(n: nat): (r: int)
    ensures r <= n && (r == n <==> n < 0x8000_0000)
  {
    var low := n % 0x1_0000_0000;
    if low < 0x8000_0000 then low else low - 0x1_0000_0000
  }

  /** The assertions of DecodePacket, which compares lengths as C ints. */
  predicate DecodeAsserts(s: seq<byte>) {
    8 < Int(|s|)
    && var kindLen := Unword(s[..8]);
       16 + kindLen < Int(|s|)
       && var dataLen := Unword(s[8 + kindLen..16 + kindLen]);
          16 + kindLen + dataLen <= Int(|s|)
  }

  /** They hold of a message exactly if it has data and fewer than 2^31 bytes. */
  lemma DecodeAssertsBody(m: Message)
    requires |Body(m)| < MAX_SIZE
    ensures DecodeAsserts(Body(m)) <==> m.data != [] && |Body(m)| < 0x8000_0000
  {
    BodyParts(m);
    UnwordSize(|m.kind|);
    UnwordSize(|m.data|);
    hide Body, Size, Unword;
  }

  /** The assertions on a fragment. */
  predicate AssertsParts(info: FragInfo, id: nat, start: nat, len: nat, payload: seq<byte>) {
    && |payload| == Min(Unsigned(len - start), MAX_UDP)
    && (info.msgId == 0 || info.msgId == id || id > info.msgId)
    && var data := Extend(info, id, start, payload);
       data.Some? && |data.value| == len ==> DecodeAsserts(data.value)
  }

  /** All assertions of OnReadable hold for a packet. */
  predicate Asserts(info: FragInfo, packet: seq<byte>) {
    if |packet| < 8 then false
    else if Unword(packet[..8]) != 0 then DecodeAsserts(packet)
    else
      && |packet| > 32
      && AssertsParts(info, Unword(packet[8..16]), Unword(packet[16..24]), Unword(packet[24..32]), packet[32..])
  }

  /** Exactly which sent packets pass the assertions: a small message with data; and a fragment
      that is not of an older message than the one being put together, and does not complete a
      message without data or of 2^31 bytes or more. */
  lemma AssertsSmall(sent: Sent, info: FragInfo, m: Message)
    requires SentOk(sent) && m in sent.small
    ensures Asserts(info, Body(m)) <==> m.data != []
  {
    BodyParts(m);
    UnwordSize(|m.kind|);
    DecodeAssertsBody(m);
    hide Body, DecodeAsserts, Unword;
  }

  lemma AssertsFragment(sent: Sent, info: FragInfo, id: nat, start: nat)
    requires SentOk(sent) && InfoOk(sent, info) && id in sent.large
    requires start < |Body(sent.large[id])| && start % MAX_UDP == 0
    ensures
      var m := sent.large[id];
      var data := Extend(info, id, start, Payload(Body(m), start));
      Asserts(info, Fragment(id, Body(m), start)) <==>
        && (info.msgId == 0 || id >= info.msgId)
        && (data.Some? && |data.value| == |Body(m)| ==> m.data != [] && |Body(m)| < 0x8000_0000)
  {
    var m := sent.large[id];
    var body := Body(m);
    FragmentParts(id, body, start);
    SamePayload(body, start);
    hide Fragment, Unword, DecodeAsserts, Body, Payload, AssertsParts, Extend;
    assert Asserts(info, Fragment(id, body, start)) <==> AssertsParts(info, id, start, |body|, Payload(body, start));
    AssertsNext(sent, info, id, start);
  }

  lemma AssertsNext(sent: Sent, info: FragInfo, id: nat, start: nat)
    requires SentOk(sent) && InfoOk(sent, info) && id in sent.large && start < |Body(sent.large[id])|
    ensures
      var m := sent.large[id];
      var data := Extend(info, id, start, Payload(Body(m), start));
      AssertsParts(info, id, start, |Body(m)|, Payload(Body(m), start)) <==>
        && (info.msgId == 0 || id >= info.msgId)
        && (data.Some? && |data.value| == |Body(m)| ==> m.data != [] && |Body(m)| < 0x8000_0000)
  {
    var m := sent.large[id];
    var body := Body(m);
    SamePayload(body, start);
    DecodeAssertsBody(m);
    UnsignedSame(|body| - start);
    hide DecodeAsserts, Body, Payload, Unsigned, Min;
    var current := if info.msgId == 0 || info.msgId != id then FragInfo(id, []) else info;
    assert current.data <= body;
    if start == |current.data| {
      Extended(body, start, current.data);
    }
  }

  lemma UnsignedSame(n: int)
    requires 0 <= n < MAX_SIZE
    ensures Unsigned(n) == n
  {
  }

  lemma SamePayload(body: seq<byte>, start: nat)
    requires start < |body|
    ensures Payload(body, start) == body[start..start + Min(|body| - start, MAX_UDP)]
    ensures |Payload(body, start)| == Min(|body| - start, MAX_UDP) > 0
  {
  }
}
