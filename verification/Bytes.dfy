/** Machine words in memory, least significant byte first, and the message layout that both
    transports share. */
module Bytes {
  import opened ReplicaLog

  type byte = x: int | 0 <= x < 256

  function Power(k: nat): nat {
    if k == 0 then 1 else 256 * Power(k - 1)
  }

  /** The `k` bytes of a word. */
  function Word(n: nat, k: nat): (s: seq<byte>)
    ensures |s| == k
  {
    if k == 0 then [] else [n % 256] + Word(n / 256, k - 1)
  }

  function Unword(s: seq<byte>): nat {
    if s == [] then 0 else s[0] + 256 * Unword(s[1..])
  }

  lemma {:induction false} UnwordWord(n: nat, k: nat)
    requires n < Power(k)
    ensures Unword(Word(n, k)) == n
    decreases k
  {
    if k > 0 {
      assert n / 256 < Power(k - 1);
      UnwordWord(n / 256, k - 1);
      assert Word(n, k)[1..] == Word(n / 256, k - 1);
    }
  }

  /** A size_t. */
  function Size(n: nat): (s: seq<byte>)
    ensures |s| == 8
  {
    Word(n, 8)
  }

  const MAX_SIZE: nat := 0x1_0000_0000_0000_0000

  lemma UnwordSize(n: nat)
    requires n < MAX_SIZE
    ensures Unword(Size(n)) == n
  {
    assert Power(8) == MAX_SIZE by {
      assert Power(1) == 0x100 && Power(2) == 0x1_0000 && Power(3) == 0x100_0000 && Power(4) == 0x1_0000_0000;
      assert Power(5) == 0x100_0000_0000 && Power(6) == 0x1_0000_0000_0000 && Power(7) == 0x100_0000_0000_0000;
    }
    UnwordWord(n, 8);
  }

  /** A message as the transports see it: its type name and its serialized form. */
  datatype Message = Message(kind: seq<byte>, data: seq<byte>)

  /** SerializeMessage of lib/udptransport.cc, and the end of a frame of lib/tcptransport.cc. */
  function Body(m: Message): (s: seq<byte>)
    ensures |s| == |m.kind| + |m.data| + 16
  {
    Size(|m.kind|) + m.kind + Size(|m.data|) + m.data
  }

  /** DecodePacket.  None where it would read behind the packet or, if `strict`, where one of its
      assertions fails: built without assertions, it also accepts a message without data.  Bytes
      behind the message are ignored. */
  function DecodeBody(s: seq<byte>, strict: bool): Option<Message> {
    if |s| < 8 then None
    else
      var kindLen := Unword(s[..8]);
      if 16 + kindLen > |s| || (strict && 16 + kindLen == |s|) then None
      else
        var dataLen := Unword(s[8 + kindLen..16 + kindLen]);
        if 16 + kindLen + dataLen > |s| then None
        else Some(Message(s[8..8 + kindLen], s[16 + kindLen..16 + kindLen + dataLen]))
  }

  lemma BodyParts(m: Message)
    ensures
      var s, k := Body(m), |m.kind|;
      && s[..8] == Size(k) && s[8..8 + k] == m.kind
      && s[8 + k..16 + k] == Size(|m.data|) && s[16 + k..16 + k + |m.data|] == m.data
  {
  }

  /** Decoding undoes the layout; the assertions demand that there be some data. */
  lemma DecodeBodyBody(m: Message, strict: bool)
    requires |m.kind| < MAX_SIZE && |m.data| < MAX_SIZE
    ensures DecodeBody(Body(m), strict) == if strict && m.data == [] then None else Some(m)
  {
    BodyParts(m);
    UnwordSize(|m.kind|);
    UnwordSize(|m.data|);
    var s, k := Body(m), |m.kind|;
    assert |s| == 16 + k + |m.data| && s[16 + k..|s|] == m.data;
    hide Body, Size, Unword;
  }
}
