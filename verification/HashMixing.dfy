/** What the mixing of hashlittle does: it loses nothing, and it is the published function. */
module HashMixing {
  import opened Lookup3

  // ----- Words and their bits -----

  lemma Doubled(b: bv32)
    requires b < 0x8000_0000
    ensures (b << 1) as int == 2 * b as int && ((b << 1) | 1) as int == 2 * b as int + 1
  {
  }

  /** Every number up to `m` is a word of bits, for an `m` of the form 1...1. */
  lemma {:induction false} SomeBits(x: nat, m: bv32) returns (b: bv32)
    requires x <= m as int && m & (m + 1) == 0
    ensures b <= m && b as int == x
  {
    if x == 0 {
      b := 0;
    } else {
      var half := m >> 1;
      AllOnes(m);
      Doubled(half);
      var b' := SomeBits(x / 2, half);
      BelowOnes(b', half);
      Doubled(b');
      b := if x % 2 == 0 then b' << 1 else (b' << 1) | 1;
    }
  }

  lemma AllOnes(m: bv32)
    requires m & (m + 1) == 0 && m as int > 0
    ensures var half := m >> 1; m == (half << 1) | 1 && half & (half + 1) == 0 && half < 0x8000_0000
  {
  }

  lemma BelowOnes(b: bv32, half: bv32)
    requires b <= half && half < 0x8000_0000
    ensures b < 0x8000_0000 && b << 1 <= (half << 1) | 1 && (b << 1) | 1 <= (half << 1) | 1
  {
  }

  lemma BitsOfNumber(b: bv32)
    ensures (b as int) as bv32 == b
  {
  }

  lemma NumberOfBits(x: uint32)
    ensures (x as bv32) as int == x
  {
    var b := SomeBits(x, 0xffff_ffff);
    BitsOfNumber(b);
  }

  function Bits(x: uint32): bv32 {
    x as bv32
  }

  function Number(b: bv32): uint32 {
    b as int
  }

  lemma XorIs(x: uint32, y: uint32)
    ensures Xor(x, y) == Number(Bits(x) ^ Bits(y))
  {
  }

  lemma BitsNumber(b: bv32)
    ensures Bits(Number(b)) == b
  {
    BitsOfNumber(b);
  }

  lemma NumberBits(x: uint32)
    ensures Number(Bits(x)) == x
  {
    NumberOfBits(x);
  }

  lemma XorBits(a: bv32, b: bv32)
    ensures (a ^ b) ^ b == a
  {
  }

  lemma XorTwice(x: uint32, y: uint32)
    ensures Xor(Xor(x, y), y) == x
  {
    hide Xor, Bits, Number;
    var z := Xor(x, y);
    XorIs(x, y);
    XorIs(z, y);
    BitsNumber(Bits(x) ^ Bits(y));
    XorBits(Bits(x), Bits(y));
    NumberBits(x);
  }

  lemma AddSub(x: uint32, y: uint32)
    ensures Sub(Add(x, y), y) == x && Add(Sub(x, y), y) == x
  {
  }

  // ----- Mixing undone -----

  /** Undoes Mix, from its last step to its first. */
  function Unmix(s: State): State {
    var (a, b, c) := (s.a, s.b, s.c);
    var b := Sub(b, a);
    var c := Add(Xor(c, Rot(b, 4)), b);
    var a := Sub(a, c);
    var b := Add(Xor(b, Rot(a, 19)), a);
    var c := Sub(c, b);
    var a := Add(Xor(a, Rot(c, 16)), c);
    var b := Sub(b, a);
    var c := Add(Xor(c, Rot(b, 8)), b);
    var a := Sub(a, c);
    var b := Add(Xor(b, Rot(a, 6)), a);
    var c := Sub(c, b);
    var a := Add(Xor(a, Rot(c, 4)), c);
    State(a, b, c)
  }

  /** Undoes Final. */
  function Unfinal(s: State): State {
    var (a, b, c) := (s.a, s.b, s.c);
    var c := Xor(Add(c, Rot(b, 24)), b);
    var b := Xor(Add(b, Rot(a, 14)), a);
    var a := Xor(Add(a, Rot(c, 4)), c);
    var c := Xor(Add(c, Rot(b, 16)), b);
    var b := Xor(Add(b, Rot(a, 25)), a);
    var a := Xor(Add(a, Rot(c, 11)), c);
    var c := Xor(Add(c, Rot(b, 14)), b);
    State(a, b, c)
  }

  /** A step of Mix and its undoing cancel, whatever is rotated in. */
  lemma MixStep(x: uint32, y: uint32, r: uint32)
    ensures Add(Xor(Xor(Sub(x, y), r), r), y) == x
    ensures Xor(Sub(Add(Xor(x, r), y), y), r) == x
  {
    hide Xor, Add, Sub;
    XorTwice(Sub(x, y), r);
    XorTwice(x, r);
    AddSub(x, y);
    AddSub(Xor(x, r), y);
  }

  /** And so do a step of Final and its undoing. */
  lemma FinalStep(x: uint32, y: uint32, r: uint32)
    ensures Xor(Add(Sub(Xor(x, y), r), r), y) == x
    ensures Sub(Xor(Xor(Add(x, r), y), y), r) == x
  {
    hide Xor, Add, Sub;
    XorTwice(x, y);
    XorTwice(Add(x, r), y);
    AddSub(x, r);
    AddSub(Xor(x, y), r);
  }

  lemma UnmixMix(s: State)
    ensures Unmix(Mix(s)) == s
  {
    hide Xor, Add, Sub, Rot;
    var a1 := Xor(Sub(s.a, s.c), Rot(s.c, 4));
    var c1 := Add(s.c, s.b);
    var b1 := Xor(Sub(s.b, a1), Rot(a1, 6));
    var a2 := Add(a1, c1);
    var c2 := Xor(Sub(c1, b1), Rot(b1, 8));
    var b2 := Add(b1, a2);
    var a3 := Xor(Sub(a2, c2), Rot(c2, 16));
    var c3 := Add(c2, b2);
    var b3 := Xor(Sub(b2, a3), Rot(a3, 19));
    var a4 := Add(a3, c3);
    var c4 := Xor(Sub(c3, b3), Rot(b3, 4));
    assert Mix(s) == State(a4, Add(b3, a4), c4);
    AddSub(b3, a4);
    MixStep(c3, b3, Rot(b3, 4));
    AddSub(a3, c3);
    MixStep(b2, a3, Rot(a3, 19));
    AddSub(c2, b2);
    MixStep(a2, c2, Rot(c2, 16));
    AddSub(b1, a2);
    MixStep(c1, b1, Rot(b1, 8));
    AddSub(a1, c1);
    MixStep(s.b, a1, Rot(a1, 6));
    AddSub(s.c, s.b);
    MixStep(s.a, s.c, Rot(s.c, 4));
  }

  lemma MixUnmix(s: State)
    ensures Mix(Unmix(s)) == s
  {
    hide Xor, Add, Sub, Rot;
    var b1 := Sub(s.b, s.a);
    var c1 := Add(Xor(s.c, Rot(b1, 4)), b1);
    var a1 := Sub(s.a, c1);
    var b2 := Add(Xor(b1, Rot(a1, 19)), a1);
    var c2 := Sub(c1, b2);
    var a2 := Add(Xor(a1, Rot(c2, 16)), c2);
    var b3 := Sub(b2, a2);
    var c3 := Add(Xor(c2, Rot(b3, 8)), b3);
    var a3 := Sub(a2, c3);
    var b4 := Add(Xor(b3, Rot(a3, 6)), a3);
    var c4 := Sub(c3, b4);
    var a4 := Add(Xor(a3, Rot(c4, 4)), c4);
    assert Unmix(s) == State(a4, b4, c4);
    MixStep(a3, c4, Rot(c4, 4));
    AddSub(c3, b4);
    MixStep(b3, a3, Rot(a3, 6));
    AddSub(a2, c3);
    MixStep(c2, b3, Rot(b3, 8));
    AddSub(b2, a2);
    MixStep(a1, c2, Rot(c2, 16));
    AddSub(c1, b2);
    MixStep(b1, a1, Rot(a1, 19));
    AddSub(s.a, c1);
    MixStep(s.c, b1, Rot(b1, 4));
    AddSub(s.b, s.a);
  }

  lemma UnfinalFinal(s: State)
    ensures Unfinal(Final(s)) == s
  {
    hide Xor, Add, Sub, Rot;
    var c1 := Sub(Xor(s.c, s.b), Rot(s.b, 14));
    var a1 := Sub(Xor(s.a, c1), Rot(c1, 11));
    var b1 := Sub(Xor(s.b, a1), Rot(a1, 25));
    var c2 := Sub(Xor(c1, b1), Rot(b1, 16));
    var a2 := Sub(Xor(a1, c2), Rot(c2, 4));
    var b2 := Sub(Xor(b1, a2), Rot(a2, 14));
    assert Final(s) == State(a2, b2, Sub(Xor(c2, b2), Rot(b2, 24)));
    FinalStep(c2, b2, Rot(b2, 24));
    FinalStep(b1, a2, Rot(a2, 14));
    FinalStep(a1, c2, Rot(c2, 4));
    FinalStep(c1, b1, Rot(b1, 16));
    FinalStep(s.b, a1, Rot(a1, 25));
    FinalStep(s.a, c1, Rot(c1, 11));
    FinalStep(s.c, s.b, Rot(s.b, 14));
  }

  lemma FinalUnfinal(s: State)
    ensures Final(Unfinal(s)) == s
  {
    hide Xor, Add, Sub, Rot;
    var c1 := Xor(Add(s.c, Rot(s.b, 24)), s.b);
    var b1 := Xor(Add(s.b, Rot(s.a, 14)), s.a);
    var a1 := Xor(Add(s.a, Rot(c1, 4)), c1);
    var c2 := Xor(Add(c1, Rot(b1, 16)), b1);
    var b2 := Xor(Add(b1, Rot(a1, 25)), a1);
    var a2 := Xor(Add(a1, Rot(c2, 11)), c2);
    assert Unfinal(s) == State(a2, b2, Xor(Add(c2, Rot(b2, 14)), b2));
    FinalStep(c2, b2, Rot(b2, 14));
    FinalStep(a1, c2, Rot(c2, 11));
    FinalStep(b1, a1, Rot(a1, 25));
    FinalStep(c1, b1, Rot(b1, 16));
    FinalStep(s.a, c1, Rot(c1, 4));
    FinalStep(s.b, s.a, Rot(s.a, 14));
    FinalStep(s.c, s.b, Rot(s.b, 24));
  }






  // ----- Nothing is lost -----

  /** The whole state that the key leaves; the hash is one of its three words. */
  function StateFrom(s: State, key: seq<byte>): State
    decreases |key|
  {
    if |key| > 12 then StateFrom(Mix(Absorb(s, key[..12])), key[12..])
    else if key == [] then s
    else Final(Absorb(s, key))
  }

  lemma {:induction false} HashIsC(s: State, key: seq<byte>)
    ensures HashFrom(s, key) == StateFrom(s, key).c
    decreases |key|
  {
    hide Mix, Absorb, Final;
    if |key| > 12 {
      HashIsC(Mix(Absorb(s, key[..12])), key[12..]);
    }
  }

  lemma AddCancels(x: uint32, y: uint32, z: uint32)
    requires Add(x, z) == Add(y, z)
    ensures x == y
  {
    hide Add, Sub;
    AddSub(x, z);
    AddSub(y, z);
  }

  lemma AddTurns(x: uint32, y: uint32)
    ensures Add(x, y) == Add(y, x)
  {
  }

  lemma AbsorbKeepsStates(s: State, t: State, key: seq<byte>)
    requires Absorb(s, key) == Absorb(t, key)
    ensures s == t
  {
    hide Add, WordAt;
    AddCancels(s.a, t.a, WordAt(key, 0));
    AddCancels(s.b, t.b, WordAt(key, 4));
    AddCancels(s.c, t.c, WordAt(key, 8));
  }

  lemma WordKeepsBytes(k: seq<byte>, l: seq<byte>, i: nat)
    requires WordAt(k, i) == WordAt(l, i)
    ensures Byte(k, i) == Byte(l, i) && Byte(k, i + 1) == Byte(l, i + 1)
    ensures Byte(k, i + 2) == Byte(l, i + 2) && Byte(k, i + 3) == Byte(l, i + 3)
  {
    hide Byte;
    WordInTurn(k, i);
    WordInTurn(l, i);
    var k0: int, k1: int, k2: int, k3: int := Byte(k, i), Byte(k, i + 1), Byte(k, i + 2), Byte(k, i + 3);
    var l0: int, l1: int, l2: int, l3: int := Byte(l, i), Byte(l, i + 1), Byte(l, i + 2), Byte(l, i + 3);
    hide WordAt, W;
    LowByte(k0, l0, k1 + 0x100 * (k2 + 0x100 * k3), l1 + 0x100 * (l2 + 0x100 * l3));
    LowByte(k1, l1, k2 + 0x100 * k3, l2 + 0x100 * l3);
    LowByte(k2, l2, k3, l3);
  }

  lemma WordInTurn(k: seq<byte>, i: nat)
    ensures WordAt(k, i) ==
      Byte(k, i) + 0x100 * (Byte(k, i + 1) + 0x100 * (Byte(k, i + 2) + 0x100 * Byte(k, i + 3)))
  {
    hide Byte;
  }

  lemma LowByte(b: byte, c: byte, x: nat, y: nat)
    requires b + 0x100 * x == c + 0x100 * y
    ensures b == c && x == y
  {
  }

  lemma AddedWordKeepsBytes(x: uint32, k: seq<byte>, l: seq<byte>, i: nat)
    requires Add(x, WordAt(k, i)) == Add(x, WordAt(l, i))
    ensures Byte(k, i) == Byte(l, i) && Byte(k, i + 1) == Byte(l, i + 1)
    ensures Byte(k, i + 2) == Byte(l, i + 2) && Byte(k, i + 3) == Byte(l, i + 3)
  {
    hide Add, WordAt, Byte;
    AddTurns(x, WordAt(k, i));
    AddTurns(x, WordAt(l, i));
    AddCancels(WordAt(k, i), WordAt(l, i), x);
    WordKeepsBytes(k, l, i);
  }

  lemma AbsorbKeepsBlocks(s: State, k: seq<byte>, l: seq<byte>)
    requires |k| == |l| <= 12 && Absorb(s, k) == Absorb(s, l)
    ensures k == l
  {
    hide Add, WordAt, Byte;
    AddedWordKeepsBytes(s.a, k, l, 0);
    AddedWordKeepsBytes(s.b, k, l, 4);
    AddedWordKeepsBytes(s.c, k, l, 8);
    assert forall i :: 0 <= i < |k| ==> Byte(k, i) == Byte(l, i);
    SameBytes(k, l);
  }

  lemma SameBytes(k: seq<byte>, l: seq<byte>)
    requires |k| == |l| && forall i :: 0 <= i < |k| ==> Byte(k, i) == Byte(l, i)
    ensures k == l
  {
    forall i | 0 <= i < |k| ensures k[i] == l[i] {
      assert Byte(k, i) == Byte(l, i);
    }
  }

  /** Different states stay different, whatever key follows. */
  lemma {:induction false} StatesStayApart(s: State, t: State, key: seq<byte>)
    requires s != t
    ensures StateFrom(s, key) != StateFrom(t, key)
    decreases |key|
  {
    hide Mix, Final, Absorb, Unmix, Unfinal;
    var block := if |key| > 12 then key[..12] else key;
    var s1, t1 := Absorb(s, block), Absorb(t, block);
    if s1 == t1 {
      AbsorbKeepsStates(s, t, block);
    }
    if |key| > 12 {
      UnmixMix(s1);
      UnmixMix(t1);
      StatesStayApart(Mix(s1), Mix(t1), key[12..]);
    } else if key != [] {
      UnfinalFinal(s1);
      UnfinalFinal(t1);
    }
  }

  /** The keys agree outside the block of twelve bytes with number `n`. */
  ghost predicate OnlyBlock(k: seq<byte>, l: seq<byte>, n: nat) {
    |k| == |l| && forall i :: 0 <= i < |k| && !(12 * n <= i < 12 * n + 12) ==> k[i] == l[i]
  }

  /** Keys of the same length that differ in one block of twelve bytes leave different states. */
  lemma {:induction false} BlocksStayApart(s: State, k: seq<byte>, l: seq<byte>, n: nat)
    requires OnlyBlock(k, l, n) && k != l
    ensures StateFrom(s, k) != StateFrom(s, l)
    decreases n
  {
    hide Mix, Final, Absorb, Unmix, Unfinal;
    if |k| <= 12 {
      AbsorbApart(s, k, l);
      UnfinalFinal(Absorb(s, k));
      UnfinalFinal(Absorb(s, l));
    } else if n == 0 {
      assert k[12..] == l[12..];
      assert k == k[..12] + k[12..] && l == l[..12] + l[12..];
      AbsorbApart(s, k[..12], l[..12]);
      var s1, t1 := Absorb(s, k[..12]), Absorb(s, l[..12]);
      UnmixMix(s1);
      UnmixMix(t1);
      StatesStayApart(Mix(s1), Mix(t1), k[12..]);
    } else {
      assert k[..12] == l[..12];
      assert k == k[..12] + k[12..] && l == l[..12] + l[12..];
      BlocksStayApart(Mix(Absorb(s, k[..12])), k[12..], l[12..], n - 1);
    }
  }

  lemma AbsorbApart(s: State, k: seq<byte>, l: seq<byte>)
    requires |k| == |l| <= 12 && k != l
    ensures Absorb(s, k) != Absorb(s, l)
  {
    hide Absorb;
    if Absorb(s, k) == Absorb(s, l) {
      AbsorbKeepsBlocks(s, k, l);
    }
  }

  /** So do different initial values. */
  lemma InitialValuesStayApart(key: seq<byte>, v: uint32, w: uint32)
    requires v != w
    ensures StateFrom(Start(|key|, v), key) != StateFrom(Start(|key|, w), key)
  {
    StatesStayApart(Start(|key|, v), Start(|key|, w), key);
    hide StateFrom;
  }

  // ----- Known values -----

  /** Without a key nothing is mixed. */
  lemma EmptyKey(initval: uint32)
    ensures Hash([], initval) == Add(0xdead_beef, initval) && Hash([], 0) == 0xdead_beef
  {
  }

  /** "Four score and seven years ago" in ASCII. */
  const FourScore: seq<byte> := [
    70, 111, 117, 114, 32, 115, 99, 111, 114, 101, 32, 97, 110, 100, 32,
    115, 101, 118, 101, 110, 32, 121, 101, 97, 114, 115, 32, 97, 103, 111]

  lemma FourScoreWords()
    ensures |FourScore| == 30
    ensures WordAt(FourScore[0..12], 0) == 0x72756f46
    ensures WordAt(FourScore[0..12], 4) == 0x6f637320
    ensures WordAt(FourScore[0..12], 8) == 0x61206572
    ensures WordAt(FourScore[12..24], 0) == 0x7320646e
    ensures WordAt(FourScore[12..24], 4) == 0x6e657665
    ensures WordAt(FourScore[12..24], 8) == 0x61657920
    ensures WordAt(FourScore[24..30], 0) == 0x61207372
    ensures WordAt(FourScore[24..30], 4) == 0x00006f67
    ensures WordAt(FourScore[24..30], 8) == 0x00000000
  {
    var m := FourScore;
    assert m[0..12] == [70, 111, 117, 114, 32, 115, 99, 111, 114, 101, 32, 97];
    assert m[12..24] == [110, 100, 32, 115, 101, 118, 101, 110, 32, 121, 101, 97];
    assert m[24..30] == [114, 115, 32, 97, 103, 111];
  }

  lemma FirstBlockSteps()
    ensures Sub(0x51232e53, 0x3fce247f) == 0x115509d4 && Rot(0x3fce247f, 4) == 0xfce247f3
    ensures Xor(0x115509d4, 0xfce247f3) == 0xedb74e27 && Add(0x3fce247f, 0x4e11322d) == 0x8ddf56ac
    ensures Sub(0x4e11322d, 0xedb74e27) == 0x6059e406 && Rot(0xedb74e27, 6) == 0x6dd389fb
    ensures Xor(0x6059e406, 0x6dd389fb) == 0x0d8a6dfd && Add(0xedb74e27, 0x8ddf56ac) == 0x7b96a4d3
    ensures Sub(0x8ddf56ac, 0x0d8a6dfd) == 0x8054e8af && Rot(0x0d8a6dfd, 8) == 0x8a6dfd0d
    ensures Xor(0x8054e8af, 0x8a6dfd0d) == 0x0a3915a2 && Add(0x0d8a6dfd, 0x7b96a4d3) == 0x892112d0
    ensures Sub(0x7b96a4d3, 0x0a3915a2) == 0x715d8f31 && Rot(0x0a3915a2, 16) == 0x15a20a39
    ensures Xor(0x715d8f31, 0x15a20a39) == 0x64ff8508 && Add(0x0a3915a2, 0x892112d0) == 0x935a2872
    ensures Sub(0x892112d0, 0x64ff8508) == 0x24218dc8 && Rot(0x64ff8508, 19) == 0x284327fc
    ensures Xor(0x24218dc8, 0x284327fc) == 0x0c62aa34 && Add(0x64ff8508, 0x935a2872) == 0xf859ad7a
    ensures Sub(0x935a2872, 0x0c62aa34) == 0x86f77e3e && Rot(0x0c62aa34, 4) == 0xc62aa340
    ensures Xor(0x86f77e3e, 0xc62aa340) == 0x40dddd7e && Add(0x0c62aa34, 0xf859ad7a) == 0x04bc57ae
  {
  }

  lemma FirstBlock()
    ensures Mix(State(0x51232e53, 0x4e11322d, 0x3fce247f)) == State(0xf859ad7a, 0x04bc57ae, 0x40dddd7e)
  {
    hide Xor, Add, Sub, Rot;
    FirstBlockSteps();
  }

  lemma SecondBlockSteps()
    ensures Sub(0x6b7a11e8, 0xa243569e) == 0xc936bb4a && Rot(0xa243569e, 4) == 0x243569ea
    ensures Xor(0xc936bb4a, 0x243569ea) == 0xed03d2a0 && Add(0xa243569e, 0x7321ce13) == 0x156524b1
    ensures Sub(0x7321ce13, 0xed03d2a0) == 0x861dfb73 && Rot(0xed03d2a0, 6) == 0x40f4a83b
    ensures Xor(0x861dfb73, 0x40f4a83b) == 0xc6e95348 && Add(0xed03d2a0, 0x156524b1) == 0x0268f751
    ensures Sub(0x156524b1, 0xc6e95348) == 0x4e7bd169 && Rot(0xc6e95348, 8) == 0xe95348c6
    ensures Xor(0x4e7bd169, 0xe95348c6) == 0xa72899af && Add(0xc6e95348, 0x0268f751) == 0xc9524a99
    ensures Sub(0x0268f751, 0xa72899af) == 0x5b405da2 && Rot(0xa72899af, 16) == 0x99afa728
    ensures Xor(0x5b405da2, 0x99afa728) == 0xc2effa8a && Add(0xa72899af, 0xc9524a99) == 0x707ae448
    ensures Sub(0xc9524a99, 0xc2effa8a) == 0x0662500f && Rot(0xc2effa8a, 19) == 0xd456177f
    ensures Xor(0x0662500f, 0xd456177f) == 0xd2344770 && Add(0xc2effa8a, 0x707ae448) == 0x336aded2
    ensures Sub(0x707ae448, 0xd2344770) == 0x9e469cd8 && Rot(0xd2344770, 4) == 0x2344770d
    ensures Xor(0x9e469cd8, 0x2344770d) == 0xbd02ebd5 && Add(0xd2344770, 0x336aded2) == 0x059f2642
  {
  }

  lemma SecondBlock()
    ensures Mix(State(0x6b7a11e8, 0x7321ce13, 0xa243569e)) == State(0x336aded2, 0x059f2642, 0xbd02ebd5)
  {
    hide Xor, Add, Sub, Rot;
    SecondBlockSteps();
  }

  lemma LastBlockSteps()
    ensures Xor(0xbd02ebd5, 0x059f95a9) == 0xb89d7e7c && Rot(0x059f95a9, 14) == 0xe56a4167
    ensures Xor(0x948b5244, 0xd3333d15) == 0x47b86f51 && Rot(0xd3333d15, 11) == 0x99e8ae99
    ensures Xor(0x059f95a9, 0xadcfc0b8) == 0xa8505511 && Rot(0xadcfc0b8, 25) == 0x715b9f81
    ensures Xor(0xd3333d15, 0x36f4b590) == 0xe5c78885 && Rot(0x36f4b590, 16) == 0xb59036f4
    ensures Xor(0xadcfc0b8, 0x30375191) == 0x9df89129 && Rot(0x30375191, 4) == 0x03751913
    ensures Xor(0x36f4b590, 0x9a837816) == 0xac77cd86 && Rot(0x9a837816, 14) == 0xde05a6a0
    ensures Xor(0x30375191, 0xce7226e6) == 0xfe457777 && Rot(0xce7226e6, 24) == 0xe6ce7226
  {
  }

  lemma LastBlockDifferences()
    ensures Sub(0xb89d7e7c, 0xe56a4167) == 0xd3333d15
    ensures Sub(0x47b86f51, 0x99e8ae99) == 0xadcfc0b8
    ensures Sub(0xa8505511, 0x715b9f81) == 0x36f4b590
    ensures Sub(0xe5c78885, 0xb59036f4) == 0x30375191
    ensures Sub(0x9df89129, 0x03751913) == 0x9a837816
    ensures Sub(0xac77cd86, 0xde05a6a0) == 0xce7226e6
    ensures Sub(0xfe457777, 0xe6ce7226) == 0x17770551
  {
  }

  lemma LastBlock()
    ensures Final(State(0x948b5244, 0x059f95a9, 0xbd02ebd5)) == State(0x9a837816, 0xce7226e6, 0x17770551)
  {
    hide Xor, Add, Sub, Rot;
    LastBlockSteps();
    LastBlockDifferences();
  }

  /** A published value: the hash of "Four score and seven years ago" with initial value 0. */
  lemma FourScoreHash()
    ensures Hash(FourScore, 0) == 0x17770551
  {
    hide Mix, Final, HashFrom, WordAt;
    FourScoreWords();
    var s := Start(30, 0);
    assert FourScore[0..30] == FourScore;
    HashBlock(s, FourScore, 0, 30);
    FirstBlock();
    assert Absorb(s, FourScore[0..12]) == State(0x51232e53, 0x4e11322d, 0x3fce247f);
    var s1 := State(0xf859ad7a, 0x04bc57ae, 0x40dddd7e);
    HashBlock(s1, FourScore, 12, 30);
    SecondBlock();
    assert Absorb(s1, FourScore[12..24]) == State(0x6b7a11e8, 0x7321ce13, 0xa243569e);
    var s2 := State(0x336aded2, 0x059f2642, 0xbd02ebd5);
    HashTail(s2, FourScore, 24, 30);
    LastBlock();
    assert Absorb(s2, FourScore[24..30]) == State(0x948b5244, 0x059f95a9, 0xbd02ebd5);
  }
}
