/** hashlittle of lib/lookup3.cc: reading the key by 32-bit words, by 16-bit words or by bytes
    gives the same hash, and no byte behind the key matters. */
module Lookup3 {
  import Bytes

  type byte = Bytes.byte

  type uint16 = x: int | 0 <= x < 0x1_0000

  type uint32 = x: int | 0 <= x < 0x1_0000_0000

  // ----- Unsigned 32-bit arithmetic -----

  function Add(x: uint32, y: uint32): uint32 {
    (x as int + y as int) % 0x1_0000_0000
  }

  function Sub(x: uint32, y: uint32): uint32 {
    (x as int - y as int) % 0x1_0000_0000
  }

  /** x << 8, x << 16, x << 24, by the number of bytes. */
  function Shift(x: uint32, bytes: nat): uint32
    requires 1 <= bytes <= 3
  {
    (x as int * if bytes == 1 then 0x100 else if bytes == 2 then 0x1_0000 else 0x100_0000) % 0x1_0000_0000
  }

  function Xor(x: uint32, y: uint32): uint32 {
    (x as bv32 ^ y as bv32) as int
  }

  function Rot(x: uint32, k: nat): uint32
    requires 0 < k < 32
  {
    ((x as bv32 << k) ^ (x as bv32 >> (32 - k))) as int
  }

  // ----- Mixing -----

  /** The internal state. */
  datatype State = State(a: uint32, b: uint32, c: uint32)

  function Mix(s: State): State {
    var (a, b, c) := (s.a, s.b, s.c);
    var a := Xor(Sub(a, c), Rot(c, 4));
    var c := Add(c, b);
    var b := Xor(Sub(b, a), Rot(a, 6));
    var a := Add(a, c);
    var c := Xor(Sub(c, b), Rot(b, 8));
    var b := Add(b, a);
    var a := Xor(Sub(a, c), Rot(c, 16));
    var c := Add(c, b);
    var b := Xor(Sub(b, a), Rot(a, 19));
    var a := Add(a, c);
    var c := Xor(Sub(c, b), Rot(b, 4));
    var b := Add(b, a);
    State(a, b, c)
  }

  function Final(s: State): State {
    var (a, b, c) := (s.a, s.b, s.c);
    var c := Sub(Xor(c, b), Rot(b, 14));
    var a := Sub(Xor(a, c), Rot(c, 11));
    var b := Sub(Xor(b, a), Rot(a, 25));
    var c := Sub(Xor(c, b), Rot(b, 16));
    var a := Sub(Xor(a, c), Rot(c, 4));
    var b := Sub(Xor(b, a), Rot(a, 14));
    var c := Sub(Xor(c, b), Rot(b, 24));
    State(a, b, c)
  }

  // ----- The reference: the key padded with zeros to whole blocks -----

  /** A 32-bit word in memory, least significant byte first. */
  function W(b0: byte, b1: byte, b2: byte, b3: byte): uint32 {
    b0 as int + b1 as int * 0x100 + b2 as int * 0x1_0000 + b3 as int * 0x100_0000
  }

  /** Byte `i` of the key, or zero behind its end. */
  function Byte(key: seq<byte>, i: nat): byte {
    if i < |key| then key[i] else 0
  }

  function WordAt(key: seq<byte>, i: nat): uint32 {
    W(Byte(key, i), Byte(key, i + 1), Byte(key, i + 2), Byte(key, i + 3))
  }

  /** The state with the first twelve bytes added in. */
  function Absorb(s: State, key: seq<byte>): State {
    State(Add(s.a, WordAt(key, 0)), Add(s.b, WordAt(key, 4)), Add(s.c, WordAt(key, 8)))
  }

  function HashFrom(s: State, key: seq<byte>): uint32
    decreases |key|
  {
    if |key| > 12 then HashFrom(Mix(Absorb(s, key[..12])), key[12..])
    else if key == [] then s.c
    else Final(Absorb(s, key)).c
  }

  function Start(length: nat, initval: uint32): State {
    var x := (0xdeadbeef + length + initval) % 0x1_0000_0000;
    State(x, x, x)
  }

  function Hash(key: seq<byte>, initval: uint32): uint32 {
    HashFrom(Start(|key|, initval), key)
  }

  lemma HashBlock(s: State, mem: seq<byte>, k: nat, length: nat)
    requires k + 12 < length <= |mem|
    ensures HashFrom(s, mem[k..length]) == HashFrom(Mix(Absorb(s, mem[k..k + 12])), mem[k + 12..length])
  {
    var key := mem[k..length];
    assert key[..12] == mem[k..k + 12] && key[12..] == mem[k + 12..length];
    hide Mix, Absorb;
  }

  lemma HashTail(s: State, mem: seq<byte>, k: nat, length: nat)
    requires k < length <= |mem| && length <= k + 12
    ensures HashFrom(s, mem[k..length]) == Final(Absorb(s, mem[k..length])).c
  {
    hide Final, Absorb;
  }

  /** What a word of the key is, by how many of its bytes are in the key. */
  lemma WordIs(mem: seq<byte>, at: nat, length: nat, i: nat)
    requires at + length <= |mem|
    ensures
      var w, k := WordAt(mem[at..at + length], i), at + i;
      && (i + 4 <= length ==> w == W(mem[k], mem[k + 1], mem[k + 2], mem[k + 3]))
      && (i + 3 == length ==> w == W(mem[k], mem[k + 1], mem[k + 2], 0))
      && (i + 2 == length ==> w == W(mem[k], mem[k + 1], 0, 0))
      && (i + 1 == length ==> w == W(mem[k], 0, 0, 0))
      && (i >= length ==> w == 0)
  {
    hide W;
    var key := mem[at..at + length];
    assert forall j :: 0 <= j < length ==> key[j] == mem[at + j];
    assert W(0, 0, 0, 0) == 0 by { WordOfZeros(); }
  }

  lemma WordOfZeros()
    ensures W(0, 0, 0, 0) == 0
  {
  }

  // ----- 32 bits at a time -----

  /** k[i], for a key at `at`. */
  function K32(mem: seq<byte>, at: nat, i: nat): uint32
    requires at + 4 * i + 4 <= |mem|
  {
    W(mem[at + 4 * i], mem[at + 4 * i + 1], mem[at + 4 * i + 2], mem[at + 4 * i + 3])
  }

  /** x & 0xff, x & 0xffff, x & 0xffffff. */
  function Low(x: uint32, bytes: nat): uint32
    requires 1 <= bytes <= 3
  {
    x % if bytes == 1 then 0x100 else if bytes == 2 then 0x1_0000 else 0x100_0000
  }

  // A masked word is the word of the bytes that are left.

  lemma Mod1(low: int, high: int)
    requires 0 <= low < 0x100
    ensures (low + 0x100 * high) % 0x100 == low
  {
  }

  lemma Mod2(low: int, high: int)
    requires 0 <= low < 0x1_0000
    ensures (low + 0x1_0000 * high) % 0x1_0000 == low
  {
  }

  lemma Mod3(low: int, high: int)
    requires 0 <= low < 0x100_0000
    ensures (low + 0x100_0000 * high) % 0x100_0000 == low
  {
  }

  lemma Parts(b0: byte, b1: byte, b2: byte, b3: byte)
    ensures W(b0, b1, b2, b3) == W(b0, 0, 0, 0) + 0x100 * W(b1, b2, b3, 0)
    ensures W(b0, b1, b2, b3) == W(b0, b1, 0, 0) + 0x1_0000 * W(b2, b3, 0, 0)
    ensures W(b0, b1, b2, b3) == W(b0, b1, b2, 0) + 0x100_0000 * W(b3, 0, 0, 0)
    ensures 0 <= W(b0, 0, 0, 0) < 0x100 && 0 <= W(b0, b1, 0, 0) < 0x1_0000 && 0 <= W(b0, b1, b2, 0) < 0x100_0000
  {
  }

  lemma Masked(b0: byte, b1: byte, b2: byte, b3: byte)
    ensures Low(W(b0, b1, b2, b3), 1) == W(b0, 0, 0, 0)
    ensures Low(W(b0, b1, b2, b3), 2) == W(b0, b1, 0, 0)
    ensures Low(W(b0, b1, b2, b3), 3) == W(b0, b1, b2, 0)
  {
    hide W;
    Parts(b0, b1, b2, b3);
    Mod1(W(b0, 0, 0, 0), W(b1, b2, b3, 0));
    Mod2(W(b0, b1, 0, 0), W(b2, b3, 0, 0));
    Mod3(W(b0, b1, b2, 0), W(b3, 0, 0, 0));
  }

  lemma AddNothing(x: uint32)
    ensures Add(x, 0) == x
  {
  }

  method Block32(s: State, mem: seq<byte>, k: nat) returns (t: State)
    requires k + 12 <= |mem|
    ensures t == Absorb(s, mem[k..k + 12])
  {
    hide W, Add, WordAt;
    WordIs(mem, k, 12, 0);
    WordIs(mem, k, 12, 4);
    WordIs(mem, k, 12, 8);
    t := State(Add(s.a, K32(mem, k, 0)), Add(s.b, K32(mem, k, 1)), Add(s.c, K32(mem, k, 2)));
  }

  /** The part of the switch over the last block that concerns word `i`. */
  method TailWord32(x: uint32, mem: seq<byte>, k: nat, length: nat, i: nat) returns (y: uint32)
    requires k + length <= |mem| && (length > 4 * i ==> k + 4 * i + 4 <= |mem|)
    ensures y == Add(x, WordAt(mem[k..k + length], 4 * i))
  {
    hide W, Add, WordAt, Low;
    WordIs(mem, k, length, 4 * i);
    if length <= 4 * i {
      AddNothing(x);
      return x;
    }
    var at := k + 4 * i;
    Masked(mem[at], mem[at + 1], mem[at + 2], mem[at + 3]);
    if length >= 4 * i + 4 {
      y := Add(x, K32(mem, k, i));
    } else {
      y := Add(x, Low(K32(mem, k, i), length - 4 * i));
    }
  }

  /** Every 32-bit word from `k` on that begins inside the key is in memory as a whole. */
  ghost predicate WholeWords(k: nat, length: nat, size: nat) {
    length <= size && forall j: nat :: k + Four(j) < length ==> k + Four(j) + 4 <= size
  }

  ghost function Four(j: nat): nat {
    4 * j
  }

  lemma WordsFurtherOn(k: nat, length: nat, size: nat)
    requires WholeWords(k, length, size)
    ensures WholeWords(k + 12, length, size)
  {
    forall j: nat | k + 12 + Four(j) < length ensures k + 12 + Four(j) + 4 <= size {
      assert k + Four(j + 3) == k + 12 + Four(j);
    }
  }

  /** Every word that the last `length` bytes at `k` reach is in memory. */
  ghost predicate InMemory(k: nat, length: nat, size: nat) {
    && k + length <= size
    && (length > 0 ==> k + 4 <= size)
    && (length > 4 ==> k + 8 <= size)
    && (length > 8 ==> k + 12 <= size)
  }

  lemma LastWords(k: nat, length: nat, size: nat)
    requires k <= length && WholeWords(k, length, size)
    ensures InMemory(k, length - k, size)
  {
    assert Four(0) == 0 && Four(1) == 4 && Four(2) == 8;
  }

  /** The aligned path.  It reads whole words, beyond the end of the key, and its result does
      not depend on what is there. */
  method Hash32(mem: seq<byte>, length: nat, initval: uint32) returns (r: uint32)
    requires WholeWords(0, length, |mem|)
    ensures length <= |mem| && r == Hash(mem[..length], initval)
  {
    var s := Start(length, initval);
    var k := 0;
    assert length <= |mem|;
    assert mem[..length] == mem[0..length];
    ghost var h := Hash(mem[..length], initval);
    hide Mix, Final, Absorb, Hash, WholeWords, InMemory;
    while length - k > 12
      invariant 0 <= k <= length && WholeWords(k, length, |mem|)
      invariant HashFrom(s, mem[k..length]) == h
    {
      HashBlock(s, mem, k, length);
      WordsFurtherOn(k, length, |mem|);
      var t := Block32(s, mem, k);
      hide HashFrom;
      s := Mix(t);
      k := k + 12;
    }
    if k == length {
      return s.c;
    }
    HashTail(s, mem, k, length);
    LastWords(k, length, |mem|);
    var t := Tail32(s, mem, k, length - k);
    r := Final(t).c;
  }

  method Tail32(s: State, mem: seq<byte>, k: nat, length: nat) returns (t: State)
    requires 0 < length <= 12 && InMemory(k, length, |mem|)
    ensures t == Absorb(s, mem[k..k + length])
  {
    hide Add, WordAt;
    var c := TailWord32(s.c, mem, k, length, 2);
    var b := TailWord32(s.b, mem, k, length, 1);
    var a := TailWord32(s.a, mem, k, length, 0);
    t := State(a, b, c);
  }

  // ----- 16 bits at a time -----

  /** A 16-bit word in memory. */
  function HalfWord(b0: byte, b1: byte): uint16 {
    b0 as int + b1 as int * 0x100
  }

  function K16(mem: seq<byte>, at: nat, i: nat): uint16
    requires at + 2 * i + 2 <= |mem|
  {
    HalfWord(mem[at + 2 * i], mem[at + 2 * i + 1])
  }

  lemma AddInTurn(x: uint32, y: uint32, z: uint32)
    requires y + z < 0x1_0000_0000
    ensures Add(Add(x, y), z) == Add(x, y + z)
  {
  }

  lemma ShiftByte(b: byte)
    ensures Shift(b, 1) == b as int * 0x100 && Shift(b, 2) == b as int * 0x1_0000
    ensures Shift(b, 3) == b as int * 0x100_0000
  {
  }

  lemma ShiftHalf(h: uint16)
    ensures Shift(h, 2) == h as int * 0x1_0000
  {
  }

  lemma HalfIs(b0: byte, b1: byte)
    ensures HalfWord(b0, b1) == W(b0, b1, 0, 0)
  {
  }

  lemma HalfAndByte(b0: byte, b1: byte, b2: byte, x: uint32)
    ensures Add(Add(x, Shift(b2, 2)), HalfWord(b0, b1)) == Add(x, W(b0, b1, b2, 0))
  {
    ShiftByte(b2);
    hide Shift, Add;
    AddInTurn(x, Shift(b2, 2), HalfWord(b0, b1));
  }

  lemma TwoHalves(b0: byte, b1: byte, b2: byte, b3: byte)
    ensures Add(HalfWord(b0, b1), Shift(HalfWord(b2, b3), 2)) == W(b0, b1, b2, b3)
  {
    ShiftHalf(HalfWord(b2, b3));
    hide Shift;
  }

  /** Two halves make a word; so do a half and a shifted byte. */
  lemma Halves(mem: seq<byte>, at: nat, i: nat, x: uint32)
    requires at + 4 * i + 2 <= |mem|
    ensures K16(mem, at, 2 * i) == W(mem[at + 4 * i], mem[at + 4 * i + 1], 0, 0)
    ensures at + 4 * i + 3 <= |mem| ==>
      Add(Add(x, Shift(mem[at + 4 * i + 2], 2)), K16(mem, at, 2 * i))
      == Add(x, W(mem[at + 4 * i], mem[at + 4 * i + 1], mem[at + 4 * i + 2], 0))
    ensures at + 4 * i + 4 <= |mem| ==>
      Add(K16(mem, at, 2 * i), Shift(K16(mem, at, 2 * i + 1), 2))
      == W(mem[at + 4 * i], mem[at + 4 * i + 1], mem[at + 4 * i + 2], mem[at + 4 * i + 3])
  {
    var k := at + 4 * i;
    HalfIs(mem[k], mem[k + 1]);
    hide Add, Shift, W, HalfWord;
    if k + 3 <= |mem| {
      HalfAndByte(mem[k], mem[k + 1], mem[k + 2], x);
    }
    if k + 4 <= |mem| {
      TwoHalves(mem[k], mem[k + 1], mem[k + 2], mem[k + 3]);
    }
  }

  method Block16(s: State, mem: seq<byte>, k: nat) returns (t: State)
    requires k + 12 <= |mem|
    ensures t == Absorb(s, mem[k..k + 12])
  {
    hide Add, Shift, WordAt, W, K16;
    WordIs(mem, k, 12, 0);
    WordIs(mem, k, 12, 4);
    WordIs(mem, k, 12, 8);
    Halves(mem, k, 0, 0);
    Halves(mem, k, 1, 0);
    Halves(mem, k, 2, 0);
    t := State(Add(s.a, Add(K16(mem, k, 0), Shift(K16(mem, k, 1), 2))),
               Add(s.b, Add(K16(mem, k, 2), Shift(K16(mem, k, 3), 2))),
               Add(s.c, Add(K16(mem, k, 4), Shift(K16(mem, k, 5), 2))));
  }

  /** The part of the switch that concerns word `i`: two halves; a byte falling through to a
      half; a half; or a byte. */
  method TailWord16(x: uint32, mem: seq<byte>, k: nat, length: nat, i: nat) returns (y: uint32)
    requires k + length <= |mem|
    ensures y == Add(x, WordAt(mem[k..k + length], 4 * i))
  {
    hide Add, Shift, WordAt, W, K16;
    WordIs(mem, k, length, 4 * i);
    if length <= 4 * i {
      AddNothing(x);
      return x;
    }
    if length == 4 * i + 1 {
      WordOfByte(mem[k + 4 * i]);
      return Add(x, mem[k + 4 * i]);
    }
    Halves(mem, k, i, x);
    y := x;
    if length >= 4 * i + 4 {
      y := Add(y, Add(K16(mem, k, 2 * i), Shift(K16(mem, k, 2 * i + 1), 2)));
    } else {
      if length == 4 * i + 3 {
        y := Add(y, Shift(mem[k + 4 * i + 2], 2));
      }
      y := Add(y, K16(mem, k, 2 * i));
    }
  }

  lemma WordOfByte(b: byte)
    ensures W(b, 0, 0, 0) == b
  {
  }

  method Hash16(mem: seq<byte>, length: nat, initval: uint32) returns (r: uint32)
    requires length <= |mem|
    ensures r == Hash(mem[..length], initval)
  {
    var s := Start(length, initval);
    var k := 0;
    assert mem[..length] == mem[0..length];
    ghost var h := Hash(mem[..length], initval);
    hide Mix, Final, Absorb, Hash;
    while length - k > 12
      invariant 0 <= k <= length
      invariant HashFrom(s, mem[k..length]) == h
    {
      HashBlock(s, mem, k, length);
      var t := Block16(s, mem, k);
      hide HashFrom;
      s := Mix(t);
      k := k + 12;
    }
    if k == length {
      return s.c;
    }
    HashTail(s, mem, k, length);
    var t := Tail16(s, mem, k, length - k);
    r := Final(t).c;
  }

  method Tail16(s: State, mem: seq<byte>, k: nat, length: nat) returns (t: State)
    requires 0 < length <= 12 && k + length <= |mem|
    ensures t == Absorb(s, mem[k..k + length])
  {
    hide Add, WordAt;
    var c := TailWord16(s.c, mem, k, length, 2);
    var b := TailWord16(s.b, mem, k, length, 1);
    var a := TailWord16(s.a, mem, k, length, 0);
    t := State(a, b, c);
  }

  // ----- One byte at a time -----

  /** Adding the bytes of a word from the low end. */
  lemma AddUp(x: uint32, b0: byte, b1: byte, b2: byte, b3: byte)
    ensures Add(Add(Add(Add(x, b0), Shift(b1, 1)), Shift(b2, 2)), Shift(b3, 3)) == Add(x, W(b0, b1, b2, b3))
  {
    ShiftByte(b1);
    ShiftByte(b2);
    ShiftByte(b3);
    hide Add, Shift;
    AddInTurn(x, b0, Shift(b1, 1));
    AddInTurn(x, b0 + Shift(b1, 1), Shift(b2, 2));
    AddInTurn(x, b0 + Shift(b1, 1) + Shift(b2, 2), Shift(b3, 3));
  }

  /** Adding the bytes of a word from the high end, as the switch falls through. */
  lemma AddDown(x: uint32, b0: byte, b1: byte, b2: byte, b3: byte)
    ensures Add(Add(Add(Add(x, Shift(b3, 3)), Shift(b2, 2)), Shift(b1, 1)), b0) == Add(x, W(b0, b1, b2, b3))
    ensures Add(Add(Add(x, Shift(b2, 2)), Shift(b1, 1)), b0) == Add(x, W(b0, b1, b2, 0))
    ensures Add(Add(x, Shift(b1, 1)), b0) == Add(x, W(b0, b1, 0, 0))
    ensures Add(x, b0) == Add(x, W(b0, 0, 0, 0))
  {
    ShiftByte(b1);
    ShiftByte(b2);
    ShiftByte(b3);
    hide Add, Shift;
    AddInTurn(x, Shift(b1, 1), b0);
    AddInTurn(x, Shift(b2, 2), Shift(b1, 1));
    AddInTurn(x, Shift(b2, 2) + Shift(b1, 1), b0);
    AddInTurn(x, Shift(b3, 3), Shift(b2, 2));
    AddInTurn(x, Shift(b3, 3) + Shift(b2, 2), Shift(b1, 1));
    AddInTurn(x, Shift(b3, 3) + Shift(b2, 2) + Shift(b1, 1), b0);
  }

  method AddWord8(x: uint32, mem: seq<byte>, k: nat) returns (y: uint32)
    requires k + 4 <= |mem|
    ensures y == Add(x, W(mem[k], mem[k + 1], mem[k + 2], mem[k + 3]))
  {
    hide Add, Shift, W;
    AddUp(x, mem[k], mem[k + 1], mem[k + 2], mem[k + 3]);
    y := Add(x, mem[k]);
    y := Add(y, Shift(mem[k + 1], 1));
    y := Add(y, Shift(mem[k + 2], 2));
    y := Add(y, Shift(mem[k + 3], 3));
  }

  method Block8(s: State, mem: seq<byte>, k: nat) returns (t: State)
    requires k + 12 <= |mem|
    ensures t == Absorb(s, mem[k..k + 12])
  {
    hide Add, WordAt, W;
    WordIs(mem, k, 12, 0);
    WordIs(mem, k, 12, 4);
    WordIs(mem, k, 12, 8);
    var a := AddWord8(s.a, mem, k);
    var b := AddWord8(s.b, mem, k + 4);
    var c := AddWord8(s.c, mem, k + 8);
    t := State(a, b, c);
  }

  /** The part of the falling-through switch that adds to one word. */
  method TailWord8(x: uint32, mem: seq<byte>, k: nat, length: nat, i: nat) returns (y: uint32)
    requires k + length <= |mem|
    ensures y == Add(x, WordAt(mem[k..k + length], 4 * i))
  {
    hide Add, Shift, WordAt, W;
    WordIs(mem, k, length, 4 * i);
    if length <= 4 * i {
      AddNothing(x);
      return x;
    }
    var at := k + 4 * i;
    AddDown(x, mem[at], if length > 4 * i + 1 then mem[at + 1] else 0, if length > 4 * i + 2 then mem[at + 2] else 0,
            if length > 4 * i + 3 then mem[at + 3] else 0);
    y := x;
    if length >= 4 * i + 4 {
      y := Add(y, Shift(mem[at + 3], 3));
    }
    if length >= 4 * i + 3 {
      y := Add(y, Shift(mem[at + 2], 2));
    }
    if length >= 4 * i + 2 {
      y := Add(y, Shift(mem[at + 1], 1));
    }
    y := Add(y, mem[at]);
  }

  method Hash8(mem: seq<byte>, length: nat, initval: uint32) returns (r: uint32)
    requires length <= |mem|
    ensures r == Hash(mem[..length], initval)
  {
    var s := Start(length, initval);
    var k := 0;
    assert mem[..length] == mem[0..length];
    ghost var h := Hash(mem[..length], initval);
    hide Mix, Final, Absorb, Hash;
    while length - k > 12
      invariant 0 <= k <= length
      invariant HashFrom(s, mem[k..length]) == h
    {
      HashBlock(s, mem, k, length);
      var t := Block8(s, mem, k);
      hide HashFrom;
      s := Mix(t);
      k := k + 12;
    }
    if k == length {
      return s.c;
    }
    HashTail(s, mem, k, length);
    var t := Tail8(s, mem, k, length - k);
    r := Final(t).c;
  }

  method Tail8(s: State, mem: seq<byte>, k: nat, length: nat) returns (t: State)
    requires 0 < length <= 12 && k + length <= |mem|
    ensures t == Absorb(s, mem[k..k + length])
  {
    hide Add, WordAt;
    var c := TailWord8(s.c, mem, k, length, 2);
    var b := TailWord8(s.b, mem, k, length, 1);
    var a := TailWord8(s.a, mem, k, length, 0);
    t := State(a, b, c);
  }

  /** hashlittle: the alignment of the key chooses the path and nothing else. */
  method HashLittle(mem: seq<byte>, address: nat, length: nat, initval: uint32) returns (r: uint32)
    requires length <= |mem| && (address % 4 == 0 ==> WholeWords(0, length, |mem|))
    ensures r == Hash(mem[..length], initval)
  {
    if address % 4 == 0 {
      r := Hash32(mem, length, initval);
    } else if address % 2 == 0 {
      r := Hash16(mem, length, initval);
    } else {
      r := Hash8(mem, length, initval);
    }
  }
}
