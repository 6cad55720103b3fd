/** The check on machine words, and the values that are published for it. A word of up
    to 32 bits is kept at the top of 32, so that the bit shifted out is always the same. */
module CrcValues {

  import opened Crc

  type Word = bv32

  // -------------------------------------------------------- words and bits

  predicate Top(w: Word) { w & 0x8000_0000 != 0 }

  function Up(w: Word): Word { w + w }

  function Ups(w: Word, n: nat): Word
    decreases n
  {
    if n == 0 then w else Ups(Up(w), n - 1)
  }

  function TopBits(n: nat, w: Word): (b: Bits)
    ensures |b| == n
  {
    if n == 0 then [] else [Top(w)] + TopBits(n - 1, Up(w))
  }

  /** The word has no bits but its first n. */
  predicate Only(n: nat, w: Word) { Ups(w, n) == 0 }

  lemma UpXor(a: Word, b: Word, c: Word)
    requires c == a ^ b
    ensures Up(c) == Up(a) ^ Up(b) && (Top(c) <==> Top(a) != Top(b))
  {
  }

  lemma XorCons(x: bool, y: bool, s: Bits, t: Bits)
    requires |s| == |t|
    ensures Xor([x] + s, [y] + t) == [x != y] + Xor(s, t)
  {
  }

  lemma {:induction false} XorOfWords(n: nat, a: Word, b: Word, c: Word)
    requires c == a ^ b
    ensures Xor(TopBits(n, a), TopBits(n, b)) == TopBits(n, c)
  {
    if n == 0 {
      assert Xor([], []) == [];
    } else {
      UpXor(a, b, c);
      XorOfWords(n - 1, Up(a), Up(b), Up(c));
      XorCons(Top(a), Top(b), TopBits(n - 1, Up(a)), TopBits(n - 1, Up(b)));
    }
  }

  lemma {:induction false} UpsXor(n: nat, a: Word, b: Word, c: Word)
    requires c == a ^ b
    ensures Ups(c, n) == Ups(a, n) ^ Ups(b, n)
    decreases n
  {
    if n > 0 {
      UpXor(a, b, c);
      UpsXor(n - 1, Up(a), Up(b), Up(c));
    }
  }

  lemma OnlyXor(n: nat, a: Word, b: Word, c: Word)
    requires c == a ^ b && Only(n, a) && Only(n, b)
    ensures Only(n, c)
  {
    UpsXor(n, a, b, c);
  }

  lemma {:induction false} UpsMore(w: Word, m: nat, n: nat)
    ensures Ups(w, m + n) == Ups(Ups(w, m), n)
    decreases m
  {
    if m > 0 {
      UpsMore(Up(w), m - 1, n);
    }
  }

  lemma {:induction false} UpsNothing(n: nat)
    ensures Ups(0, n) == 0 && TopBits(n, 0) == Zeros(n)
  {
    if n > 0 {
      UpsNothing(n - 1);
      assert Zeros(n) == [false] + Zeros(n - 1);
    }
  }

  lemma OnlyMore(m: nat, n: nat, w: Word)
    requires m <= n && Only(m, w)
    ensures Only(n, w)
  {
    UpsMore(w, m, n - m);
    UpsNothing(n - m);
  }

  lemma OnlyUp(n: nat, w: Word)
    requires Only(n, w)
    ensures Only(n, Up(w))
  {
    OnlyMore(n, n + 1, w);
  }

  lemma {:induction false} TopBitsSplit(m: nat, n: nat, w: Word)
    ensures TopBits(m + n, w) == TopBits(m, w) + TopBits(n, Ups(w, m))
    decreases m
  {
    if m == 0 {
      assert [] + TopBits(n, w) == TopBits(n, w);
    } else {
      TopBitsSplit(m - 1, n, Up(w));
    }
  }

  lemma DoubleOfWord(n: nat, w: Word, u: Word)
    requires n > 0 && Only(n, w) && u == Up(w)
    ensures Double(TopBits(n, w)) == TopBits(n, u)
  {
    TopBitsSplit(n - 1, 1, u);
    UpsMore(w, 1, n - 1);
    LastIsClear(Ups(u, n - 1));
    RestOfTopBits(n, w, u);
  }

  lemma RestOfTopBits(n: nat, w: Word, u: Word)
    requires n > 0 && u == Up(w)
    ensures TopBits(n, w)[1..] == TopBits(n - 1, u)
  {
  }

  lemma LastIsClear(z: Word)
    requires z == 0
    ensures TopBits(1, z) == [false]
  {
  }

  function ShiftWord(p: Word, w: Word): Word { if Top(w) then Up(w) ^ p else Up(w) }

  lemma ShiftOfWord(n: nat, p: Word, w: Word, u: Word, v: Word)
    requires n > 0 && Only(n, p) && Only(n, w) && u == Up(w) && v == u ^ p
    ensures Shift(TopBits(n, p), TopBits(n, w)) == if Top(w) then TopBits(n, v) else TopBits(n, u)
    ensures Only(n, u) && Only(n, v)
  {
    DoubleOfWord(n, w, u);
    XorOfWords(n, u, p, v);
    OnlyUp(n, w);
    OnlyXor(n, u, p, v);
  }

  /** Eight trial divisions, after a byte was added at the top. */
  function DivideByteOf(p: Word, r: Word, byte: Word): Word {
    ShiftWord(p, ShiftWord(p, ShiftWord(p, ShiftWord(p,
      ShiftWord(p, ShiftWord(p, ShiftWord(p, ShiftWord(p, r ^ byte))))))))
  }

  function ShiftWords(p: Word, w: Word, k: nat): Word
    decreases k
  {
    if k == 0 then w else ShiftWords(p, ShiftWord(p, w), k - 1)
  }

  lemma {:induction false} ShiftsOfWord(n: nat, p: Word, w: Word, k: nat)
    requires n > 0 && Only(n, p) && Only(n, w)
    ensures Shifts(TopBits(n, p), TopBits(n, w), k) == TopBits(n, ShiftWords(p, w, k))
    ensures Only(n, ShiftWords(p, w, k))
    decreases k
  {
    if k > 0 {
      var v := ShiftWord(p, w);
      ShiftIsWord(n, p, w, v);
      ShiftsOfWord(n, p, v, k - 1);
    }
  }

  lemma ShiftIsWord(n: nat, p: Word, w: Word, v: Word)
    requires n > 0 && Only(n, p) && Only(n, w) && v == ShiftWord(p, w)
    ensures Shift(TopBits(n, p), TopBits(n, w)) == TopBits(n, v) && Only(n, v)
  {
    if Top(w) {
      ShiftOfWord(n, p, w, Up(w), v);
    } else {
      ShiftOfWord(n, p, w, v, v ^ p);
    }
  }

  lemma EightShifts(p: Word, r: Word, byte: Word, w: Word)
    requires w == r ^ byte
    ensures ShiftWords(p, w, 8) == DivideByteOf(p, r, byte)
  {
    var (w1, w2) := (ShiftWord(p, w), ShiftWord(p, ShiftWord(p, w)));
    var (w3, w4) := (ShiftWord(p, w2), ShiftWord(p, ShiftWord(p, w2)));
    FourShifts(p, w, 4);
    FourShifts(p, w4, 0);
  }

  lemma FourShifts(p: Word, w: Word, k: nat)
    ensures ShiftWords(p, w, k + 4)
         == ShiftWords(p, ShiftWord(p, ShiftWord(p, ShiftWord(p, ShiftWord(p, w)))), k)
  {
    var w1 := ShiftWord(p, w);
    assert ShiftWords(p, w, k + 4) == ShiftWords(p, w1, k + 3);
    var w2 := ShiftWord(p, w1);
    assert ShiftWords(p, w1, k + 3) == ShiftWords(p, w2, k + 2);
    var w3 := ShiftWord(p, w2);
    assert ShiftWords(p, w2, k + 2) == ShiftWords(p, w3, k + 1);
  }

  /** A byte is the word of its eight bits and zeros. */
  lemma BytePadded(n: nat, byte: Word)
    requires n >= 8 && Only(8, byte)
    ensures TopBits(8, byte) + Zeros(n - 8) == TopBits(n, byte) && Only(n, byte)
  {
    TopBitsSplit(8, n - 8, byte);
    UpsNothing(n - 8);
    OnlyMore(8, n, byte);
  }

  lemma ByteOfWord(n: nat, p: Word, r: Word, byte: Word, w: Word)
    requires n >= 8 && Only(n, p) && Only(n, r) && Only(8, byte) && w == r ^ byte
    ensures Serial(TopBits(n, p), TopBits(n, r), TopBits(8, byte)) == TopBits(n, DivideByteOf(p, r, byte))
    ensures Only(n, DivideByteOf(p, r, byte))
  {
    SerialIsShifts(TopBits(n, p), TopBits(n, r), TopBits(8, byte));
    BytePadded(n, byte);
    XorOfWords(n, r, byte, w);
    OnlyXor(n, r, byte, w);
    ShiftsOfWord(n, p, w, 8);
    EightShifts(p, r, byte, w);
  }

  /** The bytes of a message as they enter the division. */
  ghost predicate Enter(message: seq<Byte>, reflect: bool, bytes: seq<Word>) {
    && |bytes| == |message|
    && forall i :: 0 <= i < |bytes| ==> Only(8, bytes[i]) && Oriented(message[i], reflect) == TopBits(8, bytes[i])
  }

  /** A run of the machine: its remainders before the first byte and after each. */
  ghost predicate IsRun(p: Word, rs: seq<Word>, bytes: seq<Word>) {
    && |rs| == |bytes| + 1
    && forall i :: 0 <= i < |bytes| ==> rs[i + 1] == DivideByteOf(p, rs[i], bytes[i])
  }

  lemma WordAfterByte(n: nat, p: Word, before: Word, byte: Word, after: Word, b: Bits)
    requires n >= 8 && Only(n, p) && Only(n, before) && Only(8, byte) && b == TopBits(8, byte)
    requires after == DivideByteOf(p, before, byte)
    ensures Serial(TopBits(n, p), TopBits(n, before), b) == TopBits(n, after) && Only(n, after)
  {
    ByteOfWord(n, p, before, byte, before ^ byte);
  }

  /** Machine words of up to 32 bits do what bit sequences do, on every message. */
  lemma {:induction false} WordsDivide(n: nat, p: Word, rs: seq<Word>, message: seq<Byte>, reflect: bool,
                                       bytes: seq<Word>, k: nat)
    requires n >= 8 && Enter(message, reflect, bytes) && IsRun(p, rs, bytes) && k <= |message|
    requires Only(n, p) && Only(n, rs[0])
    ensures Serial(TopBits(n, p), TopBits(n, rs[0]), Stream(message[..k], reflect)) == TopBits(n, rs[k])
    ensures Only(n, rs[k])
    decreases k
  {
    if k > 0 {
      WordsDivide(n, p, rs, message, reflect, bytes, k - 1);
      NextByte(TopBits(n, p), TopBits(n, rs[0]), message, k - 1, reflect);
      WordAfterByte(n, p, rs[k - 1], bytes[k - 1], rs[k], Oriented(message[k - 1], reflect));
    }
  }

  // ------------------------------------------------------- numbers and words

  lemma {:induction false} BitsSplit(m: nat, n: nat, hi: nat, lo: nat)
    requires lo < Power2(n)
    ensures BitsOf(m + n, hi * Power2(n) + lo) == BitsOf(m, hi) + BitsOf(n, lo)
    decreases n
  {
    if n == 0 {
      assert BitsOf(0, lo) == [];
    } else {
      HalfOf(hi, Power2(n - 1), lo);
      BitsSplit(m, n - 1, hi, lo / 2);
      LastBit(m + n, hi * Power2(n) + lo);
      LastBit(n, lo);
    }
  }

  lemma HalfOf(hi: nat, half: nat, lo: nat)
    ensures (hi * (2 * half) + lo) / 2 == hi * half + lo / 2 && (hi * (2 * half) + lo) % 2 == lo % 2
  {
    assert hi * (2 * half) == 2 * (hi * half);
  }

  lemma PowersOfByte()
    ensures Power2(8) == 0x100 && Power2(16) == 0x1_0000
  {
    assert Power2(4) == 16;
    assert Power2(8) == 256;
    assert Power2(12) == 4096;
  }

  /** The top byte of a word, as a number, and what that number is in reverse. */
  ghost predicate Spells(v: nat, w: Word) { v < 0x100 && BitsOf(8, v) == TopBits(8, w) }

  ghost predicate Mirrors(v: nat, w: Word) { v < 0x100 && Reversed(BitsOf(8, v)) == TopBits(8, w) }

  lemma OneTop(n: nat, w: Word, x: Word)
    requires x == Up(w)
    ensures TopBits(n + 1, w) == [Top(w)] + TopBits(n, x)
  {
  }

  lemma TwoTops(n: nat, w: Word, x: Word, y: Word)
    requires x == Up(w) && y == Up(x)
    ensures TopBits(n + 2, w) == [Top(w), Top(x)] + TopBits(n, y)
  {
    OneTop(n + 1, w, x);
    OneTop(n, x, y);
  }

  lemma FourTops(n: nat, w: Word, x: Word, y: Word, z: Word, t: Word)
    requires x == Up(w) && y == Up(x) && z == Up(y) && t == Up(z)
    ensures TopBits(n + 4, w)
         == [w & 0x8000_0000 != 0, w & 0x4000_0000 != 0, w & 0x2000_0000 != 0, w & 0x1000_0000 != 0] + TopBits(n, t)
  {
    TwoTops(n + 2, w, x, y);
    TwoTops(n, y, z, t);
    FourMasks(w, x, y, z);
  }

  lemma FourMasks(w: Word, x: Word, y: Word, z: Word)
    requires x == Up(w) && y == Up(x) && z == Up(y)
    ensures Top(w) <==> w & 0x8000_0000 != 0
    ensures Top(x) <==> w & 0x4000_0000 != 0
    ensures Top(y) <==> w & 0x2000_0000 != 0
    ensures Top(z) <==> w & 0x1000_0000 != 0
  {
  }

  lemma NextFour(w: Word, x: Word, y: Word, z: Word, t: Word)
    requires x == Up(w) && y == Up(x) && z == Up(y) && t == Up(z)
    ensures t & 0x8000_0000 != 0 <==> w & 0x0800_0000 != 0
    ensures t & 0x4000_0000 != 0 <==> w & 0x0400_0000 != 0
    ensures t & 0x2000_0000 != 0 <==> w & 0x0200_0000 != 0
    ensures t & 0x1000_0000 != 0 <==> w & 0x0100_0000 != 0
  {
  }

  lemma TopFour(n: nat, w: Word) returns (t: Word)
    ensures TopBits(n + 4, w)
         == [w & 0x8000_0000 != 0, w & 0x4000_0000 != 0, w & 0x2000_0000 != 0, w & 0x1000_0000 != 0] + TopBits(n, t)
    ensures t & 0x8000_0000 != 0 <==> w & 0x0800_0000 != 0
    ensures t & 0x4000_0000 != 0 <==> w & 0x0400_0000 != 0
    ensures t & 0x2000_0000 != 0 <==> w & 0x0200_0000 != 0
    ensures t & 0x1000_0000 != 0 <==> w & 0x0100_0000 != 0
  {
    var (x, y, z) := (Up(w), Up(Up(w)), Up(Up(Up(w))));
    t := Up(z);
    FourTops(n, w, x, y, z, t);
    NextFour(w, x, y, z, t);
  }

  lemma TopByte(w: Word) returns (b: Bits)
    ensures b == [w & 0x8000_0000 != 0, w & 0x4000_0000 != 0, w & 0x2000_0000 != 0, w & 0x1000_0000 != 0]
               + [w & 0x0800_0000 != 0, w & 0x0400_0000 != 0, w & 0x0200_0000 != 0, w & 0x0100_0000 != 0]
    ensures TopBits(8, w) == b
  {
    b := TopBits(8, w);
    var t := TopFour(4, w);
    var r := TopFour(0, t);
    assert TopBits(0, r) == [];
  }

  lemma FourBits(n: nat, v: nat, x: nat, y: nat, z: nat)
    requires x == v / 2 && y == x / 2 && z == y / 2
    ensures BitsOf(n + 4, v) == BitsOf(n, z / 2) + [z % 2 == 1, y % 2 == 1, x % 2 == 1, v % 2 == 1]
  {
    LastBit(n + 4, v);
    LastBit(n + 3, x);
    LastBit(n + 2, y);
    LastBit(n + 1, z);
  }
  lemma ByteBits(v: nat, t: nat) returns (b: Bits)
    requires t == v / 16
    ensures b == [t / 8 % 2 == 1, t / 4 % 2 == 1, t / 2 % 2 == 1, t % 2 == 1]
                + [v / 8 % 2 == 1, v / 4 % 2 == 1, v / 2 % 2 == 1, v % 2 == 1]
    ensures BitsOf(8, v) == b
  {
    b := BitsOf(8, v);
    FourBits(4, v, v / 2, v / 4, v / 8);
    FourBits(0, t, t / 2, t / 4, t / 8);
    assert BitsOf(0, t / 16) == [];
  }

  /** The eight bits one by one; `t` is the upper half of the byte. */
  predicate SameBits(v: nat, t: nat, w: Word) {
    && v < 0x100 && t == v / 16
    && (t / 8 % 2 == 1 <==> w & 0x8000_0000 != 0) && (t / 4 % 2 == 1 <==> w & 0x4000_0000 != 0)
    && (t / 2 % 2 == 1 <==> w & 0x2000_0000 != 0) && (t % 2 == 1 <==> w & 0x1000_0000 != 0)
    && (v / 8 % 2 == 1 <==> w & 0x0800_0000 != 0) && (v / 4 % 2 == 1 <==> w & 0x0400_0000 != 0)
    && (v / 2 % 2 == 1 <==> w & 0x0200_0000 != 0) && (v % 2 == 1 <==> w & 0x0100_0000 != 0)
  }

  predicate OpposedBits(v: nat, t: nat, w: Word) {
    && v < 0x100 && t == v / 16
    && (v % 2 == 1 <==> w & 0x8000_0000 != 0) && (v / 2 % 2 == 1 <==> w & 0x4000_0000 != 0)
    && (v / 4 % 2 == 1 <==> w & 0x2000_0000 != 0) && (v / 8 % 2 == 1 <==> w & 0x1000_0000 != 0)
    && (t % 2 == 1 <==> w & 0x0800_0000 != 0) && (t / 2 % 2 == 1 <==> w & 0x0400_0000 != 0)
    && (t / 4 % 2 == 1 <==> w & 0x0200_0000 != 0) && (t / 8 % 2 == 1 <==> w & 0x0100_0000 != 0)
  }

  lemma SameSpells(v: nat, t: nat, w: Word)
    requires SameBits(v, t, w)
    ensures Spells(v, w)
  {
    var b := ByteBits(v, t);
    var c := TopByte(w);
  }
  lemma ReversedByte(v: nat, t: nat) returns (b: Bits)
    requires t == v / 16
    ensures b == [v % 2 == 1, v / 2 % 2 == 1, v / 4 % 2 == 1, v / 8 % 2 == 1]
               + [t % 2 == 1, t / 2 % 2 == 1, t / 4 % 2 == 1, t / 8 % 2 == 1]
    ensures Reversed(BitsOf(8, v)) == b
  {
    var c := ByteBits(v, t);
    b := ReversedEight(c);
  }

  lemma ReversedEight(c: Bits) returns (b: Bits)
    requires |c| == 8
    ensures b == [c[7], c[6], c[5], c[4]] + [c[3], c[2], c[1], c[0]] && b == Reversed(c)
  {
    b := Reversed(c);
  }

  lemma OpposedMirrors(v: nat, t: nat, w: Word)
    requires OpposedBits(v, t, w)
    ensures Mirrors(v, w)
  {
    var b := ReversedByte(v, t);
    var c := TopByte(w);
  }

  /** Two bytes of a number are the first two of a word. */
  lemma Halfword(hi: nat, lo: nat, w: Word, u: Word, z: Word)
    requires SameBits(hi, hi / 16, w) && SameBits(lo, lo / 16, u) && u == Ups(w, 8) && z == Ups(u, 8)
    ensures BitsOf(16, hi * 0x100 + lo) == TopBits(16, w) && Ups(w, 16) == z
  {
    SameSpells(hi, hi / 16, w);
    SameSpells(lo, lo / 16, u);
    TwoBytes(hi, lo, w, u);
    UpsMore(w, 8, 8);
  }

  lemma MirroredHalfword(hi: nat, lo: nat, w: Word, u: Word, z: Word)
    requires OpposedBits(hi, hi / 16, u) && OpposedBits(lo, lo / 16, w) && u == Ups(w, 8) && z == Ups(u, 8)
    ensures Reversed(BitsOf(16, hi * 0x100 + lo)) == TopBits(16, w) && Ups(w, 16) == z
  {
    OpposedMirrors(hi, hi / 16, u);
    OpposedMirrors(lo, lo / 16, w);
    TwoMirrored(hi, lo, w, u);
    UpsMore(w, 8, 8);
  }

  lemma TwoBytes(hi: nat, lo: nat, w: Word, u: Word)
    requires Spells(hi, w) && Spells(lo, u) && u == Ups(w, 8)
    ensures BitsOf(16, hi * 0x100 + lo) == TopBits(16, w)
  {
    PowersOfByte();
    BitsSplit(8, 8, hi, lo);
    TopBitsSplit(8, 8, w);
  }

  lemma FourBytes(hi: nat, lo: nat, w: Word, u: Word)
    requires lo < 0x1_0000 && u == Ups(w, 16)
    requires BitsOf(16, hi) == TopBits(16, w) && BitsOf(16, lo) == TopBits(16, u)
    ensures BitsOf(32, hi * 0x1_0000 + lo) == TopBits(32, w)
  {
    PowersOfByte();
    BitsSplit(16, 16, hi, lo);
    TopBitsSplit(16, 16, w);
  }

  lemma ReversedSum(a: Bits, b: Bits)
    ensures Reversed(a + b) == Reversed(b) + Reversed(a)
  {
  }

  lemma TwoMirrored(hi: nat, lo: nat, w: Word, u: Word)
    requires Mirrors(hi, u) && Mirrors(lo, w) && u == Ups(w, 8)
    ensures Reversed(BitsOf(16, hi * 0x100 + lo)) == TopBits(16, w)
  {
    PowersOfByte();
    BitsSplit(8, 8, hi, lo);
    TopBitsSplit(8, 8, w);
    ReversedSum(BitsOf(8, hi), BitsOf(8, lo));
  }

  lemma FourMirrored(hi: nat, lo: nat, w: Word, u: Word)
    requires lo < 0x1_0000 && u == Ups(w, 16)
    requires Reversed(BitsOf(16, hi)) == TopBits(16, u) && Reversed(BitsOf(16, lo)) == TopBits(16, w)
    ensures Reversed(BitsOf(32, hi * 0x1_0000 + lo)) == TopBits(32, w)
  {
    PowersOfByte();
    BitsSplit(16, 16, hi, lo);
    TopBitsSplit(16, 16, w);
    ReversedSum(BitsOf(16, hi), BitsOf(16, lo));
  }

  lemma EightUps(w: Word)
    ensures Ups(w, 8) == Up(Up(Up(Up(Up(Up(Up(Up(w))))))))
  {
    FourUps(w, 4);
    FourUps(Up(Up(Up(Up(w)))), 0);
  }

  lemma FourUps(w: Word, n: nat)
    ensures Ups(w, n + 4) == Ups(Up(Up(Up(Up(w)))), n)
  {
    assert Ups(w, n + 4) == Ups(Up(w), n + 3);
    assert Ups(Up(w), n + 3) == Ups(Up(Up(w)), n + 2);
    assert Ups(Up(Up(w)), n + 2) == Ups(Up(Up(Up(w))), n + 1);
  }

  lemma OnlyByte(w: Word)
    requires w & 0x00FF_FFFF == 0
    ensures Only(8, w)
  {
  }

  // ---------------------------------------------------- the published message

  /** The nine characters "123456789". */
  function Digits(): (message: seq<Byte>)
    ensures |message| == 9
  {
    seq(9, i requires 0 <= i < 9 => BitsOf(8, 0x31 + i))
  }

  function DigitWord(k: nat): Word
    requires k < 9
  {
    match k
    case 0 => 0x3100_0000
    case 1 => 0x3200_0000
    case 2 => 0x3300_0000
    case 3 => 0x3400_0000
    case 4 => 0x3500_0000
    case 5 => 0x3600_0000
    case 6 => 0x3700_0000
    case 7 => 0x3800_0000
    case 8 => 0x3900_0000
  }

  function MirroredWord(k: nat): Word
    requires k < 9
  {
    match k
    case 0 => 0x8C00_0000
    case 1 => 0x4C00_0000
    case 2 => 0xCC00_0000
    case 3 => 0x2C00_0000
    case 4 => 0xAC00_0000
    case 5 => 0x6C00_0000
    case 6 => 0xEC00_0000
    case 7 => 0x1C00_0000
    case 8 => 0x9C00_0000
  }

  /** The word that enters the division for a byte. */
  ghost predicate Feeds(b: Byte, reflect: bool, w: Word) {
    Only(8, w) && Oriented(b, reflect) == TopBits(8, w)
  }

  lemma DigitFeeds(k: nat, v: nat, w: Word)
    requires k < 9 && v == 0x31 + k && w == DigitWord(k)
    ensures Feeds(BitsOf(8, v), false, w)
  {
    OnlyByte(w);
    SameSpells(v, v / 16, w);
  }

  lemma MirroredFeeds(k: nat, v: nat, w: Word)
    requires k < 9 && v == 0x31 + k && w == MirroredWord(k)
    ensures Feeds(BitsOf(8, v), true, w)
  {
    OnlyByte(w);
    OpposedMirrors(v, v / 16, w);
  }

  function DigitWords(reflect: bool): (words: seq<Word>)
    ensures |words| == 9
  {
    seq(9, k requires 0 <= k < 9 => if reflect then MirroredWord(k) else DigitWord(k))
  }

  lemma DigitsEnter(reflect: bool)
    ensures Enter(Digits(), reflect, DigitWords(reflect))
  {
    forall k: nat | k < 9 ensures Feeds(Digits()[k], reflect, DigitWords(reflect)[k]) {
      if reflect {
        MirroredFeeds(k, 0x31 + k, MirroredWord(k));
      } else {
        DigitFeeds(k, 0x31 + k, DigitWord(k));
      }
    }
  }

  lemma DigitsDivide(n: nat, p: Word, rs: seq<Word>, reflect: bool, i: Word, r: Word)
    requires n >= 8 && IsRun(p, rs, DigitWords(reflect)) && Only(n, p) && Only(n, i)
    requires i == rs[0] && r == rs[9]
    ensures Serial(TopBits(n, p), TopBits(n, i), Stream(Digits(), reflect)) == TopBits(n, r)
  {
    DigitsEnter(reflect);
    WordsDivide(n, p, rs, Digits(), reflect, DigitWords(reflect), 9);
    assert Digits()[..9] == Digits();
  }

  lemma CheckByWords(std: Standard, message: seq<Byte>, n: nat, s: Bits, m: Word, f: Word, c: Word)
    requires std.Valid() && s == Serial(std.polynomial, std.initial, Stream(message, std.reflectData))
    requires Oriented(s, std.reflectRemainder) == TopBits(n, m) && std.finalXor == TopBits(n, f) && c == m ^ f
    ensures Check(std, message) == TopBits(n, c)
  {
    XorOfWords(n, m, f, c);
  }

  function CcittAt(k: nat): Word
    requires k <= 9
  {
    match k
    case 0 => 0xFFFF_0000
    case 1 => 0xC782_0000
    case 2 => 0x3DBA_0000
    case 3 => 0x5BCE_0000
    case 4 => 0x5349_0000
    case 5 => 0x4560_0000
    case 6 => 0x2EF4_0000
    case 7 => 0x7718_0000
    case 8 => 0xA12B_0000
    case 9 => 0x29B1_0000
  }

  lemma CcittStep(k: nat)
    requires k < 9
    ensures DivideByteOf(0x1021_0000, CcittAt(k), DigitWord(k)) == CcittAt(k + 1)
  {
  }

  lemma CcittRun(p: Word) returns (rs: seq<Word>)
    requires p == 0x1021_0000
    ensures IsRun(p, rs, DigitWords(false)) && rs[0] == 0xFFFF_0000 && rs[9] == 0x29B1_0000
  {
    rs := seq(10, k requires 0 <= k < 10 => CcittAt(k));
    forall k: nat | k < 9 ensures rs[k + 1] == DivideByteOf(p, rs[k], DigitWords(false)[k]) {
      CcittStep(k);
    }
  }

  function MirroredCcittAt(k: nat): Word
    requires k <= 9
  {
    match k
    case 0 => 0xFFFF_0000
    case 1 => 0xB1F4_0000
    case 2 => 0xCAB2_0000
    case 3 => 0xD2C6_0000
    case 4 => 0xC8D1_0000
    case 5 => 0xFD22_0000
    case 6 => 0xB198_0000
    case 7 => 0x1358_0000
    case 8 => 0xA9EF_0000
    case 9 => 0x89F6_0000
  }

  lemma MirroredCcittStep(k: nat)
    requires k < 9
    ensures DivideByteOf(0x1021_0000, MirroredCcittAt(k), MirroredWord(k)) == MirroredCcittAt(k + 1)
  {
  }

  lemma MirroredCcittRun(p: Word) returns (rs: seq<Word>)
    requires p == 0x1021_0000
    ensures IsRun(p, rs, DigitWords(true)) && rs[0] == 0xFFFF_0000 && rs[9] == 0x89F6_0000
  {
    rs := seq(10, k requires 0 <= k < 10 => MirroredCcittAt(k));
    forall k: nat | k < 9 ensures rs[k + 1] == DivideByteOf(p, rs[k], DigitWords(true)[k]) {
      MirroredCcittStep(k);
    }
  }

  function Crc16At(k: nat): Word
    requires k <= 9
  {
    match k
    case 0 => 0x0000_0000
    case 1 => 0x832B_0000
    case 2 => 0x29A2_0000
    case 3 => 0x205D_0000
    case 4 => 0x5D28_0000
    case 5 => 0xAA25_0000
    case 6 => 0x2794_0000
    case 7 => 0x16B9_0000
    case 8 => 0xB93C_0000
    case 9 => 0xBCDD_0000
  }

  lemma Crc16Step(k: nat)
    requires k < 9
    ensures DivideByteOf(0x8005_0000, Crc16At(k), MirroredWord(k)) == Crc16At(k + 1)
  {
  }

  lemma Crc16Run(p: Word) returns (rs: seq<Word>)
    requires p == 0x8005_0000
    ensures IsRun(p, rs, DigitWords(true)) && rs[0] == 0x0000_0000 && rs[9] == 0xBCDD_0000
  {
    rs := seq(10, k requires 0 <= k < 10 => Crc16At(k));
    forall k: nat | k < 9 ensures rs[k + 1] == DivideByteOf(p, rs[k], DigitWords(true)[k]) {
      Crc16Step(k);
    }
  }

  function Crc32At(k: nat): Word
    requires k <= 9
  {
    match k
    case 0 => 0xFFFF_FFFF
    case 1 => 0x1208_C43E
    case 2 => 0x4CDD_350D
    case 3 => 0xB439_EDEE
    case 4 => 0x3AF8_3826
    case 5 => 0xC7A3_502C
    case 6 => 0x7934_B16F
    case 7 => 0x0669_3FF5
    case 8 => 0x0AA4_F8A6
    case 9 => 0x9B63_D02C
  }

  lemma Crc32Step(k: nat)
    requires k < 9
    ensures DivideByteOf(0x04C1_1DB7, Crc32At(k), MirroredWord(k)) == Crc32At(k + 1)
  {
  }

  lemma Crc32Run(p: Word) returns (rs: seq<Word>)
    requires p == 0x04C1_1DB7
    ensures IsRun(p, rs, DigitWords(true)) && rs[0] == 0xFFFF_FFFF && rs[9] == 0x9B63_D02C
  {
    rs := seq(10, k requires 0 <= k < 10 => Crc32At(k));
    forall k: nat | k < 9 ensures rs[k + 1] == DivideByteOf(p, rs[k], DigitWords(true)[k]) {
      Crc32Step(k);
    }
  }

  // ------------------------------------------------------ the published checks

  lemma Word1021(w: Word, u: Word, z: Word)
    requires w == 0x1021_0000 && u == 0x2100_0000 && z == 0x0000_0000
    ensures BitsOf(16, 0x1021) == TopBits(16, w) && Ups(w, 16) == z
  {
    EightUps(w);
    EightUps(u);
    Halfword(0x10, 0x21, w, u, z);
  }

  lemma WordFFFF(w: Word, u: Word, z: Word)
    requires w == 0xFFFF_0000 && u == 0xFF00_0000 && z == 0x0000_0000
    ensures BitsOf(16, 0xFFFF) == TopBits(16, w) && Ups(w, 16) == z
  {
    EightUps(w);
    EightUps(u);
    Halfword(0xFF, 0xFF, w, u, z);
  }

  lemma Word29B1(w: Word, u: Word, z: Word)
    requires w == 0x29B1_0000 && u == 0xB100_0000 && z == 0x0000_0000
    ensures BitsOf(16, 0x29B1) == TopBits(16, w) && Ups(w, 16) == z
  {
    EightUps(w);
    EightUps(u);
    Halfword(0x29, 0xB1, w, u, z);
  }

  lemma Word8005(w: Word, u: Word, z: Word)
    requires w == 0x8005_0000 && u == 0x0500_0000 && z == 0x0000_0000
    ensures BitsOf(16, 0x8005) == TopBits(16, w) && Ups(w, 16) == z
  {
    EightUps(w);
    EightUps(u);
    Halfword(0x80, 0x05, w, u, z);
  }

  lemma WordBB3D(w: Word, u: Word, z: Word)
    requires w == 0xBB3D_0000 && u == 0x3D00_0000 && z == 0x0000_0000
    ensures BitsOf(16, 0xBB3D) == TopBits(16, w) && Ups(w, 16) == z
  {
    EightUps(w);
    EightUps(u);
    Halfword(0xBB, 0x3D, w, u, z);
  }

  lemma Word89F6(w: Word, u: Word, z: Word)
    requires w == 0x89F6_0000 && u == 0xF600_0000 && z == 0x0000_0000
    ensures BitsOf(16, 0x89F6) == TopBits(16, w) && Ups(w, 16) == z
  {
    EightUps(w);
    EightUps(u);
    Halfword(0x89, 0xF6, w, u, z);
  }

  lemma Word6F91(w: Word, u: Word, z: Word)
    requires w == 0x6F91_0000 && u == 0x9100_0000 && z == 0x0000_0000
    ensures BitsOf(16, 0x6F91) == TopBits(16, w) && Ups(w, 16) == z
  {
    EightUps(w);
    EightUps(u);
    Halfword(0x6F, 0x91, w, u, z);
  }

  lemma Reversed89F6(w: Word, u: Word, z: Word)
    requires w == 0x6F91_0000 && u == 0x9100_0000 && z == 0x0000_0000
    ensures Reversed(BitsOf(16, 0x89F6)) == TopBits(16, w) && Ups(w, 16) == z
  {
    EightUps(w);
    EightUps(u);
    MirroredHalfword(0x89, 0xF6, w, u, z);
  }

  lemma ReversedBCDD(w: Word, u: Word, z: Word)
    requires w == 0xBB3D_0000 && u == 0x3D00_0000 && z == 0x0000_0000
    ensures Reversed(BitsOf(16, 0xBCDD)) == TopBits(16, w) && Ups(w, 16) == z
  {
    EightUps(w);
    EightUps(u);
    MirroredHalfword(0xBC, 0xDD, w, u, z);
  }

  lemma Word04C1(w: Word, u: Word, z: Word)
    requires w == 0x04C1_1DB7 && u == 0xC11D_B700 && z == 0x1DB7_0000
    ensures BitsOf(16, 0x04C1) == TopBits(16, w) && Ups(w, 16) == z
  {
    EightUps(w);
    EightUps(u);
    Halfword(0x04, 0xC1, w, u, z);
  }

  lemma Word1DB7(w: Word, u: Word, z: Word)
    requires w == 0x1DB7_0000 && u == 0xB700_0000 && z == 0x0000_0000
    ensures BitsOf(16, 0x1DB7) == TopBits(16, w) && Ups(w, 16) == z
  {
    EightUps(w);
    EightUps(u);
    Halfword(0x1D, 0xB7, w, u, z);
  }

  lemma AllOnes(w: Word, u: Word, z: Word)
    requires w == 0xFFFF_FFFF && u == 0xFFFF_FF00 && z == 0xFFFF_0000
    ensures BitsOf(16, 0xFFFF) == TopBits(16, w) && Ups(w, 16) == z
  {
    EightUps(w);
    EightUps(u);
    Halfword(0xFF, 0xFF, w, u, z);
  }

  lemma WordCBF4(w: Word, u: Word, z: Word)
    requires w == 0xCBF4_3926 && u == 0xF439_2600 && z == 0x3926_0000
    ensures BitsOf(16, 0xCBF4) == TopBits(16, w) && Ups(w, 16) == z
  {
    EightUps(w);
    EightUps(u);
    Halfword(0xCB, 0xF4, w, u, z);
  }

  lemma Word3926(w: Word, u: Word, z: Word)
    requires w == 0x3926_0000 && u == 0x2600_0000 && z == 0x0000_0000
    ensures BitsOf(16, 0x3926) == TopBits(16, w) && Ups(w, 16) == z
  {
    EightUps(w);
    EightUps(u);
    Halfword(0x39, 0x26, w, u, z);
  }

  lemma ReversedD02C(w: Word, u: Word, z: Word)
    requires w == 0x340B_C6D9 && u == 0x0BC6_D900 && z == 0xC6D9_0000
    ensures Reversed(BitsOf(16, 0xD02C)) == TopBits(16, w) && Ups(w, 16) == z
  {
    EightUps(w);
    EightUps(u);
    MirroredHalfword(0xD0, 0x2C, w, u, z);
  }

  lemma Reversed9B63(w: Word, u: Word, z: Word)
    requires w == 0xC6D9_0000 && u == 0xD900_0000 && z == 0x0000_0000
    ensures Reversed(BitsOf(16, 0x9B63)) == TopBits(16, w) && Ups(w, 16) == z
  {
    EightUps(w);
    EightUps(u);
    MirroredHalfword(0x9B, 0x63, w, u, z);
  }

  lemma Word9B63(w: Word, u: Word, z: Word)
    requires w == 0x9B63_D02C && u == 0x63D0_2C00 && z == 0xD02C_0000
    ensures BitsOf(16, 0x9B63) == TopBits(16, w) && Ups(w, 16) == z
  {
    EightUps(w);
    EightUps(u);
    Halfword(0x9B, 0x63, w, u, z);
  }

  lemma WordD02C(w: Word, u: Word, z: Word)
    requires w == 0xD02C_0000 && u == 0x2C00_0000 && z == 0x0000_0000
    ensures BitsOf(16, 0xD02C) == TopBits(16, w) && Ups(w, 16) == z
  {
    EightUps(w);
    EightUps(u);
    Halfword(0xD0, 0x2C, w, u, z);
  }

  lemma WordBCDD(w: Word, u: Word, z: Word)
    requires w == 0xBCDD_0000 && u == 0xDD00_0000 && z == 0x0000_0000
    ensures BitsOf(16, 0xBCDD) == TopBits(16, w) && Ups(w, 16) == z
  {
    EightUps(w);
    EightUps(u);
    Halfword(0xBC, 0xDD, w, u, z);
  }

  lemma {:induction false} NothingAt(k: nat)
    ensures !BitAt(0, k)
  {
    if k > 0 {
      NothingAt(k - 1);
    }
  }

  lemma NoBits(n: nat, z: Word)
    requires z == 0
    ensures BitsOf(n, 0) == TopBits(n, z) && Only(n, z)
  {
    UpsNothing(n);
    forall k: nat ensures !BitAt(0, k) {
      NothingAt(k);
    }
  }

  lemma CcittByWords(std: Standard, p: Word, i: Word, r: Word, z: Word)
    requires std == CrcCcitt(std.reflectData, false) && BitsOf(16, 0) == TopBits(16, z) && r == r ^ z
    requires BitsOf(16, 0x1021) == TopBits(16, p) && BitsOf(16, 0xFFFF) == TopBits(16, i)
    requires Serial(TopBits(16, p), TopBits(16, i), Stream(Digits(), std.reflectData)) == TopBits(16, r)
    ensures std.Valid() && Check(std, Digits()) == TopBits(16, r)
  {
    CheckByWords(std, Digits(), 16, TopBits(16, r), r, z, r);
  }

  lemma CcittValue(std: Standard, p: Word, i: Word, r: Word, z: Word)
    requires std == CrcCcitt(false, false)
    requires p == 0x1021_0000 && i == 0xFFFF_0000 && r == 0x29B1_0000 && z == 0
    ensures std.Valid() && Check(std, Digits()) == BitsOf(16, 0x29B1)
  {
    Word1021(p, 0x2100_0000, z);
    WordFFFF(i, 0xFF00_0000, z);
    Word29B1(r, 0xB100_0000, z);
    NoBits(16, z);
    var rs := CcittRun(p);
    DigitsDivide(16, p, rs, false, i, r);
    CcittByWords(std, p, i, r, z);
  }

  lemma MirroredCcittValue(std: Standard, p: Word, i: Word, r: Word, z: Word)
    requires std == CrcCcitt(true, false)
    requires p == 0x1021_0000 && i == 0xFFFF_0000 && r == 0x89F6_0000 && z == 0
    ensures std.Valid() && Check(std, Digits()) == BitsOf(16, 0x89F6)
  {
    Word1021(p, 0x2100_0000, z);
    WordFFFF(i, 0xFF00_0000, z);
    Word89F6(r, 0xF600_0000, z);
    NoBits(16, z);
    var rs := MirroredCcittRun(p);
    DigitsDivide(16, p, rs, true, i, r);
    CcittByWords(std, p, i, r, z);
  }

  lemma Crc16ByWords(std: Standard, p: Word, r: Word, m: Word, z: Word)
    requires std == Crc16() && BitsOf(16, 0) == TopBits(16, z) && m == m ^ z
    requires BitsOf(16, 0x8005) == TopBits(16, p) && Reversed(TopBits(16, r)) == TopBits(16, m)
    requires Serial(TopBits(16, p), TopBits(16, z), Stream(Digits(), true)) == TopBits(16, r)
    ensures std.Valid() && Check(std, Digits()) == TopBits(16, m)
  {
    CheckByWords(std, Digits(), 16, TopBits(16, r), m, z, m);
  }

  lemma Crc16Value(std: Standard, p: Word, r: Word, m: Word, z: Word)
    requires std == Crc16()
    requires p == 0x8005_0000 && r == 0xBCDD_0000 && m == 0xBB3D_0000 && z == 0
    ensures std.Valid() && Check(std, Digits()) == BitsOf(16, 0xBB3D)
  {
    Word8005(p, 0x0500_0000, z);
    WordBCDD(r, 0xDD00_0000, z);
    ReversedBCDD(m, 0x3D00_0000, z);
    WordBB3D(m, 0x3D00_0000, z);
    var rs := Crc16Run(p);
    NoBits(16, z);
    DigitsDivide(16, p, rs, true, z, r);
    Crc16ByWords(std, p, r, m, z);
  }

  lemma Fullword(hi: nat, lo: nat, w: Word, u: Word)
    requires lo < 0x1_0000 && u == Ups(w, 16) && Ups(u, 16) == 0
    requires BitsOf(16, hi) == TopBits(16, w) && BitsOf(16, lo) == TopBits(16, u)
    ensures BitsOf(32, hi * 0x1_0000 + lo) == TopBits(32, w) && Only(32, w)
  {
    FourBytes(hi, lo, w, u);
    UpsMore(w, 16, 16);
  }

  lemma Crc32Words(p: Word, i: Word, c: Word, z: Word)
    requires p == 0x04C1_1DB7 && i == 0xFFFF_FFFF && c == 0xCBF4_3926 && z == 0
    ensures BitsOf(32, 0x04C1_1DB7) == TopBits(32, p) && Only(32, p)
    ensures BitsOf(32, 0xFFFF_FFFF) == TopBits(32, i) && Only(32, i)
    ensures BitsOf(32, 0xCBF4_3926) == TopBits(32, c)
  {
    Word04C1(p, 0xC11D_B700, 0x1DB7_0000);
    Word1DB7(0x1DB7_0000, 0xB700_0000, z);
    Fullword(0x04C1, 0x1DB7, p, 0x1DB7_0000);
    AllOnes(i, 0xFFFF_FF00, 0xFFFF_0000);
    WordFFFF(0xFFFF_0000, 0xFF00_0000, z);
    Fullword(0xFFFF, 0xFFFF, i, 0xFFFF_0000);
    WordCBF4(c, 0xF439_2600, 0x3926_0000);
    Word3926(0x3926_0000, 0x2600_0000, z);
    Fullword(0xCBF4, 0x3926, c, 0x3926_0000);
  }

  lemma Crc32Reversed(r: Word, m: Word, z: Word)
    requires r == 0x9B63_D02C && m == 0x340B_C6D9 && z == 0
    ensures Reversed(TopBits(32, r)) == TopBits(32, m)
  {
    Word9B63(r, 0x63D0_2C00, 0xD02C_0000);
    WordD02C(0xD02C_0000, 0x2C00_0000, z);
    Fullword(0x9B63, 0xD02C, r, 0xD02C_0000);
    ReversedD02C(m, 0x0BC6_D900, 0xC6D9_0000);
    Reversed9B63(0xC6D9_0000, 0xD900_0000, z);
    FourMirrored(0x9B63, 0xD02C, m, 0xC6D9_0000);
  }

  lemma Crc32ByWords(std: Standard, p: Word, i: Word, r: Word, m: Word, c: Word)
    requires std == Crc32(32) && c == m ^ i
    requires BitsOf(32, 0x04C1_1DB7) == TopBits(32, p) && BitsOf(32, 0xFFFF_FFFF) == TopBits(32, i)
    requires Serial(TopBits(32, p), TopBits(32, i), Stream(Digits(), true)) == TopBits(32, r)
    requires Reversed(TopBits(32, r)) == TopBits(32, m)
    ensures std.Valid() && Check(std, Digits()) == TopBits(32, c)
  {
    CheckByWords(std, Digits(), 32, TopBits(32, r), m, i, c);
  }

  lemma Crc32Value(std: Standard, p: Word, i: Word, r: Word, m: Word, c: Word)
    requires std == Crc32(32) && p == 0x04C1_1DB7 && i == 0xFFFF_FFFF
    requires r == 0x9B63_D02C && m == 0x340B_C6D9 && c == 0xCBF4_3926
    ensures std.Valid() && Check(std, Digits()) == BitsOf(32, 0xCBF4_3926)
  {
    Crc32Words(p, i, c, 0);
    Crc32Reversed(r, m, 0);
    var rs := Crc32Run(p);
    DigitsDivide(32, p, rs, true, i, r);
    Crc32ByWords(std, p, i, r, m, c);
  }

  /** The three values that are published with the standards. */
  lemma PublishedValues()
    ensures CrcCcitt(false, false).Valid() && Crc16().Valid() && Crc32(32).Valid()
    ensures Check(CrcCcitt(false, false), Digits()) == BitsOf(16, 0x29B1)
    ensures Check(Crc16(), Digits()) == BitsOf(16, 0xBB3D)
    ensures Check(Crc32(32), Digits()) == BitsOf(32, 0xCBF4_3926)
  {
    CcittValue(CrcCcitt(false, false), 0x1021_0000, 0xFFFF_0000, 0x29B1_0000, 0);
    Crc16Value(Crc16(), 0x8005_0000, 0xBCDD_0000, 0xBB3D_0000, 0);
    Crc32Value(Crc32(32), 0x04C1_1DB7, 0xFFFF_FFFF, 0x9B63_D02C, 0x340B_C6D9, 0xCBF4_3926);
  }

  // ------------------------------------------------- what reflection means

  function EachReversed(message: seq<Byte>): (m: seq<Byte>)
    ensures |m| == |message|
  {
    seq(|message|, i requires 0 <= i < |message| => Reversed(message[i]))
  }

  lemma {:induction false} StreamReversed(message: seq<Byte>)
    ensures Stream(message, true) == Stream(EachReversed(message), false)
    decreases |message|
  {
    if message != [] {
      var init := message[..|message| - 1];
      assert EachReversed(message)[..|message| - 1] == EachReversed(init);
      StreamReversed(init);
    }
  }

  /** Whatever the two macros say, the selected standard is the one that is published,
      of the bytes reversed and with the result reversed. */
  lemma CcittByReflection(message: seq<Byte>, data: bool, remainder: bool)
    ensures CrcCcitt(data, remainder).Valid() && CrcCcitt(false, false).Valid()
    ensures Check(CrcCcitt(data, remainder), message)
         == Oriented(Check(CrcCcitt(false, false), if data then EachReversed(message) else message), remainder)
  {
    var zero: Word := 0;
    NoBits(16, zero);
    UpsNothing(16);
    StreamReversed(message);
    var std := CrcCcitt(false, false);
    var s := Serial(std.polynomial, std.initial, Stream(message, data));
    AddNothing(s, 16);
    AddNothing(Oriented(s, remainder), 16);
  }

  lemma EndBits(v: nat, w: Word, u: Word)
    requires BitsOf(16, v) == TopBits(16, w) && u == Ups(w, 8)
    ensures BitsOf(16, v)[0] <==> w & 0x8000_0000 != 0
    ensures BitsOf(16, v)[1] <==> w & 0x4000_0000 != 0
    ensures BitsOf(16, v)[14] <==> u & 0x0200_0000 != 0
    ensures BitsOf(16, v)[15] <==> u & 0x0100_0000 != 0
  {
    TopBitsSplit(8, 8, w);
    var (a, b) := (TopBits(8, w), TopBits(8, u));
    Ends(a, b, BitsOf(16, v));
    var _ := TopByte(w);
    var _ := TopByte(u);
  }

  lemma Ends(a: Bits, b: Bits, c: Bits)
    requires |a| == |b| == 8 && c == a + b
    ensures c[0] == a[0] && c[1] == a[1] && c[14] == b[6] && c[15] == b[7]
  {
  }

  lemma FirstBits(w: Word, u: Word, w': Word, u': Word)
    requires w == 0x29B1_0000 && u == 0xB100_0000 && w' == 0x89F6_0000 && u' == 0xF600_0000
    ensures var (b, b') := (BitsOf(16, 0x29B1), BitsOf(16, 0x89F6));
            !b[0] && !b[1] && b[15] && b'[0] && b'[14]
  {
    Word29B1(w, u, 0);
    Word89F6(w', u', 0);
    EightUps(w);
    EightUps(w');
    EndBits(0x29B1, w, u);
    EndBits(0x89F6, w', u');
  }

  lemma Mirror6F91(m: Word, u: Word, z: Word)
    requires m == 0x6F91_0000 && u == 0x9100_0000 && z == 0
    ensures Reversed(BitsOf(16, 0x89F6)) == BitsOf(16, 0x6F91)
  {
    Reversed89F6(m, u, z);
    Word6F91(m, u, z);
  }

  /** What the selected standard gives for the digits when its bytes are reflected. */
  lemma ReflectedValues()
    ensures CrcCcitt(true, false).Valid() && CrcCcitt(true, true).Valid()
    ensures Check(CrcCcitt(true, false), Digits()) == BitsOf(16, 0x89F6)
    ensures Check(CrcCcitt(true, true), Digits()) == BitsOf(16, 0x6F91)
  {
    MirroredCcittValue(CrcCcitt(true, false), 0x1021_0000, 0xFFFF_0000, 0x89F6_0000, 0);
    CcittByReflection(Digits(), true, false);
    CcittByReflection(Digits(), true, true);
    Mirror6F91(0x6F91_0000, 0x9100_0000, 0);
  }

  /** The selected standard has the value that its header publishes exactly if neither the
      bytes nor the remainder are reflected. */
  lemma PublishedIff(data: bool, remainder: bool)
    ensures CrcCcitt(data, remainder).Valid()
    ensures Check(CrcCcitt(data, remainder), Digits()) == BitsOf(16, 0x29B1) <==> !data && !remainder
  {
    PublishedValues();
    ReflectedValues();
    CcittByReflection(Digits(), data, false);
    CcittByReflection(Digits(), data, remainder);
    FirstBits(0x29B1_0000, 0xB100_0000, 0x89F6_0000, 0xF600_0000);
    var c := Check(CrcCcitt(data, false), Digits());
    assert Reversed(c)[0] == c[15] && Reversed(c)[1] == c[14];
  }
}
