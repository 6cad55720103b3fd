/** The bit-at-a-time cyclic redundancy check and its table-driven form.

    A machine word is its sequence of bits, the most significant first, so the
    width of the check is a parameter and the 16-bit and 32-bit standards are
    instances of one theorem. */
module Crc {

  type Bits = seq<bool>

  function Zeros(n: nat): Bits { seq(n, i => false) }

  function Xor(a: Bits, b: Bits): Bits
    requires |a| == |b|
  {
    seq(|a|, i requires 0 <= i < |a| => a[i] != b[i])
  }

  function Double(r: Bits): Bits
    requires r != []
  {
    r[1..] + [false]
  }

  /** Divides one bit: shift out the top, subtract the polynomial if it was set. */
  function Shift(p: Bits, r: Bits): (r': Bits)
    requires |p| == |r| > 0
    ensures |r'| == |r|
  {
    if r[0] then Xor(Double(r), p) else Double(r)
  }

  function Shifts(p: Bits, r: Bits, n: nat): (r': Bits)
    requires |p| == |r| > 0
    ensures |r'| == |r|
    decreases n, r
  {
    if n == 0 then r else Shifts(p, Shift(p, r), n - 1)
  }

  /** Polynomial division of a stream, one bit at a time: the reference. */
  function Serial(p: Bits, r: Bits, stream: Bits): (r': Bits)
    requires |p| == |r| > 0
    ensures |r'| == |r|
    decreases |stream|
  {
    if stream == [] then r
    else Serial(p, Shift(p, Xor(r, [stream[0]] + Zeros(|r| - 1))), stream[1..])
  }

  // ----------------------------------------------- linearity and injectivity

  lemma ShiftLinear(p: Bits, a: Bits, b: Bits)
    requires |p| == |a| == |b| > 0
    ensures Shift(p, Xor(a, b)) == Xor(Shift(p, a), Shift(p, b))
  {
  }

  lemma {:induction false} ShiftsLinear(p: Bits, a: Bits, b: Bits, n: nat)
    requires |p| == |a| == |b| > 0
    ensures Shifts(p, Xor(a, b), n) == Xor(Shifts(p, a, n), Shifts(p, b, n))
    decreases n
  {
    if n > 0 {
      ShiftLinear(p, a, b);
      ShiftsLinear(p, Shift(p, a), Shift(p, b), n - 1);
    }
  }

  /** A polynomial with a constant term makes a shift reversible: the bit that
      was shifted out can be read off the bottom. */
  lemma ShiftInjective(p: Bits, a: Bits, b: Bits)
    requires |p| == |a| == |b| > 0 && p[|p| - 1]
    requires Shift(p, a) == Shift(p, b)
    ensures a == b
  {
    var last := |p| - 1;
    assert Shift(p, a)[last] == a[0] && Shift(p, b)[last] == b[0];
    forall i | 0 < i < |a| ensures a[i] == b[i] {
      assert Shift(p, a)[i - 1] == (a[i] != (a[0] && p[i - 1]));
      assert Shift(p, b)[i - 1] == (b[i] != (b[0] && p[i - 1]));
    }
  }

  lemma {:induction false} ShiftsInjective(p: Bits, a: Bits, b: Bits, n: nat)
    requires |p| == |a| == |b| > 0 && p[|p| - 1]
    requires Shifts(p, a, n) == Shifts(p, b, n)
    ensures a == b
    decreases n
  {
    if n > 0 {
      ShiftsInjective(p, Shift(p, a), Shift(p, b), n - 1);
      ShiftInjective(p, a, b);
    }
  }

  /** Bits below the window that is shifted out move up untouched. */
  lemma {:induction false} LowBitsMove(p: Bits, low: Bits, n: nat)
    requires |p| == n + |low| > 0
    ensures Shifts(p, Zeros(n) + low, n) == low + Zeros(n)
    decreases n
  {
    if n == 0 {
      assert Zeros(n) + low == low == low + Zeros(n);
    } else {
      var r := Zeros(n) + low;
      assert Shift(p, r) == Zeros(n - 1) + (low + [false]);
      LowBitsMove(p, low + [false], n - 1);
      assert low + [false] + Zeros(n - 1) == low + Zeros(n);
    }
  }

  lemma AddSplit(r: Bits, d: Bits)
    requires 0 < |d| <= |r|
    ensures Xor(r, d + Zeros(|r| - |d|))
         == Xor(Xor(r, [d[0]] + Zeros(|r| - 1)), [false] + d[1..] + Zeros(|r| - |d|))
  {
  }

  lemma ShiftOutFalse(p: Bits, d: Bits)
    requires |p| >= |d| > 0
    ensures Shift(p, [false] + d[1..] + Zeros(|p| - |d|)) == d[1..] + Zeros(|p| - |d| + 1)
  {
  }

  lemma AddNothing(r: Bits, n: nat)
    requires n == |r|
    ensures Xor(r, Zeros(n)) == r
  {
  }

  /** Up to a whole word of the stream may be added in first and divided after. */
  lemma {:induction false} SerialIsShifts(p: Bits, r: Bits, d: Bits)
    requires |p| == |r| > 0 && |d| <= |r|
    ensures Serial(p, r, d) == Shifts(p, Xor(r, d + Zeros(|r| - |d|)), |d|)
    decreases |d|
  {
    if d == [] {
      AddNothing(r, |r|);
      assert d + Zeros(|r|) == Zeros(|r|);
    } else {
      var first := Xor(r, [d[0]] + Zeros(|r| - 1));
      var rest := [false] + d[1..] + Zeros(|r| - |d|);
      AddSplit(r, d);
      ShiftLinear(p, first, rest);
      ShiftOutFalse(p, d);
      SerialIsShifts(p, Shift(p, first), d[1..]);
    }
  }

  lemma {:induction false} SerialConcat(p: Bits, r: Bits, a: Bits, b: Bits)
    requires |p| == |r| > 0
    ensures Serial(p, r, a + b) == Serial(p, Serial(p, r, a), b)
    decreases |a|
  {
    if a == [] {
      assert a + b == b;
    } else {
      assert (a + b)[1..] == a[1..] + b;
      SerialConcat(p, Shift(p, Xor(r, [a[0]] + Zeros(|r| - 1))), a[1..], b);
    }
  }

  lemma XorInjective(a: Bits, b: Bits, c: Bits)
    requires |a| == |b| == |c| && Xor(a, c) == Xor(b, c)
    ensures a == b
  {
    forall i | 0 <= i < |a| ensures a[i] == b[i] {
      assert Xor(a, c)[i] == Xor(b, c)[i];
    }
  }

  lemma XorInjectiveRight(a: Bits, b: Bits, c: Bits)
    requires |a| == |b| == |c| && Xor(c, a) == Xor(c, b)
    ensures a == b
  {
    forall i | 0 <= i < |a| ensures a[i] == b[i] {
      assert Xor(c, a)[i] == Xor(c, b)[i];
    }
  }

  /** Distinct remainders stay distinct whatever follows. */
  lemma {:induction false} SerialInjective(p: Bits, a: Bits, b: Bits, stream: Bits)
    requires |p| == |a| == |b| > 0 && p[|p| - 1]
    requires Serial(p, a, stream) == Serial(p, b, stream)
    ensures a == b
    decreases |stream|
  {
    if stream != [] {
      var bit := [stream[0]] + Zeros(|a| - 1);
      SerialInjective(p, Shift(p, Xor(a, bit)), Shift(p, Xor(b, bit)), stream[1..]);
      ShiftInjective(p, Xor(a, bit), Xor(b, bit));
      XorInjective(a, b, bit);
    }
  }

  lemma SerialKeepsApart(p: Bits, a: Bits, b: Bits, stream: Bits)
    requires |p| == |a| == |b| > 0 && p[|p| - 1] && a != b
    ensures Serial(p, a, stream) != Serial(p, b, stream)
  {
    if Serial(p, a, stream) == Serial(p, b, stream) {
      SerialInjective(p, a, b, stream);
    }
  }

  lemma WindowInjective(p: Bits, r: Bits, x: Bits, y: Bits)
    requires |p| == |r| > 0 && p[|p| - 1]
    requires |x| == |y| <= |p| && Serial(p, r, x) == Serial(p, r, y)
    ensures x == y
  {
    var pad := Zeros(|r| - |x|);
    SerialIsShifts(p, r, x);
    SerialIsShifts(p, r, y);
    ShiftsInjective(p, Xor(r, x + pad), Xor(r, y + pad), |x|);
    XorInjectiveRight(x + pad, y + pad, r);
    assert (x + pad)[..|x|] == x && (y + pad)[..|x|] == y;
  }

  lemma SerialInThree(p: Bits, r: Bits, before: Bits, x: Bits, after: Bits)
    requires |p| == |r| > 0
    ensures Serial(p, r, before + x + after) == Serial(p, Serial(p, Serial(p, r, before), x), after)
  {
    SerialConcat(p, r, before + x, after);
    SerialConcat(p, r, before, x);
  }

  /** Every burst no wider than the check is detected: two streams that differ
      only inside one window of at most that many bits leave different
      remainders. */
  lemma BurstDetected(p: Bits, r: Bits, before: Bits, x: Bits, y: Bits, after: Bits)
    requires |p| == |r| > 0 && p[|p| - 1]
    requires |x| == |y| <= |p| && x != y
    ensures Serial(p, r, before + x + after) != Serial(p, r, before + y + after)
  {
    var reached := Serial(p, r, before);
    if Serial(p, reached, x) == Serial(p, reached, y) {
      WindowInjective(p, reached, x, y);
    }
    SerialKeepsApart(p, Serial(p, reached, x), Serial(p, reached, y), after);
    SerialInThree(p, r, before, x, after);
    SerialInThree(p, r, before, y, after);
  }

  // ------------------------------------------------------------- numbers

  function Value(b: Bits): (v: nat)
    decreases |b|
  {
    if b == [] then 0 else 2 * Value(b[..|b| - 1]) + if b[|b| - 1] then 1 else 0
  }

  /** Bit k of a number, counted from the lowest. */
  function BitAt(v: nat, k: nat): bool
    decreases k
  {
    if k == 0 then v % 2 == 1 else BitAt(v / 2, k - 1)
  }

  function BitsOf(n: nat, v: nat): (b: Bits)
    ensures |b| == n
  {
    seq(n, i requires 0 <= i < n => BitAt(v, n - 1 - i))
  }

  lemma LastBit(n: nat, v: nat)
    requires n > 0
    ensures BitsOf(n, v) == BitsOf(n - 1, v / 2) + [v % 2 == 1]
  {
    forall i | 0 <= i < n - 1 ensures BitsOf(n, v)[i] == BitsOf(n - 1, v / 2)[i] {
      assert BitAt(v, n - 1 - i) == BitAt(v / 2, n - 2 - i);
    }
    assert BitsOf(n, v)[n - 1] == BitAt(v, 0);
  }

  /** The bits of the value are the word again. */
  lemma {:induction false} BitsOfValue(b: Bits)
    ensures BitsOf(|b|, Value(b)) == b
    decreases |b|
  {
    if b != [] {
      BitsOfValue(b[..|b| - 1]);
      LastBit(|b|, Value(b));
    }
  }

  function Power2(n: nat): nat { if n == 0 then 1 else 2 * Power2(n - 1) }

  lemma {:induction false} ValueBound(b: Bits)
    ensures Value(b) < Power2(|b|)
    decreases |b|
  {
    if b != [] {
      ValueBound(b[..|b| - 1]);
    }
  }

  lemma ByteValue(b: Bits)
    requires |b| == 8
    ensures Value(b) < 256 && BitsOf(8, Value(b)) == b
  {
    ValueBound(b);
    assert Power2(8) == 256 by {
      assert Power2(4) == 16;
    }
    BitsOfValue(b);
  }

  // ------------------------------------------------------------ standards

  type Byte = b: Bits | |b| == 8 witness Zeros(8)

  /** One of the published checks: the polynomial without its leading term, the
      two constants, and whether the bytes and the remainder are reflected. */
  datatype Standard = Standard(polynomial: Bits, initial: Bits, finalXor: Bits,
                               reflectData: bool, reflectRemainder: bool)
  {
    predicate Valid() {
      |polynomial| == |initial| == |finalXor| >= 8
    }

    function Width(): nat { |polynomial| }
  }

  function Numbers(width: nat, polynomial: nat, initial: nat, finalXor: nat,
                   reflectData: bool, reflectRemainder: bool): Standard
  {
    Standard(BitsOf(width, polynomial), BitsOf(width, initial), BitsOf(width, finalXor),
             reflectData, reflectRemainder)
  }

  /** The selected standard; whether it reflects is left open, because the macros
      that decide it are compared with names that no header defines. */
  function CrcCcitt(reflectData: bool, reflectRemainder: bool): Standard {
    Numbers(16, 0x1021, 0xFFFF, 0x0000, reflectData, reflectRemainder)
  }

  function Crc16(): Standard {
    Numbers(16, 0x8005, 0x0000, 0x0000, true, true)
  }

  /** Its word is an unsigned long, of 32 or 64 bits. */
  function Crc32(width: nat): Standard {
    Numbers(width, 0x04C11DB7, 0xFFFFFFFF, 0xFFFFFFFF, true, true)
  }

  /** An odd polynomial has a constant term. */
  lemma OddPolynomial(std: Standard, n: nat, v: nat, initial: nat, finalXor: nat)
    requires n >= 8
    requires std == Numbers(n, v, initial, finalXor, std.reflectData, std.reflectRemainder)
    ensures std.Valid() && std.Width() == n
    ensures std.polynomial[n - 1] <==> v % 2 == 1
  {
    LastBit(n, v);
  }

  function Reversed(b: Bits): (r: Bits)
    ensures |r| == |b|
  {
    seq(|b|, i requires 0 <= i < |b| => b[|b| - 1 - i])
  }

  lemma ReversedTwice(b: Bits)
    ensures Reversed(Reversed(b)) == b
  {
  }

  function Oriented(b: Bits, reflect: bool): (r: Bits)
    ensures |r| == |b|
  {
    if reflect then Reversed(b) else b
  }

  lemma OrientedInjective(a: Bits, b: Bits, reflect: bool)
    requires Oriented(a, reflect) == Oriented(b, reflect)
    ensures a == b
  {
    ReversedTwice(a);
    ReversedTwice(b);
  }

  /** The order in which the bits of a message are divided. */
  function Stream(message: seq<Byte>, reflect: bool): (s: Bits)
    ensures |s| == 8 * |message|
    decreases |message|
  {
    if message == [] then []
    else Stream(message[..|message| - 1], reflect) + Oriented(message[|message| - 1], reflect)
  }

  lemma StreamLast(message: seq<Byte>, last: Byte, reflect: bool)
    ensures Stream(message + [last], reflect) == Stream(message, reflect) + Oriented(last, reflect)
  {
    assert (message + [last])[..|message|] == message;
  }

  lemma {:induction false} StreamConcat(a: seq<Byte>, b: seq<Byte>, reflect: bool)
    ensures Stream(a + b, reflect) == Stream(a, reflect) + Stream(b, reflect)
    decreases |b|
  {
    if b == [] {
      assert a + b == a;
    } else {
      var (init, last) := (b[..|b| - 1], b[|b| - 1]);
      assert b == init + [last] && a + b == (a + init) + [last];
      StreamConcat(a, init, reflect);
      StreamLast(a + init, last, reflect);
      StreamLast(init, last, reflect);
    }
  }

  lemma AppendCancels(a: Bits, b: Bits, c: Bits, d: Bits)
    requires |a| == |c| && a + b == c + d
    ensures a == c && b == d
  {
    assert a == (a + b)[..|a|] && c == (c + d)[..|a|];
    assert b == (a + b)[|a|..] && d == (c + d)[|a|..];
  }

  lemma LastByteRecovered(x: seq<Byte>, v: Byte, y: seq<Byte>, w: Byte, reflect: bool)
    requires |x| == |y| && Stream(x + [v], reflect) == Stream(y + [w], reflect)
    ensures Stream(x, reflect) == Stream(y, reflect) && v == w
  {
    StreamLast(x, v, reflect);
    StreamLast(y, w, reflect);
    AppendCancels(Stream(x, reflect), Oriented(v, reflect), Stream(y, reflect), Oriented(w, reflect));
    OrientedInjective(v, w, reflect);
  }

  lemma {:induction false} StreamInjective(a: seq<Byte>, b: seq<Byte>, reflect: bool)
    requires |a| == |b| && Stream(a, reflect) == Stream(b, reflect)
    ensures a == b
    decreases |a|
  {
    if a != [] {
      var (x, y) := (a[..|a| - 1], b[..|b| - 1]);
      assert a == x + [a[|a| - 1]] && b == y + [b[|b| - 1]];
      LastByteRecovered(x, a[|a| - 1], y, b[|b| - 1], reflect);
      StreamInjective(x, y, reflect);
    }
  }

  /** The check of a message, by plain division of its bit stream. */
  function Check(std: Standard, message: seq<Byte>): (c: Bits)
    requires std.Valid()
    ensures |c| == std.Width()
  {
    Xor(Oriented(Serial(std.polynomial, std.initial, Stream(message, std.reflectData)),
                 std.reflectRemainder),
        std.finalXor)
  }

  /** Two messages that differ only inside a window of bytes no wider than the
      check have different checks; at width 16, two adjacent bytes. */
  lemma AdjacentBytesDetected(std: Standard, before: seq<Byte>, x: seq<Byte>, y: seq<Byte>,
                              after: seq<Byte>)
    requires std.Valid() && std.polynomial[std.Width() - 1]
    requires |x| == |y| && 8 * |x| <= std.Width() && x != y
    ensures Check(std, before + x + after) != Check(std, before + y + after)
  {
    var (p, r, f) := (std.polynomial, std.initial, std.reflectData);
    StreamConcat(before + x, after, f);
    StreamConcat(before, x, f);
    StreamConcat(before + y, after, f);
    StreamConcat(before, y, f);
    if Stream(x, f) == Stream(y, f) {
      StreamInjective(x, y, f);
    }
    BurstDetected(p, r, Stream(before, f), Stream(x, f), Stream(y, f), Stream(after, f));
    var s := Serial(p, r, Stream(before + x + after, f));
    var s' := Serial(p, r, Stream(before + y + after, f));
    if Check(std, before + x + after) == Check(std, before + y + after) {
      XorInjective(Oriented(s, std.reflectRemainder), Oriented(s', std.reflectRemainder), std.finalXor);
      OrientedInjective(s, s', std.reflectRemainder);
    }
  }

  lemma SplitAtTwo(a: seq<Byte>, b: seq<Byte>, k: nat)
    requires |a| == |b| && k + 1 < |a|
    requires forall j :: 0 <= j < |a| && j != k && j != k + 1 ==> a[j] == b[j]
    ensures b == a[..k] + b[k..k + 2] + a[k + 2..]
  {
  }

  /** The same, stated on positions. */
  lemma TwoBytesDetected(std: Standard, a: seq<Byte>, b: seq<Byte>, k: nat)
    requires std.Valid() && std.Width() >= 16 && std.polynomial[std.Width() - 1]
    requires |a| == |b| && k + 1 < |a| && a != b
    requires forall j :: 0 <= j < |a| && j != k && j != k + 1 ==> a[j] == b[j]
    ensures Check(std, a) != Check(std, b)
  {
    SplitAtTwo(a, a, k);
    SplitAtTwo(a, b, k);
    AdjacentBytesDetected(std, a[..k], a[k..k + 2], b[k..k + 2], a[k + 2..]);
  }

  /** The selected standard, whatever the macros for reflection say. */
  lemma CcittDetectsTwoBytes(std: Standard, a: seq<Byte>, b: seq<Byte>, k: nat)
    requires std == CrcCcitt(std.reflectData, std.reflectRemainder)
    requires |a| == |b| && k + 1 < |a| && a != b
    requires forall j :: 0 <= j < |a| && j != k && j != k + 1 ==> a[j] == b[j]
    ensures std.Valid() && Check(std, a) != Check(std, b)
  {
    OddPolynomial(std, 16, 0x1021, 0xFFFF, 0x0000);
    TwoBytesDetected(std, a, b, k);
  }

  lemma ReflectedStandardsQualify(std: Standard, width: nat)
    requires width == 32 || width == 64
    requires std == Crc16() || std == Crc32(width)
    ensures std.Valid() && std.Width() >= 16 && std.polynomial[std.Width() - 1]
  {
    if std == Crc16() {
      OddPolynomial(std, 16, 0x8005, 0x0000, 0x0000);
    } else {
      OddPolynomial(std, width, 0x04C11DB7, 0xFFFFFFFF, 0xFFFFFFFF);
    }
  }

  /** Sending the remainder after the message leaves nothing to divide. */
  lemma RemainderCompletes(p: Bits, r: Bits, stream: Bits)
    requires |p| == |r| > 0
    ensures Serial(p, r, stream + Serial(p, r, stream)) == Zeros(|r|)
  {
    var s := Serial(p, r, stream);
    SerialConcat(p, r, stream, s);
    SerialIsShifts(p, s, s);
    assert Xor(s, s + Zeros(0)) == Zeros(|r|);
    ZerosStay(p, |r|);
  }

  lemma {:induction false} ZerosStay(p: Bits, n: nat)
    requires |p| > 0
    ensures Shifts(p, Zeros(|p|), n) == Zeros(|p|)
    decreases n
  {
    if n > 0 {
      assert Shift(p, Zeros(|p|)) == Zeros(|p|);
      ZerosStay(p, n - 1);
    }
  }

  // ------------------------------------------------------------- programs

  /** Reorders the bits of a word about its middle, lowest bit first. */
  method Reflect(word: Bits) returns (reflection: Bits)
    ensures reflection == Reversed(word)
  {
    var n := |word|;
    var data := word;
    reflection := Zeros(n);
    for bit := 0 to n
      invariant |data| == |reflection| == n
      invariant data == Zeros(bit) + word[..n - bit]
      invariant forall i :: 0 <= i < n ==> reflection[i] == (i < bit && word[n - 1 - i])
    {
      if data[n - 1] {
        reflection := reflection[bit := true];
      }
      data := [false] + data[..n - 1];
    }
  }

  method Orient(word: Bits, reflect: bool) returns (result: Bits)
    ensures result == Oriented(word, reflect)
  {
    result := word;
    if reflect {
      result := Reflect(word);
    }
  }

  /** The inner loop both programs share: eight trial divisions. */
  method DivideByte(p: Bits, start: Bits) returns (remainder: Bits)
    requires |p| == |start| >= 8
    ensures remainder == Shifts(p, start, 8)
  {
    remainder := start;
    var bit: nat := 8;
    while bit > 0
      invariant |remainder| == |p|
      invariant Shifts(p, start, 8) == Shifts(p, remainder, bit)
    {
      if remainder[0] {
        remainder := Xor(Double(remainder), p);
      } else {
        remainder := Double(remainder);
      }
      bit := bit - 1;
    }
  }

  lemma NextByte(p: Bits, r: Bits, message: seq<Byte>, n: nat, reflect: bool)
    requires |p| == |r| >= 8 && n < |message|
    ensures Serial(p, r, Stream(message[..n + 1], reflect))
         == Serial(p, Serial(p, r, Stream(message[..n], reflect)), Oriented(message[n], reflect))
  {
    assert message[..n + 1] == message[..n] + [message[n]];
    StreamLast(message[..n], message[n], reflect);
    SerialConcat(p, r, Stream(message[..n], reflect), Oriented(message[n], reflect));
  }

  /** The loop body of the slow form. */
  method AddAndDivide(p: Bits, remainder: Bits, byte: Bits) returns (next: Bits)
    requires |p| == |remainder| >= 8 == |byte|
    ensures next == Serial(p, remainder, byte)
  {
    SerialIsShifts(p, remainder, byte);
    next := DivideByte(p, Xor(remainder, byte + Zeros(|p| - 8)));
  }

  method CrcSlow(std: Standard, message: seq<Byte>) returns (crc: Bits)
    requires std.Valid()
    ensures crc == Check(std, message)
  {
    var remainder := std.initial;
    for n := 0 to |message|
      invariant |remainder| == std.Width()
      invariant remainder == Serial(std.polynomial, std.initial, Stream(message[..n], std.reflectData))
    {
      var data := Orient(message[n], std.reflectData);
      NextByte(std.polynomial, std.initial, message, n, std.reflectData);
      remainder := AddAndDivide(std.polynomial, remainder, data);
    }
    assert message[..|message|] == message;
    var final := Orient(remainder, std.reflectRemainder);
    crc := Xor(final, std.finalXor);
  }

  /** What the lookup table holds: the effect of eight shifts on each value of
      the top byte. */
  ghost predicate IsTable(table: seq<Bits>, p: Bits)
    requires |p| >= 8
  {
    |table| == 256 && IsFilled(table, p, 256)
  }

  /** Its first `n` entries. */
  ghost predicate IsFilled(table: seq<Bits>, p: Bits, n: nat)
    requires |p| >= 8 && n <= |table|
  {
    forall v :: 0 <= v < n ==> table[v] == Shifts(p, BitsOf(8, v) + Zeros(|p| - 8), 8)
  }

  lemma OneMoreEntry(table: seq<Bits>, p: Bits, n: nat, entry: Bits)
    requires |p| >= 8 && n < |table| && IsFilled(table, p, n)
    requires entry == Shifts(p, BitsOf(8, n) + Zeros(|p| - 8), 8)
    ensures IsFilled(table[n := entry], p, n + 1)
  {
  }

  method CrcInit(std: Standard, crcTable: array<Bits>)
    requires std.Valid() && crcTable.Length == 256
    modifies crcTable
    ensures IsTable(crcTable[..], std.polynomial)
  {
    for dividend := 0 to 256
      invariant IsFilled(crcTable[..], std.polynomial, dividend)
    {
      var remainder := DivideByte(std.polynomial, BitsOf(8, dividend) + Zeros(std.Width() - 8));
      OneMoreEntry(crcTable[..], std.polynomial, dividend, remainder);
      ghost var before := crcTable[..];
      crcTable[dividend] := remainder;
      assert crcTable[..] == before[dividend := remainder];
    }
  }

  lemma SplitWord(r: Bits, data: Bits)
    requires |r| >= 8 == |data|
    ensures Xor(r, data + Zeros(|r| - 8))
         == Xor(Xor(data, r[..8]) + Zeros(|r| - 8), Zeros(8) + r[8..])
  {
  }

  /** One look-up does the divisions of a whole byte: the top byte goes through
      the table, the rest only moves up. */
  lemma LookUp(table: seq<Bits>, p: Bits, r: Bits, data: Bits)
    requires |p| == |r| >= 8 == |data| && IsTable(table, p)
    ensures Value(Xor(data, r[..8])) < 256
    ensures |table[Value(Xor(data, r[..8]))]| == |p|
    ensures Serial(p, r, data) == Xor(table[Value(Xor(data, r[..8]))], r[8..] + Zeros(8))
  {
    var top := Xor(data, r[..8]);
    SerialIsShifts(p, r, data);
    SplitWord(r, data);
    ShiftsLinear(p, top + Zeros(|r| - 8), Zeros(8) + r[8..], 8);
    LowBitsMove(p, r[8..], 8);
    ByteValue(top);
  }

  /** The loop body of the fast form. */
  method DivideByTable(table: array<Bits>, p: Bits, remainder: Bits, byte: Bits) returns (next: Bits)
    requires |p| == |remainder| >= 8 == |byte| && IsTable(table[..], p)
    ensures next == Serial(p, remainder, byte)
  {
    LookUp(table[..], p, remainder, byte);
    var data := Xor(byte, remainder[..8]);
    next := Xor(table[Value(data)], remainder[8..] + Zeros(8));
  }

  method CrcFast(std: Standard, crcTable: array<Bits>, message: seq<Byte>) returns (crc: Bits)
    requires std.Valid() && IsTable(crcTable[..], std.polynomial)
    ensures crc == Check(std, message)
  {
    var remainder := std.initial;
    for n := 0 to |message|
      invariant |remainder| == std.Width()
      invariant remainder == Serial(std.polynomial, std.initial, Stream(message[..n], std.reflectData))
    {
      var byte := Orient(message[n], std.reflectData);
      NextByte(std.polynomial, std.initial, message, n, std.reflectData);
      remainder := DivideByTable(crcTable, std.polynomial, remainder, byte);
    }
    assert message[..|message|] == message;
    var final := Orient(remainder, std.reflectRemainder);
    crc := Xor(final, std.finalXor);
  }
}
