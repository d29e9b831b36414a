/**
 * The signed-integer parser: a dispatch table of 256 handlers, one per byte
 * value, through which the parse tail-recurses one byte at a time.
 *
 * Each handler takes the accumulator, the pointer, the parser and the sign,
 * and returns the pair (value, pointer).  Here the pointer is an index into a
 * buffer `s`, and the byte at or past the end of `s` reads as the NUL that
 * terminates a C string.  The `'+'` handler re-dispatches on the same byte
 * without advancing, so on a `'+'` it never returns: that outcome is
 * `Diverges`.
 */
module SignedInt {
  import opened Bytes

  /** The four handler functions of the table. */
  datatype Handler = Ret | Dig | Neg | Pos

  /** What a call returns: the value and the pointer, or no return at all. */
  datatype Outcome = Done(value: int, ptr: nat) | Diverges

  /**
   * The table, in runs: bytes 0-42 `ret`, 43 ('+') `pos`, 44 `ret`, 45 ('-')
   * `neg`, 46-47 `ret`, 48-57 ('0'-'9') `dig`, 58-255 `ret`.
   */
  const FTable: seq<Handler> := Repeat(Ret, 43) + [Pos, Ret, Neg, Ret, Ret] + Repeat(Dig, 10) + Repeat(Ret, 198)

  function Repeat(h: Handler, n: nat): (r: seq<Handler>)
    ensures |r| == n && forall k :: 0 <= k < n ==> r[k] == h
  {
    seq(n, _ => h)
  }

  /**
   * The handler the table holds for byte `b`, read as an unsigned value: `dig`
   * for the decimal digits, `neg` for '-', `pos` for '+' and `ret` for every
   * other byte.
   */
  function Table(b: Byte): (h: Handler)
    ensures h == Dig <==> '0' <= b <= '9'
    ensures h == Neg <==> b == '-'
    ensures h == Pos <==> b == '+'
    ensures h == Ret <==> !('0' <= b <= '9') && b != '-' && b != '+'
  {
    FTable[b as int]
  }

  /** The byte the pointer `c` reads: past the end of `s` it is the NUL terminator. */
  function ByteAt(s: Text, c: nat): Byte {
    if c < |s| then s[c] else '\0'
  }

  predicate IsDigit(b: Byte) {
    '0' <= b <= '9'
  }

  /** `*c - '0'`, for the byte as an unsigned value. */
  function DigitValue(b: Byte): int {
    b as int - '0' as int
  }

  /** The result of `ret`: the accumulator, negated when the sign is false. */
  function Signed(sign: bool, n: int): int {
    if sign then n else -n
  }

  /**
   * `ftable(index, n, c, p, sign)`: the handler for `index`, applied to the
   * accumulator `n` at pointer `c`.  The pointer stays within the buffer and
   * its terminator, or one past the terminator when dispatch stops there.
   */
  function Handle(index: Byte, n: int, c: nat, s: Text, sign: bool): (r: Outcome)
    requires c <= |s| || Table(index) == Ret
    ensures r.Done? ==> r.ptr == c || c < r.ptr <= |s| + 1
    decreases |s| + 2 - c, if index == '+' then 1 else 0, 1
  {
    match Table(index)
    case Ret => RetHandler(n, c, sign)
    case Dig => DigHandler(n, c, s, sign)
    case Neg => NegHandler(c, s)
    case Pos => PosHandler(c, s)
  }

  /** `ret`: stop, leaving the pointer on the byte that stopped the parse. */
  function RetHandler(n: int, c: nat, sign: bool): (r: Outcome)
    ensures r.Done? && r.ptr == c
  {
    Done(Signed(sign, n), c)
  }

  /** `dig`: fold the digit at `c` into the accumulator, step past it and dispatch on the next byte. */
  function DigHandler(n: int, c: nat, s: Text, sign: bool): (r: Outcome)
    requires c <= |s|
    ensures r.Done? ==> c < r.ptr <= |s| + 1
    decreases |s| + 2 - c, 0, 0
  {
    var m := 10 * n + DigitValue(ByteAt(s, c));
    Handle(ByteAt(s, c + 1), m, c + 1, s, sign)
  }

  /** `neg`: step past the '-' and go on with accumulator 0 and sign false. */
  function NegHandler(c: nat, s: Text): (r: Outcome)
    requires c <= |s|
    ensures r.Done? ==> c < r.ptr <= |s| + 1
    decreases |s| + 2 - c, 0, 0
  {
    Handle(ByteAt(s, c + 1), 0, c + 1, s, false)
  }

  /**
   * `pos`: dispatch again on the byte at `c`, without advancing, with
   * accumulator 0 and sign true.  When that byte is '+' the call reaches
   * `pos` again with the same arguments and never returns (a '+' met later,
   * after digits, diverges the same way).
   */
  function PosHandler(c: nat, s: Text): (r: Outcome)
    requires c <= |s|
    ensures ByteAt(s, c) == '+' ==> r.Diverges?
    decreases |s| + 2 - c, 1, 0
  {
    if ByteAt(s, c) == '+' then Diverges
    else Handle(ByteAt(s, c), 0, c, s, true)
  }

  /**
   * `signed_parser(index, val, ptr)`: dispatch on `index` with the caller's
   * accumulator and sign true.  A parse that returns leaves the pointer where
   * it was or further on, within the buffer and its terminator.
   */
  function Parse(index: Byte, val: int, s: Text, c: nat): (r: Outcome)
    requires c <= |s|
    ensures r.Done? ==> r.ptr == c || c < r.ptr <= |s| + 1
  {
    Handle(index, val, c, s, true)
  }

  predicate AllDigits(ds: Text) {
    forall j :: 0 <= j < |ds| ==> IsDigit(ds[j])
  }

  function Pow10(k: nat): (p: nat)
    ensures p >= 1
  {
    if k == 0 then 1 else 10 * Pow10(k - 1)
  }

  /** The accumulator after `dig` has folded the digits `ds`, one after the other, into `n`. */
  function Accumulate(n: int, ds: Text): int
    decreases |ds|
  {
    if |ds| == 0 then n else Accumulate(10 * n + DigitValue(ds[0]), ds[1..])
  }

  /** The decimal value of a digit string, read from its last digit. */
  function DecimalValue(ds: Text): (v: nat)
    requires AllDigits(ds)
    ensures v < Pow10(|ds|)
  {
    if |ds| == 0 then 0
    else 10 * DecimalValue(ds[..|ds| - 1]) + DigitValue(ds[|ds| - 1])
  }

  /** Folding one more digit multiplies by ten and adds it. */
  lemma {:induction false} AccumulateSnoc(n: int, ds: Text, d: Byte)
    ensures Accumulate(n, ds + [d]) == 10 * Accumulate(n, ds) + DigitValue(d)
    decreases |ds|
  {
    if |ds| > 0 {
      assert (ds + [d])[1..] == ds[1..] + [d];
      AccumulateSnoc(10 * n + DigitValue(ds[0]), ds[1..], d);
    }
  }

  /** Folding a digit run into `n` shifts `n` left by the run's length and adds the run's decimal value. */
  lemma {:induction false} AccumulateValue(n: int, ds: Text)
    requires AllDigits(ds)
    ensures Accumulate(n, ds) == n * Pow10(|ds|) + DecimalValue(ds)
    decreases |ds|
  {
    if |ds| > 0 {
      var init, last := ds[..|ds| - 1], ds[|ds| - 1];
      assert ds == init + [last];
      AccumulateSnoc(n, init, last);
      AccumulateValue(n, init);
      assert Pow10(|ds|) == 10 * Pow10(|init|);
      calc {
        Accumulate(n, ds);
        10 * (n * Pow10(|init|) + DecimalValue(init)) + DigitValue(last);
        n * (10 * Pow10(|init|)) + (10 * DecimalValue(init) + DigitValue(last));
      }
    }
  }

  /**
   * Dispatching on the first byte of a run of digits folds the whole run into
   * the accumulator and then dispatches on the byte after it, the sign
   * unchanged.
   */
  lemma {:induction false} DigitFold(s: Text, c: nat, k: nat, n: int, sign: bool)
    requires c + k <= |s| && AllDigits(s[c..c + k])
    ensures Handle(ByteAt(s, c), n, c, s, sign) == Handle(ByteAt(s, c + k), Accumulate(n, s[c..c + k]), c + k, s, sign)
    decreases k
  {
    if k > 0 {
      assert IsDigit(s[c..c + k][0]);
      assert s[c..c + k][1..] == s[c + 1..c + k];
      DigitFold(s, c + 1, k - 1, 10 * n + DigitValue(s[c]), sign);
    }
  }

  /**
   * `signed_parser` dispatched on the first of `k` digits stops on the first
   * byte that is not a digit, '-' or '+', and returns the caller's
   * accumulator shifted by `k` places plus the run's decimal value; with
   * accumulator 0 that is the run's value.
   */
  lemma ParseDigits(s: Text, c: nat, k: nat, val: int)
    requires c + k <= |s| && AllDigits(s[c..c + k]) && Table(ByteAt(s, c + k)) == Ret
    ensures Parse(ByteAt(s, c), val, s, c) == Done(val * Pow10(k) + DecimalValue(s[c..c + k]), c + k)
  {
    DigitFold(s, c, k, val, true);
    AccumulateValue(val, s[c..c + k]);
  }

  /**
   * Dispatched on '-', the parser steps over one byte, discards the caller's
   * accumulator, and returns the negated decimal value of the digit run that
   * follows.
   */
  lemma ParseNegative(s: Text, c: nat, k: nat, val: int)
    requires c + 1 + k <= |s| && AllDigits(s[c + 1..c + 1 + k]) && Table(ByteAt(s, c + 1 + k)) == Ret
    ensures Parse('-', val, s, c) == Done(-(DecimalValue(s[c + 1..c + 1 + k]) as int), c + 1 + k)
  {
    assert Handle('-', val, c, s, true) == NegHandler(c, s);
    DigitFold(s, c + 1, k, 0, false);
    AccumulateValue(0, s[c + 1..c + 1 + k]);
    assert Accumulate(0, s[c + 1..c + 1 + k]) == DecimalValue(s[c + 1..c + 1 + k]);
  }

  /** A byte whose handler is `ret` returns the caller's accumulator and consumes nothing. */
  lemma ParseStops(index: Byte, val: int, s: Text, c: nat)
    requires c <= |s| && Table(index) == Ret
    ensures Parse(index, val, s, c) == Done(val, c)
  {
  }

  /** A '+' under the pointer, dispatched on as '+', never returns. */
  lemma ParsePlus(s: Text, c: nat, val: int)
    requires c <= |s| && ByteAt(s, c) == '+'
    ensures Parse('+', val, s, c).Diverges?
  {
  }

  /** A '+' after a digit run is dispatched on in the same way, so the parse never returns either. */
  lemma DigitsThenPlus(s: Text, c: nat, k: nat, val: int)
    requires c + k < |s| && AllDigits(s[c..c + k]) && s[c + k] == '+'
    ensures Parse(ByteAt(s, c), val, s, c).Diverges?
  {
    DigitFold(s, c, k, val, true);
  }

  /** With no more than 18 digits the value stays below 2^63, the range of `intmax_t`. */
  lemma DecimalFitsIntmax(ds: Text)
    requires AllDigits(ds) && |ds| <= 18
    ensures DecimalValue(ds) < 0x8000_0000_0000_0000
  {
    Pow10Monotone(|ds|, 18);
    Pow10Eighteen();
  }

  lemma Pow10Eighteen()
    ensures Pow10(18) == 1_000_000_000_000_000_000
  {
    assert Pow10(3) == 1000;
    assert Pow10(6) == 1000 * Pow10(3);
    assert Pow10(9) == 1000 * Pow10(6);
    assert Pow10(12) == 1000 * Pow10(9);
    assert Pow10(15) == 1000 * Pow10(12);
    assert Pow10(18) == 1000 * Pow10(15);
  }

  lemma {:induction false} Pow10Monotone(a: nat, b: nat)
    requires a <= b
    ensures Pow10(a) <= Pow10(b)
    decreases b
  {
    if a < b {
      Pow10Monotone(a, b - 1);
    }
  }

  /*
   * Where `char` is signed, `static_cast<size_t>(*c)` in `dig`, `neg` and
   * `pos` turns a byte of 0x80 or more into a negative value and then into a
   * `size_t` near 2^64, which no entry of the 256-entry table answers.  The
   * table is evidently meant to be indexed by the unsigned byte value, as
   * `Table` does.
   */

  /** The index `static_cast<size_t>(*c)` gives for byte `b` where `char` is signed and 8 bits wide. */
  function SignedCharIndex(b: Byte): (r: nat)
    ensures b as int < 0x80 ==> r == b as int
    ensures b as int >= 0x80 ==> r == 0x1_0000_0000_0000_0000 - (0x100 - b as int)
  {
    if b as int < 0x80 then b as int else 0x1_0000_0000_0000_0000 + b as int - 0x100
  }

  /**
   * As written, on a signed-`char` platform: after the digits of `"12é"`,
   * whose 'é' starts with the byte 0xC3, `dig` dispatches on an index far
   * outside the table.
   */
  lemma HighByteIndexOutsideTable()
    ensures SignedCharIndex(0xC3 as char) == 0xFFFF_FFFF_FFFF_FFC3
    ensures forall b: Byte :: b as int >= 0x80 ==> SignedCharIndex(b) >= |FTable|
  {
  }

  /**
   * Indexed by the unsigned byte, a byte of 0x80 or more after a digit run
   * is `ret`: the parse returns the run's value and stops on that byte.
   */
  lemma HighByteEndsNumber(s: Text, c: nat, k: nat, val: int)
    requires c + k < |s| && AllDigits(s[c..c + k]) && s[c + k] as int >= 0x80
    ensures Parse(ByteAt(s, c), val, s, c) == Done(val * Pow10(k) + DecimalValue(s[c..c + k]), c + k)
  {
    ParseDigits(s, c, k, val);
  }

  const NegativeExample: Text := "-12345"

  /** The source's own compile-time check: "-12345" dispatched on '-' gives -12345. */
  lemma NegativeExampleValue()
    ensures Parse('-', 0, NegativeExample, 0) == Done(-12345, 6)
  {
    var s := NegativeExample;
    var ds := s[1..6];
    assert ds == "12345";
    assert AllDigits(ds);
    assert ds[..1] == "1" && ds[..2] == "12" && ds[..3] == "123" && ds[..4] == "1234";
    assert DecimalValue("1") == 1;
    assert DecimalValue("12") == 12 by { assert "12"[..1] == "1"; }
    assert DecimalValue("123") == 123 by { assert "123"[..2] == "12"; }
    assert DecimalValue("1234") == 1234 by { assert "1234"[..3] == "123"; }
    assert DecimalValue(ds) == 12345 by { assert ds[..4] == "1234"; }
    ParseNegative(s, 0, 5, 0);
  }

  const SignInsideExample: Text := "12-3"

  /**
   * A '-' after digits is not an error: `neg` discards what was read, so
   * "12-3" parses as -3, with the whole text consumed.
   */
  lemma SignInsideExampleValue()
    ensures Parse('1', 0, SignInsideExample, 0) == Done(-3, 4)
  {
    var s := SignInsideExample;
    assert s[0..2] == "12" && AllDigits(s[0..2]);
    DigitFold(s, 0, 2, 0, true);
    assert Accumulate(0, s[0..2]) == 12 by {
      assert s[0..2][1..] == "2" && "2"[1..] == [];
    }
    assert s[3..4] == "3" && AllDigits(s[3..4]);
    DigitFold(s, 3, 1, 0, false);
    assert Handle('-', 12, 2, s, true) == Handle('3', 0, 3, s, false);
  }
}
