/**
 * The duration parser `parse_duration` (src/main.rs:206-229, the same code
 * at src/lib.rs:128-151): a single left-to-right pass over the characters
 * of a string such as "1h30m10s" that keeps a running total of seconds and
 * a buffer of pending digits.
 *
 * Arithmetic is on unbounded integers. Where the Rust code would overflow
 * `i64` or leave the range of `chrono::Duration::seconds`, and so panic,
 * is stated separately by `ParseDoesNotPanic`.
 */
module Duration {
  import opened Wrappers

  const I64_MIN: int := -0x8000_0000_0000_0000
  const I64_MAX: int := 0x7FFF_FFFF_FFFF_FFFF

  /** The largest second count chrono's `Duration::seconds` accepts: `i64::MAX` milliseconds. */
  const MAX_DURATION_SECONDS: int := I64_MAX / 1000

  predicate InI64(x: int) { I64_MIN <= x <= I64_MAX }

  /** `char::is_ascii_digit` */
  predicate IsAsciiDigit(c: char) { '0' <= c <= '9' }

  /** A character that `is_ascii_digit` accepts; the pending buffer holds only these. */
  type Digit = c: char | IsAsciiDigit(c) witness '0'

  function DigitValue(c: Digit): nat { c as int - '0' as int }

  /** The number a run of decimal digits denotes (leading zeros allowed). */
  function DecimalValue(digits: seq<Digit>): nat
  {
    if digits == [] then 0
    else DecimalValue(digits[..|digits| - 1]) * 10 + DigitValue(digits[|digits| - 1])
  }

  lemma DecimalValuePrefix(digits: seq<Digit>, k: nat)
    requires 0 < k <= |digits|
    ensures DecimalValue(digits[..k]) == DecimalValue(digits[..k - 1]) * 10 + DigitValue(digits[k - 1])
  {
    assert digits[..k][..k - 1] == digits[..k - 1];
  }

  /**
   * `str::parse::<i64>` on a buffer of ASCII digits: it fails on the empty
   * string and on a value above `i64::MAX`, and succeeds otherwise.
   */
  function ParseI64(digits: seq<Digit>): Option<int>
  {
    if digits != [] && DecimalValue(digits) <= I64_MAX then Some(DecimalValue(digits)) else None
  }

  /** Seconds per unit letter: 'h', 'm' and 's'; any other letter counts nothing. */
  function UnitSeconds(c: char): nat
  {
    if c == 'h' then 3600 else if c == 'm' then 60 else if c == 's' then 1 else 0
  }

  /** The two loop variables: `total_seconds` and `current_number`. */
  datatype Scanner = Scanner(total: int, pending: seq<Digit>)

  const Start: Scanner := Scanner(0, [])

  /**
   * One loop iteration. A digit is appended to the buffer. A non-digit,
   * when the buffer parses as i64, adds that number times the unit's
   * seconds and clears the buffer; when it does not parse (empty or too
   * long), nothing changes, so an over-long digit run is never cleared.
   */
  function Step(st: Scanner, c: char): (r: Scanner)
    ensures r.total >= st.total
    ensures IsAsciiDigit(c) ==> r.total == st.total && r.pending == st.pending + [c]
    ensures !IsAsciiDigit(c) ==> (r == st <==> ParseI64(st.pending).None?)
    ensures !IsAsciiDigit(c) && ParseI64(st.pending).Some? ==> r.pending == [] && (UnitSeconds(c) == 0 ==> r.total == st.total)
  {
    if IsAsciiDigit(c) then st.(pending := st.pending + [c])
    else match ParseI64(st.pending)
      case Some(n) => Scanner(st.total + n * UnitSeconds(c), [])
      case None => st
  }

  /** The loop run from state `st` over the characters of `s`. */
  function ScanFrom(st: Scanner, s: string): Scanner
    decreases |s|
  {
    if s == [] then st else ScanFrom(Step(st, s[0]), s[1..])
  }

  function Scan(s: string): Scanner
  {
    ScanFrom(Start, s)
  }

  /** What `parse_duration` returns, in whole seconds: `Some` only for a positive total. */
  function DurationSeconds(s: string): Option<int>
  {
    var t := Scan(s).total;
    if t > 0 then Some(t) else None
  }

  /** `parse_duration(s)`, written as the source's loop. */
  method ParseDuration(s: string) returns (r: Option<int>)
    ensures r == DurationSeconds(s)
  {
    var totalSeconds := 0;
    var currentNumber: seq<Digit> := [];
    for i := 0 to |s|
      invariant ScanFrom(Scanner(totalSeconds, currentNumber), s[i..]) == Scan(s)
    {
      var ch := s[i];
      assert s[i..][0] == ch && s[i..][1..] == s[i + 1..];
      if IsAsciiDigit(ch) {
        currentNumber := currentNumber + [ch];
      } else {
        var parsed := ParseI64(currentNumber);
        if parsed.Some? {
          var num := parsed.value;
          if ch == 'h' {
            totalSeconds := totalSeconds + num * 3600;
          } else if ch == 'm' {
            totalSeconds := totalSeconds + num * 60;
          } else if ch == 's' {
            totalSeconds := totalSeconds + num;
          }
          currentNumber := [];
        }
      }
    }
    if totalSeconds > 0 {
      r := Some(totalSeconds);
    } else {
      r := None;
    }
  }

  // ---------------------------------------------------------------------
  // Properties of the scan

  lemma {:induction false} ScanConcat(st: Scanner, a: string, b: string)
    ensures ScanFrom(st, a + b) == ScanFrom(ScanFrom(st, a), b)
    decreases |a|
  {
    if a == [] {
      assert a + b == b;
    } else {
      assert (a + b)[0] == a[0] && (a + b)[1..] == a[1..] + b;
      ScanConcat(Step(st, a[0]), a[1..], b);
    }
  }

  /** Every step adds a non-negative amount, so the total never decreases. */
  lemma {:induction false} TotalNeverDecreases(st: Scanner, s: string)
    ensures ScanFrom(st, s).total >= st.total
    decreases |s|
  {
    if s != [] {
      TotalNeverDecreases(Step(st, s[0]), s[1..]);
    }
  }

  /** The result is `Some(total)` exactly when the total is positive, and `None` means a zero total. */
  lemma DurationIsPositiveTotal(s: string)
    ensures DurationSeconds(s).Some? <==> Scan(s).total > 0
    ensures DurationSeconds(s).Some? ==> DurationSeconds(s).value == Scan(s).total
    ensures DurationSeconds(s).None? ==> Scan(s).total == 0
  {
    TotalNeverDecreases(Start, s);
  }

  /** Digits only fill the buffer; they never touch the total. */
  lemma {:induction false} DigitsOnlyBuffer(st: Scanner, ds: seq<Digit>)
    ensures ScanFrom(st, ds) == Scanner(st.total, st.pending + ds)
    decreases |ds|
  {
    if ds == [] {
      assert st.pending + ds == st.pending;
    } else {
      assert ds[1..] is seq<Digit>;
      DigitsOnlyBuffer(Step(st, ds[0]), ds[1..]);
      assert st.pending + [ds[0]] + ds[1..] == st.pending + ds;
    }
  }

  /** Trailing digits with no unit letter after them are never counted. */
  lemma TrailingDigitsIgnored(s: string, ds: seq<Digit>)
    ensures Scan(s + ds).total == Scan(s).total
    ensures DurationSeconds(s + ds) == DurationSeconds(s)
  {
    ScanConcat(Start, s, ds);
    DigitsOnlyBuffer(Scan(s), ds);
  }

  /** A buffer that fails the i64 parse although it is non-empty: a digit run above `i64::MAX`. */
  predicate Overlong(st: Scanner)
  {
    st.pending != [] && DecimalValue(st.pending) > I64_MAX
  }

  lemma {:induction false} OverlongStaysStuck(st: Scanner, s: string)
    requires Overlong(st)
    ensures Overlong(ScanFrom(st, s)) && ScanFrom(st, s).total == st.total
    decreases |s|
  {
    if s != [] {
      if IsAsciiDigit(s[0]) {
        var p := st.pending + [s[0]];
        assert p[..|p| - 1] == st.pending;
      }
      OverlongStaysStuck(Step(st, s[0]), s[1..]);
    }
  }

  /**
   * Once a digit run too long for i64 is pending it is never cleared, so
   * every later segment is dropped whatever follows.
   */
  lemma OverlongRunDropsTheRest(a: string, b: string)
    requires Overlong(Scan(a))
    ensures Scan(a + b).total == Scan(a).total
  {
    ScanConcat(Start, a, b);
    OverlongStaysStuck(Scan(a), b);
  }

  // ---------------------------------------------------------------------
  // Reference definition: a string made of `<digits><unit>` segments

  /** A segment: an optional digit run followed by one non-digit unit character. */
  datatype Segment = Segment(digits: seq<Digit>, unit: char)

  predicate WellFormed(seg: Segment)
  {
    !IsAsciiDigit(seg.unit) && DecimalValue(seg.digits) <= I64_MAX
  }

  function Render(segs: seq<Segment>): string
  {
    if segs == [] then [] else segs[0].digits + [segs[0].unit] + Render(segs[1..])
  }

  /** The sum of each segment's contribution: its number times its unit's seconds. */
  function SegmentsTotal(segs: seq<Segment>): int
  {
    if segs == [] then 0
    else DecimalValue(segs[0].digits) * UnitSeconds(segs[0].unit) + SegmentsTotal(segs[1..])
  }

  lemma {:induction false} ScanSegments(total: int, segs: seq<Segment>)
    requires forall i :: 0 <= i < |segs| ==> WellFormed(segs[i])
    ensures ScanFrom(Scanner(total, []), Render(segs)) == Scanner(total + SegmentsTotal(segs), [])
    decreases |segs|
  {
    if segs != [] {
      var seg := segs[0];
      var st := Scanner(total, []);
      ScanConcat(st, seg.digits, [seg.unit] + Render(segs[1..]));
      assert Render(segs) == seg.digits + ([seg.unit] + Render(segs[1..]));
      DigitsOnlyBuffer(st, seg.digits);
      assert [] + seg.digits == seg.digits;
      var mid := Scanner(total, seg.digits);
      ScanConcat(mid, [seg.unit], Render(segs[1..]));
      assert ScanFrom(mid, [seg.unit]) == Step(mid, seg.unit);
      var next := total + DecimalValue(seg.digits) * UnitSeconds(seg.unit);
      assert Step(mid, seg.unit) == Scanner(next, []);
      ScanSegments(next, segs[1..]);
    }
  }

  /**
   * For any string of well-formed segments, in any order and with digits
   * optional per unit, the parser returns the sum of the segments'
   * contributions when it is positive, and `None` otherwise.
   */
  lemma SegmentsDuration(segs: seq<Segment>)
    requires forall i :: 0 <= i < |segs| ==> WellFormed(segs[i])
    ensures DurationSeconds(Render(segs)) ==
            if SegmentsTotal(segs) > 0 then Some(SegmentsTotal(segs)) else None
  {
    ScanSegments(0, segs);
  }

  // ---------------------------------------------------------------------
  // Concrete values

  /** The inputs that map to nothing, and a single hour. */
  lemma ShortExamples()
    ensures DurationSeconds("1h") == Some(3600)
    ensures DurationSeconds("") == None
    ensures DurationSeconds("abc") == None
    ensures DurationSeconds("5x") == None
  {
  }

  /** Zero counts add nothing, so the positive-total test rejects them. */
  lemma ZeroCountsGiveNone()
    ensures DurationSeconds("0h0m0s") == None
  {
    var zero: seq<Digit> := "0";
    assert DecimalValue(zero) == 0 by { assert zero[..0] == []; }
    var segs := [Segment(zero, 'h'), Segment(zero, 'm'), Segment(zero, 's')];
    assert segs[1..][1..] == segs[2..] == [Segment(zero, 's')];
    assert segs[2..][1..] == [];
    assert SegmentsTotal(segs[2..]) == 0;
    assert SegmentsTotal(segs[1..]) == 0;
    assert Render(segs[2..]) == "0s";
    assert Render(segs[1..]) == "0m0s";
    assert Render(segs) == "0h0m0s";
    SegmentsDuration(segs);
  }

  lemma NinetyMinutes()
    ensures DurationSeconds("90m") == Some(5400)
  {
    var ninety: seq<Digit> := "90";
    assert DecimalValue(ninety) == 90 by { assert ninety[..1] == "9"; }
    var segs := [Segment(ninety, 'm')];
    assert Render(segs) == "90m";
    SegmentsDuration(segs);
  }

  lemma HourMinutesSeconds()
    ensures DurationSeconds("1h30m10s") == Some(5410)
  {
    var one: seq<Digit> := "1";
    var thirty: seq<Digit> := "30";
    var ten: seq<Digit> := "10";
    assert DecimalValue(one) == 1;
    assert DecimalValue(thirty) == 30 by { assert thirty[..1] == "3"; }
    assert DecimalValue(ten) == 10 by { assert ten[..1] == "1"; }
    var segs := [Segment(one, 'h'), Segment(thirty, 'm'), Segment(ten, 's')];
    assert segs[1..][1..] == segs[2..] == [Segment(ten, 's')];
    assert segs[2..][1..] == [];
    assert SegmentsTotal(segs[2..]) == 10;
    assert SegmentsTotal(segs[1..]) == 1810;
    assert SegmentsTotal(segs) == 5410;
    assert Render(segs[2..]) == "10s";
    assert Render(segs[1..]) == "30m10s";
    assert Render(segs) == "1h30m10s";
    SegmentsDuration(segs);
  }

  // ---------------------------------------------------------------------
  // When the Rust code panics

  /**
   * One step performs no i64 overflow: for 'h', 'm' and 's', both the
   * product `num * unit` and the new running total fit in i64.
   */
  predicate StepInRange(st: Scanner, c: char)
  {
    var n := ParseI64(st.pending);
    !IsAsciiDigit(c) && n.Some? && UnitSeconds(c) > 0 ==>
      InI64(n.value * UnitSeconds(c)) && InI64(st.total + n.value * UnitSeconds(c))
  }

  predicate ScanInRange(st: Scanner, s: string)
    decreases |s|
  {
    s == [] || (StepInRange(st, s[0]) && ScanInRange(Step(st, s[0]), s[1..]))
  }

  /**
   * `parse_duration(s)` returns without panicking, with overflow checks
   * on (as in a fuzzing build): no step overflows i64, and a positive
   * total is within the range of `chrono::Duration::seconds`.
   */
  predicate ParseDoesNotPanic(s: string)
  {
    ScanInRange(Start, s) && (Scan(s).total > 0 ==> Scan(s).total <= MAX_DURATION_SECONDS)
  }

  function Pow10(n: nat): nat
  {
    if n == 0 then 1 else 10 * Pow10(n - 1)
  }

  lemma {:induction false} Pow10Monotone(m: nat, n: nat)
    requires m <= n
    ensures Pow10(m) <= Pow10(n)
    decreases n
  {
    if m < n {
      Pow10Monotone(m, n - 1);
    }
  }

  /**
   * The running bound of the proof below: the total plus 3600 times one
   * more than the buffered number stays under 3600 * 10^n after n characters.
   */
  predicate Headroom(st: Scanner, n: nat)
  {
    0 <= st.total && st.total + 3600 * (DecimalValue(st.pending) + 1) <= 3600 * Pow10(n)
  }

  /** One step below the twelfth character does not overflow and keeps the bound, one decimal place up. */
  lemma StepBounded(st: Scanner, c: char, n: nat)
    requires n < 12
    requires Headroom(st, n)
    ensures StepInRange(st, c)
    ensures Headroom(Step(st, c), n + 1)
  {
    Pow10Monotone(n, 12);
    assert Pow10(12) == 1_000_000_000_000;
    var v := DecimalValue(st.pending);
    if IsAsciiDigit(c) {
      var p := st.pending + [c];
      assert p[..|p| - 1] == st.pending;
      assert DecimalValue(p) <= 10 * v + 9;
      assert st.total + 3600 * (DecimalValue(p) + 1) <= 10 * (st.total + 3600 * (v + 1));
    } else if ParseI64(st.pending).Some? {
      assert v * UnitSeconds(c) <= 3600 * v;
    }
  }

  lemma {:induction false} ScanBounded(st: Scanner, s: string, n: nat)
    requires n + |s| <= 12
    requires Headroom(st, n)
    ensures ScanInRange(st, s)
    decreases |s|
  {
    if s != [] {
      StepBounded(st, s[0], n);
      ScanBounded(Step(st, s[0]), s[1..], n + 1);
    }
  }

  lemma {:induction false} ScanHeadroom(st: Scanner, s: string, n: nat)
    requires n + |s| <= 12
    requires Headroom(st, n)
    ensures Headroom(ScanFrom(st, s), n + |s|)
    decreases |s|
  {
    if s != [] {
      StepBounded(st, s[0], n);
      ScanHeadroom(Step(st, s[0]), s[1..], n + 1);
    }
  }

  /** Every input of at most 12 characters is parsed without a panic. */
  lemma ShortInputsDoNotPanic(s: string)
    requires |s| <= 12
    ensures ParseDoesNotPanic(s)
  {
    ScanBounded(Start, s, 0);
    ScanHeadroom(Start, s, 0);
    Pow10Monotone(|s|, 12);
    assert Pow10(12) == 1_000_000_000_000;
  }

  /** Kept apart so that the nonlinear step is proved in a context of its own. */
  lemma Distribute(x: int, p: int, y: int, dl: int)
    ensures (x * p + y) * 10 + dl == x * (p * 10) + (y * 10 + dl)
  {
  }

  lemma {:induction false} DecimalValueConcat(a: seq<Digit>, b: seq<Digit>)
    ensures DecimalValue(a + b) == DecimalValue(a) * Pow10(|b|) + DecimalValue(b)
    decreases |b|
  {
    if b == [] {
      assert a + b == a;
    } else {
      var b' := b[..|b| - 1];
      var ab := a + b;
      assert ab[..|ab| - 1] == a + b';
      DecimalValueConcat(a, b');
      Distribute(DecimalValue(a), Pow10(|b'|), DecimalValue(b'), DigitValue(b[|b| - 1]));
    }
  }

  lemma FourDigits(ds: seq<Digit>)
    requires |ds| == 4
    ensures DecimalValue(ds) == DigitValue(ds[0]) * 1000 + DigitValue(ds[1]) * 100 + DigitValue(ds[2]) * 10 + DigitValue(ds[3])
  {
    DecimalValuePrefix(ds, 4);
    DecimalValuePrefix(ds, 3);
    DecimalValuePrefix(ds, 2);
    DecimalValuePrefix(ds, 1);
    assert ds[..4] == ds;
  }
  /** The last nine digits of the witness below. */
  lemma HugeHourCountTail(digits: seq<Digit>)
    requires digits == "047788016"
    ensures DecimalValue(digits) == 47788016
  {
    var b: seq<Digit> := "0477";
    var c: seq<Digit> := "8801";
    var d: seq<Digit> := "6";
    FourDigits(b);
    FourDigits(c);
    assert DecimalValue(d) == 6 by { assert d[..0] == []; }
    assert Pow10(1) == 10;
    assert Pow10(5) == 100000;
    DecimalValueConcat(c, d);
    assert DecimalValue(c + d) == 88016;
    assert |c + d| == 5;
    DecimalValueConcat(b, c + d);
    assert b + (c + d) == digits;
  }

  lemma HugeHourCountValue(digits: seq<Digit>)
    requires digits == "2562047788016"
    ensures DecimalValue(digits) == 2562047788016
  {
    var a: seq<Digit> := "2562";
    var t := digits[4..];
    assert t == "047788016";
    FourDigits(a);
    assert DecimalValue(a) == 2562;
    HugeHourCountTail(t);
    assert Pow10(1) == 10;
    assert Pow10(4) == 10000;
    assert Pow10(5) == 100000;
    assert Pow10(9) == 1000000000;
    DecimalValueConcat(a, t);
    assert a + t == digits;
  }

  /**
   * The bound is not vacuous: a 13-digit hour count fits in i64 but
   * overflows chrono's range, so `Duration::seconds` panics.
   */
  lemma HugeHourCountPanics(s: string)
    requires s == "2562047788016h"
    ensures Scan(s).total == 2562047788016 * 3600 > MAX_DURATION_SECONDS
    ensures !ParseDoesNotPanic(s)
  {
    var digits: seq<Digit> := "2562047788016";
    HugeHourCountValue(digits);
    var segs := [Segment(digits, 'h')];
    assert segs[1..] == [];
    assert Render(segs) == s;
    ScanSegments(0, segs);
  }

}
