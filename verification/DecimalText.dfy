/** Decimal numbers in the JSON output, and timestamps that need more digits than 64 bits hold. */
module DecimalText {
  import opened Arithmetic

  const TWO64 := 0x1_0000_0000_0000_0000
  const TWO63 := 0x8000_0000_0000_0000
  const BILLION := 1_000_000_000

  function Digit(d: nat): char
    requires d < 10
  {
    (48 + d) as char
  }

  /** Without leading zeros. */
  function Dec(v: nat): string {
    if v < 10 then [Digit(v)] else Dec(v / 10) + [Digit(v % 10)]
  }

  function SDec(v: int): string {
    if v < 0 then "-" + Dec(-v) else Dec(v)
  }

  /** The last `n` digits. */
  function DecN(n: nat, v: nat): (r: string)
    ensures |r| == n
  {
    if n == 0 then "" else DecN(n - 1, v / 10) + [Digit(v % 10)]
  }

  function Pow10(n: nat): (r: nat)
    ensures r > 0
  {
    if n == 0 then 1 else 10 * Pow10(n - 1)
  }

  // ------------------------------------------------------------ the digit loops

  function Reversed(s: string): (r: string)
    ensures |r| == |s|
  {
    if s == "" then "" else Reversed(s[1..]) + [s[0]]
  }

  lemma {:induction false} ReversedMore(s: string, c: char)
    ensures Reversed(s + [c]) == [c] + Reversed(s)
  {
    if s == "" {
      assert Reversed([c]) == Reversed("") + [c];
    } else {
      assert (s + [c])[1..] == s[1..] + [c];
      ReversedMore(s[1..], c);
    }
  }

  /** The digits come out of the buffer in reverse. */
  method Unload(buffer: array<char>, size: nat) returns (text: string)
    requires size <= buffer.Length
    ensures text == Reversed(buffer[..size])
  {
    text := "";
    for i := 0 to size
      invariant Reversed(buffer[..size]) == text + Reversed(buffer[..size - i])
    {
      var c := buffer[size - i - 1];
      assert buffer[..size - i] == buffer[..size - i - 1] + [c];
      ReversedMore(buffer[..size - i - 1], c);
      text := text + [c];
    }
  }

  /** The digits of `v` that are still to come. */
  function Front(v: nat): string {
    if v > 0 then Dec(v) else ""
  }

  lemma FrontStep(v: nat, n: nat, rest: string)
    requires 0 < v < Pow10(n)
    ensures n > 0 && v / 10 < Pow10(n - 1)
    ensures Front(v) + rest == Front(v / 10) + ([Digit(v % 10)] + rest)
  {
    assert Dec(v) == Front(v / 10) + [Digit(v % 10)];
  }

  /** The loop that fills the buffer of `appendDec` and `appendSDec`; 64-bit values have at most 20
      digits. */
  method Load(value: nat, buffer: array<char>) returns (size: nat)
    requires value < TWO64 && buffer.Length >= 21
    modifies buffer
    ensures 1 <= size <= 20 && Reversed(buffer[..size]) == Dec(value)
  {
    hide Pow10, Dec, Reversed, Front;
    if value == 0 {
      buffer[0] := '0';
      assert buffer[..1] == "0";
      OneZero();
      return 1;
    }
    size := 0;
    var v: nat := value;
    TwentyDigits();
    ReversedNone();
    FrontOf(value);
    while v > 0
      invariant size <= 20 && v < Pow10(20 - size) && (size == 0 ==> v == value)
      invariant Front(v) + Reversed(buffer[..size]) == Dec(value)
    {
      ghost var before := buffer[..size];
      FrontStep(v, 20 - size, Reversed(before));
      buffer[size] := Digit(v % 10);
      assert buffer[..size + 1] == before + [Digit(v % 10)];
      ReversedMore(before, Digit(v % 10));
      size, v := size + 1, v / 10;
    }
    FrontOf(0);
    assert "" + Reversed(buffer[..size]) == Reversed(buffer[..size]);
  }

  lemma OneZero()
    ensures Dec(0) == "0" == Reversed("0")
  {
  }

  lemma FrontOf(v: nat)
    ensures v > 0 ==> Front(v) + "" == Dec(v)
    ensures Front(0) == ""
  {
  }

  lemma ReversedNone()
    ensures Reversed("") == ""
  {
  }

  lemma TwentyDigits()
    ensures TWO64 <= Pow10(20)
  {
    assert Pow10(4) == 10_000;
    assert Pow10(8) == 100_000_000;
    assert Pow10(12) == 1_000_000_000_000;
    assert Pow10(16) == 10_000_000_000_000_000;
  }

  /** `appendDec` */
  method AppendDec(value: nat) returns (text: string)
    requires value < TWO64
    ensures text == Dec(value)
  {
    var buffer := new char[21];
    var size := Load(value, buffer);
    text := Unload(buffer, size);
  }

  function Signed64(v: int): int {
    (v + TWO63) % TWO64 - TWO63
  }

  lemma FitsSigned(v: int)
    ensures Signed64(v) == v <==> -TWO63 <= v < TWO63
    ensures -TWO63 <= Signed64(v) < TWO63
  {
    DivMod(v + TWO63, TWO64);
  }

  /** What `appendSDec` prints. The negation of the smallest 64-bit number wraps to itself, and the
      digit loop then ends at once. */
  function SignedText(value: int): string {
    if value == -TWO63 then "-" else SDec(value)
  }

  /** `appendSDec` */
  method AppendSDec(value: int) returns (text: string)
    requires -TWO63 <= value < TWO63
    ensures text == SignedText(value)
  {
    hide Signed64, Reversed, Dec;
    var buffer := new char[22];
    if value < 0 {
      FitsSigned(-value);
      SmallestStays();
      var negated := Signed64(-value);
      var size := 0;
      ReversedNone();
      if negated > 0 {
        size := Load(negated, buffer);
      }
      ghost var before := buffer[..size];
      buffer[size] := '-';
      assert buffer[..size + 1] == before + ['-'];
      ReversedMore(before, '-');
      assert size == 0 ==> before == "";
      text := Unload(buffer, size + 1);
    } else {
      var size := Load(value, buffer);
      text := Unload(buffer, size);
    }
  }

  lemma SmallestStays()
    ensures Signed64(TWO63) == -TWO63
  {
  }

  /** Without the last `k` digits. */
  function Shifted(v: nat, k: nat): nat {
    if k == 0 then v else Shifted(v, k - 1) / 10
  }

  lemma {:induction false} ShiftedFirst(v: nat, k: nat)
    ensures Shifted(v, k + 1) == Shifted(v / 10, k)
  {
    if k > 0 {
      ShiftedFirst(v, k - 1);
    }
  }

  lemma {:induction false} DecNMore(k: nat, v: nat)
    ensures DecN(k + 1, v) == [Digit(Shifted(v, k) % 10)] + DecN(k, v)
  {
    if k == 0 {
      assert DecN(0, v / 10) == "";
    } else {
      DecNMore(k - 1, v / 10);
      ShiftedFirst(v, k - 1);
    }
  }

  /** `appendDecN` */
  method AppendDecN(n: nat, value: nat) returns (text: string)
    requires n <= 21 && value < TWO64
    ensures text == DecN(n, value)
  {
    var buffer := new char[21];
    var v := value;
    for i := 0 to n
      invariant v == Shifted(value, i) && Reversed(buffer[..i]) == DecN(i, value)
    {
      ghost var before := buffer[..i];
      buffer[i] := Digit(v % 10);
      assert buffer[..i + 1] == before + [Digit(v % 10)];
      ReversedMore(before, Digit(v % 10));
      DecNMore(i, value);
      v := v / 10;
    }
    text := Unload(buffer, n);
  }

  // ------------------------------------------------------------ what the digits denote

  function ValueOf(s: string): int {
    if s == "" then 0 else 10 * ValueOf(s[..|s| - 1]) + (s[|s| - 1] as int - 48)
  }

  function SignedValueOf(s: string): int {
    if s != "" && s[0] == '-' then -ValueOf(s[1..]) else ValueOf(s)
  }

  lemma {:induction false} ValueOfMore(s: string, t: string)
    ensures ValueOf(s + t) == ValueOf(s) * Pow10(|t|) + ValueOf(t)
    decreases |t|
  {
    if t == "" {
      assert s + t == s;
    } else {
      hide ValueOf, Pow10;
      var n := |t| - 1;
      assert (s + t)[..|s| + n] == s + t[..n];
      ValueOfMore(s, t[..n]);
      ValueOfLast(s + t);
      ValueOfLast(t);
      TenTimes(ValueOf(s), n, ValueOf(t[..n]), t[n] as int - 48);
    }
  }

  lemma ValueOfLast(s: string)
    requires s != ""
    ensures ValueOf(s) == 10 * ValueOf(s[..|s| - 1]) + (s[|s| - 1] as int - 48)
  {
  }

  lemma TenTimes(v: int, n: nat, w: int, d: int)
    ensures 10 * (v * Pow10(n) + w) + d == v * Pow10(n + 1) + (10 * w + d)
  {
    var p := Pow10(n);
    assert v * (10 * p) == 10 * (v * p);
  }

  lemma {:induction false} DecDenotes(v: nat)
    ensures ValueOf(Dec(v)) == v && |Dec(v)| > 0 && '0' <= Dec(v)[0] <= '9' && (Dec(v)[0] == '0' <==> v == 0)
  {
    if v >= 10 {
      DecDenotes(v / 10);
    }
  }

  lemma {:induction false} DecNDenotes(n: nat, v: nat)
    requires v < Pow10(n)
    ensures ValueOf(DecN(n, v)) == v
  {
    if n > 0 {
      DecNDenotes(n - 1, v / 10);
    }
  }

  lemma SDecDenotes(v: int)
    ensures SignedValueOf(SDec(v)) == v
  {
    DecDenotes(if v < 0 then -v else v);
    if v < 0 {
      assert SDec(v)[1..] == Dec(-v);
    }
  }

  /** The text denotes the number, except for the smallest one. */
  lemma SignedTextDenotes(v: int)
    ensures SignedValueOf(SignedText(v)) == if v == -TWO63 then 0 else v
  {
    hide SDec, Dec;
    if v != -TWO63 {
      SDecDenotes(v);
    }
  }

  // ------------------------------------------------------------ nanoseconds

  /** C division. */
  function Quot(a: int, b: nat): int
    requires b > 0
  {
    if a < 0 then -(-a / b) else a / b
  }

  /** C remainder. */
  function Rem(a: int, b: nat): int
    requires b > 0
  {
    if a < 0 then -(-a % b) else a % b
  }

  /** The UNIX_NANO branch of `columnTimestamp`; `fraction` is unsigned and wraps, and so does the
      negation of the smallest timestamp. */
  function Nanos(timestamp: int, fraction: nat): string
    requires -TWO63 <= timestamp < TWO63 && fraction < TWO64
  {
    if -BILLION < timestamp < BILLION then SignedText(Signed64(timestamp * BILLION + fraction))
    else
      var magnitude := if timestamp < 0 then Signed64(-timestamp) else timestamp;
      var low := Rem(magnitude, BILLION) * BILLION + (if timestamp < 0 then TWO64 - fraction else fraction);
      SignedText(Quot(timestamp, BILLION)) + DecN(18, low % TWO64)
  }

  /** The same with the variables of the source. */
  method NanoText(timestamp: int, fraction: nat) returns (text: string)
    requires -TWO63 <= timestamp < TWO63 && fraction < TWO64
    ensures text == Nanos(timestamp, fraction)
  {
    hide SignedText, DecN, Signed64;
    if timestamp < BILLION && timestamp > -BILLION {
      FitsSigned(timestamp * BILLION + fraction);
      text := AppendSDec(Signed64(timestamp * BILLION + fraction));
    } else {
      var firstDigits := Quot(timestamp, BILLION);
      var t, f: int := timestamp, fraction;
      if t < 0 {
        t := Signed64(-t);
        f := (TWO64 - f) % TWO64;
      }
      t := Rem(t, BILLION);
      Wraps(t * BILLION, if timestamp < 0 then TWO64 - fraction else fraction, TWO64);
      text := AppendSDec(firstDigits);
      var rest := AppendDecN(18, (t * BILLION + f) % TWO64);
      text := text + rest;
    }
  }

  lemma Wraps(a: int, b: int, m: nat)
    requires m > 0
    ensures (a + b % m) % m == (a + b) % m
  {
    DivMod(b, m);
    Shift(b / m, a + b % m, m);
  }

  lemma EighteenDigits()
    ensures Pow10(18) == BILLION * BILLION
  {
    assert Pow10(4) == 10_000;
    assert Pow10(8) == 100_000_000;
    assert Pow10(12) == 1_000_000_000_000;
    assert Pow10(16) == 10_000_000_000_000_000;
  }

  /** Two digit runs denote the first one shifted by 18 digits, plus the second. */
  lemma TwoRuns(sign: bool, high: nat, low: nat)
    requires high > 0 && low < Pow10(18)
    ensures var v := high * Pow10(18) + low;
            SignedValueOf(SDec(if sign then 0 - high else high) + DecN(18, low)) == if sign then -v else v
  {
    hide Dec, DecN, Pow10, ValueOf;
    DecDenotes(high);
    DecNDenotes(18, low);
    ValueOfMore(Dec(high), DecN(18, low));
    if sign {
      assert (SDec(0 - high) + DecN(18, low))[1..] == Dec(high) + DecN(18, low);
    }
  }

  /** The text denotes the number of nanoseconds, except for the smallest timestamp and for negative
      timestamps that are a multiple of a billion seconds, at least one, with a fraction. */
  lemma NanosExact(timestamp: int, fraction: nat)
    requires -TWO63 <= timestamp < TWO63 && fraction < BILLION
    ensures SignedValueOf(Nanos(timestamp, fraction)) == timestamp * BILLION + fraction
            <==> timestamp != -TWO63 && !(timestamp <= -BILLION && -timestamp % BILLION == 0 && fraction > 0)
  {
    hide DecN, SDec, SignedValueOf, Pow10, Signed64;
    EighteenDigits();
    if -BILLION < timestamp < BILLION {
      FitsSigned(timestamp * BILLION + fraction);
      SignedTextDenotes(timestamp * BILLION + fraction);
    } else if timestamp == -TWO63 {
      SmallestNanos(fraction);
    } else {
      FitsSigned(-timestamp);
      var magnitude := if timestamp < 0 then -timestamp else timestamp;
      var high, r := magnitude / BILLION, magnitude % BILLION;
      if timestamp > 0 {
        TwoRuns(false, high, r * BILLION + fraction);
      } else if r > 0 || fraction == 0 {
        assert (r * BILLION + (TWO64 - fraction)) % TWO64 == r * BILLION - fraction;
        TwoRuns(true, high, r * BILLION - fraction);
      } else {
        var low := (TWO64 - fraction) % Pow10(18);
        LastDigits(18, TWO64 - fraction);
        TwoRuns(true, high, low);
      }
    }
  }

  /** The digits printed for the smallest timestamp. */
  lemma SmallestNanos(fraction: nat)
    requires fraction < BILLION
    ensures SignedValueOf(Nanos(-TWO63, fraction)) != -TWO63 * BILLION + fraction
  {
    hide DecN, SDec, SignedValueOf, Pow10, Signed64;
    EighteenDigits();
    SmallestStays();
    var low := Rem(-TWO63, BILLION) * BILLION + (TWO64 - fraction);
    assert low == 17_591_968_265_709_551_616 - fraction;
    LastDigits(18, low);
    assert low % Pow10(18) == 591_968_265_709_551_616 - fraction;
    TwoRuns(true, 9_223_372_036, low % Pow10(18));
  }

  lemma {:induction false} LastDigits(n: nat, v: nat)
    ensures DecN(n, v) == DecN(n, v % Pow10(n))
  {
    if n > 0 {
      var p := Pow10(n - 1);
      LastDigits(n - 1, v / 10);
      ModTen(v, p);
    }
  }

  lemma ModTen(v: nat, p: nat)
    requires p > 0
    ensures v % (10 * p) / 10 == v / 10 % p && v % (10 * p) % 10 == v % 10
  {
    DivMod(v, 10);
    DivMod(v / 10, p);
    var a, b, r := v / 10 / p, v / 10 % p, v % 10;
    assert v == a * (10 * p) + (10 * b + r) by { assert 10 * (a * p) == a * (10 * p); }
    Quotient(a, 10 * b + r, 10 * p);
  }

  // ------------------------------------------------------------ coarser units

  /** A number of nanoseconds that a timestamp format counts in. */
  predicate IsUnit(u: nat) {
    u == 1_000 || u == 1_000_000 || u == BILLION
  }

  /** To the nearest unit, and up when in the middle. */
  function Rounded(nanos: int, u: nat): int
    requires u > 0
  {
    (nanos + u / 2) / u
  }

  /** The UNIX_MICRO, UNIX_MILLI and UNIX branches; the arithmetic is unsigned and wraps, and its
      result is taken as a signed number. */
  function UnixText(timestamp: int, fraction: nat, u: nat): string
    requires IsUnit(u)
  {
    SignedText(Signed64(timestamp * (BILLION / u) + (fraction + u / 2) % TWO64 / u))
  }

  /** The same in 64 bits. */
  method UnixNumber(timestamp: int, fraction: nat, u: nat) returns (text: string)
    requires -TWO63 <= timestamp < TWO63 && fraction < TWO64 && IsUnit(u)
    ensures text == UnixText(timestamp, fraction, u)
  {
    hide SignedText, Signed64;
    var product := timestamp * (BILLION / u) % TWO64;
    var units := (fraction + u / 2) % TWO64 / u;
    var sum := (product + units) % TWO64;
    var value := if sum < TWO63 then sum else sum - TWO64;
    AsSigned(timestamp * (BILLION / u), units);
    text := AppendSDec(value);
  }

  lemma AsSigned(a: int, b: int)
    ensures var sum := (a % TWO64 + b) % TWO64;
            Signed64(a + b) == if sum < TWO63 then sum else sum - TWO64
  {
    DivMod(a, TWO64);
    var c := a % TWO64 + b;
    DivMod(c, TWO64);
    var k, r := a / TWO64 + c / TWO64, c % TWO64;
    assert a + b == k * TWO64 + r;
    if r < TWO63 {
      Quotient(k, r + TWO63, TWO64);
    } else {
      Quotient(k + 1, r - TWO63, TWO64);
    }
  }

  /** Seconds and fraction of the ISO 8601 branches, with the carry into the seconds. */
  function IsoParts(timestamp: int, fraction: nat, u: nat): (int, int)
    requires IsUnit(u)
  {
    var units := (fraction + u / 2) / u;
    if units >= BILLION / u then (timestamp + 1, units - BILLION / u) else (timestamp, units)
  }

  lemma RoundedSum(timestamp: int, fraction: nat, u: nat)
    requires IsUnit(u)
    ensures timestamp * (BILLION / u) + (fraction + u / 2) / u == Rounded(timestamp * BILLION + fraction, u)
  {
    var k := timestamp * (BILLION / u);
    assert timestamp * BILLION == k * u by {
      if u == 1_000 {
        assert k == timestamp * 1_000_000;
      } else if u == 1_000_000 {
        assert k == timestamp * 1_000;
      }
    }
    Shift(k, fraction + u / 2, u);
  }

  /** The text denotes the rounded instant if and only if that fits in 64 bits and is not the
      smallest number. */
  lemma UnixRounds(timestamp: int, fraction: nat, u: nat)
    requires fraction < BILLION && IsUnit(u)
    ensures var v := Rounded(timestamp * BILLION + fraction, u);
            SignedValueOf(UnixText(timestamp, fraction, u)) == v <==> -TWO63 < v < TWO63
  {
    hide SignedText, SignedValueOf, Rounded, Signed64;
    var v := Rounded(timestamp * BILLION + fraction, u);
    RoundedSum(timestamp, fraction, u);
    assert (fraction + u / 2) % TWO64 == fraction + u / 2;
    SignedTextDenotes(Signed64(v));
    FitsSigned(v);
  }

  /** The ISO 8601 branches give the same rounded instant, with a fraction below one second. */
  lemma IsoRounds(timestamp: int, fraction: nat, u: nat)
    requires IsUnit(u) && fraction < BILLION
    ensures var (seconds, units) := IsoParts(timestamp, fraction, u);
            0 <= units < BILLION / u && seconds * (BILLION / u) + units == Rounded(timestamp * BILLION + fraction, u)
  {
    RoundedSum(timestamp, fraction, u);
  }
}
