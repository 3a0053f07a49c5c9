/** BINARY_FLOAT and BINARY_DOUBLE values, whose stored bytes compare as the numbers do: positive
    numbers have the sign bit set, negative ones have every bit inverted. */
module FloatOrder {
  import opened Basics
  import opened Arithmetic

  /** Widths of an encoding: `unit` is the weight of the hidden bit, `top` the largest exponent. */
  datatype Form = Form(unit: nat, top: nat, bias: nat) {
    predicate Valid() {
      unit >= 2 && bias >= 1 && top == 2 * bias + 1
    }
  }

  const FLOAT := Form(0x80_0000, 0xFF, 0x7F)
  const DOUBLE := Form(0x10_0000_0000_0000, 0x7FF, 0x3FF)

  datatype Number = Finite(value: real) | PlusInfinity | MinusInfinity | NaN

  ghost function Pow2(e: int): real
    decreases if e < 0 then -e else e
  {
    if e == 0 then 1.0 else if e > 0 then 2.0 * Pow2(e - 1) else Pow2(e + 1) / 2.0
  }

  /** `ldexp` of a significand. */
  ghost function Scaled(form: Form, significand: int, exponent: int): real
    requires form.Valid()
  {
    significand as real / form.unit as real * Pow2(exponent)
  }

  /** The decoders after the fields are cut out of the bytes. */
  ghost function Decode(form: Form, positive: bool, exponent: int, significand: int): Number
    requires form.Valid()
  {
    if positive then
      if significand == 0 && exponent == 0 then Finite(0.0)
      else if significand == 0 && exponent == form.top then PlusInfinity
      else if significand == form.unit / 2 && exponent == form.top then NaN
      else Finite(Scaled(form, if exponent > 0 then significand + form.unit else significand, exponent - form.bias))
    else if exponent == 0 && significand == form.unit - 1 then MinusInfinity
    else
      var inverted := form.unit - 1 - significand;
      Finite(-Scaled(form, if exponent < form.top then inverted + form.unit else inverted, form.bias + 1 - exponent))
  }

  // ------------------------------------------------------------ cutting out the fields

  /** The bytes as one number, most significant first. */
  function Big(data: seq<Byte>): nat {
    if data == [] then 0 else Big(data[..|data| - 1]) * 256 + data[|data| - 1]
  }

  /** `decodeFloat` */
  ghost function DecodeFloat(data: seq<Byte>): Number
    requires |data| == 4
  {
    var b0: int, b1: int, b2: int, b3: int := data[0], data[1], data[2], data[3];
    Decode(FLOAT, b0 >= 0x80, b0 % 0x80 * 2 + b1 / 0x80, b1 % 0x80 * 0x1_0000 + b2 * 0x100 + b3)
  }

  /** `decodeDouble` */
  ghost function DecodeDouble(data: seq<Byte>): Number
    requires |data| == 8
  {
    var b0: int, b1: int, b2: int, b3: int := data[0], data[1], data[2], data[3];
    var b4: int, b5: int, b6: int, b7: int := data[4], data[5], data[6], data[7];
    Decode(DOUBLE, b0 >= 0x80, b0 % 0x80 * 0x10 + b1 / 0x10,
           b1 % 0x10 * 0x1_0000_0000_0000 + b2 * 0x100_0000_0000 + b3 * 0x1_0000_0000
           + b4 * 0x100_0000 + b5 * 0x1_0000 + b6 * 0x100 + b7)
  }

  /** All encodings of a form, as numbers: sign, exponent and significand side by side. */
  function Limit(form: Form): nat {
    (form.top + 1) * form.unit
  }

  ghost function DecodeKey(form: Form, key: nat): Number
    requires form.Valid() && key < 2 * Limit(form)
  {
    var rest := if key >= Limit(form) then key - Limit(form) else key;
    Decode(form, key >= Limit(form), rest / form.unit, rest % form.unit)
  }

  // ------------------------------------------------------------ magnitudes

  /** The value of the positive encoding with these fields, infinity aside. */
  ghost function Magnitude(form: Form, exponent: int, significand: int): real
    requires form.Valid()
  {
    Scaled(form, if exponent > 0 then significand + form.unit else significand, exponent - form.bias)
  }

  lemma {:induction false} Pow2Positive(e: int)
    ensures Pow2(e) > 0.0
    decreases if e < 0 then -e else e
  {
    if e > 0 {
      Pow2Positive(e - 1);
    } else if e < 0 {
      Pow2Positive(e + 1);
    }
  }

  lemma Pow2Next(e: int)
    ensures Pow2(e + 1) == 2.0 * Pow2(e)
  {
  }

  lemma {:induction false} Pow2Grows(a: int, b: int)
    requires a <= b
    ensures Pow2(a) <= Pow2(b)
    decreases b - a
  {
    if a < b {
      Pow2Grows(a, b - 1);
      Pow2Next(b - 1);
      Pow2Positive(b - 1);
    }
  }

  lemma ScaledGrows(form: Form, s: int, t: int, e: int)
    requires form.Valid() && s < t
    ensures Scaled(form, s, e) < Scaled(form, t, e)
  {
    Pow2Positive(e);
    var u := form.unit as real;
    assert s as real / u < t as real / u;
    TimesPositive(s as real / u, t as real / u, Pow2(e));
  }

  lemma TimesPositive(a: real, b: real, p: real)
    requires a < b && p > 0.0
    ensures a * p < b * p
  {
  }

  /** One or two units are a power of two. */
  lemma ScaledUnit(form: Form, e: int)
    requires form.Valid()
    ensures Scaled(form, form.unit, e) == Pow2(e)
    ensures Scaled(form, 2 * form.unit, e) == Pow2(e + 1)
  {
    var u := form.unit as real;
    assert u / u == 1.0;
    assert (2 * form.unit) as real / u == 2.0;
    Pow2Next(e);
  }

  /** A larger exponent, or the same exponent and a larger significand, is a larger magnitude. */
  lemma MagnitudeGrows(form: Form, e: int, f: int, e': int, f': int)
    requires form.Valid() && 0 <= e <= e' && 0 <= f < form.unit && 0 <= f' < form.unit && (e == e' ==> f < f')
    ensures Magnitude(form, e, f) < Magnitude(form, e', f')
  {
    hide Scaled;
    if e == e' {
      ScaledGrows(form, if e > 0 then f + form.unit else f, if e > 0 then f' + form.unit else f', e - form.bias);
    } else {
      ScaledGrows(form, if e > 0 then f + form.unit else f, 2 * form.unit, e - form.bias);
      ScaledUnit(form, e - form.bias);
      Pow2Grows(e + 1 - form.bias, e' - form.bias);
      ScaledUnit(form, e' - form.bias);
      if f' > 0 {
        ScaledGrows(form, form.unit, f' + form.unit, e' - form.bias);
      }
    }
  }

  lemma MagnitudeZero(form: Form)
    requires form.Valid()
    ensures Magnitude(form, 0, 0) == 0.0
  {
  }

  lemma MagnitudePositive(form: Form, e: int, f: int)
    requires form.Valid() && 0 <= e && 0 <= f < form.unit && (e > 0 || f > 0)
    ensures Magnitude(form, e, f) > 0.0
  {
    MagnitudeZero(form);
    MagnitudeGrows(form, 0, 0, e, f);
  }

  // ------------------------------------------------------------ order

  /** A finite encoding gives the magnitude of its fields, inverted and negated below the middle. */
  lemma FiniteIsMagnitude(form: Form, positive: bool, e: int, f: int)
    requires form.Valid() && 0 <= e <= form.top && 0 <= f < form.unit && Decode(form, positive, e, f).Finite?
    ensures Decode(form, positive, e, f).value ==
            if positive then Magnitude(form, e, f) else -Magnitude(form, form.top - e, form.unit - 1 - f)
  {
    hide Scaled;
    if positive && e == 0 && f == 0 {
      assert Magnitude(form, 0, 0) == 0.0 by { MagnitudeZero(form); }
    }
  }

  lemma Fields(form: Form, key: nat)
    requires form.Valid() && key < Limit(form)
    ensures 0 <= key / form.unit <= form.top && 0 <= key % form.unit < form.unit
    ensures key == key / form.unit * form.unit + key % form.unit
  {
    DivMod(key, form.unit);
    if key / form.unit > form.top {
      Times(form.top + 1, key / form.unit, form.unit);
    }
  }

  lemma FieldsOrdered(form: Form, key: nat, key': nat)
    requires form.Valid() && key < key' < Limit(form)
    ensures key / form.unit <= key' / form.unit
    ensures key / form.unit == key' / form.unit ==> key % form.unit < key' % form.unit
  {
    Fields(form, key);
    Fields(form, key');
    QuotientsOrdered(key / form.unit, key % form.unit, key' / form.unit, key' % form.unit, form.unit);
  }

  lemma QuotientsOrdered(q: int, r: int, q': int, r': int, d: int)
    requires 0 <= r < d && 0 <= r' < d && q * d + r < q' * d + r'
    ensures q <= q' && (q == q' ==> r < r')
  {
    if q' < q {
      Times(q' + 1, q, d);
    }
  }

  /** Keys compare as the numbers do; only the two zeros, next to each other in the middle, are
      equal. */
  lemma KeysIncrease(form: Form, key: nat, key': nat)
    requires form.Valid() && key < key' < 2 * Limit(form)
    requires DecodeKey(form, key).Finite? && DecodeKey(form, key').Finite?
    ensures var a, b := DecodeKey(form, key).value, DecodeKey(form, key').value;
            if key == Limit(form) - 1 && key' == Limit(form) then a == 0.0 == b else a < b
  {
    hide Decode, Magnitude;
    var n := Limit(form);
    var rest, rest' := if key >= n then key - n else key, if key' >= n then key' - n else key';
    Fields(form, rest);
    Fields(form, rest');
    var e, f, e', f' := rest / form.unit, rest % form.unit, rest' / form.unit, rest' % form.unit;
    FiniteIsMagnitude(form, key >= n, e, f);
    FiniteIsMagnitude(form, key' >= n, e', f');
    if key >= n || key' < n {
      FieldsOrdered(form, rest, rest');
      if key >= n {
        MagnitudeGrows(form, e, f, e', f');
      } else {
        MagnitudeGrows(form, form.top - e', form.unit - 1 - f', form.top - e, form.unit - 1 - f);
      }
    } else {
      AroundZero(form, e, f, e', f');
      LastKey(form, key, e, f);
      FirstKey(form, rest', e', f');
    }
  }

  lemma LastKey(form: Form, key: nat, e: int, f: int)
    requires form.Valid() && key == e * form.unit + f && 0 <= e <= form.top && 0 <= f < form.unit
    ensures key == Limit(form) - 1 <==> e == form.top && f == form.unit - 1
  {
    if e < form.top {
      Times(e + 1, form.top, form.unit);
    }
  }

  lemma FirstKey(form: Form, key: nat, e: int, f: int)
    requires form.Valid() && key == e * form.unit + f && 0 <= e && 0 <= f < form.unit
    ensures key == 0 <==> e == 0 && f == 0
  {
    if e > 0 {
      Times(1, e, form.unit);
    }
  }

  lemma AroundZero(form: Form, e: int, f: int, e': int, f': int)
    requires form.Valid() && 0 <= e <= form.top && 0 <= f < form.unit && 0 <= e' && 0 <= f' < form.unit
    ensures var a, b := -Magnitude(form, form.top - e, form.unit - 1 - f), Magnitude(form, e', f');
            a <= 0.0 <= b && (a == 0.0 <==> e == form.top && f == form.unit - 1) && (b == 0.0 <==> e' == 0 && f' == 0)
  {
    hide Magnitude;
    MagnitudeZero(form);
    if e < form.top || f < form.unit - 1 {
      MagnitudePositive(form, form.top - e, form.unit - 1 - f);
    }
    if e' > 0 || f' > 0 {
      MagnitudePositive(form, e', f');
    }
  }

  // ------------------------------------------------------------ the bytes

  lemma Big4(data: seq<Byte>)
    requires |data| == 4
    ensures Big(data) == ((data[0] as int * 256 + data[1]) * 256 + data[2]) * 256 + data[3]
  {
    assert data[..3][..2] == data[..2] && data[..2][..1] == data[..1] && data[..1][..0] == [];
    assert Big(data[..1]) == data[0];
    assert Big(data[..2]) == Big(data[..1]) * 256 + data[1];
    assert Big(data[..3]) == Big(data[..2]) * 256 + data[2];
  }

  /** A byte split at a bit. */
  lemma Cut(b: Byte, n: nat)
    requires n == 0x80 || n == 0x10
    ensures var v: int := b; v == v / n * n + v % n && 0 <= v % n < n && v / n <= 255 / n
  {
  }

  lemma FloatFields(b0: int, b1: int, b2: int, b3: int, s: int, t: int, u: int, w: int)
    requires b0 == s * 0x80 + t && b1 == u * 0x80 + w
    ensures ((b0 * 256 + b1) * 256 + b2) * 256 + b3 == s * 0x8000_0000 + (t * 2 + u) * 0x80_0000 + (w * 0x1_0000 + b2 * 0x100 + b3)
  {
  }

  lemma FloatKey(data: seq<Byte>)
    requires |data| == 4
    ensures Big(data) < 2 * Limit(FLOAT) && DecodeFloat(data) == DecodeKey(FLOAT, Big(data))
  {
    hide Decode, Big;
    Big4(data);
    var b0: int, b1: int, b2: int, b3: int := data[0], data[1], data[2], data[3];
    Cut(data[0], 0x80);
    Cut(data[1], 0x80);
    var s, t, u, w := b0 / 0x80, b0 % 0x80, b1 / 0x80, b1 % 0x80;
    FloatFields(b0, b1, b2, b3, s, t, u, w);
    var e, f := t * 2 + u, w * 0x1_0000 + b2 * 0x100 + b3;
    assert s == (if b0 >= 0x80 then 1 else 0);
    FieldsOf(e, f, 0x80_0000);
  }

  lemma FieldsOf(e: nat, f: nat, d: nat)
    requires f < d
    ensures (e * d + f) / d == e && (e * d + f) % d == f
  {
    Quotient(e, f, d);
  }

  lemma Big8(data: seq<Byte>)
    requires |data| == 8
    ensures Big(data) == Big(data[..4]) * 0x1_0000_0000 + Big(data[4..])
  {
    var t := data[4..];
    Big4(t);
    assert data[..7][..6] == data[..6] && data[..6][..5] == data[..5] && data[..5][..4] == data[..4];
    assert Big(data[..5]) == Big(data[..4]) * 256 + t[0];
    assert Big(data[..6]) == Big(data[..5]) * 256 + t[1];
    assert Big(data[..7]) == Big(data[..6]) * 256 + t[2];
  }

  lemma DoubleKey(data: seq<Byte>)
    requires |data| == 8
    ensures Big(data) < 2 * Limit(DOUBLE) && DecodeDouble(data) == DecodeKey(DOUBLE, Big(data))
  {
    hide Decode;
    var b0: int, b1: int := data[0], data[1];
    var e := b0 % 0x80 * 0x10 + b1 / 0x10;
    var f := DoubleSignificand(data);
    FieldsOf(e, f, 0x10_0000_0000_0000);
  }

  lemma DoubleSignificand(data: seq<Byte>) returns (f: nat)
    requires |data| == 8
    ensures var b0: int, b1: int, b2: int, b3: int := data[0], data[1], data[2], data[3];
            var b4: int, b5: int, b6: int, b7: int := data[4], data[5], data[6], data[7];
            && f == b1 % 0x10 * 0x1_0000_0000_0000 + b2 * 0x100_0000_0000 + b3 * 0x1_0000_0000
                    + b4 * 0x100_0000 + b5 * 0x1_0000 + b6 * 0x100 + b7
            && f < 0x10_0000_0000_0000
            && Big(data) == (if b0 >= 0x80 then 0x8000_0000_0000_0000 else 0) + (b0 % 0x80 * 0x10 + b1 / 0x10) * 0x10_0000_0000_0000 + f
  {
    hide Big;
    Big8(data);
    Big4(data[..4]);
    Big4(data[4..]);
    var b0: int, b1: int, b2: int, b3: int := data[0], data[1], data[2], data[3];
    Cut(data[0], 0x80);
    Cut(data[1], 0x10);
    var s, t, u, w := b0 / 0x80, b0 % 0x80, b1 / 0x10, b1 % 0x10;
    DoubleFields(b0, b1, b2, b3, s, t, u, w);
    assert s == (if b0 >= 0x80 then 1 else 0);
    f := (w * 0x1_0000 + b2 * 0x100 + b3) * 0x1_0000_0000 + Big(data[4..]);
  }

  lemma DoubleFields(b0: int, b1: int, b2: int, b3: int, s: int, t: int, u: int, w: int)
    requires b0 == s * 0x80 + t && b1 == u * 0x10 + w
    ensures ((b0 * 256 + b1) * 256 + b2) * 256 + b3 == s * 0x8000_0000 + (t * 0x10 + u) * 0x10_0000 + (w * 0x1_0000 + b2 * 0x100 + b3)
  {
  }

  /** `a` comes before `b` when bytes are compared from the front. */
  ghost predicate Before(a: seq<Byte>, b: seq<Byte>)
    requires |a| == |b|
  {
    exists k :: DifferAt(a, b, k)
  }

  predicate DifferAt(a: seq<Byte>, b: seq<Byte>, k: nat)
    requires |a| == |b|
  {
    k < |a| && a[..k] == b[..k] && a[k] < b[k]
  }

  lemma {:induction false} BigOrdered(a: seq<Byte>, b: seq<Byte>, k: nat)
    requires |a| == |b| && DifferAt(a, b, k)
    ensures Big(a) < Big(b)
    decreases |a|
  {
    var n := |a| - 1;
    if k < n {
      assert a[..n][..k] == a[..k] && b[..n][..k] == b[..k];
      BigOrdered(a[..n], b[..n], k);
    }
  }

  /** Finite BINARY_FLOAT values increase strictly with their bytes, except from the negative to the
      positive zero. */
  lemma FloatsIncrease(a: seq<Byte>, b: seq<Byte>)
    requires |a| == |b| == 4 && Before(a, b) && DecodeFloat(a).Finite? && DecodeFloat(b).Finite?
    ensures var x, y := DecodeFloat(a).value, DecodeFloat(b).value;
            if Big(a) == 0x7FFF_FFFF && Big(b) == 0x8000_0000 then x == 0.0 == y else x < y
  {
    hide DecodeFloat, DecodeKey;
    var k :| DifferAt(a, b, k);
    BigOrdered(a, b, k);
    FloatKey(a);
    FloatKey(b);
    KeysIncrease(FLOAT, Big(a), Big(b));
  }

  /** The same for BINARY_DOUBLE. */
  lemma DoublesIncrease(a: seq<Byte>, b: seq<Byte>)
    requires |a| == |b| == 8 && Before(a, b) && DecodeDouble(a).Finite? && DecodeDouble(b).Finite?
    ensures var x, y := DecodeDouble(a).value, DecodeDouble(b).value;
            if Big(a) == 0x7FFF_FFFF_FFFF_FFFF && Big(b) == 0x8000_0000_0000_0000 then x == 0.0 == y else x < y
  {
    hide DecodeDouble, DecodeKey;
    var k :| DifferAt(a, b, k);
    BigOrdered(a, b, k);
    DoubleKey(a);
    DoubleKey(b);
    KeysIncrease(DOUBLE, Big(a), Big(b));
  }

  // ------------------------------------------------------------ negation

  function Complement(data: seq<Byte>): (r: seq<Byte>)
    ensures |r| == |data|
  {
    seq(|data|, i requires 0 <= i < |data| => Inverted(data[i]))
  }

  function Inverted(b: Byte): Byte {
    255 - b
  }

  function Pow256(n: nat): nat {
    if n == 0 then 1 else 256 * Pow256(n - 1)
  }

  lemma {:induction false} BigComplement(data: seq<Byte>)
    ensures Big(Complement(data)) == Pow256(|data|) - 1 - Big(data)
    decreases |data|
  {
    if data != [] {
      var n := |data| - 1;
      BigComplement(data[..n]);
      assert Complement(data)[..n] == Complement(data[..n]);
    }
  }

  function Negated(x: Number): Number {
    match x
    case Finite(v) => Finite(-v)
    case PlusInfinity => MinusInfinity
    case MinusInfinity => PlusInfinity
    case NaN => NaN
  }

  /** The one encoding of NaN that is recognised. */
  function NanKey(form: Form): nat {
    Limit(form) + NanRest(form)
  }

  function NanRest(form: Form): nat {
    form.top * form.unit + form.unit / 2
  }

  lemma NanFields(form: Form, rest: nat)
    requires form.Valid() && rest < Limit(form)
    ensures NanRest(form) < Limit(form)
    ensures rest == NanRest(form) <==> rest / form.unit == form.top && rest % form.unit == form.unit / 2
  {
    FieldsOf(form.top, form.unit / 2, form.unit);
    Fields(form, rest);
    Distributes(form.top, -1, form.unit);
  }

  lemma DecodeNegated(form: Form, e: int, f: int)
    requires form.Valid() && 0 <= e <= form.top && 0 <= f < form.unit
    ensures Decode(form, false, form.top - e, form.unit - 1 - f) == Negated(Decode(form, true, e, f))
            <==> !(e == form.top && f == form.unit / 2)
  {
    if e == 0 && f == 0 {
      assert Scaled(form, 0, 0 - form.bias) == 0.0;
    }
  }

  lemma ComplementFields(form: Form, rest: nat)
    requires form.Valid() && rest < Limit(form)
    ensures var other := Limit(form) - 1 - rest;
            other / form.unit == form.top - rest / form.unit && other % form.unit == form.unit - 1 - rest % form.unit
  {
    Fields(form, rest);
    var q, r := rest / form.unit, rest % form.unit;
    Distributes(form.top, q, form.unit);
    Distributes(form.top, -1, form.unit);
    assert Limit(form) - 1 - rest == (form.top - q) * form.unit + (form.unit - 1 - r);
    FieldsOf(form.top - q, form.unit - 1 - r, form.unit);
  }

  /** Inverting all bits negates the number, unless it is NaN or would become NaN. */
  lemma KeyNegated(form: Form, key: nat)
    requires form.Valid() && key < 2 * Limit(form)
    ensures DecodeKey(form, 2 * Limit(form) - 1 - key) == Negated(DecodeKey(form, key))
            <==> key != NanKey(form) && key != 2 * Limit(form) - 1 - NanKey(form)
  {
    hide Decode, Limit, NanRest;
    var n := Limit(form);
    var rest := if key >= n then key - n else key;
    Fields(form, rest);
    ComplementFields(form, rest);
    NanFields(form, rest);
    NanFields(form, n - 1 - rest);
    var e, f := rest / form.unit, rest % form.unit;
    if key >= n {
      DecodeNegated(form, e, f);
    } else {
      DecodeNegated(form, form.top - e, form.unit - 1 - f);
    }
  }

  lemma FloatNegated(data: seq<Byte>)
    requires |data| == 4
    ensures DecodeFloat(Complement(data)) == Negated(DecodeFloat(data)) <==> Big(data) != 0xFFC0_0000 && Big(data) != 0x003F_FFFF
  {
    hide DecodeFloat, DecodeKey, Big;
    FloatKey(data);
    FloatKey(Complement(data));
    BigComplement(data);
    assert Pow256(4) == 0x1_0000_0000 by { assert Pow256(2) == 0x1_0000; }
    KeyNegated(FLOAT, Big(data));
  }

  lemma DoubleNegated(data: seq<Byte>)
    requires |data| == 8
    ensures DecodeDouble(Complement(data)) == Negated(DecodeDouble(data))
            <==> Big(data) != 0xFFF8_0000_0000_0000 && Big(data) != 0x0007_FFFF_FFFF_FFFF
  {
    hide DecodeDouble, DecodeKey, Big;
    DoubleKey(data);
    DoubleKey(Complement(data));
    BigComplement(data);
    assert Pow256(8) == 0x1_0000_0000_0000_0000 by {
      assert Pow256(4) == 0x1_0000_0000;
      assert Pow256(6) == 0x1_0000_0000_0000;
    }
    KeyNegated(DOUBLE, Big(data));
  }

  // ------------------------------------------------------------ IEEE 754

  /** The number that IEEE 754 gives to a sign, a biased exponent and a trailing significand. */
  ghost function Ieee(form: Form, negative: bool, e: int, f: int): Number
    requires form.Valid()
  {
    if e == form.top then if f != 0 then NaN else if negative then MinusInfinity else PlusInfinity
    else
      var magnitude := if e == 0 then Scaled(form, f, 1 - form.bias) else Scaled(form, f + form.unit, e - form.bias);
      Finite(if negative then -magnitude else magnitude)
  }

  /** Decoding the stored form of an IEEE 754 number gives that number, except for subnormal numbers
      and for NaNs other than the positive one with only the first significand bit set. */
  lemma AgreesWithIeee(form: Form, negative: bool, e: int, f: int)
    requires form.Valid() && 0 <= e <= form.top && 0 <= f < form.unit
    ensures var d := if negative then Decode(form, false, form.top - e, form.unit - 1 - f) else Decode(form, true, e, f);
            d == Ieee(form, negative, e, f)
            <==> (e == 0 ==> f == 0) && (e == form.top ==> f == 0 || (f == form.unit / 2 && !negative))
  {
    if e == 0 {
      assert Scaled(form, 0, 0 - form.bias) == 0.0 == Scaled(form, 0, 1 - form.bias);
      Pow2Next(0 - form.bias);
      if f > 0 {
        hide Scaled;
        ScaledGrows(form, 0, f, 0 - form.bias);
        ScaledDoubles(form, f, 0 - form.bias);
      }
    }
  }

  /** What the others become: a subnormal number is halved, and a NaN that is not recognised is read as a
      number beyond the largest exponent. */
  lemma DiffersFromIeee(form: Form, negative: bool, e: int, f: int)
    requires form.Valid() && 0 <= e <= form.top && 0 < f < form.unit
    ensures var d := if negative then Decode(form, false, form.top - e, form.unit - 1 - f) else Decode(form, true, e, f);
            var sign := if negative then -1.0 else 1.0;
            && (e == 0 ==> d.Finite? && Ieee(form, negative, e, f) == Finite(2.0 * d.value))
            && (e == form.top && !(f == form.unit / 2 && !negative) ==>
                  d == Finite(sign * Scaled(form, f + form.unit, form.top - form.bias)))
  {
    hide Scaled;
    ScaledDoubles(form, f, 0 - form.bias);
  }

  lemma ScaledDoubles(form: Form, s: int, e: int)
    requires form.Valid()
    ensures Scaled(form, s, e + 1) == 2.0 * Scaled(form, s, e)
  {
    Pow2Next(e);
    var x := s as real / form.unit as real;
    assert x * (2.0 * Pow2(e)) == 2.0 * (x * Pow2(e));
  }
}
