/** Conversion between protobuf Structs and JSON values (grpc/proto_convert.rs). Doubles are
    modelled as real numbers, an integer being rounded to the nearest one with a 53-bit significand
    when it becomes a double. */
module ProtoConvert {
  import opened Common

  // ---------- numbers ----------

  datatype Double = Finite(value: real) | NaN | Infinite(positive: bool)

  /** A serde_json number: an unsigned or a negative 64-bit integer, or a finite double. */
  datatype Number = PosInt(u: nat) | NegInt(n: int) | Float(x: real)

  const TWO_53 := 0x20_0000_0000_0000

  /** The distance between neighbouring doubles around n: doubled until n needs at most 53 bits of it. */
  function Spacing(n: nat, unit: nat): (u: nat)
    requires unit > 0
    ensures u >= unit && n < TWO_53 * u
    decreases n - unit
  {
    if n < TWO_53 * unit then unit else Spacing(n, 2 * unit)
  }

  /** The nearest double to a magnitude, ties to the even significand. */
  function Rounded(n: nat): nat {
    var u := Spacing(n, 1);
    var q, r := n / u, n % u;
    if 2 * r > u || (2 * r == u && q % 2 == 1) then (q + 1) * u else q * u
  }

  /** `as_f64`. */
  function AsDouble(n: Number): real {
    match n
    case PosInt(k) => Rounded(k) as real
    case NegInt(k) => if k < 0 then -(Rounded(-k) as real) else Rounded(k) as real
    case Float(x) => x
  }

  /** `from_f64`: a finite double, or nothing. */
  function FromDouble(d: Double): Option<Number> {
    match d
    case Finite(x) => Some(Float(x))
    case _ => None
  }

  // ---------- the two value types ----------

  datatype Json =
    | Null | Bool(b: bool) | Num(n: Number) | Str(s: string) | Arr(items: seq<Json>) | Obj(fields: map<string, Json>)

  datatype Kind =
    | NullValue(tag: int)
    | NumberValue(d: Double)
    | StringValue(s: string)
    | BoolValue(b: bool)
    | StructValue(fields: map<string, Proto>)
    | ListValue(values: seq<Proto>)

  datatype Proto = Proto(kind: Option<Kind>)

  function ToJson(v: Proto): Json {
    match v.kind
    case None => Null
    case Some(NullValue(_)) => Null
    case Some(NumberValue(d)) => if FromDouble(d).Some? then Num(FromDouble(d).value) else Null
    case Some(StringValue(s)) => Str(s)
    case Some(BoolValue(b)) => Bool(b)
    case Some(StructValue(fields)) => Obj(map k | k in fields :: ToJson(fields[k]))
    case Some(ListValue(values)) => Arr(seq(|values|, i requires 0 <= i < |values| => ToJson(values[i])))
  }

  function ToProto(v: Json): Proto {
    Proto(Some(match v
               case Null => NullValue(0)
               case Bool(b) => BoolValue(b)
               case Num(n) => NumberValue(Finite(AsDouble(n)))
               case Str(s) => StringValue(s)
               case Arr(items) => ListValue(seq(|items|, i requires 0 <= i < |items| => ToProto(items[i])))
               case Obj(fields) => StructValue(map k | k in fields :: ToProto(fields[k]))))
  }

  /** `proto_struct_to_value` and `value_to_proto_struct`: a struct is its field map. */
  function StructToValue(s: map<string, Proto>): Json {
    Obj(map k | k in s :: ToJson(s[k]))
  }

  function ValueToStruct(v: Json): Option<map<string, Proto>> {
    match v
    case Obj(fields) => Some(map k | k in fields :: ToProto(fields[k]))
    case _ => None
  }

  // ---------- what a round trip does ----------

  /** The same value with every number replaced by its double. */
  function Doubled(v: Json): Json {
    match v
    case Num(n) => Num(Float(AsDouble(n)))
    case Arr(items) => Arr(seq(|items|, i requires 0 <= i < |items| => Doubled(items[i])))
    case Obj(fields) => Obj(map k | k in fields :: Doubled(fields[k]))
    case _ => v
  }

  /** Every number in the value is a double already. */
  predicate AllDoubles(v: Json) {
    match v
    case Num(n) => n.Float?
    case Arr(items) => forall i :: 0 <= i < |items| ==> AllDoubles(items[i])
    case Obj(fields) => forall k :: k in fields ==> AllDoubles(fields[k])
    case _ => true
  }

  /** The same value with missing kinds, other null tags and non-finite numbers made the plain null. */
  function Cleaned(v: Proto): Proto {
    match v.kind
    case None => Proto(Some(NullValue(0)))
    case Some(NullValue(_)) => Proto(Some(NullValue(0)))
    case Some(NumberValue(d)) => if d.Finite? then v else Proto(Some(NullValue(0)))
    case Some(StructValue(fields)) => Proto(Some(StructValue(map k | k in fields :: Cleaned(fields[k]))))
    case Some(ListValue(values)) =>
      Proto(Some(ListValue(seq(|values|, i requires 0 <= i < |values| => Cleaned(values[i])))))
    case _ => v
  }

  /** Nothing in the value is a missing kind, an odd null tag or a non-finite number. */
  predicate IsClean(v: Proto) {
    match v.kind
    case None => false
    case Some(NullValue(tag)) => tag == 0
    case Some(NumberValue(d)) => d.Finite?
    case Some(StructValue(fields)) => forall k :: k in fields ==> IsClean(fields[k])
    case Some(ListValue(values)) => forall i :: 0 <= i < |values| ==> IsClean(values[i])
    case _ => true
  }

  /** The protobuf value says the same as the JSON value, number by number as doubles. */
  ghost predicate Represents(p: Proto, v: Json) {
    p.kind.Some? &&
    match v
    case Null => p.kind.value == NullValue(0)
    case Bool(b) => p.kind.value == BoolValue(b)
    case Num(n) => p.kind.value == NumberValue(Finite(AsDouble(n)))
    case Str(s) => p.kind.value == StringValue(s)
    case Arr(items) =>
      && p.kind.value.ListValue? && |p.kind.value.values| == |items|
      && forall i :: 0 <= i < |items| ==> Represents(p.kind.value.values[i], items[i])
    case Obj(fields) =>
      && p.kind.value.StructValue? && p.kind.value.fields.Keys == fields.Keys
      && forall k :: k in fields ==> Represents(p.kind.value.fields[k], fields[k])
  }

  /** What a JSON value is converted to represents it. */
  lemma {:induction false} ToProtoRepresents(v: Json)
    ensures Represents(ToProto(v), v)
  {
    match v
    case Arr(items) =>
      forall i | 0 <= i < |items| ensures Represents(ToProto(items[i]), items[i]) {
        ToProtoRepresents(items[i]);
      }
    case Obj(fields) =>
      forall k | k in fields ensures Represents(ToProto(fields[k]), fields[k]) {
        ToProtoRepresents(fields[k]);
      }
    case _ =>
  }

  /** And a protobuf value, cleaned, represents what it is converted to. */
  lemma {:induction false} CleanedRepresents(p: Proto)
    ensures Represents(Cleaned(p), ToJson(p))
  {
    match p.kind
    case Some(ListValue(values)) =>
      forall i | 0 <= i < |values| ensures Represents(Cleaned(values[i]), ToJson(values[i])) {
        CleanedRepresents(values[i]);
      }
    case Some(StructValue(fields)) =>
      forall k | k in fields ensures Represents(Cleaned(fields[k]), ToJson(fields[k])) {
        CleanedRepresents(fields[k]);
      }
    case _ =>
  }

  lemma {:induction false} JsonThereAndBack(v: Json)
    ensures ToJson(ToProto(v)) == Doubled(v)
  {
    match v
    case Arr(items) =>
      forall i | 0 <= i < |items| ensures ToJson(ToProto(items[i])) == Doubled(items[i]) {
        JsonThereAndBack(items[i]);
      }
    case Obj(fields) =>
      forall k | k in fields ensures ToJson(ToProto(fields[k])) == Doubled(fields[k]) {
        JsonThereAndBack(fields[k]);
      }
      assert ToJson(ToProto(v)).fields == Doubled(v).fields;
    case _ =>
  }

  lemma {:induction false} DoubledIsAllDoubles(v: Json)
    ensures AllDoubles(Doubled(v))
    ensures Doubled(v) == v <==> AllDoubles(v)
  {
    match v
    case Arr(items) =>
      forall i | 0 <= i < |items|
        ensures AllDoubles(Doubled(items[i])) && (Doubled(items[i]) == items[i] <==> AllDoubles(items[i]))
      {
        DoubledIsAllDoubles(items[i]);
      }
      assert Doubled(v) == v <==> forall i :: 0 <= i < |items| ==> Doubled(v).items[i] == items[i];
    case Obj(fields) =>
      forall k | k in fields
        ensures AllDoubles(Doubled(fields[k])) && (Doubled(fields[k]) == fields[k] <==> AllDoubles(fields[k]))
      {
        DoubledIsAllDoubles(fields[k]);
      }
      assert Doubled(v) == v <==> forall k :: k in fields ==> Doubled(v).fields[k] == fields[k];
    case _ =>
  }

  lemma {:induction false} ProtoThereAndBack(v: Proto)
    ensures ToProto(ToJson(v)) == Cleaned(v)
  {
    match v.kind
    case Some(ListValue(values)) =>
      forall i | 0 <= i < |values| ensures ToProto(ToJson(values[i])) == Cleaned(values[i]) {
        ProtoThereAndBack(values[i]);
      }
      assert ToProto(ToJson(v)).kind.value.values == Cleaned(v).kind.value.values;
    case Some(StructValue(fields)) =>
      forall k | k in fields ensures ToProto(ToJson(fields[k])) == Cleaned(fields[k]) {
        ProtoThereAndBack(fields[k]);
      }
      assert ToProto(ToJson(v)).kind.value.fields == Cleaned(v).kind.value.fields;
    case _ =>
  }

  lemma {:induction false} CleanedIsClean(v: Proto)
    ensures IsClean(Cleaned(v))
    ensures Cleaned(v) == v <==> IsClean(v)
  {
    match v.kind
    case Some(ListValue(values)) =>
      forall i | 0 <= i < |values|
        ensures IsClean(Cleaned(values[i])) && (Cleaned(values[i]) == values[i] <==> IsClean(values[i]))
      {
        CleanedIsClean(values[i]);
      }
      var c := Cleaned(v).kind.value.values;
      assert c == values <==> forall i :: 0 <= i < |values| ==> c[i] == values[i];
    case Some(StructValue(fields)) =>
      forall k | k in fields
        ensures IsClean(Cleaned(fields[k])) && (Cleaned(fields[k]) == fields[k] <==> IsClean(fields[k]))
      {
        CleanedIsClean(fields[k]);
      }
      var c := Cleaned(v).kind.value.fields;
      assert c == fields <==> forall k :: k in fields ==> c[k] == fields[k];
    case _ =>
  }

  /** JSON to protobuf and back, at any depth, only turns numbers into their doubles; so it changes
      nothing if and only if they all were, and doing it again changes nothing. */
  lemma JsonRoundTrip(v: Json)
    ensures ToJson(ToProto(v)) == Doubled(v)
    ensures ToJson(ToProto(v)) == v <==> AllDoubles(v)
    ensures ToJson(ToProto(Doubled(v))) == Doubled(v)
  {
    JsonThereAndBack(v);
    JsonThereAndBack(Doubled(v));
    DoubledIsAllDoubles(v);
    DoubledIsAllDoubles(Doubled(v));
  }

  /** Protobuf to JSON and back, at any depth, only cleans; so it changes nothing if and only if the
      value was clean, and doing it again changes nothing. */
  lemma ProtoRoundTrip(v: Proto)
    ensures ToProto(ToJson(v)) == Cleaned(v)
    ensures ToProto(ToJson(v)) == v <==> IsClean(v)
    ensures ToProto(ToJson(Cleaned(v))) == Cleaned(v)
  {
    ProtoThereAndBack(v);
    ProtoThereAndBack(Cleaned(v));
    CleanedIsClean(v);
    CleanedIsClean(Cleaned(v));
  }

  function CleanedFields(s: map<string, Proto>): map<string, Proto> {
    map k | k in s :: Cleaned(s[k])
  }

  /** The two public functions: exactly the objects become structs, and each way and back is the
      normaliser above, applied field by field; a second round trip is the identity. */
  lemma StructRoundTrips(v: Json, s: map<string, Proto>)
    ensures ValueToStruct(v).Some? <==> v.Obj?
    ensures v.Obj? ==> StructToValue(ValueToStruct(v).value) == Doubled(v)
    ensures v.Obj? ==> var once := StructToValue(ValueToStruct(v).value);
                       once.Obj? && StructToValue(ValueToStruct(once).value) == once
    ensures ValueToStruct(StructToValue(s)) == Some(CleanedFields(s))
    ensures CleanedFields(s) == s <==> forall k :: k in s ==> IsClean(s[k])
  {
    if v.Obj? {
      ObjectRoundTrip(v);
    }
    FieldsRoundTrip(s);
  }

  lemma ObjectRoundTrip(v: Json)
    requires v.Obj?
    ensures StructToValue(ValueToStruct(v).value) == Doubled(v)
    ensures StructToValue(ValueToStruct(Doubled(v)).value) == Doubled(v)
  {
    JsonRoundTrip(v);
    ObjectIsField(v);
    ObjectIsField(Doubled(v));
  }

  /** An object goes through the public functions as it does through those for any value. */
  lemma ObjectIsField(v: Json)
    requires v.Obj?
    ensures StructToValue(ValueToStruct(v).value) == ToJson(ToProto(v))
  {
    assert ValueToStruct(v).value == ToProto(v).kind.value.fields;
  }

  lemma FieldsRoundTrip(s: map<string, Proto>)
    ensures ValueToStruct(StructToValue(s)) == Some(CleanedFields(s))
    ensures CleanedFields(s) == s <==> forall k :: k in s ==> IsClean(s[k])
  {
    var back := ValueToStruct(StructToValue(s)).value;
    forall k | k in s ensures back[k] == Cleaned(s[k]) && (Cleaned(s[k]) == s[k] <==> IsClean(s[k])) {
      ProtoRoundTrip(s[k]);
    }
    assert back == CleanedFields(s);
    assert CleanedFields(s) == s <==> forall k :: k in s ==> CleanedFields(s)[k] == s[k];
  }

  // ---------- which integers survive ----------

  function Pow2(e: nat): (p: nat)
    ensures p > 0
  {
    if e == 0 then 1 else 2 * Pow2(e - 1)
  }

  predicate Scaled(n: nat, k: nat, e: nat) {
    n == k * Pow2(e)
  }

  /** A significand of at most 53 bits and an exponent. */
  ghost predicate IsDouble(n: nat) {
    exists k: nat, e: nat :: k < TWO_53 && Scaled(n, k, e)
  }

  function Distance(a: int, b: int): nat {
    if a <= b then b - a else a - b
  }

  /** The spacing is a power of two, and unless it is 1 it is no larger than need be. */
  lemma {:induction false} SpacingIsPower(n: nat, e: nat) returns (f: nat)
    ensures f >= e && Spacing(n, Pow2(e)) == Pow2(f)
    ensures f == e || 2 * n >= TWO_53 * Pow2(f)
    decreases n - Pow2(e)
  {
    if n < TWO_53 * Pow2(e) {
      f := e;
    } else {
      f := SpacingIsPower(n, e + 1);
    }
  }

  lemma {:induction false} PowersDivide(e: nat, f: nat)
    requires e <= f
    ensures Pow2(f) == Pow2(f - e) * Pow2(e)
    ensures e < f ==> Pow2(f) >= 2 * Pow2(e)
    decreases f
  {
    if e < f {
      PowersDivide(e, f - 1);
      assert Pow2(f) == 2 * (Pow2(f - 1 - e) * Pow2(e)) == (2 * Pow2(f - 1 - e)) * Pow2(e);
    }
  }

  lemma Scale(a: int, b: int, u: nat)
    requires a <= b
    ensures a * u <= b * u
  {
  }

  /** A double from half of 2^53 times 2^f on is a multiple of 2^f. */
  lemma DoubleIsMultiple(d: nat, f: nat) returns (c: nat)
    requires IsDouble(d) && (f == 0 || 2 * d >= TWO_53 * Pow2(f))
    ensures d == c * Pow2(f)
  {
    var k: nat, e: nat :| k < TWO_53 && Scaled(d, k, e);
    if f <= e {
      PowersDivide(f, e);
      c := k * Pow2(e - f);
      Regroup(k, Pow2(e - f), Pow2(f));
    } else {
      DoubleIsSmall(d, k, e, f);
      assert false;
    }
  }

  lemma Regroup(a: nat, b: nat, c: nat)
    ensures a * (b * c) == (a * b) * c
  {
  }

  lemma DoubleIsSmall(d: nat, k: nat, e: nat, f: nat)
    requires k < TWO_53 && Scaled(d, k, e) && e < f
    ensures 2 * d < TWO_53 * Pow2(f)
  {
    PowersDivide(e, f);
    Scale(k, TWO_53 - 1, Pow2(e));
  }

  /** Rounding, with the quotient and the remainder by the spacing. */
  lemma RoundedIs(n: nat, u: nat) returns (q: nat, r: nat, k: nat)
    requires u == Spacing(n, 1)
    ensures n == q * u + r && r < u && r == n % u && (q + 1) * u == q * u + u
    ensures k == if 2 * r > u || (2 * r == u && q % 2 == 1) then q + 1 else q
    ensures Rounded(n) == k * u
  {
    q, r := n / u, n % u;
    k := if 2 * r > u || (2 * r == u && q % 2 == 1) then q + 1 else q;
  }

  /** The quotient fits a significand, and unless the spacing is 1 it needs all of it. */
  lemma QuotientFits(n: nat, u: nat, q: nat)
    requires u > 0 && q * u <= n < q * u + u && n < TWO_53 * u
    ensures q < TWO_53
    ensures 2 * n >= TWO_53 * u ==> q >= TWO_53 / 2
  {
    assert (q + 1) * u == q * u + u;
    if q >= TWO_53 {
      Scale(TWO_53, q, u);
    }
    if q < TWO_53 / 2 {
      Scale(q + 1, TWO_53 / 2, u);
    }
  }

  /** An integer lies between two multiples of the spacing and is rounded to the nearer one, or if
      there is none to the even one. */
  lemma RoundedBetween(n: nat) returns (f: nat, q: nat, k: nat)
    ensures Spacing(n, 1) == Pow2(f) && q < TWO_53 && (f == 0 || q >= TWO_53 / 2)
    ensures q * Pow2(f) <= n < q * Pow2(f) + Pow2(f)
    ensures (k == q || k == q + 1) && Rounded(n) == k * Pow2(f)
    ensures Distance(Rounded(n), n) <= n - q * Pow2(f) && Distance(Rounded(n), n) <= q * Pow2(f) + Pow2(f) - n
    ensures n % Pow2(f) == 0 <==> n == q * Pow2(f)
    ensures 2 * Distance(Rounded(n), n) == Pow2(f) ==> k % 2 == 0
  {
    f := SpacingIsPower(n, 0);
    var r;
    q, r, k := RoundedIs(n, Pow2(f));
    QuotientFits(n, Pow2(f), q);
  }

  /** What rounding gives is a double, also where it carries into the next power of two. */
  lemma RoundedIsDouble(n: nat)
    ensures IsDouble(Rounded(n))
  {
    var f, q, k := RoundedBetween(n);
    if k < TWO_53 {
      assert Scaled(Rounded(n), k, f);
    } else {
      assert Pow2(f + 1) == 2 * Pow2(f);
      Regroup(TWO_53 / 2, 2, Pow2(f));
      assert Scaled(Rounded(n), TWO_53 / 2, f + 1);
    }
  }

  /** There is no multiple between a multiple and the next. */
  lemma NoMultipleBetween(c: nat, q: nat, u: nat)
    ensures c * u <= q * u || c * u >= q * u + u
  {
    if c <= q {
      Scale(c, q, u);
    } else {
      Scale(q + 1, c, u);
      assert (q + 1) * u == q * u + u;
    }
  }

  /** Nor a double. */
  lemma NoDoubleBetween(d: nat, f: nat, q: nat)
    requires IsDouble(d) && (f == 0 || q >= TWO_53 / 2)
    ensures d <= q * Pow2(f) || d >= q * Pow2(f) + Pow2(f)
  {
    if f == 0 || 2 * d >= TWO_53 * Pow2(f) {
      var c := DoubleIsMultiple(d, f);
      NoMultipleBetween(c, q, Pow2(f));
    } else {
      SmallIsBelow(d, q, Pow2(f));
    }
  }

  lemma SmallIsBelow(d: nat, q: nat, u: nat)
    requires 2 * d < TWO_53 * u && q >= TWO_53 / 2
    ensures d <= q * u
  {
    assert TWO_53 * u == 2 * (TWO_53 / 2 * u);
    Scale(TWO_53 / 2, q, u);
  }

  /** So no double is nearer. */
  lemma NoDoubleIsNearer(n: nat, d: nat)
    requires IsDouble(d)
    ensures Distance(Rounded(n), n) <= Distance(d, n)
  {
    var f, q, _ := RoundedBetween(n);
    NoDoubleBetween(d, f, q);
  }

  /** An integer becomes a nearest double, and keeps its value if and only if it is one itself, as
      every integer below 2^53 is; so becoming a double again changes nothing. */
  lemma IntegersThatSurvive(n: nat)
    ensures IsDouble(Rounded(n)) && forall d: nat :: IsDouble(d) ==> Distance(Rounded(n), n) <= Distance(d, n)
    ensures Rounded(n) == n <==> IsDouble(n)
    ensures Rounded(n) == n <==> n % Spacing(n, 1) == 0
    ensures Rounded(Rounded(n)) == Rounded(n)
    ensures n < 0x20_0000_0000_0000 ==> Rounded(n) == n
    ensures 2 * (Rounded(n) - n) <= Spacing(n, 1) && 2 * (n - Rounded(n)) <= Spacing(n, 1)
  {
    var f, q, k := RoundedBetween(n);
    RoundedIsDouble(n);
    forall d: nat | IsDouble(d) ensures Distance(Rounded(n), n) <= Distance(d, n) {
      NoDoubleIsNearer(n, d);
    }
    NoDoubleIsNearer(Rounded(n), Rounded(n));
    SmallSpacing(n);
  }

  /** Half-way between two doubles, the one with the even significand is taken. */
  lemma TiesToEven(n: nat) returns (f: nat, k: nat)
    ensures Rounded(n) == k * Pow2(f) && Spacing(n, 1) == Pow2(f) && k <= TWO_53
    ensures 2 * Distance(Rounded(n), n) == Spacing(n, 1) ==> k % 2 == 0
  {
    var q;
    f, q, k := RoundedBetween(n);
  }

  /** An integer of either sign becomes a nearest double of either sign. */
  lemma IntegerBecomesNearest(n: Number) returns (r: int)
    requires !n.Float?
    ensures AsDouble(n) == r as real && IsDouble(Distance(r, 0))
    ensures var v := if n.PosInt? then n.u else n.n;
            forall d: int :: IsDouble(Distance(d, 0)) ==> Distance(r, v) <= Distance(d, v)
  {
    var v := if n.PosInt? then n.u else n.n;
    var m := Distance(v, 0);
    var big: int := Rounded(m);
    r := if v < 0 then -big else big;
    RoundedIsDouble(m);
    assert Scaled(0, 0, 0);
    forall d: int | IsDouble(Distance(d, 0)) ensures Distance(r, v) <= Distance(d, v) {
      NoDoubleIsNearer(m, 0);
      NoDoubleIsNearer(m, Distance(d, 0));
    }
  }

  /** The first integer that does not survive is 2^53 + 1. */
  lemma FirstLost()
    ensures Rounded(0x20_0000_0000_0001) == 0x20_0000_0000_0000
  {
    assert Spacing(0x20_0000_0000_0001, 1) == Spacing(0x20_0000_0000_0001, 2) == 2;
  }

  lemma SmallSpacing(n: nat)
    ensures n < TWO_53 ==> Spacing(n, 1) == 1 && Rounded(n) == n
    ensures n % Spacing(n, 1) == 0 ==> Rounded(n) == n
  {
  }

  /** Becoming doubles keeps integers in order. */
  lemma RoundingIsMonotone(a: nat, b: nat)
    requires a <= b
    ensures Rounded(a) <= Rounded(b)
  {
    RoundedIsDouble(a);
    RoundedIsDouble(b);
    NoDoubleIsNearer(a, Rounded(b));
    NoDoubleIsNearer(b, Rounded(a));
  }
}
