/**
 JSON values as serde_json holds them. An object is a map: serde_json's object equality
 ignores member order, and nothing modelled here depends on that order.
 */
module JsonValues {
  import opened Common

  // A number token is an integer of at most 64 bits or a finite double.
  datatype Number = Integer(value: int) | Float(decimal: real)

  datatype Json =
    | Null
    | Bool(flag: bool)
    | Num(number: Number)
    | Str(text: string)
    | Array(items: seq<Json>)
    | Object(fields: map<string, Json>)
  {
    // `Value::get` with a string key: members of objects only.
    function Get(key: string): Option<Json> {
      if Object? && key in fields then Some(fields[key]) else None
    }

    function AsStr(): Option<string> {
      if Str? then Some(text) else None
    }

    // `as_u64`: integers only, and only those that fit.
    function AsU64(): Option<nat> {
      if Num? && number.Integer? && 0 <= number.value < U64_LIMIT then Some(number.value) else None
    }

    function GetStr(key: string): Option<string> {
      var member := Get(key);
      if member.Some? then member.value.AsStr() else None
    }

    function GetU64(key: string): Option<nat> {
      var member := Get(key);
      if member.Some? then member.value.AsU64() else None
    }

    predicate HasTrue(key: string) {
      Get(key) == Some(Bool(true))
    }
  }

  const U64_LIMIT := 0x1_0000_0000_0000_0000

  // A double: finite values as reals, or one of NaN and the infinities.
  datatype Double = Finite(value: real) | NonFinite

  predicate IsWhole(r: real) {
    r == r.Floor as real
  }

  const DOUBLE_EXACT := 0x20_0000_0000_0000

  // Round-half-to-even on multiples of `unit`.
  function NearestMultiple(n: nat, unit: nat): nat
    requires unit > 0
  {
    var quotient := n / unit;
    var twice := 2 * (n % unit);
    if twice < unit || (twice == unit && quotient % 2 == 0) then quotient * unit else (quotient + 1) * unit
  }

  function RoundMagnitude(n: nat, unit: nat): nat
    requires unit > 0
    decreases if n > DOUBLE_EXACT * unit then n - DOUBLE_EXACT * unit else 0
  {
    if n <= DOUBLE_EXACT * unit then NearestMultiple(n, unit) else RoundMagnitude(n, 2 * unit)
  }

  // The double nearest to an integer, as `as_f64` and `as f64` produce it.
  function RoundToDouble(n: int): int {
    if n >= 0 then RoundMagnitude(n, 1) else 0 - RoundMagnitude(-n, 1)
  }

  function TwoTo(k: nat): nat {
    if k == 0 then 1 else 2 * TwoTo(k - 1)
  }

  // Rounding to a double keeps 53 binary digits: the nearest multiple of the unit u, a power of
  // two that is no larger than needed, and the even one of two that are equally near.
  lemma {:induction false} RoundsToNearest(n: nat, unit: nat) returns (k: nat, u: nat)
    requires unit > 0
    ensures u == unit * TwoTo(k) && u > 0
    ensures n <= 9_007_199_254_740_992 * u && (k > 0 ==> 2 * n > 9_007_199_254_740_992 * u)
    ensures
      var r := RoundMagnitude(n, unit);
      r % u == 0 && 0 - u <= 2 * (r - n) <= u && (2 * (r - n) == u || 2 * (r - n) == 0 - u ==> (r / u) % 2 == 0)
    decreases if n > DOUBLE_EXACT * unit then n - DOUBLE_EXACT * unit else 0
  {
    if n <= DOUBLE_EXACT * unit {
      k, u := 0, unit;
      NearestIs(n, unit);
    } else {
      var inner;
      inner, u := RoundsToNearest(n, 2 * unit);
      k := inner + 1;
      Doubled(unit, TwoTo(inner));
    }
  }

  lemma Doubled(unit: nat, x: nat)
    ensures 2 * unit * x == unit * (2 * x)
  {
  }

  lemma NearestIs(n: nat, unit: nat)
    requires unit > 0
    ensures
      var r := NearestMultiple(n, unit);
      && r % unit == 0 && 0 - unit <= 2 * (r - n) <= unit
      && (2 * (r - n) == unit || 2 * (r - n) == 0 - unit ==> (r / unit) % 2 == 0)
  {
    var quotient, rest := n / unit, n % unit;
    var below, above := unit * quotient, unit * (quotient + 1);
    Distribute(unit, quotient, 1);
    ProductDivides(unit, quotient);
    ProductDivides(unit, quotient + 1);
    assert n == below + rest && above == below + unit;
    NearestCases(n, unit, below, above);
  }

  lemma NearestCases(n: nat, unit: nat, below: nat, above: nat)
    requires unit > 0 && below == unit * (n / unit) && above == unit * (n / unit + 1)
    ensures NearestMultiple(n, unit) ==
            if 2 * (n % unit) < unit || (2 * (n % unit) == unit && (n / unit) % 2 == 0) then below else above
  {
  }

  // A real that a double can hold; whole values must survive rounding.
  predicate IsDouble(r: real) {
    IsWhole(r) ==> RoundToDouble(r.Floor) == r.Floor
  }

  function AsDouble(n: Number): real {
    match n
    case Integer(value) => RoundToDouble(value) as real
    case Float(r) => r
  }

  // Every float token in the value is a double.
  ghost predicate HoldsDoubles(j: Json) {
    match j
    case Num(n) => n.Float? ==> IsDouble(n.decimal)
    case Array(items) => forall i :: 0 <= i < |items| ==> HoldsDoubles(items[i])
    case Object(fields) => forall k :: k in fields ==> HoldsDoubles(fields[k])
    case _ => true
  }

  const I64_MAX := 0x7fff_ffff_ffff_ffff
  const I64_MIN := -0x8000_0000_0000_0000

  // `value.fract() == 0.0 && value >= i64::MIN as f64 && value <= i64::MAX as f64`;
  // the last bound is 2^63, one above i64::MAX.
  predicate FitsI64AsDouble(r: real) {
    IsWhole(r) && I64_MIN <= r.Floor <= I64_MAX + 1
  }

  // `value as i64` saturates.
  function SaturateToI64(n: int): int {
    if n > I64_MAX then I64_MAX else n
  }

  // Turning a double in range into an i64 token loses nothing: reading the token back
  // as a double rounds the saturated 2^63 - 1 up to 2^63 again.
  lemma SaturatedTokenReadsBack(r: real)
    requires IsDouble(r) && FitsI64AsDouble(r)
    ensures AsDouble(Integer(SaturateToI64(r.Floor))) == r
  {
    if r.Floor > I64_MAX {
      var n := I64_MAX;
      assert NearestMultiple(n, 1024) == I64_MAX + 1;
      assert RoundMagnitude(n, 1024) == I64_MAX + 1;
      assert RoundMagnitude(n, 256) == RoundMagnitude(n, 512);
      assert RoundMagnitude(n, 64) == RoundMagnitude(n, 128);
      assert RoundMagnitude(n, 16) == RoundMagnitude(n, 32);
      assert RoundMagnitude(n, 4) == RoundMagnitude(n, 8);
      assert RoundMagnitude(n, 1) == RoundMagnitude(n, 2);
    }
  }

  // Path lookup: `get` member by member.
  function Lookup(j: Json, path: seq<string>): Option<Json> {
    if path == [] then Some(j)
    else if j.Object? && path[0] in j.fields then Lookup(j.fields[path[0]], path[1..])
    else None
  }

  lemma {:induction false} LookupConcat(j: Json, p: seq<string>, q: seq<string>)
    ensures Lookup(j, p + q) ==
            (var inner := Lookup(j, p); if inner.Some? then Lookup(inner.value, q) else None)
  {
    if p == [] {
      assert p + q == q;
    } else {
      assert (p + q)[1..] == p[1..] + q;
      if j.Object? && p[0] in j.fields {
        LookupConcat(j.fields[p[0]], p[1..], q);
      }
    }
  }
}
