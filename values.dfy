/**
  The Python objects a handler works on: what `request.get_json()` returns
  (None, bool, int, float, str, list, dict), plus the Decimal that the
  handlers store back into the body in place of `purchase_price`. The
  operations are Python's `in`, subscription, item assignment, truth
  value, `isinstance(x, int)` and the `Decimal(x)` constructor.
 */
module Values {
  import Options
  import opened Text
  import opened Decimals

  /**
    A float parsed from JSON, as the exact binary fraction
    `(-1)^negative * numerator / 2^scale` it denotes, or one of the
    non-finite values Python's JSON reader accepts (NaN, Infinity, -Infinity).
    A finite float has many such spellings (`2/2^0`, `4/2^1`); what is
    computed from it goes through the ratio in lowest terms.
   */
  datatype BinaryFloat =
    | Binary(negative: bool, numerator: nat, scale: nat)
    | BinaryInfinity(negative: bool)
    | BinaryNaN

  datatype Value =
    | Null
    | Bool(b: bool)
    | Int(i: int)
    | Float(f: BinaryFloat)
    | Str(s: string)
    | List(items: seq<Value>)
    | Dict(entries: map<string, Value>)
    | Dec(d: Decimal)

  /**
    The exceptions that reach the handlers' outer `except Exception`:
    TypeError and KeyError from Python itself, BadRequest from Flask for a
    body that is not valid JSON, and the database errors of an insert.
   */
  datatype Exception =
    | TypeError
    | KeyError
    | BadRequest
    | UniqueViolation
    | StoreError

  datatype Result<+T> = Ok(value: T) | Err(error: Exception)

  /** The containers for which Python's `key in data` is defined. */
  predicate IsContainer(data: Value) {
    data.Dict? || data.List? || data.Str?
  }

  /**
    `key in data`: a key of a dict, an element equal to the string in a
    list, a substring of a string; TypeError for None, numbers and bools.
   */
  function PyIn(key: string, data: Value): (r: Result<bool>)
    ensures r.Err? <==> !IsContainer(data)
    ensures data.Dict? ==> r == Ok(key in data.entries)
    ensures r.Err? ==> r.error == TypeError
  {
    match data
    case Dict(m) => Ok(key in m)
    case List(items) => Ok(Str(key) in items)
    case Str(s) => Ok(Contains(s, key))
    case _ => Err(TypeError)
  }

  /**
    `data[key]` with a string key: only a dict holding the key yields a
    value; a missing key is a KeyError, every other receiver a TypeError.
   */
  function PyIndex(data: Value, key: string): (r: Result<Value>)
    ensures r.Ok? <==> data.Dict? && key in data.entries
    ensures r.Ok? ==> r.value == data.entries[key]
    ensures r.Err? ==> r.error == if data.Dict? then KeyError else TypeError
  {
    match data
    case Dict(m) => if key in m then Ok(m[key]) else Err(KeyError)
    case _ => Err(TypeError)
  }

  /** `data[key] = v`: a dict gains or replaces the entry; any other receiver raises TypeError. */
  function PySetItem(data: Value, key: string, v: Value): (r: Result<Value>)
    ensures r.Ok? <==> data.Dict?
    ensures r.Ok? ==> r.value == Dict(data.entries[key := v])
  {
    match data
    case Dict(m) => Ok(Dict(m[key := v]))
    case _ => Err(TypeError)
  }

  /** `bool(data)`: false for None, False, zero and empty containers. */
  predicate Truthy(data: Value)
    ensures data == Null || data == Bool(false) || data == Int(0) ==> !Truthy(data)
    ensures data.Dict? ==> (Truthy(data) <==> |data.entries| > 0)
    ensures data.List? ==> (Truthy(data) <==> |data.items| > 0)
  {
    match data
    case Null => false
    case Bool(b) => b
    case Int(i) => i != 0
    case Float(f) => !(f.Binary? && f.numerator == 0)
    case Str(s) => s != []
    case List(items) => items != []
    case Dict(m) => m != map[]
    case Dec(d) => !(d.Finite? && d.coefficient == 0)
  }

  /** `isinstance(v, int)`: `bool` is a subclass of `int`, so True and False pass. */
  predicate IsPyInt(v: Value)
    ensures v.Bool? ==> IsPyInt(v)
    ensures v.Float? || v.Dec? || v.Str? ==> !IsPyInt(v)
  {
    v.Int? || v.Bool?
  }

  /**
    The outcome of `Decimal(v)`: a value; a failure the handlers catch
    (InvalidOperation for a string that is not a number, ValueError for a
    list); or a TypeError they do not catch.
   */
  datatype Conversion =
    | Converted(value: Decimal)
    | Unparseable
    | Raised(error: Exception)

  function Pow2(k: nat): (r: nat)
    ensures r >= 1
  {
    if k == 0 then 1 else 2 * Pow2(k - 1)
  }

  function Pow5(k: nat): (r: nat)
    ensures r >= 1 && r % 2 == 1
  {
    if k == 0 then 1 else 5 * Pow5(k - 1)
  }

  function Pow10(k: nat): nat {
    if k == 0 then 1 else 10 * Pow10(k - 1)
  }

  lemma {:induction false} Pow10Split(k: nat)
    ensures Pow10(k) == Pow2(k) * Pow5(k)
  {
    if k > 0 {
      Pow10Split(k - 1);
      var p, q := Pow2(k - 1), Pow5(k - 1);
      assert 2 * p * (5 * q) == 10 * (p * q);
    }
  }

  /** The Decimal an int denotes, with exponent 0. */
  function IntDecimal(i: int): Decimal {
    Finite(i < 0, if i < 0 then -i else i, 0)
  }

  /**
    The ratio `n / 2^k` in lowest terms, `(m, j)` with `n / 2^k == m / 2^j`
    and `m` odd unless `j` is zero: what `float.as_integer_ratio()` gives.
   */
  function Reduced(n: nat, k: nat): (r: (nat, nat))
    ensures r.1 <= k && r.0 * Pow2(k - r.1) == n
    ensures r.1 == 0 || r.0 % 2 == 1
  {
    if k > 0 && n % 2 == 0 then
      var r := Reduced(n / 2, k - 1);
      assert Pow2(k - r.1) == 2 * Pow2(k - 1 - r.1);
      assert r.0 * (2 * Pow2(k - 1 - r.1)) == 2 * (r.0 * Pow2(k - 1 - r.1));
      r
    else (n, k)
  }

  /** `m / 2^j` is `(m * 5^j) / 10^j`, and odd times odd is odd. */
  lemma ScaledExactly(n: nat, k: nat, m: nat, j: nat)
    requires j <= k && m * Pow2(k - j) == n
    requires j == 0 || m % 2 == 1
    ensures (m * Pow5(j)) * Pow2(k) == n * Pow10(j)
    ensures j == 0 || (m * Pow5(j)) % 2 == 1
  {
    Pow2Split(k - j, j);
    Pow10Split(j);
    var a, b, c := Pow2(k - j), Pow2(j), Pow5(j);
    assert (m * c) * (a * b) == (m * a) * (b * c);
    if j > 0 {
      OddProduct(m, c);
    }
  }

  lemma {:induction false} Pow2Split(a: nat, b: nat)
    ensures Pow2(a + b) == Pow2(a) * Pow2(b)
  {
    if a > 0 {
      Pow2Split(a - 1, b);
      assert Pow2(a + b) == 2 * Pow2(a - 1 + b);
    }
  }

  lemma OddProduct(x: nat, y: nat)
    requires x % 2 == 1 && y % 2 == 1
    ensures (x * y) % 2 == 1
  {
    var p, q := x / 2, y / 2;
    assert x == 2 * p + 1 && y == 2 * q + 1;
    assert x * y == 2 * (2 * p * q + p + q) + 1;
  }

  /**
    `Decimal(f)` for a float: exact, and worked out from the ratio in
    lowest terms (`m / 2^j` becomes `(m * 5^j) * 10^-j`).
   */
  function FloatDecimal(f: BinaryFloat): Decimal {
    match f
    case Binary(negative, n, k) =>
      var (m, j) := Reduced(n, k);
      Finite(negative, m * Pow5(j), -(j as int))
    case BinaryInfinity(negative) => Infinity(negative)
    case BinaryNaN => NaN(false, false, 0)
  }

  /**
    The Decimal of a finite float has its sign and exactly its value, with
    no more fraction digits than needed: its coefficient is odd unless its
    exponent is 0 (`Decimal(2.0)` is `2`, not `2.0`). Non-finite floats
    give the Decimal infinity or a quiet NaN.
   */
  lemma FloatDecimalExact(f: BinaryFloat)
    ensures var r := FloatDecimal(f);
      && (f.Binary? ==>
        && r.Finite? && r.negative == f.negative && r.exponent <= 0
        && r.coefficient * Pow2(f.scale) == f.numerator * Pow10(-r.exponent)
        && (r.exponent == 0 || r.coefficient % 2 == 1))
      && (f.BinaryInfinity? ==> r == Infinity(f.negative))
      && (f.BinaryNaN? ==> r == NaN(false, false, 0))
  {
    if f.Binary? {
      var (m, j) := Reduced(f.numerator, f.scale);
      ScaledExactly(f.numerator, f.scale, m, j);
    }
  }

  /** `Decimal(f)` depends on the float's value only, not on how its ratio is written. */
  lemma FloatSpellingIrrelevant(negative: bool, n: nat, k: nat)
    ensures FloatDecimal(Binary(negative, 2 * n, k + 1)) == FloatDecimal(Binary(negative, n, k))
  {
    assert Reduced(2 * n, k + 1) == Reduced(n, k);
  }

  /**
    `Decimal(v)`. An int or bool gives that integer; a float gives its
    exact value; a string is read by the numeric-string grammar; a
    Decimal is copied.
   */
  function ToDecimal(v: Value): (r: Conversion)
    ensures r.Raised? <==> v.Null? || v.Dict?
    ensures r.Unparseable? <==> v.List? || (v.Str? && ParseDecimalText(v.s).None?)
    ensures r.Raised? ==> r.error == TypeError
  {
    match v
    case Null => Raised(TypeError)
    case Bool(b) => Converted(IntDecimal(if b then 1 else 0))
    case Int(i) => Converted(IntDecimal(i))
    case Float(f) => Converted(FloatDecimal(f))
    case Str(s) => if ParseDecimalText(s).Some? then Converted(ParseDecimalText(s).value) else Unparseable
    case List(_) => Unparseable
    case Dict(_) => Raised(TypeError)
    case Dec(d) => Converted(d)
  }

  /** A number sent as its decimal string converts to the same Decimal as the number itself. */
  lemma NumericStringMatchesNumber(i: int)
    ensures ToDecimal(Str(IntText(i))) == ToDecimal(Int(i))
  {
    IntTextParses(i);
    TextMatchesInt(IntText(i), i);
  }

  /** A string the grammar reads as the integer `i` converts as `i` does. */
  lemma TextMatchesInt(text: string, i: int)
    requires ParseDecimalText(text) == Options.Some(Finite(i < 0, if i < 0 then -i else i, 0))
    ensures ToDecimal(Str(text)) == ToDecimal(Int(i))
  {
  }
}
