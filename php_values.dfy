/** The dynamically typed values that the modelled PHP code stores, passes
    and validates, with the PHP notions the code relies on: truthiness
    (`if ($x)`, `(bool) $x`) and the type tests `is_int`, `is_bool`,
    `is_array`. Arrays are ordered lists of (key, value) entries; keys are
    written as strings. */
module PhpValues {
  import opened Wrappers
  import opened Strings

  datatype Value =
    | Null
    | Bool(b: bool)
    | Int(i: int)
    | Float(r: real)
    | Str(s: string)
    | Arr(entries: seq<(string, Value)>)
    | Obj(cls: string, oid: nat)

  /** PHP's conversion to boolean: null, false, 0, 0.0, "", "0" and the
      empty array are falsy; everything else is truthy. */
  predicate Truthy(v: Value) {
    match v
    case Null => false
    case Bool(b) => b
    case Int(i) => i != 0
    case Float(r) => r != 0.0
    case Str(s) => s != "" && s != "0"
    case Arr(e) => e != []
    case Obj(_, _) => true
  }

  /** `$v === (int) $v` for a value that `is_numeric` accepts: only a
      genuine integer passes (a numeric string or a float is not identical
      to its integer cast). */
  predicate IsStrictInt(v: Value) {
    v.Int?
  }

  /** `(int)` of a float: truncation toward zero. */
  function Trunc(r: real): (i: int)
    ensures r >= 0.0 ==> 0 <= i && i as real <= r < i as real + 1.0
    ensures r < 0.0 ==> i <= 0 && i as real - 1.0 < r <= i as real
  {
    if r >= 0.0 then r.Floor else -((-r).Floor)
  }

  /** `is_numeric`: numbers, and strings of a numeral between optional
      whitespace, with an optional sign. */
  predicate IsNumeric(v: Value) {
    v.Int? || v.Float? || (v.Str? && IsNumericString(v.s))
  }

  /** `(int) $v`: floats truncate, strings read their leading integer,
      arrays are 0 when empty and 1 otherwise. */
  function IntOf(v: Value): int {
    match v
    case Null => 0
    case Bool(b) => if b then 1 else 0
    case Int(i) => i
    case Float(r) => Trunc(r)
    case Str(s) => StrToInt(s)
    case Arr(e) => if e == [] then 0 else 1
    case Obj(_, _) => 1
  }

  /** A value used as an array key (`$a[$v]`): null is "", booleans are
      "1" and "0", floats truncate, and arrays and objects are illegal
      offsets. */
  function ArrayKey(v: Value): (r: Result<string>)
    ensures r.Err? <==> v.Arr? || v.Obj?
    ensures v.Str? ==> r == Ok(v.s)
    ensures v.Int? ==> r == Ok(IntToString(v.i))
  {
    match v
    case Null => Ok("")
    case Bool(b) => Ok(if b then "1" else "0")
    case Int(i) => Ok(IntToString(i))
    case Float(r) => Ok(IntToString(Trunc(r)))
    case Str(s) => Ok(s)
    case Arr(_) => Err(PhpError)
    case Obj(_, _) => Err(PhpError)
  }

  // ---------------------------------------------------------------------
  // Arithmetic

  function Pow10(n: nat): (p: nat)
    ensures p >= 1
  {
    if n == 0 then 1 else 10 * Pow10(n - 1)
  }

  /** The value of the digits after a decimal point. */
  function Fraction(f: string): real
    requires AllDigits(f)
  {
    DigitsValue(f) as real / Pow10(|f|) as real
  }

  /** The number a string starting with a (signed) numeral stands for:
      an integer, or a float when a "." follows the digits or starts the
      numeral. */
  function StrNumber(s: string): (v: Value)
    requires HasLeadingNumber(s)
    ensures v.Int? || v.Float?
    ensures v.Int? ==> v.i == StrToInt(s)
  {
    var body := Unsigned(s);
    var d := LeadingDigits(body);
    var sign := if Negative(s) then -1 else 1;
    if |d| < |body| && body[|d|] == '.' then
      Float(sign as real * (DigitsValue(d) as real + Fraction(LeadingDigits(body[|d| + 1..]))))
    else Int(sign * DigitsValue(d))
  }

  /** An operand of `*`: null and booleans count as 0 and 1, a string
      that starts with a number (after whitespace) is that number, and a
      string without one, an array or an object is a type error. */
  function ToNumber(v: Value): (r: Result<Value>)
    ensures r.Ok? ==> r.value.Int? || r.value.Float?
    ensures r.Err? <==> v.Arr? || v.Obj? || (v.Str? && !HasLeadingNumber(v.s))
    ensures v.Int? || v.Float? ==> r == Ok(v)
  {
    match v
    case Null => Ok(Int(0))
    case Bool(b) => Ok(Int(if b then 1 else 0))
    case Int(_) => Ok(v)
    case Float(_) => Ok(v)
    case Str(s) => if HasLeadingNumber(s) then Ok(StrNumber(s)) else Err(PhpError)
    case Arr(_) => Err(PhpError)
    case Obj(_, _) => Err(PhpError)
  }

  function AsReal(n: Value): real
    requires n.Int? || n.Float?
  {
    if n.Int? then n.i as real else n.r
  }

  /** The product of two numbers: integer when both are integers, float
      otherwise. */
  function Times(x: Value, y: Value): Value
    requires (x.Int? || x.Float?) && (y.Int? || y.Float?)
  {
    if x.Int? && y.Int? then Int(x.i * y.i) else Float(AsReal(x) * AsReal(y))
  }

  /** `$a * $b`: integer when both operands are integers, float
      otherwise. */
  function Mul(a: Value, b: Value): (r: Result<Value>)
    ensures r.Ok? ==> r.value.Int? || r.value.Float?
    ensures r.Ok? <==> ToNumber(a).Ok? && ToNumber(b).Ok?
    ensures a.Int? && b.Int? ==> r == Ok(Int(a.i * b.i))
  {
    var x :- ToNumber(a);
    var y :- ToNumber(b);
    Ok(Times(x, y))
  }

  /** The operands of `*` commute. */
  lemma MulCommutes(a: Value, b: Value)
    ensures Mul(a, b) == Mul(b, a)
  {
  }

  /** A numeric string multiplies as the number it spells, whatever
      whitespace surrounds it (`" 2 " * 3` is 6). */
  lemma MulNumericString(w: string, i: int, v: string, j: int)
    requires AllSpace(w) && AllSpace(v)
    ensures Mul(Str(w + IntToString(i) + v), Int(j)) == Ok(Int(i * j))
  {
    var s := w + IntToString(i) + v;
    var n: nat := if i >= 0 then i else -i;
    PaddedIntToString(w, i, v);
    UnsignedOfPadded(w, i, v);
    var body := Unsigned(s);
    var d := LeadingDigits(body);
    assert body == NatToString(n) + v && d == NatToString(n);
    assert |d| < |body| ==> body[|d|] == v[0];
    assert StrNumber(s) == Int(i);
    assert ToNumber(Str(s)) == Ok(Int(i));
    assert Times(Int(i), Int(j)) == Int(i * j);
  }

  /** A numeral that starts with "." is the fraction it spells, so
      `".5" * 2` multiplies as `0.5 * 2`. */
  lemma MulLeadingDot(f: string, b: Value)
    requires f != [] && AllDigits(f)
    ensures ToNumber(Str("." + f)) == Ok(Float(Fraction(f)))
    ensures Mul(Str("." + f), b) == Mul(Float(Fraction(f)), b)
  {
    var s := "." + f;
    SkipSpacePrefix([], s);
    assert [] + s == s;
    assert Unsigned(s) == s;
    assert LeadingDigits(s) == [];
    assert s[1..] == f;
    LeadingDigitsOfDigits(f);
    assert HasLeadingNumber(s);
    assert !Negative(s);
    var q := Fraction(f);
    assert StrNumber(s) == Float(1 as real * (0 as real + q));
    assert 1 as real * (0 as real + q) == q;
    MulByNumber(Str(s), Float(q), b);
  }

  /** Operands that convert to the same number multiply alike. */
  lemma MulByNumber(a: Value, c: Value, b: Value)
    requires ToNumber(a) == ToNumber(c)
    ensures Mul(a, b) == Mul(c, b)
  {
  }
}
