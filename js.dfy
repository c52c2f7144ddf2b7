/**
 * JavaScript values as the application sees them after `JSON.parse` or in a
 * request body, with the coercions it relies on: truthiness, `||`, `??`,
 * property access and optional chaining.
 */
module Js {
  import opened Text

  datatype Json =
    | Undefined
    | Null
    | Bool(b: bool)
    | Num(x: real)
    | Str(s: string)
    | Arr(items: seq<Json>)
    | Obj(fields: map<string, Json>)

  /** JavaScript truthiness: `undefined`, `null`, `false`, `0` and `""` are falsy. */
  predicate Truthy(v: Json) {
    match v
    case Undefined => false
    case Null => false
    case Bool(b) => b
    case Num(x) => x != 0.0
    case Str(s) => s != []
    case Arr(_) => true
    case Obj(_) => true
  }

  /** `null` or `undefined`, the values `?.` and `??` react to. */
  predicate Nullish(v: Json) {
    v.Undefined? || v.Null?
  }

  /** `a || b` */
  function Or(a: Json, b: Json): Json {
    if Truthy(a) then a else b
  }

  /** `a ?? b` */
  function Coalesce(a: Json, b: Json): Json {
    if Nullish(a) then b else a
  }

  /**
   * `v[key]` on a value that is not nullish: an object's own field, or the
   * `length` of an array or string; anything else reads as `undefined`.
   */
  function Get(v: Json, key: string): Json
    requires !Nullish(v)
  {
    match v
    case Obj(fields) => if key in fields then fields[key] else Undefined
    case Arr(items) => if key == "length" then Num(|items| as real) else Undefined
    case Str(s) => if key == "length" then Num(|s| as real) else Undefined
    case _ => Undefined
  }

  /** `v?.[key]` */
  function OptGet(v: Json, key: string): Json {
    if Nullish(v) then Undefined else Get(v, key)
  }

  /** The value of a digit in bases up to 16 (`0`-`9`, `a`-`f`, `A`-`F`), or -1 for any other character. */
  function DigitValue(c: char): (d: int)
    ensures -1 <= d < 16
    ensures '0' <= c <= '9' ==> d == c as int - '0' as int
    ensures d == -1 <==> !('0' <= c <= '9' || 'a' <= c <= 'f' || 'A' <= c <= 'F')
  {
    if '0' <= c <= '9' then c as int - '0' as int
    else if 'a' <= c <= 'f' then c as int - 'a' as int + 10
    else if 'A' <= c <= 'F' then c as int - 'A' as int + 10
    else -1
  }

  /** Every character is a digit of the base; the empty string qualifies. */
  predicate AllDigits(s: string, base: int) {
    forall k :: 0 <= k < |s| ==> 0 <= DigitValue(s[k]) < base
  }

  /** Some character is a digit other than zero. */
  predicate SomeNonZero(s: string) {
    exists k :: 0 <= k < |s| && DigitValue(s[k]) > 0
  }

  /** Where the exponent of a decimal literal starts: the first `e` or `E`, or the end. */
  function ExponentAt(s: string): (i: nat)
    ensures i <= |s|
    ensures i < |s| ==> s[i] == 'e' || s[i] == 'E'
    ensures forall k :: 0 <= k < i ==> s[k] != 'e' && s[k] != 'E'
    decreases |s|
  {
    if s == [] || s[0] == 'e' || s[0] == 'E' then 0 else 1 + ExponentAt(s[1..])
  }

  /** Decimal digits with at most one `.`, and at least one digit. */
  predicate IsMantissa(m: string) {
    var d := IndexOf(m, '.');
    if d < 0 then m != [] && AllDigits(m, 10)
    else |m| >= 2 && AllDigits(m[..d], 10) && AllDigits(m[d + 1..], 10)
  }

  /** Nothing, or `e`/`E`, an optional sign and decimal digits. */
  predicate IsExponentPart(e: string) {
    e == [] ||
      (|e| >= 2 && (e[0] == 'e' || e[0] == 'E') &&
       var digits := if e[1] == '+' || e[1] == '-' then e[2..] else e[1..];
       digits != [] && AllDigits(digits, 10))
  }

  /** An unsigned decimal literal of the string-to-number grammar with a value above zero. */
  predicate PositiveDecimal(s: string) {
    s == "Infinity" ||
      var i := ExponentAt(s);
      IsMantissa(s[..i]) && IsExponentPart(s[i..]) && SomeNonZero(s[..i])
  }

  /** `0x`, `0o` or `0b` (either case) followed by digits of that base, not all zero. */
  predicate PositivePrefixed(t: string) {
    |t| >= 3 && t[0] == '0' &&
      var base := if t[1] == 'x' || t[1] == 'X' then 16
                  else if t[1] == 'o' || t[1] == 'O' then 8
                  else if t[1] == 'b' || t[1] == 'B' then 2
                  else 0;
      base > 0 && AllDigits(t[2..], base) && SomeNonZero(t[2..])
  }

  /**
   * `Number(s) > 0`: the string, trimmed of white space, is a numeric literal
   * with a positive value. A leading `-` makes the value negative or zero;
   * anything that is not a literal converts to `NaN`, never greater than 0.
   */
  predicate StringIsPositive(s: string) {
    var t := Trim(s);
    || PositivePrefixed(t)
    || PositiveDecimal(t)
    || (t != [] && t[0] == '+' && PositiveDecimal(t[1..]))
  }

  /**
   * `v > 0`: the operand is converted to a number. `true` is 1; `null`, `false`,
   * `undefined` and objects are 0 or `NaN`; a string is read as a numeric
   * literal; an array first becomes the comma-joined text of its elements, so
   * it is positive only when it holds exactly one element whose text is.
   */
  predicate GreaterThanZero(v: Json)
    decreases v
  {
    match v
    case Num(x) => x > 0.0
    case Bool(b) => b
    case Str(s) => StringIsPositive(s)
    case Arr(items) => |items| == 1 && TextGreaterThanZero(items[0])
    case _ => false
  }

  /**
   * Whether an array element's text converts to a positive number: as for
   * the element itself, except that `true` becomes the text "true", which is
   * not a number.
   */
  predicate TextGreaterThanZero(v: Json)
    decreases v
  {
    match v
    case Num(x) => x > 0.0
    case Str(s) => StringIsPositive(s)
    case Arr(items) => |items| == 1 && TextGreaterThanZero(items[0])
    case _ => false
  }

  /** The text "2" converts to a positive number. */
  lemma TextTwoIsPositive()
    ensures StringIsPositive("2")
  {
    TrimOfTrimmed("2");
    assert ExponentAt("2") == 1 by {
      assert "2"[1..] == [];
    }
    assert "2"[..1] == "2" && DigitValue("2"[0]) > 0;
  }

  /** The text "-2" does not convert to a positive number. */
  lemma TextMinusTwoIsNotPositive()
    ensures !StringIsPositive("-2")
  {
    TrimOfTrimmed("-2");
    assert ExponentAt("-2") == 2 by {
      assert "-2"[1..] == "2" && "2"[1..] == [];
    }
    assert "-2"[..2] == "-2" && DigitValue("-2"[0]) == -1;
  }

  /** The text "two" is not a number at all. */
  lemma TextWordIsNotPositive()
    ensures !StringIsPositive("two")
  {
    TrimOfTrimmed("two");
    assert ExponentAt("two") == 3 by {
      assert "two"[1..] == "wo" && "wo"[1..] == "o" && "o"[1..] == [];
    }
    assert "two"[..3] == "two" && DigitValue("two"[0]) == -1;
  }

  /** The text "2" converts to a positive number; "-2" and "two" do not. */
  lemma NumericTexts()
    ensures StringIsPositive("2")
    ensures !StringIsPositive("-2")
    ensures !StringIsPositive("two")
  {
    TextTwoIsPositive();
    TextMinusTwoIsNotPositive();
    TextWordIsNotPositive();
  }

  /** `v?.length > 0` */
  predicate HasPositiveLength(v: Json) {
    GreaterThanZero(OptGet(v, "length"))
  }

  /** Arrays and strings have a positive length exactly when they are not empty. */
  lemma PositiveLengthOfArray(items: seq<Json>)
    ensures HasPositiveLength(Arr(items)) <==> items != []
  {
  }
}
