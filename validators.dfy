/**
  The `required` validator, with the JavaScript semantics it depends on:
  `String(v)` and `String.prototype.trim`.
 */
module Validators {

  /** The JavaScript values a request field can hold. Numbers are integers here. */
  datatype JsValue =
    | Undefined | Null | Bool(b: bool) | Num(n: int) | Str(s: string)
    | Arr(elements: seq<JsValue>) | Obj

  function DecimalDigits(n: nat): (r: string)
    ensures |r| > 0 && forall i | 0 <= i < |r| :: '0' <= r[i] <= '9'
  {
    if n < 10 then [(('0' as int) + n) as char]
    else DecimalDigits(n / 10) + DecimalDigits(n % 10)
  }

  /** `String(v)`. An array prints its elements joined by commas, with
      undefined and null elements printed as nothing; a plain object prints
      as "[object Object]". */
  function ToStr(v: JsValue): (r: string)
    ensures v.Str? ==> r == v.s
    ensures !v.Str? && !v.Arr? ==> r != "" && !IsJsSpace(r[0])
    decreases v, 1
  {
    match v
    case Undefined => "undefined"
    case Null => "null"
    case Bool(b) => if b then "true" else "false"
    case Num(n) => if n < 0 then "-" + DecimalDigits(-n) else DecimalDigits(n)
    case Str(s) => s
    case Arr(xs) => Join(xs, v)
    case Obj => "[object Object]"
  }

  /** `xs.join(",")` for the elements of the array `parent`. */
  function Join(xs: seq<JsValue>, ghost parent: JsValue): string
    requires parent.Arr? && forall x | x in xs :: x in parent.elements
    decreases parent, 0, |xs|
  {
    if xs == [] then ""
    else
      assert xs[0] in parent.elements;
      var head := if xs[0].Undefined? || xs[0].Null? then "" else ToStr(xs[0]);
      if |xs| == 1 then head else head + "," + Join(xs[1..], parent)
  }

  /** The characters `trim` removes: WhiteSpace and LineTerminator of ECMAScript. */
  predicate IsJsSpace(c: char)
  {
    // TAB, LF, VT, FF, CR, SPACE
    || c == '\t' || c == '\n' || c == '\U{000B}' || c == '\U{000C}' || c == '\r' || c == ' '
    // NO-BREAK SPACE, OGHAM SPACE MARK, EN QUAD .. HAIR SPACE
    || c == '\U{00A0}' || c == '\U{1680}' || ('\U{2000}' <= c <= '\U{200A}')
    // LINE SEPARATOR, PARAGRAPH SEPARATOR, NARROW NO-BREAK SPACE, MEDIUM MATHEMATICAL SPACE
    || c == '\U{2028}' || c == '\U{2029}' || c == '\U{202F}' || c == '\U{205F}'
    // IDEOGRAPHIC SPACE, ZERO WIDTH NO-BREAK SPACE
    || c == '\U{3000}' || c == '\U{FEFF}'
  }

  predicate Blank(s: string)
  {
    forall i | 0 <= i < |s| :: IsJsSpace(s[i])
  }

  /** Drops the leading white space: what is dropped is all white space, and
      what is left is a suffix that does not start with white space. */
  function TrimStart(s: string): (r: string)
    ensures |r| <= |s| && r == s[|s| - |r|..]
    ensures forall i | 0 <= i < |s| - |r| :: IsJsSpace(s[i])
    ensures r != "" ==> !IsJsSpace(r[0])
  {
    if s != [] && IsJsSpace(s[0]) then
      var r := TrimStart(s[1..]);
      assert s[1..][|s| - 1 - |r|..] == s[|s| - |r|..];
      assert forall i | 1 <= i < |s| :: s[i] == s[1..][i - 1];
      r
    else s
  }

  /** Drops the trailing white space: what is dropped is all white space, and
      what is left is a prefix that does not end with white space. */
  function TrimEnd(s: string): (r: string)
    ensures |r| <= |s| && r == s[..|r|]
    ensures forall i | |r| <= i < |s| :: IsJsSpace(s[i])
    ensures r != "" ==> !IsJsSpace(r[|r| - 1])
  {
    if s != [] && IsJsSpace(s[|s| - 1]) then
      var r := TrimEnd(s[..|s| - 1]);
      assert s[..|s| - 1][..|r|] == s[..|r|];
      r
    else s
  }

  /** `s.trim()`: `s` with its leading and trailing white space removed, so a
      piece of `s` that neither starts nor ends with white space, empty exactly
      when `s` is all white space. */
  function Trim(s: string): (r: string)
    ensures |r| <= |s|
    ensures var k := |s| - |TrimStart(s)|;
      k + |r| <= |s| && r == s[k..k + |r|]
      && (forall i | 0 <= i < k :: IsJsSpace(s[i]))
      && (forall i | k + |r| <= i < |s| :: IsJsSpace(s[i]))
    ensures r != "" ==> !IsJsSpace(r[0]) && !IsJsSpace(r[|r| - 1])
    ensures r == "" <==> Blank(s)
  {
    var t := TrimStart(s);
    var r := TrimEnd(t);
    Middle(s, t, r);
    r
  }

  /** A prefix `r` of a suffix `t` of `s` is a slice of `s`, and what follows
      `r` in `t` follows it in `s`. */
  lemma Middle(s: string, t: string, r: string)
    requires |t| <= |s| && t == s[|s| - |t|..]
    requires |r| <= |t| && r == t[..|r|]
    requires forall i | |r| <= i < |t| :: IsJsSpace(t[i])
    ensures var k := |s| - |t|;
      r == s[k..k + |r|] && forall i | k + |r| <= i < |s| :: IsJsSpace(s[i])
  {
    var k := |s| - |t|;
    assert s[k..][..|r|] == s[k..k + |r|];
    forall i | k + |r| <= i < |s|
      ensures IsJsSpace(s[i])
    {
      assert s[i] == t[i - k];
    }
  }

  /** JavaScript truthiness (`!!v`) of the modelled values: undefined, null,
      false, 0 and "" are falsy; every array and every object is truthy. */
  predicate JsTruthy(v: JsValue)
  {
    match v
    case Undefined => false
    case Null => false
    case Bool(b) => b
    case Num(n) => n != 0
    case Str(s) => s != ""
    case Arr(_) => true
    case Obj => true
  }

  /** What `required` does: return the value, or throw an error with `status` 400
      naming the field. */
  datatype Checked = Accepted(value: JsValue) | Rejected(status: int, field: string)

  /** `required(v, field)` */
  function Required(v: JsValue, field: string): (r: Checked)
    ensures r.Rejected? <==> v == Undefined || v == Null || Blank(ToStr(v))
    ensures r.Rejected? ==> r.status == 400 && r.field == field
    ensures r.Accepted? ==> r.value == v
  {
    if v == Undefined || v == Null || Trim(ToStr(v)) == "" then Rejected(400, field)
    else Accepted(v)
  }

  /** The empty string and a string of spaces are refused. */
  lemma RequiredRefusesBlankStrings(field: string)
    ensures Required(Str(""), field) == Rejected(400, field)
    ensures Required(Str("   "), field) == Rejected(400, field)
  {
  }

  /** Every number is accepted, zero included: its string form is never blank. */
  lemma RequiredAcceptsNumbers(n: int, field: string)
    ensures Required(Num(n), field) == Accepted(Num(n))
  {
    var text := ToStr(Num(n));
    assert !IsJsSpace(text[0]);
  }

  /** An empty array, and an array holding only null, print as "" and are refused. */
  lemma RequiredRefusesEmptyArrays(field: string)
    ensures Required(Arr([]), field).Rejected?
    ensures Required(Arr([Null]), field).Rejected?
  {
    assert ToStr(Arr([Null])) == "";
  }
}
