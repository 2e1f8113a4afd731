/** The slice of JavaScript's value model and string built-ins that the
    backend's logic depends on: values and their truthiness (`!x`, `a || b`),
    `String.prototype.trim`, `Number.parseInt(s, 10)`, `indexOf`/`includes`,
    and the string form of an Express query parameter. */
module Js {
  import opened Wrappers

  /** A JavaScript number. `-0` is identified with `0`, which is how `===`
      treats it. */
  datatype Number = NaN | Finite(value: real) | Infinite(negative: bool)

  datatype JsValue =
    | Undefined
    | Null
    | Bool(b: bool)
    | Num(n: Number)
    | Str(s: string)
    | Arr(items: seq<JsValue>)
    | Obj(fields: map<string, JsValue>)

  /** ToBoolean: the falsy values are undefined, null, false, NaN, 0 and "". */
  predicate Truthy(v: JsValue) {
    match v
    case Undefined => false
    case Null => false
    case Bool(b) => b
    case Num(n) => n.Infinite? || (n.Finite? && n.value != 0.0)
    case Str(s) => s != ""
    case Arr(_) => true
    case Obj(_) => true
  }

  /** `a || b` */
  function Or(a: JsValue, b: JsValue): JsValue {
    if Truthy(a) then a else b
  }

  function IntValue(i: int): JsValue {
    Num(Finite(i as real))
  }

  /** `{ error: message }` */
  function ErrorBody(message: JsValue): JsValue {
    Obj(map["error" := message])
  }

  /** Truthiness of an optional string such as `req.user?._id`: present and
      non-empty. */
  predicate Present(s: Option<string>) {
    s.Some? && s.value != ""
  }

  /** An optional string as a JavaScript value: absent is `undefined`. */
  function OptionalStr(s: Option<string>): JsValue {
    match s
    case Some(t) => Str(t)
    case None => Undefined
  }

  // ---------------------------------------------------------------------
  // Whitespace and trimming

  /** ECMAScript WhiteSpace and LineTerminator code points (the Zs category
      written out), the set `trim` and `parseInt` skip. */
  predicate IsWhitespace(c: char) {
    || c == '\t' || c == '\n' || c == '\U{000B}' || c == '\U{000C}' || c == '\r'
    || c == ' ' || c == '\U{00A0}' || c == '\U{1680}'
    || ('\U{2000}' <= c <= '\U{200A}')
    || c == '\U{2028}' || c == '\U{2029}' || c == '\U{202F}' || c == '\U{205F}'
    || c == '\U{3000}' || c == '\U{FEFF}'
  }

  /** Drops leading whitespace. */
  function TrimStart(s: string): (r: string)
    ensures |r| <= |s| && r == s[|s| - |r|..]
    ensures forall k :: 0 <= k < |s| - |r| ==> IsWhitespace(s[k])
    ensures r == [] || !IsWhitespace(r[0])
  {
    if |s| > 0 && IsWhitespace(s[0]) then TrimStart(s[1..]) else s
  }

  /** Drops trailing whitespace. */
  function TrimEnd(s: string): (r: string)
    ensures |r| <= |s| && r == s[..|r|]
    ensures forall k :: |r| <= k < |s| ==> IsWhitespace(s[k])
    ensures r == [] || !IsWhitespace(r[|r| - 1])
  {
    if |s| > 0 && IsWhitespace(s[|s| - 1]) then TrimEnd(s[..|s| - 1]) else s
  }

  /** Text that does not start with whitespace is its own `TrimStart`. */
  lemma TrimStartFixed(s: string)
    requires s == [] || !IsWhitespace(s[0])
    ensures TrimStart(s) == s
  {
  }

  /** Text that does not end with whitespace is its own `TrimEnd`. */
  lemma TrimEndFixed(s: string)
    requires s == [] || !IsWhitespace(s[|s| - 1])
    ensures TrimEnd(s) == s
  {
  }

  /** `r` is `s` with whitespace-only text of length `lead` cut from the
      front and whitespace-only text cut from the back. */
  predicate TrimmedAt(s: string, r: string, lead: int) {
    && 0 <= lead && lead + |r| <= |s| && r == s[lead..lead + |r|]
    && (forall k :: 0 <= k < lead ==> IsWhitespace(s[k]))
    && (forall k :: lead + |r| <= k < |s| ==> IsWhitespace(s[k]))
  }

  /** `String.prototype.trim` */
  function Trim(s: string): string {
    TrimEnd(TrimStart(s))
  }

  /** `Trim` cuts whitespace from the front and the back, and nothing else. */
  lemma TrimIsTrimmedAt(s: string)
    ensures TrimmedAt(s, Trim(s), |s| - |TrimStart(s)|)
  {
    var t := TrimStart(s);
    var r := TrimEnd(t);
    var lead := |s| - |t|;
    assert Trim(s) == r;
    SliceOfSuffix(s, t, r, lead);
    assert forall k :: 0 <= k < lead ==> IsWhitespace(s[k]);
    BlankTailOfSuffix(s, t, |r|, lead);
    assert TrimmedAt(s, r, lead);
  }

  /** Whitespace after position `n` of the suffix `t` of `s` is whitespace
      after position `lead + n` of `s`. */
  lemma BlankTailOfSuffix(s: string, t: string, n: int, lead: int)
    requires 0 <= lead <= |s| && t == s[lead..] && 0 <= n <= |t|
    requires forall k :: n <= k < |t| ==> IsWhitespace(t[k])
    ensures forall k :: lead + n <= k < |s| ==> IsWhitespace(s[k])
  {
    forall k | lead + n <= k < |s|
      ensures IsWhitespace(s[k])
    {
      assert s[k] == t[k - lead];
    }
  }

  /** Trimming twice is trimming once. */
  lemma TrimIdempotent(s: string)
    ensures Trim(Trim(s)) == Trim(s)
  {
    var t := TrimStart(s);
    var r := TrimEnd(t);
    assert Trim(s) == r;
    assert r == [] || r[0] == t[0];
    TrimStartFixed(r);
    TrimEndFixed(r);
    assert Trim(r) == TrimEnd(TrimStart(r));
  }

  /** A prefix `r` of the suffix `t` of `s` is the slice of `s` it sits at. */
  lemma SliceOfSuffix(s: string, t: string, r: string, lead: int)
    requires 0 <= lead <= |s| && t == s[lead..]
    requires |r| <= |t| && r == t[..|r|]
    ensures r == s[lead..lead + |r|]
  {
  }

  // ---------------------------------------------------------------------
  // Number.parseInt(s, 10)

  predicate IsDigit(c: char) {
    '0' <= c <= '9'
  }

  predicate AllDigits(s: string) {
    forall k :: 0 <= k < |s| ==> IsDigit(s[k])
  }

  function DigitValue(c: char): nat
    requires IsDigit(c)
  {
    (c as int) - ('0' as int)
  }

  function DigitChar(d: nat): (c: char)
    requires d < 10
    ensures IsDigit(c) && DigitValue(c) == d
  {
    (('0' as int) + d) as char
  }

  /** The longest prefix of `s` made of decimal digits. */
  function LeadingDigits(s: string): (r: string)
    ensures |r| <= |s| && r == s[..|r|]
    ensures AllDigits(r)
    ensures |r| == |s| || !IsDigit(s[|r|])
  {
    if |s| > 0 && IsDigit(s[0]) then [s[0]] + LeadingDigits(s[1..]) else []
  }

  /** The value of a digit string read in base 10. */
  function DigitsValue(ds: string): nat
    requires AllDigits(ds)
  {
    if ds == [] then 0 else DigitsValue(ds[..|ds| - 1]) * 10 + DigitValue(ds[|ds| - 1])
  }

  /** `Number.parseInt(s, 10)`, with `None` for NaN: leading whitespace is
      skipped, one optional sign is read, then the longest run of decimal
      digits; no digits at all gives NaN. */
  function ParseInt(s: string): Option<int> {
    var t := TrimStart(s);
    var signed := |t| > 0 && (t[0] == '-' || t[0] == '+');
    var digits := LeadingDigits(if signed then t[1..] else t);
    if digits == [] then None
    else if signed && t[0] == '-' then Some(-(DigitsValue(digits) as int))
    else Some(DigitsValue(digits))
  }

  /** Decimal rendering of a natural number, most significant digit first. */
  function NatString(n: nat): string {
    if n < 10 then [DigitChar(n)] else NatString(n / 10) + [DigitChar(n % 10)]
  }

  /** Decimal rendering of an integer, as `String(n)` writes it. */
  function DecimalString(n: int): string {
    if n < 0 then "-" + NatString(-n) else NatString(n)
  }

  lemma {:induction false} NatStringDigits(n: nat)
    ensures |NatString(n)| > 0 && AllDigits(NatString(n))
    ensures DigitsValue(NatString(n)) == n
  {
    if n >= 10 {
      NatStringDigits(n / 10);
      var s := NatString(n);
      assert s[..|s| - 1] == NatString(n / 10);
    }
  }

  lemma {:induction false} LeadingDigitsOfDigits(s: string)
    requires AllDigits(s)
    ensures LeadingDigits(s) == s
  {
    if |s| > 0 {
      LeadingDigitsOfDigits(s[1..]);
    }
  }

  /** A digit string is read as its value. */
  lemma ParseIntOfDigits(s: string)
    requires s != [] && AllDigits(s)
    ensures ParseInt(s) == Some(DigitsValue(s))
  {
    assert IsDigit(s[0]);
    TrimStartFixed(s);
    LeadingDigitsOfDigits(s);
  }

  /** A minus sign followed by a digit string is read as the negated value. */
  lemma ParseIntOfNegatedDigits(t: string)
    requires |t| > 1 && t[0] == '-' && AllDigits(t[1..])
    ensures ParseInt(t) == Some(-(DigitsValue(t[1..]) as int))
  {
    assert !IsWhitespace(t[0]);
    TrimStartFixed(t);
    LeadingDigitsOfDigits(t[1..]);
  }

  /** Text that starts with neither whitespace, a sign nor a digit is NaN. */
  lemma ParseIntNoDigits(s: string)
    requires s != [] && !IsWhitespace(s[0]) && s[0] != '-' && s[0] != '+' && !IsDigit(s[0])
    ensures ParseInt(s).None?
  {
    TrimStartFixed(s);
    assert LeadingDigits(s) == [];
  }

  /** `parseInt` reads back every integer `String` writes. */
  lemma ParseIntDecimal(n: int)
    ensures ParseInt(DecimalString(n)) == Some(n)
  {
    if n < 0 {
      ParseIntNegativeDecimal(n);
    } else {
      ParseIntNaturalDecimal(n);
    }
  }

  lemma ParseIntNaturalDecimal(n: int)
    requires n >= 0
    ensures ParseInt(DecimalString(n)) == Some(n)
  {
    var t := DecimalString(n);
    NatStringDigits(n);
    assert t == NatString(n);
    ParseIntOfDigits(t);
  }

  lemma ParseIntNegativeDecimal(n: int)
    requires n < 0
    ensures ParseInt(DecimalString(n)) == Some(n)
  {
    var digits := NatString(-n);
    var t := DecimalString(n);
    assert t == "-" + digits;
    NatStringDigits(-n);
    assert t[0] == '-' && t[1..] == digits;
    ParseIntOfNegatedDigits(t);
    assert DigitsValue(t[1..]) == -n;
  }

  // ---------------------------------------------------------------------
  // Searching

  /** `m` occurs in `s` at position `j`. */
  predicate OccursAt(s: string, m: string, j: int) {
    0 <= j && j + |m| <= |s| && s[j..j + |m|] == m
  }

  /** `s.indexOf(m, from)`, with `None` for -1. */
  function IndexOfFrom(s: string, m: string, from: nat): (r: Option<nat>)
    requires from <= |s|
    ensures r.Some? ==> from <= r.value && OccursAt(s, m, r.value)
    ensures r.Some? ==> forall j :: from <= j < r.value ==> !OccursAt(s, m, j)
    ensures r.None? ==> forall j :: from <= j ==> !OccursAt(s, m, j)
    decreases |s| - from
  {
    if from + |m| > |s| then None
    else if s[from..from + |m|] == m then Some(from)
    else IndexOfFrom(s, m, from + 1)
  }

  /** `s.indexOf(m)`: the first occurrence of `m` in `s`. */
  function IndexOf(s: string, m: string): Option<nat> {
    IndexOfFrom(s, m, 0)
  }

  /** `s.includes(m)` */
  predicate Includes(s: string, m: string) {
    IndexOf(s, m).Some?
  }

  // ---------------------------------------------------------------------
  // Joining and splitting

  /** `parts.join(sep)` */
  function Join(parts: seq<string>, sep: string): string {
    if |parts| == 0 then ""
    else if |parts| == 1 then parts[0]
    else parts[0] + sep + Join(parts[1..], sep)
  }

  /** `s.split(sep)` for a one-character separator: the pieces between
      separators, never fewer than one, none containing the separator, and
      joined again they give back `s`. */
  function Split(s: string, sep: char): (parts: seq<string>)
    ensures |parts| >= 1
    ensures forall i :: 0 <= i < |parts| ==> sep !in parts[i]
    ensures Join(parts, [sep]) == s
  {
    if s == [] then [""]
    else if s[0] == sep then
      var rest := Split(s[1..], sep);
      assert [sep] + s[1..] == s;
      [""] + rest
    else
      var rest := Split(s[1..], sep);
      var parts := [[s[0]] + rest[0]] + rest[1..];
      assert parts[1..] == rest[1..];
      assert s == [s[0]] + s[1..];
      parts
  }

  /** A piece free of the separator, followed by the separator, is split off
      as the first piece. */
  lemma {:induction false} SplitAfterPiece(a: string, sep: char, rest: string)
    requires sep !in a
    ensures Split(a + [sep] + rest, sep) == [a] + Split(rest, sep)
  {
    if a != [] {
      assert (a + [sep] + rest)[1..] == a[1..] + [sep] + rest;
      SplitAfterPiece(a[1..], sep, rest);
      assert a == [a[0]] + a[1..];
    } else {
      assert a + [sep] + rest == [sep] + rest;
    }
  }

  /** A string free of the separator is one piece. */
  lemma {:induction false} SplitWhole(a: string, sep: char)
    requires sep !in a
    ensures Split(a, sep) == [a]
  {
    if a != [] {
      SplitWhole(a[1..], sep);
      assert a == [a[0]] + a[1..];
    }
  }

  /** Splitting what `Join` wrote gives back the pieces, when none of them
      contains the separator. */
  lemma {:induction false} SplitJoin(parts: seq<string>, sep: char)
    requires |parts| >= 1
    requires forall i :: 0 <= i < |parts| ==> sep !in parts[i]
    ensures Split(Join(parts, [sep]), sep) == parts
  {
    if |parts| == 1 {
      SplitWhole(parts[0], sep);
    } else {
      SplitJoin(parts[1..], sep);
      SplitAfterPiece(parts[0], sep, Join(parts[1..], [sep]));
      assert parts == [parts[0]] + parts[1..];
    }
  }

  // ---------------------------------------------------------------------
  // Express query parameters

  /** What Express's query parser hands a handler for one parameter: nothing,
      one string, a repeated parameter's strings, or a bracketed (object) form. */
  datatype QueryParam = Missing | Single(text: string) | Repeated(texts: seq<string>) | Nested

  /** `String(q)`, the conversion `parseInt` applies to its argument. */
  function QueryString(q: QueryParam): string {
    match q
    case Missing => "undefined"
    case Single(t) => t
    case Repeated(ts) => Join(ts, ",")
    case Nested => "[object Object]"
  }

  /** Truthiness of a query parameter (an array or object is always truthy). */
  predicate QueryTruthy(q: QueryParam) {
    match q
    case Missing => false
    case Single(t) => t != ""
    case Repeated(_) => true
    case Nested => true
  }

  /** `Number.parseInt(q, 10)` on a query parameter. */
  function ParseIntParam(q: QueryParam): Option<int> {
    ParseInt(QueryString(q))
  }

  /** A missing parameter reads as the text "undefined", which is NaN. */
  lemma MissingIsNaN()
    ensures ParseIntParam(Missing).None?
  {
    var u := "undefined";
    assert QueryString(Missing) == u;
    assert u[0] == 'u';
    ParseIntNoDigits(u);
  }
}
