/**
 * The JavaScript text primitives the seat code leans on: `JSON.parse` on the
 * fragment of JSON that seat lists use, `JSON.stringify` of an array of
 * integers, `Number()` applied to a piece of text, and `String.split`.
 */
module JsText {
  import opened Wrappers

  /** A JSON scalar of the modelled fragment. */
  datatype Scalar = JInt(n: int) | JTrue | JFalse | JNull

  /** A whole JSON document of the modelled fragment: a flat array or one scalar. */
  datatype Doc = JArray(items: seq<Scalar>) | JScalar(value: Scalar)

  /** The result of JavaScript's `Number(v)`: an integer or NaN. */
  datatype Number = Num(value: int) | NaN

  /** The whitespace `JSON.parse` skips between tokens. */
  predicate IsWs(c: char) { c == ' ' || c == '\t' || c == '\n' || c == '\r' }

  /**
   * The whitespace `String.prototype.trim` and `Number()` strip: the JSON
   * four, vertical tab, form feed, no-break space, byte-order mark, the line
   * and paragraph separators, and the other space separators of Unicode.
   */
  predicate IsJsSpace(c: char)
  {
    || IsWs(c) || c == '\U{000B}' || c == '\U{000C}' || c == '\U{00A0}' || c == '\U{FEFF}'
    || c == '\U{2028}' || c == '\U{2029}' || c == '\U{1680}' || ('\U{2000}' <= c <= '\U{200A}')
    || c == '\U{202F}' || c == '\U{205F}' || c == '\U{3000}'
  }

  predicate IsDigit(c: char) { '0' <= c <= '9' }

  predicate AllDigits(s: string) { forall i :: 0 <= i < |s| ==> IsDigit(s[i]) }

  /** JavaScript truthiness of an optional number: absent (undefined, null) and 0 are falsy. */
  predicate Truthy(v: Option<int>) { v.Some? && v.value != 0 }

  // ---------------------------------------------------------------------------
  // Digits

  function DigitValue(c: char): nat
    requires IsDigit(c)
  {
    c as int - '0' as int
  }

  function DigitChar(d: nat): (c: char)
    requires d < 10
    ensures IsDigit(c) && DigitValue(c) == d
  {
    ('0' as int + d) as char
  }

  /** The number of digit characters at the front of `s`. */
  function LeadingDigits(s: string): (k: nat)
    ensures k <= |s|
    ensures AllDigits(s[..k])
    ensures k < |s| ==> !IsDigit(s[k])
  {
    if |s| > 0 && IsDigit(s[0]) then 1 + LeadingDigits(s[1..]) else 0
  }

  /** The value of a run of decimal digits, most significant first. */
  function DigitsValue(ds: string): nat
    requires AllDigits(ds)
  {
    if ds == [] then 0 else 10 * DigitsValue(ds[..|ds| - 1]) + DigitValue(ds[|ds| - 1])
  }

  /** The decimal text of a natural number, as `String(n)` writes it. */
  function NatText(n: nat): (r: string)
    ensures |r| > 0 && AllDigits(r)
    ensures r[0] == '0' <==> n == 0
    ensures n == 0 ==> r == "0"
  {
    if n < 10 then [DigitChar(n)] else NatText(n / 10) + [DigitChar(n % 10)]
  }

  /** The decimal text of an integer, with a leading minus sign when negative. */
  function IntText(n: int): (r: string)
    ensures |r| > 0 && !IsWs(r[0]) && r[0] != '[' && r[0] != ','
  {
    if n < 0 then "-" + NatText(-n) else NatText(n)
  }

  lemma {:induction false} NatTextValue(n: nat)
    ensures DigitsValue(NatText(n)) == n
  {
    if n >= 10 {
      var r := NatText(n);
      assert r[..|r| - 1] == NatText(n / 10);
      NatTextValue(n / 10);
    }
  }

  lemma {:induction false} LeadingDigitsOfDigitsThen(ds: string, rest: string)
    requires AllDigits(ds)
    requires rest == [] || !IsDigit(rest[0])
    ensures LeadingDigits(ds + rest) == |ds|
  {
    if ds != [] {
      assert (ds + rest)[1..] == ds[1..] + rest;
      LeadingDigitsOfDigitsThen(ds[1..], rest);
    }
  }

  // ---------------------------------------------------------------------------
  // JSON.parse on the modelled fragment

  /** `s` without its leading whitespace. */
  function SkipWs(s: string): (r: string)
    ensures |r| <= |s|
    ensures r == [] || !IsWs(r[0])
  {
    if |s| > 0 && IsWs(s[0]) then SkipWs(s[1..]) else s
  }

  /** The unsigned part of a JSON number: `0|[1-9][0-9]*`. */
  function ParseNat(t: string): (r: Option<(nat, string)>)
    ensures r.Some? ==> |r.value.1| < |t|
  {
    if |t| == 0 || !IsDigit(t[0]) then None
    else if t[0] == '0' then Some((0, t[1..]))
    else
      var k := LeadingDigits(t);
      Some((DigitsValue(t[..k]), t[k..]))
  }

  /** A JSON number without fraction or exponent: `-?(0|[1-9][0-9]*)`. */
  function ParseInt(s: string): (r: Option<(int, string)>)
    ensures r.Some? ==> |r.value.1| < |s|
  {
    if |s| > 0 && s[0] == '-' then
      match ParseNat(s[1..])
      case None => None
      case Some((v, rest)) => Some((-(v as int), rest))
    else
      match ParseNat(s)
      case None => None
      case Some((v, rest)) => Some((v as int, rest))
  }

  function ParseScalar(s: string): (r: Option<(Scalar, string)>)
    ensures r.Some? ==> |r.value.1| < |s|
  {
    if |s| >= 4 && s[..4] == "true" then Some((JTrue, s[4..]))
    else if |s| >= 5 && s[..5] == "false" then Some((JFalse, s[5..]))
    else if |s| >= 4 && s[..4] == "null" then Some((JNull, s[4..]))
    else
      match ParseInt(s)
      case None => None
      case Some((n, rest)) => Some((JInt(n), rest))
  }

  /** The elements of a non-empty array and the text after its closing bracket. */
  function ParseElements(s: string): (r: Option<(seq<Scalar>, string)>)
    ensures r.Some? ==> |r.value.1| < |s|
    decreases |s|
  {
    var p := ParseScalar(s);
    if p.None? then None
    else
      var t := SkipWs(p.value.1);
      if |t| > 0 && t[0] == ']' then Some(([p.value.0], t[1..]))
      else if |t| > 0 && t[0] == ',' then
        var q := ParseElements(SkipWs(t[1..]));
        if q.None? then None else Some(([p.value.0] + q.value.0, q.value.1))
      else None
  }

  /** The array whose opening bracket precedes `s`. */
  function ParseArray(s: string): Option<(seq<Scalar>, string)>
  {
    var t := SkipWs(s);
    if |t| > 0 && t[0] == ']' then Some(([], t[1..])) else ParseElements(t)
  }

  /** `JSON.parse(s)`: `None` stands for the SyntaxError it throws. */
  function Parse(s: string): Option<Doc>
  {
    var t := SkipWs(s);
    if |t| > 0 && t[0] == '[' then
      match ParseArray(t[1..])
      case Some((items, rest)) => if SkipWs(rest) == [] then Some(JArray(items)) else None
      case None => None
    else
      match ParseScalar(t)
      case Some((v, rest)) => if SkipWs(rest) == [] then Some(JScalar(v)) else None
      case None => None
  }

  // ---------------------------------------------------------------------------
  // JSON.stringify of an array of integers

  /** The elements of a JSON array, separated by commas, without brackets. */
  function JoinInts(xs: seq<int>): string
  {
    if xs == [] then ""
    else if |xs| == 1 then IntText(xs[0])
    else IntText(xs[0]) + "," + JoinInts(xs[1..])
  }

  /** `JSON.stringify(xs)` for an array of integers. */
  function Stringify(xs: seq<int>): (r: string)
    ensures |r| >= 2 && r[0] == '['
  {
    "[" + JoinInts(xs) + "]"
  }

  function Ints(xs: seq<int>): (r: seq<Scalar>)
    ensures |r| == |xs| && forall i :: 0 <= i < |xs| ==> r[i] == JInt(xs[i])
  {
    seq(|xs|, i requires 0 <= i < |xs| => JInt(xs[i]))
  }

  lemma ParseNatOfText(m: nat, rest: string)
    requires rest == [] || !IsDigit(rest[0])
    ensures ParseNat(NatText(m) + rest) == Some((m, rest))
  {
    var d := NatText(m);
    var t := d + rest;
    assert t[0] == d[0];
    if m != 0 {
      LeadingDigitsOfDigitsThen(d, rest);
      assert t[..|d|] == d;
      assert t[|d|..] == rest;
      NatTextValue(m);
    } else {
      assert t[1..] == rest;
    }
  }

  lemma ParseIntOfText(n: int, rest: string)
    requires rest == [] || !IsDigit(rest[0])
    ensures ParseInt(IntText(n) + rest) == Some((n, rest))
  {
    if n < 0 {
      ParseIntOfNegative(-n, rest);
    } else {
      ParseIntOfNat(n, rest);
    }
  }

  lemma ParseIntOfNat(m: nat, rest: string)
    requires rest == [] || !IsDigit(rest[0])
    ensures ParseInt(NatText(m) + rest) == Some((m, rest))
  {
    var s := NatText(m) + rest;
    assert s[0] == NatText(m)[0];
    assert IsDigit(s[0]);
    ParseNatOfText(m, rest);
  }

  lemma ParseIntOfNegative(m: nat, rest: string)
    requires m > 0
    requires rest == [] || !IsDigit(rest[0])
    ensures ParseInt("-" + NatText(m) + rest) == Some((-(m as int), rest))
  {
    var s := "-" + NatText(m) + rest;
    assert s[0] == '-';
    assert s[1..] == NatText(m) + rest;
    ParseNatOfText(m, rest);
  }

  lemma ParseScalarOfInt(n: int, rest: string)
    requires rest == [] || !IsDigit(rest[0])
    ensures ParseScalar(IntText(n) + rest) == Some((JInt(n), rest))
  {
    var s := IntText(n) + rest;
    assert s[0] == IntText(n)[0];
    assert s[0] == '-' || IsDigit(s[0]);
    if |s| >= 4 {
      assert s[..4][0] == s[0];
    }
    if |s| >= 5 {
      assert s[..5][0] == s[0];
    }
    ParseIntOfText(n, rest);
  }

  /** The first element of a joined list is the text of the first integer. */
  lemma JoinIntsHead(xs: seq<int>)
    requires |xs| >= 1
    ensures |JoinInts(xs)| > 0 && JoinInts(xs)[0] == IntText(xs[0])[0]
  {
    if |xs| > 1 {
      assert JoinInts(xs) == IntText(xs[0]) + "," + JoinInts(xs[1..]);
    }
  }

  lemma ParseElementsLast(s: string, v: Scalar, rest: string)
    requires ParseScalar(s) == Some((v, "]" + rest))
    ensures ParseElements(s) == Some(([v], rest))
  {
    assert SkipWs("]" + rest) == "]" + rest;
    assert ("]" + rest)[1..] == rest;
  }

  lemma ParseElementsMore(s: string, v: Scalar, tail: string, vs: seq<Scalar>, rest: string)
    requires ParseScalar(s) == Some((v, "," + tail))
    requires tail != [] && !IsWs(tail[0])
    requires ParseElements(tail) == Some((vs, rest))
    ensures ParseElements(s) == Some(([v] + vs, rest))
  {
    var t := SkipWs("," + tail);
    assert t == "," + tail;
    assert t[1..] == tail;
    assert SkipWs(t[1..]) == tail;
    assert |t| > 0 && t[0] != ']' && t[0] == ',';
  }

  lemma {:induction false} ParseElementsOfJoin(xs: seq<int>, rest: string)
    requires |xs| >= 1
    ensures ParseElements(JoinInts(xs) + "]" + rest) == Some((Ints(xs), rest))
    decreases |xs|
  {
    if |xs| == 1 {
      ParseElementsOfSingle(xs[0], rest);
      assert Ints(xs) == [JInt(xs[0])];
    } else {
      ParseElementsOfJoin(xs[1..], rest);
      ParseElementsOfCons(xs, rest);
    }
  }

  lemma ParseElementsOfSingle(x: int, rest: string)
    ensures ParseElements(JoinInts([x]) + "]" + rest) == Some(([JInt(x)], rest))
  {
    var head := IntText(x);
    assert JoinInts([x]) + "]" + rest == head + ("]" + rest);
    ParseScalarOfInt(x, "]" + rest);
    ParseElementsLast(head + ("]" + rest), JInt(x), rest);
  }

  lemma ParseElementsOfCons(xs: seq<int>, rest: string)
    requires |xs| >= 2
    requires ParseElements(JoinInts(xs[1..]) + "]" + rest) == Some((Ints(xs[1..]), rest))
    ensures ParseElements(JoinInts(xs) + "]" + rest) == Some((Ints(xs), rest))
  {
    var tail := JoinInts(xs[1..]) + "]" + rest;
    HeadOfJoin(xs, rest);
    TailOfJoin(xs[1..], rest);
    IntsCons(xs);
    ParseElementsMore(JoinInts(xs) + "]" + rest, JInt(xs[0]), tail, Ints(xs[1..]), rest);
  }

  lemma IntsCons(xs: seq<int>)
    requires |xs| >= 1
    ensures Ints(xs) == [JInt(xs[0])] + Ints(xs[1..])
  {
  }

  /** The first integer of a joined list of two or more parses up to the comma that ends it. */
  lemma HeadOfJoin(xs: seq<int>, rest: string)
    requires |xs| >= 2
    ensures ParseScalar(JoinInts(xs) + "]" + rest) == Some((JInt(xs[0]), "," + (JoinInts(xs[1..]) + "]" + rest)))
  {
    var tail := JoinInts(xs[1..]) + "]" + rest;
    JoinConsText(xs, rest);
    assert ("," + tail)[0] == ',';
    ParseScalarOfInt(xs[0], "," + tail);
  }

  /** A joined list followed by the closing bracket starts with a sign or a digit, not whitespace. */
  lemma TailOfJoin(xs: seq<int>, rest: string)
    requires |xs| >= 1
    ensures var tail := JoinInts(xs) + "]" + rest; tail != [] && !IsWs(tail[0])
  {
    var j := JoinInts(xs);
    JoinIntsHead(xs);
    assert (j + "]" + rest)[0] == j[0] == IntText(xs[0])[0];
  }

  lemma JoinConsText(xs: seq<int>, rest: string)
    requires |xs| >= 2
    ensures JoinInts(xs) + "]" + rest == IntText(xs[0]) + ("," + (JoinInts(xs[1..]) + "]" + rest))
  {
    assert JoinInts(xs) == IntText(xs[0]) + "," + JoinInts(xs[1..]);
    ConcatShape(IntText(xs[0]), JoinInts(xs[1..]), rest);
  }

  lemma ConcatShape(a: string, b: string, rest: string)
    ensures a + "," + b + "]" + rest == a + ("," + (b + "]" + rest))
  {
  }

  /**
   * What the allocator stores is what a later read gets back: parsing the
   * text `JSON.stringify` writes for an integer array yields that array.
   */
  lemma ParseStringify(xs: seq<int>)
    ensures Parse(Stringify(xs)) == Some(JArray(Ints(xs)))
  {
    var s := Stringify(xs);
    var body := JoinInts(xs) + "]";
    assert SkipWs(s) == s;
    assert s[1..] == body;
    if xs == [] {
      assert body == "]";
      assert ParseArray(body) == Some(([], ""));
    } else {
      JoinIntsHead(xs);
      assert SkipWs(body) == body;
      assert body == JoinInts(xs) + "]" + "";
      ParseElementsOfJoin(xs, "");
      assert ParseArray(body) == Some((Ints(xs), ""));
    }
  }

  // ---------------------------------------------------------------------------
  // Number() on text and String.split

  function TrimStart(s: string): (r: string)
    ensures |r| <= |s|
    ensures r == [] || !IsJsSpace(r[0])
  {
    if |s| > 0 && IsJsSpace(s[0]) then TrimStart(s[1..]) else s
  }

  function TrimEnd(s: string): (r: string)
    ensures r <= s
    ensures r == [] || !IsJsSpace(r[|r| - 1])
  {
    if |s| > 0 && IsJsSpace(s[|s| - 1]) then TrimEnd(s[..|s| - 1]) else s
  }

  /** `s.trim()`: JavaScript whitespace removed at both ends. */
  function Trim(s: string): (r: string)
    ensures r == [] || (!IsJsSpace(r[0]) && !IsJsSpace(r[|r| - 1]))
  {
    TrimEnd(TrimStart(s))
  }

  /**
   * `Number(s)` for text: surrounding whitespace is ignored, the empty text
   * is 0, an optionally signed run of decimal digits is its value, and any
   * other text is NaN.
   */
  function NumberOfText(s: string): Number
  {
    var t := Trim(s);
    if t == [] then Num(0)
    else
      var body := if t[0] == '-' || t[0] == '+' then t[1..] else t;
      if body != [] && AllDigits(body) then
        var v: int := DigitsValue(body);
        Num(if t[0] == '-' then -v else v)
      else NaN
  }

  /** `Number()` reads the decimal text of any integer back as that integer. */
  lemma NumberOfIntText(n: int)
    ensures NumberOfText(IntText(n)) == Num(n)
  {
    if n < 0 {
      var ds := NatText(-n);
      assert IntText(n) == "-" + ds;
      NatTextValue(-n);
      NumberOfNegativeText(ds);
    } else {
      NatTextValue(n);
      NumberOfDigitText(NatText(n));
    }
  }

  /** A run of digits reads as its value. */
  lemma NumberOfDigitText(ds: string)
    requires ds != [] && AllDigits(ds)
    ensures NumberOfText(ds) == Num(DigitsValue(ds))
  {
    TrimOfDigitsText(ds);
  }

  /** A minus sign before a run of digits reads as the negated value. */
  lemma NumberOfNegativeText(ds: string)
    requires ds != [] && AllDigits(ds)
    ensures NumberOfText("-" + ds) == Num(-(DigitsValue(ds) as int))
  {
    var t := "-" + ds;
    TrimOfDigitsText(t);
    assert t[0] == '-' && t[1..] == ds;
  }

  /** Text that starts with a sign or a digit and ends with a digit is its own trim. */
  lemma TrimOfDigitsText(t: string)
    requires t != [] && (t[0] == '-' || IsDigit(t[0])) && IsDigit(t[|t| - 1])
    ensures Trim(t) == t
  {
    assert !IsJsSpace(t[0]);
    assert TrimStart(t) == t;
    assert !IsJsSpace(t[|t| - 1]);
  }

  /** `Number(v)` for a parsed JSON scalar: true is 1, false and null are 0. */
  function NumberOfScalar(v: Scalar): Number
  {
    match v
    case JInt(n) => Num(n)
    case JTrue => Num(1)
    case JFalse => Num(0)
    case JNull => Num(0)
  }

  /** `s.split(sep)`: the pieces between separators, empty pieces included. */
  function Split(s: string, sep: char): (r: seq<string>)
    ensures |r| >= 1
    ensures forall i :: 0 <= i < |r| ==> sep !in r[i]
  {
    if s == [] then [""]
    else
      var rest := Split(s[1..], sep);
      if s[0] == sep then [""] + rest else [[s[0]] + rest[0]] + rest[1..]
  }
}
