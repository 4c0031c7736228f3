/** Ruby's dynamically typed values and the handful of String methods the
    detector relies on (downcase, strip, split, to_i, <=>, include?, blank?),
    restricted to ASCII text. */
module RubyValues {

  datatype Option<+T> = None | Some(value: T)

  /** The result of a Ruby call that may raise: its value, or the
      exception (NoMethodError, ArgumentError, TypeError). */
  datatype Outcome<+T> = Done(value: T) | Raised

  /** A value held in a rule-database record or a hash: nil, a boolean, an
      integer, a string or an array. */
  datatype Val = VNil | VBool(b: bool) | VInt(i: int) | VStr(s: string) | VList(items: seq<Val>)

  // ---------------------------------------------------------------- characters

  /** POSIX [[:space:]] on ASCII: tab, line feed, vertical tab, form feed,
      carriage return and space. */
  predicate IsSpace(c: char) { c == ' ' || 9 <= c as int <= 13 }

  /** What String#strip removes at either end: whitespace and NUL. */
  predicate IsStripChar(c: char) { IsSpace(c) || c as int == 0 }

  predicate IsUpper(c: char) { 'A' <= c <= 'Z' }

  predicate IsLower(c: char) { 'a' <= c <= 'z' }

  predicate IsDigit(c: char) { '0' <= c <= '9' }

  function ToLower(c: char): char { if IsUpper(c) then (c as int + 32) as char else c }

  function ToUpper(c: char): char { if IsLower(c) then (c as int - 32) as char else c }

  // ------------------------------------------------------------------- strings

  /** String#downcase on ASCII text. */
  function Downcase(s: string): (r: string)
    ensures |r| == |s|
    ensures forall i :: 0 <= i < |s| ==> r[i] == ToLower(s[i])
  {
    seq(|s|, i requires 0 <= i < |s| => ToLower(s[i]))
  }

  /** String#capitalize on ASCII text: first character up, the rest down. */
  function Capitalize(s: string): (r: string)
    ensures |r| == |s|
  {
    if s == [] then [] else [ToUpper(s[0])] + Downcase(s[1..])
  }

  function LStrip(s: string): (r: string)
    ensures |r| <= |s|
  {
    if s != [] && IsStripChar(s[0]) then LStrip(s[1..]) else s
  }

  function RStrip(s: string): (r: string)
    ensures |r| <= |s|
  {
    if s != [] && IsStripChar(s[|s| - 1]) then RStrip(s[..|s| - 1]) else s
  }

  /** String#strip. */
  function Strip(s: string): string { RStrip(LStrip(s)) }

  /** ActiveSupport's String#blank?: empty or whitespace only. */
  predicate BlankStr(s: string) { forall i :: 0 <= i < |s| ==> IsSpace(s[i]) }

  /** ActiveSupport's Object#blank?: nil, false, empty or whitespace-only
      strings and empty arrays are blank; every integer, 0 included, is not. */
  predicate Blank(v: Val)
  {
    match v
    case VNil => true
    case VBool(b) => !b
    case VInt(_) => false
    case VStr(s) => BlankStr(s)
    case VList(items) => |items| == 0
  }

  /** Ruby truthiness: everything except nil and false. */
  predicate Truthy(v: Val) { v != VNil && v != VBool(false) }

  /** String#include?. */
  predicate Contains(s: string, sub: string)
  {
    exists i :: 0 <= i <= |s| && sub <= s[i..]
  }

  predicate StartsWith(s: string, prefix: string) { prefix <= s }

  /** String#<=> : byte-wise lexicographic order, -1, 0 or 1. */
  function StrCmp(a: string, b: string): int
  {
    if a == [] && b == [] then 0
    else if a == [] then -1
    else if b == [] then 1
    else if a[0] < b[0] then -1
    else if a[0] > b[0] then 1
    else StrCmp(a[1..], b[1..])
  }

  function Join(parts: seq<string>, sep: string): string
  {
    if parts == [] then ""
    else if |parts| == 1 then parts[0]
    else parts[0] + sep + Join(parts[1..], sep)
  }

  /** All fields of s separated by sep, empty ones included: n separators
      give n + 1 fields. */
  function Fields(s: string, sep: char): (r: seq<string>)
    ensures |r| >= 1
  {
    if s == [] then [""]
    else if s[0] == sep then [""] + Fields(s[1..], sep)
    else
      var rest := Fields(s[1..], sep);
      [[s[0]] + rest[0]] + rest[1..]
  }

  function DropTrailingEmpty(fs: seq<string>): (r: seq<string>)
    ensures |r| <= |fs| && r == fs[..|r|]
    ensures r == [] || r[|r| - 1] != ""
  {
    if fs == [] then []
    else if fs[|fs| - 1] == "" then DropTrailingEmpty(fs[..|fs| - 1])
    else fs
  }

  /** String#split with a one-character separator and no limit: trailing
      empty fields are dropped, so "" splits into no field at all. */
  function Split(s: string, sep: char): seq<string>
  {
    DropTrailingEmpty(Fields(s, sep))
  }

  // ------------------------------------------------------------------- numbers

  function DigitChar(d: nat): char
    requires d < 10
  {
    ('0' as int + d) as char
  }

  function DigitValue(c: char): nat
    requires IsDigit(c)
  {
    c as int - '0' as int
  }

  predicate AllDigits(s: string) { forall i :: 0 <= i < |s| ==> IsDigit(s[i]) }

  /** The value of a string of decimal digits, read most significant first. */
  function DigitsValue(s: string): nat
    requires AllDigits(s)
  {
    if s == [] then 0 else DigitsValue(s[..|s| - 1]) * 10 + DigitValue(s[|s| - 1])
  }

  function NatToStr(n: nat): (r: string)
    ensures |r| >= 1 && AllDigits(r)
  {
    if n < 10 then [DigitChar(n)] else NatToStr(n / 10) + [DigitChar(n % 10)]
  }

  /** Integer#to_s. */
  function IntToStr(i: int): string
  {
    if i < 0 then "-" + NatToStr(-i) else NatToStr(i)
  }

  function LeadingDigits(s: string): (r: string)
    ensures AllDigits(r) && r <= s
  {
    if s != [] && IsDigit(s[0]) then [s[0]] + LeadingDigits(s[1..]) else []
  }

  function SkipSpace(s: string): string
  {
    if s != [] && IsSpace(s[0]) then SkipSpace(s[1..]) else s
  }

  /** String#to_i: leading whitespace, an optional sign, then the longest run
      of decimal digits; 0 when there is none. */
  function ToI(s: string): int
  {
    var t := SkipSpace(s);
    if t != [] && t[0] == '-' then 0 - DigitsValue(LeadingDigits(t[1..]))
    else if t != [] && t[0] == '+' then DigitsValue(LeadingDigits(t[1..]))
    else DigitsValue(LeadingDigits(t))
  }

  predicate IsOctal(c: char) { '0' <= c <= '7' }

  predicate AllOctal(s: string) { forall i :: 0 <= i < |s| ==> IsOctal(s[i]) }

  /** The value of a string of octal digits, read most significant first. */
  function OctalValue(s: string): nat
    requires AllOctal(s)
  {
    if s == [] then 0 else OctalValue(s[..|s| - 1]) * 8 + (s[|s| - 1] as int - '0' as int)
  }

  function TrimSpace(s: string): (r: string)
    ensures |r| <= |s|
  {
    if s != [] && IsSpace(s[0]) then TrimSpace(s[1..])
    else if s != [] && IsSpace(s[|s| - 1]) then TrimSpace(s[..|s| - 1])
    else s
  }

  /** An unsigned Integer() literal without radix prefix or underscores:
      decimal digits, read as octal when there is a leading zero. */
  function ParseUnsigned(d: string): Option<nat>
  {
    if d == [] || !AllDigits(d) then None
    else if |d| > 1 && d[0] == '0' then (if AllOctal(d[1..]) then Some(OctalValue(d[1..])) else None)
    else Some(DigitsValue(d))
  }

  /** Kernel#Integer on a string: surrounding whitespace, an optional sign
      and a literal as ParseUnsigned reads it; None where Ruby raises. */
  function ParseInteger(s: string): Option<int>
  {
    var t := TrimSpace(s);
    var signed := t != [] && (t[0] == '-' || t[0] == '+');
    match ParseUnsigned(if signed then t[1..] else t)
    case None => None
    case Some(n) => Some(if signed && t[0] == '-' then 0 - n else n)
  }

  // -------------------------------------------------------------- conversions

  /** Object#inspect. */
  function Inspect(v: Val): string
  {
    match v
    case VNil => "nil"
    case VBool(b) => if b then "true" else "false"
    case VInt(i) => IntToStr(i)
    case VStr(s) => "\"" + s + "\""
    case VList(items) => "[" + Join(seq(|items|, k requires 0 <= k < |items| => Inspect(items[k])), ", ") + "]"
  }

  /** Object#to_s. */
  function ToS(v: Val): string
  {
    match v
    case VNil => ""
    case VStr(s) => s
    case _ => Inspect(v)
  }

  /** Val#to_i, None where the value has no to_i (true, arrays). */
  function ValToI(v: Val): Option<int>
  {
    match v
    case VNil => Some(0)
    case VInt(i) => Some(i)
    case VStr(s) => Some(ToI(s))
    case _ => None
  }

  /** Val#<=> for the pairs that can be ordered: integers, strings, and equal
      values; None where Ruby's <=> gives nil and max/min raise. */
  function CompareVals(a: Val, b: Val): Option<int>
  {
    if a.VInt? && b.VInt? then Some(if a.i < b.i then -1 else if a.i > b.i then 1 else 0)
    else if a.VStr? && b.VStr? then Some(StrCmp(a.s, b.s))
    else if a == b then Some(0)
    else None
  }

  /** [a, b].max : the first maximum is kept. */
  function MaxOf(a: Val, b: Val): Option<Val>
  {
    match CompareVals(b, a)
    case None => None
    case Some(c) => Some(if c > 0 then b else a)
  }

  /** [a, b].min : the first minimum is kept. */
  function MinOf(a: Val, b: Val): Option<Val>
  {
    match CompareVals(b, a)
    case None => None
    case Some(c) => Some(if c < 0 then b else a)
  }

  // ------------------------------------------------------------------- lemmas

  lemma {:induction false} StrCmpReflexive(a: string)
    ensures StrCmp(a, a) == 0
  {
    if a != [] { StrCmpReflexive(a[1..]); }
  }

  lemma {:induction false} StrCmpAntisymmetric(a: string, b: string)
    ensures StrCmp(a, b) == -StrCmp(b, a)
    ensures StrCmp(a, b) == 0 <==> a == b
  {
    if a != [] && b != [] && a[0] == b[0] {
      StrCmpAntisymmetric(a[1..], b[1..]);
      assert a == [a[0]] + a[1..] && b == [b[0]] + b[1..];
    }
  }

  lemma {:induction false} DigitsValueOfNatToStr(n: nat)
    ensures DigitsValue(NatToStr(n)) == n
  {
    if n >= 10 {
      DigitsValueOfNatToStr(n / 10);
      var s := NatToStr(n);
      assert s[..|s| - 1] == NatToStr(n / 10);
    }
  }

  lemma {:induction false} LeadingDigitsOfDigits(s: string)
    requires AllDigits(s)
    ensures LeadingDigits(s) == s
  {
    if s != [] { LeadingDigitsOfDigits(s[1..]); }
  }

  /** Integer#to_s and String#to_i are inverse on integers. */
  lemma ToIOfIntToStr(i: int)
    ensures ToI(IntToStr(i)) == i
  {
    var n: nat := if i < 0 then -i else i;
    var d := NatToStr(n);
    LeadingDigitsOfDigits(d);
    DigitsValueOfNatToStr(n);
    assert SkipSpace(d) == d;
    if i < 0 {
      assert SkipSpace("-" + d) == "-" + d;
      assert ("-" + d)[1..] == d;
    }
  }

  lemma {:induction false} NatToStrNoLeadingZero(n: nat)
    ensures n >= 10 ==> NatToStr(n)[0] != '0'
    ensures n < 10 ==> |NatToStr(n)| == 1
  {
    if n >= 10 { NatToStrNoLeadingZero(n / 10); }
  }

  /** Integer() reads back what Integer#to_s writes, for every integer. */
  lemma ParseIntegerOfIntToStr(i: int)
    ensures ParseInteger(IntToStr(i)) == Some(i)
  {
    var n: nat := if i < 0 then -i else i;
    var d := NatToStr(n);
    NatToStrNoLeadingZero(n);
    DigitsValueOfNatToStr(n);
    assert TrimSpace(d) == d;
    if i < 0 {
      assert TrimSpace("-" + d) == "-" + d;
      assert ("-" + d)[1..] == d;
    }
  }

  lemma JoinCons(p: string, rest: seq<string>, sep: string)
    requires rest != []
    ensures Join([p] + rest, sep) == p + sep + Join(rest, sep)
  {
    assert ([p] + rest)[1..] == rest;
  }

  lemma {:induction false} FieldsCount(s: string, sep: char)
    ensures |Fields(s, sep)| == 1 + multiset(s)[sep]
  {
    if s != [] {
      FieldsCount(s[1..], sep);
      assert s == [s[0]] + s[1..];
    }
  }

  lemma {:induction false} FieldsNoSep(s: string, sep: char)
    ensures forall k :: 0 <= k < |Fields(s, sep)| ==> sep !in Fields(s, sep)[k]
  {
    if s != [] { FieldsNoSep(s[1..], sep); }
  }

  /** Splitting a join of separator-free fields gives the fields back. */
  lemma {:induction false} FieldsOfJoin(parts: seq<string>, sep: char)
    requires |parts| >= 1
    requires forall k :: 0 <= k < |parts| ==> sep !in parts[k]
    ensures Fields(Join(parts, [sep]), sep) == parts
  {
    FieldsOfSepFree(parts[0], [], sep);
    if |parts| > 1 {
      FieldsOfJoin(parts[1..], sep);
      FieldsOfSepFree(parts[0], Join(parts[1..], [sep]), sep);
      assert parts == [parts[0]] + parts[1..];
    }
  }

  /** A separator-free prefix joins the first field of what follows it. */
  lemma {:induction false} FieldsOfSepFree(p: string, rest: string, sep: char)
    requires sep !in p
    ensures Fields(p, sep) == [p]
    ensures Fields(p + [sep] + rest, sep) == [p] + Fields(rest, sep)
  {
    if p == [] {
      assert ([] + [sep] + rest)[1..] == rest;
    } else {
      FieldsOfSepFree(p[1..], rest, sep);
      assert (p + [sep] + rest)[1..] == p[1..] + [sep] + rest;
      assert p == [p[0]] + p[1..];
    }
  }
}
