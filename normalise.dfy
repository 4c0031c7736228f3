/** The two string cleansers every lookup key goes through: the device
    cleanser (lower case, punctuation and spaces out, printable ASCII only)
    and the lighter extras cleanser (lower case, spaces out, printable ASCII
    only). Each is written as the source's chain of steps and proved equal to
    a one-pass reference definition. */
module Normalise {
  import opened RubyValues

  /** The device filter class: space _ \ # - , . / : " ' */
  predicate IsDeviceFilterChar(c: char)
  {
    c == ' ' || c == '_' || c == '\\' || c == '#' || c == '-' || c == ',' ||
    c == '.' || c == '/' || c == ':' || c == '"' || c == '\''
  }

  /** The class \x20-\x7F that both cleansers keep. */
  predicate IsPrintable(c: char) { 0x20 <= c as int <= 0x7F }

  function DropDeviceFilter(s: string): (r: string)
    ensures |r| <= |s|
  {
    if s == [] then []
    else (if IsDeviceFilterChar(s[0]) then [] else [s[0]]) + DropDeviceFilter(s[1..])
  }

  function DropSpaces(s: string): (r: string)
    ensures |r| <= |s|
  {
    if s == [] then []
    else (if s[0] == ' ' then [] else [s[0]]) + DropSpaces(s[1..])
  }

  function DropUnprintable(s: string): (r: string)
    ensures |r| <= |s|
  {
    if s == [] then []
    else (if IsPrintable(s[0]) then [s[0]] else []) + DropUnprintable(s[1..])
  }

  /** clean_str: downcase, drop the device filter class, drop everything
      outside \x20-\x7F, strip. */
  function CleanStr(s: string): (r: string)
    ensures r == CleanRef(s)
  {
    CleanStepsOnePass(s);
    var t := DropUnprintable(DropDeviceFilter(Downcase(s)));
    StripNoOp(t);
    Strip(t)
  }

  /** extra_clean_str: downcase, drop spaces, drop everything outside
      \x20-\x7F, strip. */
  function ExtraCleanStr(s: string): (r: string)
    ensures r == ExtraRef(s)
  {
    ExtraStepsOnePass(s);
    var t := DropUnprintable(DropSpaces(Downcase(s)));
    StripNoOp(t);
    Strip(t)
  }

  // ------------------------------------------------- one-pass reference

  /** What a device-cleaned key may contain. */
  predicate DeviceKeeps(c: char) { IsPrintable(c) && !IsDeviceFilterChar(c) && !IsUpper(c) }

  /** What an extras-cleaned key may contain. */
  predicate ExtraKeeps(c: char) { IsPrintable(c) && c != ' ' && !IsUpper(c) }

  /** The lower-cased characters of s that a device key may contain, in order. */
  function CleanRef(s: string): (r: string)
    ensures forall i :: 0 <= i < |r| ==> DeviceKeeps(r[i])
  {
    if s == [] then []
    else (if DeviceKeeps(ToLower(s[0])) then [ToLower(s[0])] else []) + CleanRef(s[1..])
  }

  /** The lower-cased characters of s that an extras key may contain, in order. */
  function ExtraRef(s: string): (r: string)
    ensures forall i :: 0 <= i < |r| ==> ExtraKeeps(r[i])
  {
    if s == [] then []
    else (if ExtraKeeps(ToLower(s[0])) then [ToLower(s[0])] else []) + ExtraRef(s[1..])
  }

  lemma DowncaseTail(s: string)
    requires s != []
    ensures Downcase(s)[0] == ToLower(s[0]) && Downcase(s)[1..] == Downcase(s[1..])
  {
  }

  lemma {:induction false} CleanStepsOnePass(s: string)
    ensures DropUnprintable(DropDeviceFilter(Downcase(s))) == CleanRef(s)
  {
    if s != [] {
      DowncaseTail(s);
      CleanStepsOnePass(s[1..]);
      var d := Downcase(s);
      DropUnprintableAppend(if IsDeviceFilterChar(d[0]) then [] else [d[0]], DropDeviceFilter(d[1..]));
    }
  }

  lemma {:induction false} ExtraStepsOnePass(s: string)
    ensures DropUnprintable(DropSpaces(Downcase(s))) == ExtraRef(s)
  {
    if s != [] {
      DowncaseTail(s);
      ExtraStepsOnePass(s[1..]);
      var d := Downcase(s);
      DropUnprintableAppend(if d[0] == ' ' then [] else [d[0]], DropSpaces(d[1..]));
    }
  }

  lemma {:induction false} DropUnprintableAppend(a: string, b: string)
    ensures DropUnprintable(a + b) == DropUnprintable(a) + DropUnprintable(b)
  {
    if a != [] {
      DropUnprintableAppend(a[1..], b);
      assert (a + b)[1..] == a[1..] + b;
    } else {
      assert a + b == b;
    }
  }

  /** Strip leaves a string alone when no character of it is whitespace or NUL. */
  lemma StripNoOp(s: string)
    requires forall i :: 0 <= i < |s| ==> IsPrintable(s[i]) && s[i] != ' '
    ensures Strip(s) == s
  {
  }

  // ---------------------------------------------------------- properties

  /** A string made only of characters a device key may contain is its own
      cleaned form. */
  lemma {:induction false} CleanRefFixed(s: string)
    requires forall i :: 0 <= i < |s| ==> DeviceKeeps(s[i])
    ensures CleanRef(s) == s
  {
    if s != [] {
      CleanRefFixed(s[1..]);
      assert s == [s[0]] + s[1..];
    }
  }

  lemma {:induction false} ExtraRefFixed(s: string)
    requires forall i :: 0 <= i < |s| ==> ExtraKeeps(s[i])
    ensures ExtraRef(s) == s
  {
    if s != [] {
      ExtraRefFixed(s[1..]);
      assert s == [s[0]] + s[1..];
    }
  }

  /** Cleaning twice is cleaning once. */
  lemma CleanStrIdempotent(s: string)
    ensures CleanStr(CleanStr(s)) == CleanStr(s)
  {
    CleanRefFixed(CleanRef(s));
  }

  lemma ExtraCleanStrIdempotent(s: string)
    ensures ExtraCleanStr(ExtraCleanStr(s)) == ExtraCleanStr(s)
  {
    ExtraRefFixed(ExtraRef(s));
  }

  /** The device cleanser removes everything the extras cleanser removes and
      more: cleaning an extras key for devices gives the device key. */
  lemma CleanAfterExtraClean(s: string)
    ensures CleanStr(ExtraCleanStr(s)) == CleanStr(s)
  {
    CleanRefOfExtraRef(s);
  }

  lemma {:induction false} CleanRefOfExtraRef(s: string)
    ensures CleanRef(ExtraRef(s)) == CleanRef(s)
  {
    if s != [] {
      CleanRefOfExtraRef(s[1..]);
      var c := ToLower(s[0]);
      var e := ExtraRef(s[1..]);
      if ExtraKeeps(c) {
        assert ExtraRef(s) == [c] + e;
        assert ([c] + e)[0] == c && ([c] + e)[1..] == e;
        assert ToLower(c) == c;
        assert CleanRef([c] + e) == (if DeviceKeeps(c) then [c] else []) + CleanRef(e);
      } else {
        assert ExtraRef(s) == e;
      }
    }
  }

  /** Every character that survives the device cleanser is kept as often as
      it occurs (lower-cased) in the input; every other character is gone. */
  lemma {:induction false} CleanStrCounts(s: string, c: char)
    ensures multiset(CleanStr(s))[c] == if DeviceKeeps(c) then multiset(Downcase(s))[c] else 0
  {
    if s != [] {
      CleanStrCounts(s[1..], c);
      DowncaseTail(s);
      var d := Downcase(s);
      assert d == [d[0]] + d[1..];
      assert CleanRef(s) == (if DeviceKeeps(d[0]) then [d[0]] else []) + CleanRef(s[1..]);
    } else {
      assert Downcase(s) == [];
    }
  }

  /** The same for the extras cleanser, which keeps the punctuation the
      device cleanser drops (hyphens, dots, semicolons, brackets). */
  lemma {:induction false} ExtraCleanStrCounts(s: string, c: char)
    ensures multiset(ExtraCleanStr(s))[c] == if ExtraKeeps(c) then multiset(Downcase(s))[c] else 0
  {
    if s != [] {
      ExtraCleanStrCounts(s[1..], c);
      DowncaseTail(s);
      var d := Downcase(s);
      assert d == [d[0]] + d[1..];
      assert ExtraRef(s) == (if ExtraKeeps(d[0]) then [d[0]] else []) + ExtraRef(s[1..]);
    } else {
      assert Downcase(s) == [];
    }
  }
}
