/** Platform version numbers: splitting a version into major, minor and
    point release, comparing two release parts (numerically when both are
    integers, as text otherwise) and comparing two whole versions. */
module PlatformVersion {
  import opened RubyValues

  datatype Parts = Parts(major: string, minor: string, point: string)

  function OrZero(part: string): string { if BlankStr(part) then "0" else part }

  /** A part as it comes out of the split: a field free of dots that is
      not blank. */
  predicate IsPart(p: string) { !BlankStr(p) && '.' !in p }

  /** break_version_apart: the first three dot-separated fields of the
      version padded with ".0.0.0", a blank field read as "0". */
  function BreakVersionApart(v: string): (r: Parts)
    ensures IsPart(r.major) && IsPart(r.minor) && IsPart(r.point)
  {
    var padded := v + ".0.0.0";
    FieldsCount(padded, '.');
    FieldsNoSep(padded, '.');
    assert multiset(padded)['.'] >= 3 by {
      assert padded == v + "." + "0" + "." + "0" + "." + "0";
    }
    var tmp := Fields(padded, '.');
    assert IsPart("0") by { assert !IsSpace("0"[0]); }
    Parts(OrZero(tmp[0]), OrZero(tmp[1]), OrZero(tmp[2]))
  }

  /** compare_smartly: the difference when Integer() accepts both, String#<=>
      otherwise. */
  function CompareSmartly(a: string, b: string): int
  {
    match (ParseInteger(a), ParseInteger(b))
    case (Some(x), Some(y)) => x - y
    case _ => StrCmp(a, b)
  }

  /** compare_platform_versions: 0 when either is blank, otherwise the first
      non-zero comparison of major, minor and point release. */
  function ComparePlatformVersions(va: string, vb: string): int
  {
    if BlankStr(va) || BlankStr(vb) then 0
    else
      var a := BreakVersionApart(va);
      var b := BreakVersionApart(vb);
      var major := CompareSmartly(a.major, b.major);
      var minor := CompareSmartly(a.minor, b.minor);
      var point := CompareSmartly(a.point, b.point);
      if major != 0 then major
      else if minor != 0 then minor
      else point
  }

  // ---------------------------------------------------------- properties

  /** A dotted version of three parts splits back into those parts. */
  lemma BreakThreeParts(a: string, b: string, c: string)
    requires IsPart(a) && IsPart(b) && IsPart(c)
    ensures BreakVersionApart(a + "." + b + "." + c) == Parts(a, b, c)
  {
    var padded := a + "." + b + "." + c + ".0.0.0";
    FieldsOfJoin([a, b, c, "0", "0", "0"], '.');
    JoinZeros();
    JoinCons(c, ["0", "0", "0"], ".");
    JoinCons(b, [c, "0", "0", "0"], ".");
    JoinCons(a, [b, c, "0", "0", "0"], ".");
    assert Join([a, b, c, "0", "0", "0"], ".") == padded;
  }

  lemma JoinZeros()
    ensures Join(["0", "0", "0"], ".") == "0.0.0"
  {
    JoinCons("0", ["0"], ".");
    JoinCons("0", ["0", "0"], ".");
  }

  /** Missing minor and point releases read as "0". */
  lemma BreakMajorOnly(a: string)
    requires IsPart(a)
    ensures BreakVersionApart(a) == Parts(a, "0", "0")
  {
    FieldsOfJoin([a, "0", "0", "0"], '.');
    JoinZeros();
    JoinCons(a, ["0", "0", "0"], ".");
    assert Join([a, "0", "0", "0"], ".") == a + ".0.0.0";
  }

  lemma BreakTwoParts(a: string, b: string)
    requires IsPart(a) && IsPart(b)
    ensures BreakVersionApart(a + "." + b) == Parts(a, b, "0")
  {
    FieldsOfJoin([a, b, "0", "0", "0"], '.');
    JoinZeros();
    JoinCons(b, ["0", "0", "0"], ".");
    JoinCons(a, [b, "0", "0", "0"], ".");
    assert Join([a, b, "0", "0", "0"], ".") == a + "." + b + ".0.0.0";
  }

  /** Swapping the arguments negates the comparison of parts. */
  lemma CompareSmartlyAntisymmetric(a: string, b: string)
    ensures CompareSmartly(a, b) == -CompareSmartly(b, a)
    ensures CompareSmartly(a, a) == 0
  {
    StrCmpAntisymmetric(a, b);
    StrCmpReflexive(a);
  }

  /** Swapping the arguments negates the comparison of versions, and every
      version compares equal to itself. */
  lemma ComparePlatformVersionsAntisymmetric(va: string, vb: string)
    ensures ComparePlatformVersions(va, vb) == -ComparePlatformVersions(vb, va)
    ensures ComparePlatformVersions(va, va) == 0
  {
    var a := BreakVersionApart(va);
    var b := BreakVersionApart(vb);
    CompareSmartlyAntisymmetric(a.major, b.major);
    CompareSmartlyAntisymmetric(a.minor, b.minor);
    CompareSmartlyAntisymmetric(a.point, b.point);
  }

  /** Versions compare by their first differing release part. */
  lemma ComparePlatformVersionsLexicographic(a: Parts, b: Parts)
    requires IsPart(a.major) && IsPart(a.minor) && IsPart(a.point)
    requires IsPart(b.major) && IsPart(b.minor) && IsPart(b.point)
    ensures var c := ComparePlatformVersions(a.major + "." + a.minor + "." + a.point,
                                             b.major + "." + b.minor + "." + b.point);
            (CompareSmartly(a.major, b.major) != 0 ==> c == CompareSmartly(a.major, b.major)) &&
            (CompareSmartly(a.major, b.major) == 0 && CompareSmartly(a.minor, b.minor) != 0 ==>
               c == CompareSmartly(a.minor, b.minor)) &&
            (CompareSmartly(a.major, b.major) == 0 && CompareSmartly(a.minor, b.minor) == 0 ==>
               c == CompareSmartly(a.point, b.point))
  {
    BreakThreeParts(a.major, a.minor, a.point);
    BreakThreeParts(b.major, b.minor, b.point);
    assert !BlankStr(a.major + "." + a.minor + "." + a.point) by {
      assert (a.major + "." + a.minor + "." + a.point)[|a.major|] == '.';
    }
    assert !BlankStr(b.major + "." + b.minor + "." + b.point) by {
      assert (b.major + "." + b.minor + "." + b.point)[|b.major|] == '.';
    }
  }

  /** The order is not transitive once a part is not an integer:
      "2" < "10" numerically, "10" < "1a" and "1a" < "2" as text. */
  lemma ComparePlatformVersionsNotTransitive()
    ensures ComparePlatformVersions("2", "10") < 0
    ensures ComparePlatformVersions("10", "1a") < 0
    ensures ComparePlatformVersions("1a", "2") < 0
  {
    assert !IsSpace("10"[0]) && !IsSpace("1a"[0]) && !IsSpace("2"[0]);
    BreakMajorOnly("2");
    BreakMajorOnly("10");
    BreakMajorOnly("1a");
    assert DigitsValue("10") == 10 by { assert "10"[..1] == "1"; }
    assert !AllDigits("1a") by { assert !IsDigit("1a"[1]); }
    assert TrimSpace("1a") == "1a";
  }

  lemma DigitPart(p: string, n: nat)
    requires p == NatToStr(n)
    ensures IsPart(p) && ParseInteger(p) == Some(n)
  {
    ParseIntegerOfIntToStr(n);
    assert !IsSpace(p[0]);
    assert '.' !in p by { assert AllDigits(p); }
  }

  /** Release parts compare as numbers, not as text. */
  lemma MinorReleaseOrder()
    ensures ComparePlatformVersions("9.0.1", "9.1") <= -1
    ensures ComparePlatformVersions("9.1", "9.0.1") >= 1
  {
    DigitPart("9", 9); DigitPart("0", 0); DigitPart("1", 1);
    BreakThreeParts("9", "0", "1");
    assert "9" + "." + "0" + "." + "1" == "9.0.1";
    var a := BreakVersionApart("9.0.1");
    assert a == Parts("9", "0", "1");
    BreakTwoParts("9", "1");
    assert "9" + "." + "1" == "9.1";
    var b := BreakVersionApart("9.1");
    assert b == Parts("9", "1", "0");
    assert CompareSmartly("9", "9") == 0;
    assert CompareSmartly("0", "1") == -1;
    assert !IsSpace("9.1"[0]) && !IsSpace("9.0.1"[0]);
    CompareSmartlyAntisymmetric("0", "1");
  }

  lemma PointReleaseOrder()
    ensures ComparePlatformVersions("4.2.1", "4.2.12") <= -1
  {
    DigitPart("4", 4); DigitPart("2", 2); DigitPart("1", 1); DigitPart("12", 12);
    BreakThreeParts("4", "2", "1");
    assert "4" + "." + "2" + "." + "1" == "4.2.1";
    assert BreakVersionApart("4.2.1") == Parts("4", "2", "1");
    BreakThreeParts("4", "2", "12");
    assert "4" + "." + "2" + "." + "12" == "4.2.12";
    assert BreakVersionApart("4.2.12") == Parts("4", "2", "12");
    assert CompareSmartly("4", "4") == 0;
    assert CompareSmartly("2", "2") == 0;
    assert CompareSmartly("1", "12") == -11;
    assert !IsSpace("4.2.1"[0]) && !IsSpace("4.2.12"[0]);
  }

  lemma MajorReleaseOrder()
    ensures ComparePlatformVersions("4.0.21", "40.21") <= -1
  {
    BreakFourZeroTwentyOne();
    BreakFortyTwentyOne();
    DigitPart("4", 4); DigitPart("40", 40);
    assert CompareSmartly("4", "40") == -36;
    assert !IsSpace("4.0.21"[0]) && !IsSpace("40.21"[0]);
  }

  lemma BreakFourZeroTwentyOne()
    ensures BreakVersionApart("4.0.21") == Parts("4", "0", "21")
  {
    DigitPart("4", 4); DigitPart("0", 0); DigitPart("21", 21);
    BreakThreeParts("4", "0", "21");
    assert "4" + "." + "0" + "." + "21" == "4.0.21";
  }

  lemma BreakFortyTwentyOne()
    ensures BreakVersionApart("40.21") == Parts("40", "21", "0")
  {
    DigitPart("21", 21); DigitPart("40", 40);
    BreakTwoParts("40", "21");
    assert "40" + "." + "21" == "40.21";
  }

  lemma WholeNumberVersionOrder()
    ensures ComparePlatformVersions("4.1.1", "411") <= -1
    ensures ComparePlatformVersions("411", "4.1.1") >= 1
  {
    DigitPart("4", 4); DigitPart("1", 1); DigitPart("411", 411);
    BreakThreeParts("4", "1", "1");
    assert "4" + "." + "1" + "." + "1" == "4.1.1";
    assert BreakVersionApart("4.1.1") == Parts("4", "1", "1");
    BreakMajorOnly("411");
    assert CompareSmartly("4", "411") == -407;
    CompareSmartlyAntisymmetric("4", "411");
    assert !IsSpace("4.1.1"[0]) && !IsSpace("411"[0]);
  }
}
