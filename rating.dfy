/** Hardware information and the rating that settles contention between
    candidate devices: parsing the "w:h:r:b" string, scoring one candidate
    against it, and picking a best-ranked candidate. */
module Rating {
  import opened RubyValues
  import opened Records

  /** The hash info_string_to_hash returns when it is not empty: display
      width and height, pixel ratio in hundredths, benchmark. */
  datatype HwProps = HwProps(x: int, y: int, ratio: int, bench: int)

  // ------------------------------------------------------ info_string_to_hash

  /** The part of the hardware string that holds the fields: everything
      between the first and second '=' when there is an '=' (None, Ruby's
      empty hash, when that part is blank), the whole string otherwise. */
  function InfoBody(info: string): Option<string>
  {
    if '=' in info then
      var tmp := Split(info, '=');
      if |tmp| < 2 || BlankStr(tmp[1]) then None else Some(tmp[1])
    else Some(info)
  }

  /** info_string_to_hash: None for the empty hash. */
  function InfoStringToHash(info: string): Option<HwProps>
  {
    match InfoBody(info)
    case None => None
    case Some(body) =>
      var f := Split(body, ':');
      if |f| != 4 then None
      else Some(HwProps(ToI(Strip(f[0])), ToI(Strip(f[1])), ToI(Strip(f[2])), ToI(Strip(f[3]))))
  }

  /** The string a client writes for a set of hardware properties. */
  function InfoString(p: HwProps): string
  {
    Join([IntToStr(p.x), IntToStr(p.y), IntToStr(p.ratio), IntToStr(p.bench)], ":")
  }

  lemma IntToStrShape(i: int)
    ensures |IntToStr(i)| >= 1
    ensures forall k :: 0 <= k < |IntToStr(i)| ==> IsDigit(IntToStr(i)[k]) || (k == 0 && IntToStr(i)[k] == '-')
  {
  }

  lemma IntToStrStrip(i: int)
    ensures Strip(IntToStr(i)) == IntToStr(i)
    ensures ':' !in IntToStr(i) && '=' !in IntToStr(i)
  {
    IntToStrShape(i);
    var s := IntToStr(i);
    assert !IsStripChar(s[0]) && !IsStripChar(s[|s| - 1]);
  }

  lemma InfoFields(p: HwProps)
    ensures Split(InfoString(p), ':') == [IntToStr(p.x), IntToStr(p.y), IntToStr(p.ratio), IntToStr(p.bench)]
    ensures '=' !in InfoString(p)
  {
    var parts := [IntToStr(p.x), IntToStr(p.y), IntToStr(p.ratio), IntToStr(p.bench)];
    IntToStrStrip(p.x); IntToStrStrip(p.y); IntToStrStrip(p.ratio); IntToStrStrip(p.bench);
    FieldsOfJoin(parts, ':');
    IntToStrShape(p.bench);
    JoinCons(parts[2], parts[3..], ":");
    JoinCons(parts[1], parts[2..], ":");
    JoinCons(parts[0], parts[1..], ":");
    assert parts == [parts[0]] + parts[1..];
    assert parts[1..] == [parts[1]] + parts[2..];
    assert parts[2..] == [parts[2]] + parts[3..];
    assert InfoString(p) == parts[0] + ":" + parts[1] + ":" + parts[2] + ":" + parts[3];
  }

  /** A written hardware string is read back as the properties it holds. */
  lemma InfoStringRoundTrip(p: HwProps)
    ensures InfoStringToHash(InfoString(p)) == Some(p)
  {
    InfoFields(p);
    IntToStrStrip(p.x); IntToStrStrip(p.y); IntToStrStrip(p.ratio); IntToStrStrip(p.bench);
    ToIOfIntToStr(p.x); ToIOfIntToStr(p.y); ToIOfIntToStr(p.ratio); ToIOfIntToStr(p.bench);
  }

  /** The same string after a cookie or header name and '=' is read the
      same way. */
  lemma InfoStringNamedRoundTrip(name: string, p: HwProps)
    requires '=' !in name
    ensures InfoStringToHash(name + "=" + InfoString(p)) == Some(p)
  {
    InfoBodyNamed(name, p);
    InfoFields(p);
    InfoStringRoundTrip(p);
  }

  lemma InfoBodyNamed(name: string, p: HwProps)
    requires '=' !in name
    ensures InfoBody(name + "=" + InfoString(p)) == Some(InfoString(p))
  {
    InfoFields(p);
    IntToStrShape(p.x);
    var body := InfoString(p);
    var whole := name + "=" + body;
    assert whole == name + ['='] + body;
    FieldsOfSepFree(name, body, '=');
    FieldsOfSepFree(body, [], '=');
    assert body[0] == IntToStr(p.x)[0];
    assert Fields(whole, '=') == [name, body];
    assert '=' in whole by { assert whole[|name|] == '='; }
  }

  /** Fewer than three ':' can never give four fields. */
  lemma InfoNeedsThreeColons(info: string)
    requires '=' !in info && multiset(info)[':'] < 3
    ensures InfoStringToHash(info) == None
  {
    FieldsCount(info, ':');
  }

  // --------------------------------------------------------------- find_rating

  /** The rating hash of one candidate. */
  datatype Rating = Rating(resolution: int, pixelRatio: int, benchmark: int, score: int, possible: int,
                           distance: int)

  /** find_rating: nil for a record without specs, the rating, or an
      exception from a value Ruby cannot compare, split or convert. */
  datatype RatingOutcome = NoSpecs | Rated(rating: Rating) | RatingRaised

  function IntMax(a: int, b: int): int { if b > a then b else a }

  function IntMin(a: int, b: int): int { if b < a then b else a }

  /** Array#max over strings: the lexicographically greatest, "" (nil.to_i
      is 0, as "".to_i is) for no string. */
  function StrMax(s: seq<string>): string
  {
    if s == [] then ""
    else if |s| == 1 then s[0]
    else var m := StrMax(s[1..]); if StrCmp(m, s[0]) > 0 then m else s[0]
  }

  function StrMin(s: seq<string>): string
  {
    if s == [] then ""
    else if |s| == 1 then s[0]
    else var m := StrMin(s[1..]); if StrCmp(m, s[0]) < 0 then m else s[0]
  }

  /** The css screen sizes: a blank value is no size, a list is walked, a
      value of any other kind has no each (None). */
  function CssSizes(v: Val): Option<seq<Val>>
  {
    if Blank(v) then Some([])
    else match v
      case VList(items) => Some(items)
      case _ => None
  }

  /** The css size walk: true at the first "WxH" entry whose (textual)
      largest and smallest dimension equal the device's; None for an entry
      that is not a string. */
  function CssMatch(sizes: seq<Val>, pMax: int, pMin: int): Option<bool>
  {
    if sizes == [] then Some(false)
    else if !sizes[0].VStr? then None
    else
      var dims := Split(sizes[0].s, 'x');
      if ToI(StrMax(dims)) == pMax && ToI(StrMin(dims)) == pMin then Some(true)
      else CssMatch(sizes[1..], pMax, pMin)
  }

  /** Resolution: 40 when the largest and smallest stored dimension (compared
      before to_i, so strings compare as text) equal the props', or when a
      css size does; 0 otherwise. */
  function ResolutionScore(specs: Specs, p: HwProps): Option<int>
  {
    var pMax := IntMax(p.x, p.y);
    var pMin := IntMin(p.x, p.y);
    var sx := Lookup(specs, "display_x");
    var sy := Lookup(specs, "display_y");
    match (MaxOf(sx, sy), MinOf(sx, sy))
    case (Some(hi), Some(lo)) =>
      (match (ValToI(hi), ValToI(lo))
       case (Some(sMax), Some(sMin)) =>
         if pMax == sMax && pMin == sMin then Some(40)
         else
           (match CssSizes(Lookup(specs, "display_css_screen_sizes"))
            case None => None
            case Some(sizes) =>
              match CssMatch(sizes, pMax, pMin)
              case None => None
              case Some(hit) => Some(if hit then 40 else 0))
       case _ => None)
    case _ => None
  }

  /** The digit d of a string of digits, '0' past its end. */
  function DigitAt(s: string, k: nat): nat
    requires AllDigits(s)
  {
    if k < |s| then DigitValue(s[k]) else 0
  }

  /** String#to_f rounded to two decimals, in hundredths: sign, whole digits,
      and a fraction rounded half up on its third digit. */
  function DecimalHundredths(s: string): int
  {
    var t := SkipSpace(s);
    var negative := t != [] && t[0] == '-';
    var u := if t != [] && (t[0] == '-' || t[0] == '+') then t[1..] else t;
    var whole := LeadingDigits(u);
    var rest := u[|whole|..];
    var frac := if |rest| >= 2 && rest[0] == '.' && IsDigit(rest[1]) then LeadingDigits(rest[1..]) else "";
    var magnitude := DigitsValue(whole) * 100 + DigitAt(frac, 0) * 10 + DigitAt(frac, 1) +
                     (if DigitAt(frac, 2) >= 5 then 1 else 0);
    if negative then 0 - magnitude else magnitude
  }

  /** A stored pixel ratio .to_f.round(2) in hundredths; None where the value
      has no to_f. */
  function SpecHundredths(v: Val): Option<int>
  {
    match v
    case VNil => Some(0)
    case VInt(i) => Some(100 * i)
    case VStr(s) => Some(DecimalHundredths(s))
    case _ => None
  }

  /** Pixel ratio: 40 when the stored ratio equals the props' (which is in
      hundredths), 20 otherwise. */
  function RatioScore(specs: Specs, p: HwProps): Option<int>
  {
    match SpecHundredths(Lookup(specs, "display_pixel_ratio"))
    case None => None
    case Some(h) => Some(if h == p.ratio then 40 else 20)
  }

  /** Benchmark: 10 when both bounds are present and the props' benchmark
      lies between them, bounds included; 0 otherwise. */
  function BenchmarkScore(specs: Specs, p: HwProps): Option<int>
  {
    var lo := Lookup(specs, "benchmark_min");
    var hi := Lookup(specs, "benchmark_max");
    if Blank(lo) || Blank(hi) then Some(0)
    else match (ValToI(lo), ValToI(hi))
      case (Some(a), Some(b)) => Some(if a <= p.bench <= b then 10 else 0)
      case _ => None
  }

  function Abs(i: int): nat { if i < 0 then -i else i }

  /** Distance from the middle of the benchmark range, 100000 without a
      range; only integer bounds can be added and halved. */
  function Distance(specs: Specs, p: HwProps): Option<int>
  {
    var lo := Lookup(specs, "benchmark_min");
    var hi := Lookup(specs, "benchmark_max");
    if Blank(lo) || Blank(hi) then Some(100000)
    else if lo.VInt? && hi.VInt? then Some(Abs((lo.i + hi.i) / 2 - p.bench))
    else None
  }

  /** find_rating on a candidate's record. */
  function FindRating(device: DeviceRecord, p: HwProps): (r: RatingOutcome)
    ensures r.NoSpecs? <==> device.specs == map[]
    ensures r.Rated? ==> r.rating.score == r.rating.resolution + r.rating.pixelRatio + r.rating.benchmark
    ensures r.Rated? ==> r.rating.possible == 70
  {
    var specs := device.specs;
    if specs == map[] then NoSpecs
    else match (ResolutionScore(specs, p), RatioScore(specs, p), BenchmarkScore(specs, p), Distance(specs, p))
      case (Some(res), Some(ratio), Some(bench), Some(dist)) =>
        Rated(Rating(res, ratio, bench, res + ratio + bench, 70, dist))
      case _ => RatingRaised
  }

  // ---------------------------------------------------------------- properties

  /** Every part takes one of its two values, so the score lies between 20
      and 90 and is never 0. */
  lemma RatingScoreRange(device: DeviceRecord, p: HwProps)
    requires FindRating(device, p).Rated?
    ensures var r := FindRating(device, p).rating;
            (r.resolution == 0 || r.resolution == 40) &&
            (r.pixelRatio == 20 || r.pixelRatio == 40) &&
            (r.benchmark == 0 || r.benchmark == 10) &&
            20 <= r.score <= 90 && r.score != 0 && r.distance >= 0
  {
  }

  /** A device stored with integer dimensions scores the resolution whichever
      way round the props give them. */
  lemma NativeResolutionEitherWay(specs: Specs, p: HwProps)
    requires Lookup(specs, "display_x") == VInt(p.x) && Lookup(specs, "display_y") == VInt(p.y)
    ensures ResolutionScore(specs, p) == Some(40)
    ensures ResolutionScore(specs, HwProps(p.y, p.x, p.ratio, p.bench)) == Some(40)
  {
  }

  /** Example (one input): stored dimensions that are strings are ordered as text: "720" comes
      after "1280", so a 1280x720 device stored as strings never matches
      its own native resolution. */
  lemma TextualDimensionsMiss()
    ensures var specs := map["display_x" := VStr("1280"), "display_y" := VStr("720")];
            ResolutionScore(specs, HwProps(1280, 720, 200, 0)) == Some(0)
  {
    var specs := map["display_x" := VStr("1280"), "display_y" := VStr("720")];
    assert StrCmp("720", "1280") == 1;
    assert MaxOf(VStr("1280"), VStr("720")) == Some(VStr("720"));
    assert LeadingDigits("720") == "720";
    assert DigitsValue("720") == 720 by {
      assert "720"[..2] == "72" && "72"[..1] == "7";
    }
    assert ToI("720") == 720;
  }

  lemma SplitDims()
    ensures Split("1024x768", 'x') == ["1024", "768"]
  {
    FieldsOfSepFree("1024", "768", 'x');
    FieldsOfSepFree("768", [], 'x');
    assert "1024x768" == "1024" + ['x'] + "768";
  }

  lemma ToI768()
    ensures ToI("768") == 768
  {
    assert LeadingDigits("768") == "768";
    assert DigitsValue("768") == 768 by {
      assert "768"[..2] == "76" && "76"[..1] == "7";
    }
  }

  /** Example (one input): css dimensions are ordered as text too: in "1024x768" the larger is
      "768", so that css size never matches a 1024x768 display. */
  lemma TextualCssSizeMisses()
    ensures CssMatch([VStr("1024x768")], 1024, 768) == Some(false)
  {
    SplitDims();
    assert StrCmp("768", "1024") == 1;
    assert StrMax(["1024", "768"]) == "768";
    ToI768();
    assert [VStr("1024x768")][1..] == [];
  }

  /** Examples (two inputs): the ratio part reads the stored decimal: "1.5" is 150 hundredths and
      "2" is 200. */
  lemma RatioExamples()
    ensures DecimalHundredths("1.5") == 150
    ensures DecimalHundredths("2") == 200
  {
    assert SkipSpace("1.5") == "1.5";
    assert LeadingDigits("1.5") == "1";
    assert "1.5"[1..] == ".5";
    assert ".5"[1..] == "5";
    assert LeadingDigits("5") == "5";
    assert DigitsValue("1") == 1;
    assert DigitAt("5", 0) == 5 && DigitAt("5", 1) == 0 && DigitAt("5", 2) == 0;
    assert LeadingDigits("2") == "2";
  }

  /** Benchmark bounds are inclusive, and integer bounds of 0 still count as
      present. */
  lemma BenchmarkInclusive(specs: Specs, p: HwProps)
    requires Lookup(specs, "benchmark_min") == VInt(p.bench) || Lookup(specs, "benchmark_max") == VInt(p.bench)
    requires Lookup(specs, "benchmark_min").VInt? && Lookup(specs, "benchmark_max").VInt?
    requires Lookup(specs, "benchmark_min").i <= Lookup(specs, "benchmark_max").i
    ensures BenchmarkScore(specs, p) == Some(10)
  {
  }

  // ------------------------------------------------------------------ ranking

  /** A rated candidate and its id. */
  datatype Candidate = Candidate(id: Val, rating: Rating)

  /** The sort order of the ratings: higher score first, then the smaller
      distance. */
  predicate Outranks(a: Rating, b: Rating)
  {
    a.score > b.score || (a.score == b.score && a.distance < b.distance)
  }

  /** c heads some order the sort may produce: no candidate outranks it. */
  predicate BestRanked(c: Candidate, cs: seq<Candidate>)
  {
    c in cs && forall i :: 0 <= i < |cs| ==> !Outranks(cs[i].rating, c.rating)
  }

  /** The candidate a left-to-right scan keeps: a later one replaces the
      kept one only when it outranks it. */
  function BestFrom(kept: Candidate, rest: seq<Candidate>): Candidate
    decreases |rest|
  {
    if rest == [] then kept
    else BestFrom(if Outranks(rest[0].rating, kept.rating) then rest[0] else kept, rest[1..])
  }

  /** The head of the sorted list, ties going to the earliest candidate. */
  function Best(cs: seq<Candidate>): Candidate
    requires cs != []
  {
    BestFrom(cs[0], cs[1..])
  }

  /** The scan keeps a candidate nobody outranks. */
  lemma {:induction false} BestFromRanked(kept: Candidate, rest: seq<Candidate>)
    ensures var b := BestFrom(kept, rest);
            (b == kept || b in rest) && !Outranks(kept.rating, b.rating) &&
            forall i :: 0 <= i < |rest| ==> !Outranks(rest[i].rating, b.rating)
    decreases |rest|
  {
    if rest != [] {
      var next := if Outranks(rest[0].rating, kept.rating) then rest[0] else kept;
      BestFromRanked(next, rest[1..]);
      var b := BestFrom(next, rest[1..]);
      assert forall i :: 1 <= i < |rest| ==> rest[i] == rest[1..][i - 1];
      OutranksStrictOrder(kept.rating, next.rating, b.rating);
      OutranksStrictOrder(rest[0].rating, next.rating, b.rating);
    }
  }

  /** The head of the sorted list is best-ranked. */
  lemma BestIsBestRanked(cs: seq<Candidate>)
    requires cs != []
    ensures BestRanked(Best(cs), cs)
  {
    BestFromRanked(cs[0], cs[1..]);
    assert forall i :: 1 <= i < |cs| ==> cs[i] == cs[1..][i - 1];
  }

  /** Taking the first of the sorted ratings: the scan of Best. */
  method PickBest(cs: seq<Candidate>) returns (best: Candidate)
    requires cs != []
    ensures best == Best(cs) && BestRanked(best, cs)
  {
    best := cs[0];
    var i := 1;
    while i < |cs|
      invariant 1 <= i <= |cs|
      invariant BestFrom(best, cs[i..]) == Best(cs)
    {
      assert cs[i..][1..] == cs[i + 1..];
      if Outranks(cs[i].rating, best.rating) {
        best := cs[i];
      }
      i := i + 1;
    }
    BestIsBestRanked(cs);
  }

  /** Ranking is a strict order: no rating outranks itself and outranking
      chains. */
  lemma OutranksStrictOrder(a: Rating, b: Rating, c: Rating)
    ensures !Outranks(a, a)
    ensures Outranks(a, b) ==> !Outranks(b, a)
    ensures Outranks(a, b) && Outranks(b, c) ==> Outranks(a, c)
  {
  }
}
