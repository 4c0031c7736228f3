/** The device detector: a Device object holds its own matcher state, an
    Extra object with another, the results of the last detection, and the
    two header lists that persist from one detection to the next. Each
    method is proved against the functions of DeviceSpecs. */
module Detection {
  import opened RubyValues
  import opened OrderedHash
  import opened Normalise
  import opened Records
  import opened BaseMatcher
  import opened Extras
  import opened Rating
  import opened Overlays
  import opened Queries
  import opened DeviceSpecs

  /** The lower-cased header hash local_detect builds. */
  method LowerWalk(h: OrdMap<string>) returns (r: OrdMap<string>)
    requires h.Valid()
    ensures r == LowerNames(Empty(), h, h.keys)
  {
    r := Empty();
    var i := 0;
    while i < |h.keys|
      invariant 0 <= i <= |h.keys| && r.Valid()
      invariant LowerNames(r, h, h.keys[i..]) == LowerNames(Empty(), h, h.keys)
    {
      var k := h.keys[i];
      LowerNamesStep(r, h, h.keys, i);
      r := r.Put(Downcase(k), h.values[k]);
      i := i + 1;
    }
  }

  /** The value of one build-info tuple, part by part. */
  method TupleWalk(tuple: seq<string>, platform: string, info: OrdMap<string>) returns (r: Option<string>)
    ensures r == TupleValue(tuple, platform, info)
  {
    var value := "";
    var i := 0;
    assert tuple[0..] == tuple;
    assert forall x: string :: "" + x == x;
    while i < |tuple|
      invariant 0 <= i <= |tuple|
      invariant TupleValue(tuple, platform, info) ==
                (match TupleValue(tuple[i..], platform, info) case None => None case Some(rest) => Some(value + rest))
    {
      assert tuple[i..][1..] == tuple[i + 1..] && tuple[i..][0] == tuple[i];
      var item := tuple[i];
      assert forall x: string, y: string :: value + ("|" + x + y) == value + "|" + x + y;
      if item == "hd-platform" {
        value := value + "|" + platform;
      } else if !info.Has(item) {
        assert TupleValue(tuple[i..], platform, info).None?;
        return None;
      } else {
        value := value + "|" + info.values[item];
      }
      i := i + 1;
    }
    assert tuple[i..] == [] && value + "" == value;
    r := Some(value);
  }

  /** The state a detection starts from, as far as its outcome refers to it. */
  datatype Prior = Prior(tree: map<string, Entry>, error: Option<string>, buildInfo: Option<OrdMap<string>>,
                         language: Option<ExtraRecord>, deviceHeaders: OrdMap<string>, deviceOrder: seq<string>,
                         extra: ExtraState)

  class Device {
    const base: Base
    const extra: Extra
    var device: Option<DeviceRecord>
    var platform: Option<ExtraRecord>
    var browser: Option<ExtraRecord>
    var app: Option<ExtraRecord>
    var language: Option<ExtraRecord>
    var buildInfo: Option<OrdMap<string>>
    var ratingResult: Option<seq<Candidate>>
    var deviceHeaders: OrdMap<string>
    var extraHeaders: OrdMap<string>

    /** Two distinct matchers over one store, every memo a copy of the
        store, and the Extra's rule keys never nil. */
    ghost predicate Valid()
      reads this, base, extra, extra.base
    {
      base != extra.base && extra.base.store == base.store &&
      base.TreeValid() && extra.base.TreeValid() && extra.base.ruleKeys.Some? &&
      deviceHeaders.Valid() && extraHeaders.Valid()
    }

    /** The state a detection starts from. */
    function PriorNow(): Prior
      reads this, base, extra, extra.base
    {
      Prior(base.tree, base.error, buildInfo, language, deviceHeaders, base.orders.device, ExtraNow())
    }

    /** The Extra matcher's state as DeviceSpecs sees it. */
    function ExtraNow(): ExtraState
      reads this, extra, extra.base
    {
      ExtraState(extraHeaders, extra.base.orders, extra.base.ruleKeys, extra.base.tree)
    }

    constructor (store: Store)
      ensures Valid() && fresh(base) && fresh(extra) && fresh(extra.base)
      ensures base.store == store && base.tree == map[] && base.ruleKeys == Some(map[])
      ensures base.orders == InitialUaOrders && base.reply == EmptyReply
      ensures device == None && platform == None && browser == None && app == None && language == None
      ensures ratingResult == None && buildInfo == None
      ensures deviceHeaders == Empty() && extraHeaders == Empty()
    {
      base := new Base(store);
      extra := new Extra(store);
      device := None;
      platform := None;
      browser := None;
      app := None;
      language := None;
      buildInfo := None;
      ratingResult := None;
      deviceHeaders := Empty();
      extraHeaders := Empty();
    }

    /** The header loop of v4_match_http_headers: each header, normalised,
        is written cleansed into both persisting lists. */
    method NormaliseHeaders(h: OrdMap<string>)
      requires Valid() && h.Valid()
      modifies this`deviceHeaders, this`extraHeaders
      ensures Valid()
      ensures deviceHeaders == Absorb(old(deviceHeaders), h, h.keys, "device")
      ensures extraHeaders == Absorb(old(extraHeaders), h, h.keys, "extra")
    {
      var dh, eh := deviceHeaders, extraHeaders;
      var i := 0;
      while i < |h.keys|
        invariant 0 <= i <= |h.keys| && dh.Valid() && eh.Valid()
        invariant Absorb(dh, h, h.keys[i..], "device") == Absorb(old(deviceHeaders), h, h.keys, "device")
        invariant Absorb(eh, h, h.keys[i..], "extra") == Absorb(old(extraHeaders), h, h.keys, "extra")
      {
        var key := h.keys[i];
        AbsorbStep(dh, h, h.keys, i, "device");
        AbsorbStep(eh, h, h.keys, i, "extra");
        dh := AbsorbOne(dh, h, key, "device");
        eh := AbsorbOne(eh, h, key, "extra");
        i := i + 1;
      }
      assert h.keys[i..] == [];
      deviceHeaders, extraHeaders := dh, eh;
    }

    /** One exact probe of match_device. */
    method Probe(headers: OrdMap<string>, field: string, header: string) returns (s: Step)
      requires headers.Valid() && base.TreeValid()
      requires header != "user-agent"
      modifies base`tree, base`ruleKeys
      ensures base.TreeValid() && base.ruleKeys == old(base.ruleKeys)
      ensures s == ProbeStep(base.store, headers, old(base.tree), field, header)
      ensures base.tree == s.tree
    {
      if !Probed(headers, field) {
        return Step(None, headers, base.tree);
      }
      var v := headers.values[field];
      var id := base.GetMatch(header, v, DETECTIONV4_STANDARD, "device");
      if Truthy(id) {
        s := Step(Some(id), headers, base.tree);
      } else {
        s := Step(None, headers.Delete(field), base.tree);
      }
    }

    /** The generic tries of match_device, from the header scan's blank
        result. */
    method GenericMatch(headers: OrdMap<string>) returns (id: Val)
      requires headers.Valid() && base.TreeValid() && base.ruleKeys.Some?
      modifies base`tree, base`ruleKeys
      ensures base.TreeValid()
      ensures Generic(id, base.ruleKeys, base.tree) ==
              GenericTries(base.store, headers, GenericFields, VBool(false), old(base.ruleKeys), old(base.tree))
    {
      ghost var fs := GenericFields;
      assert fs[1..] == ["agent", "user-agent"] && fs[1..][1..] == ["user-agent"] && fs[1..][1..][1..] == [];
      id := GenericTry(headers, fs, "x-operamini-phone-ua", VBool(false));
      id := GenericTry(headers, fs[1..], "agent", id);
      id := GenericTry(headers, fs[1..][1..], "user-agent", id);
    }

    /** One generic try: while the node is blank, a present header is
        matched by the sieve in the generic subtree. */
    method GenericTry(headers: OrdMap<string>, ghost fields: seq<string>, field: string, id: Val) returns (id': Val)
      requires headers.Valid() && base.TreeValid() && base.ruleKeys.Some? && fields != [] && fields[0] == field
      modifies base`tree, base`ruleKeys
      ensures base.TreeValid() && base.ruleKeys.Some?
      ensures GenericTries(base.store, headers, fields, id, old(base.ruleKeys), old(base.tree)) ==
              GenericTries(base.store, headers, fields[1..], id', base.ruleKeys, base.tree)
    {
      id' := id;
      if Blank(id) && headers.Has(field) {
        id' := base.GetMatch("user-agent", headers.values[field], DETECTIONV4_GENERIC, "device");
      }
    }

    /** match_device on a header list: returns the device found (None for
        Ruby's false) and the list after its deletions; extends the device
        order. */
    method MatchDevice(headers: OrdMap<string>) returns (found: Option<DeviceRecord>, headers': OrdMap<string>)
      requires headers.Valid() && base.TreeValid() && base.ruleKeys.Some?
      modifies base`tree, base`ruleKeys, base`orders
      ensures base.TreeValid()
      ensures DeviceMatch(found, headers', base.orders.device, base.tree, base.ruleKeys) ==
              MatchDeviceSpec(base.store, headers, old(base.orders.device), old(base.tree), old(base.ruleKeys))
      ensures base.orders == old(base.orders).(device := base.orders.device)
    {
      var s1 := Probe(headers, "x-operamini-phone", "x-operamini-phone");
      if s1.hit.Some? {
        return FindDevice(base.store, s1.hit.value), s1.headers;
      }
      var s2 := Probe(s1.headers, "profile", "profile");
      if s2.hit.Some? {
        return FindDevice(base.store, s2.hit.value), s2.headers;
      }
      var s3 := Probe(s2.headers, "x-wap-profile", "profile");
      if s3.hit.Some? {
        return FindDevice(base.store, s3.hit.value), s3.headers;
      }
      headers' := s3.headers;
      var order := ExtendWalk(base.orders.device, headers'.keys);
      base.orders := base.orders.(device := order);
      var node := base.ScanHeaders(DETECTIONV4_STANDARD, "device", headers', order);
      if node.Some? {
        return FindDevice(base.store, node.value), headers';
      }
      var id := GenericMatch(headers');
      found := if Blank(id) then None else FindDevice(base.store, id);
    }

    /** get_high_accuracy_candidates: the entry the hachecks branch holds
        under the device rule key; a missing branch raises, and so do nil
        rule keys, which a build-info detection leaves. */
    method HighAccuracyCandidates() returns (r: Outcome<Option<Val>>)
      requires base.TreeValid()
      modifies base`tree
      ensures base.TreeValid()
      ensures r == CandidatesAsWritten(Read(base.store, "hachecks"), base.ruleKeys)
      ensures base.tree == Memo(old(base.tree), base.store, "hachecks")
    {
      var branch := base.GetBranch("hachecks");
      if branch.None? {
        return Raised;
      }
      if base.ruleKeys.None? {
        return Raised;
      }
      r := Done(CandidatesIn(branch.value, base.ruleKeys.value));
    }

    /** The platform pass of the contention stage, against the platform
        last handed to the Extra. */
    method PassPlatform(ids: seq<Val>) returns (r: Outcome<seq<Val>>)
      ensures r == PlatformPass(base.store, extra.data, ids)
    {
      var pass: seq<Val> := [];
      var i := 0;
      assert ids[0..] == ids;
      assert forall x: seq<Val> :: pass + x == x;
      while i < |ids|
        invariant 0 <= i <= |ids|
        invariant PlatformPass(base.store, extra.data, ids) ==
                  (match PlatformPass(base.store, extra.data, ids[i..])
                   case Raised => Raised
                   case Done(rest) => Done(pass + rest))
      {
        assert ids[i..][1..] == ids[i + 1..] && ids[i..][0] == ids[i];
        assert forall x: seq<Val>, y: seq<Val> :: pass + (x + y) == pass + x + y;
        var tryDevice := FindDevice(base.store, ids[i]);
        if tryDevice.None? {
          return Raised;
        }
        if extra.VerifyPlatform(tryDevice.value.specs) {
          pass := pass + [ids[i]];
        }
        i := i + 1;
      }
      assert ids[i..] == [] && pass + [] == pass;
      r := Done(pass);
    }

    /** The ratings of the candidates that passed, in order. */
    method RateCandidates(ids: seq<Val>, p: HwProps) returns (r: Outcome<seq<Candidate>>)
      ensures r == RateAll(base.store, ids, p)
    {
      var result: seq<Candidate> := [];
      var i := 0;
      assert ids[0..] == ids;
      assert forall x: seq<Candidate> :: result + x == x;
      while i < |ids|
        invariant 0 <= i <= |ids|
        invariant RateAll(base.store, ids, p) ==
                  (match RateAll(base.store, ids[i..], p)
                   case Raised => Raised
                   case Done(rest) => Done(result + rest))
      {
        assert ids[i..][1..] == ids[i + 1..] && ids[i..][0] == ids[i];
        assert forall x: seq<Candidate>, y: seq<Candidate> :: result + (x + y) == result + x + y;
        var d := FindDevice(base.store, ids[i]);
        if d.None? {
          return Raised;
        }
        var rating := FindRating(d.value, p);
        if rating.RatingRaised? {
          return Raised;
        } else if rating.Rated? {
          result := result + [Candidate(ids[i], rating.rating)];
        }
        i := i + 1;
      }
      assert ids[i..] == [] && result + [] == result;
      r := Done(result);
    }

    /** The contention stage on the detected device, over the hachecks
        entry (a list of ids, or it raises): the platform pass and,
        with two or more passing and hardware properties, the ratings and
        the best-ranked record. */
    method Contend(entry: Val, hw: Option<HwProps>) returns (ok: bool)
      requires device.Some?
      modifies this`device, this`ratingResult
      ensures var c := ContentionSpec(base.store, old(device.value), entry, extra.data, hw);
              (ok <==> c.Done?) &&
              (c.Done? ==> device == Some(c.value.0) &&
                           ratingResult == (if c.value.1.Some? then c.value.1 else old(ratingResult)))
    {
      if !entry.VList? {
        return false;
      }
      var pass := PassPlatform(entry.items);
      if pass.Raised? {
        return false;
      }
      if |pass.value| < 2 || hw.None? {
        return true;
      }
      var rated := RateCandidates(pass.value, hw.value);
      if rated.Raised? {
        return false;
      }
      ratingResult := Some(rated.value);
      if rated.value == [] {
        return false;
      }
      var best := PickBest(rated.value);
      if best.rating.score != 0 {
        var d := FindDevice(base.store, best.id);
        if d.Some? {
          device := d;
        }
      }
      ok := true;
    }

    /** The high-accuracy candidates and the contention among them; the
        Extra is set to the detected platform first when there are some. */
    method Contention(hw: Option<HwProps>) returns (ok: bool)
      requires device.Some? && ratingResult == None && base.TreeValid()
      modifies this`device, this`ratingResult, extra`data, base`tree
      ensures base.TreeValid() && base.tree == Memo(old(base.tree), base.store, "hachecks")
      ensures var c := CandidatesAsWritten(Read(base.store, "hachecks"), base.ruleKeys);
              var s := if c.Raised? then Raised else CandidatesSettle(base.store, old(device.value), c.value, platform, hw);
              (ok <==> s.Done?) && (s.Done? ==> device == Some(s.value.0) && ratingResult == s.value.1)
    {
      var candidates := HighAccuracyCandidates();
      if candidates.Raised? {
        return false;
      }
      if candidates.value.None? {
        return true;
      }
      extra.Set(platform);
      ok := Contend(candidates.value.value, hw);
    }

    /** match_extra for platform, browser and app, then match_language, on
        the extra header list. */
    method MatchExtras()
      requires Valid()
      modifies extra.base`tree, extra.base`ruleKeys, extra.base`orders, this`extraHeaders
      modifies this`platform, this`browser, this`app, this`language
      ensures Valid()
      ensures ExtrasFound(platform, browser, app, language, ExtraNow()) == ExtrasSpec(base.store, old(ExtraNow()))
    {
      platform := ExtraStepOn("platform");
      browser := ExtraStepOn("browser");
      app := ExtraStepOn("app");
      language := extra.MatchLanguage(extraHeaders);
    }

    /** One match_extra call on the persisting extra header list. */
    method ExtraStepOn(cls: string) returns (r: Option<ExtraRecord>)
      requires Valid() && ExtraClass(cls)
      modifies extra.base`tree, extra.base`ruleKeys, extra.base`orders, this`extraHeaders
      ensures Valid()
      ensures (r, ExtraNow()) == ExtraStep(base.store, cls, old(ExtraNow()))
    {
      var h;
      r, h := extra.MatchExtra(cls, extraHeaders);
      extraHeaders := h;
    }
  
    /** The tuples of one platform of a bi-order table, in order. */
    method BiTuples(platformName: string, tuples: seq<seq<string>>, info: OrdMap<string>, subtree: string,
                    category: string) returns (id: Option<Val>)
      requires base.TreeValid()
      modifies base`tree, base`ruleKeys
      ensures base.TreeValid() && base.ruleKeys == old(base.ruleKeys)
      ensures BiProbe(id, base.tree) == BiScanTuples(base.store, platformName, tuples, info, subtree, category, old(base.tree))
    {
      var t := 0;
      while t < |tuples|
        invariant 0 <= t <= |tuples| && base.TreeValid() && base.ruleKeys == old(base.ruleKeys)
        invariant BiScanTuples(base.store, platformName, tuples[t..], info, subtree, category, base.tree) ==
                  BiScanTuples(base.store, platformName, tuples, info, subtree, category, old(base.tree))
      {
        assert tuples[t..][1..] == tuples[t + 1..] && tuples[t..][0] == tuples[t];
        var value := TupleWalk(tuples[t], platformName, info);
        if value.Some? {
          var node := base.GetMatch("buildinfo", TrimBi(value.value), subtree, category);
          if !Blank(node) {
            return Some(node);
          }
        }
        t := t + 1;
      }
      id := None;
    }

    /** The platforms of a bi-order table, in order. */
    method BiOrderScan(order: BiOrder, info: OrdMap<string>, subtree: string, category: string) returns (id: Option<Val>)
      requires base.TreeValid()
      modifies base`tree, base`ruleKeys
      ensures base.TreeValid() && base.ruleKeys == old(base.ruleKeys)
      ensures BiProbe(id, base.tree) == BiScanOrder(base.store, order, info, subtree, category, old(base.tree))
    {
      var p := 0;
      while p < |order|
        invariant 0 <= p <= |order| && base.TreeValid() && base.ruleKeys == old(base.ruleKeys)
        invariant BiScanOrder(base.store, order[p..], info, subtree, category, base.tree) ==
                  BiScanOrder(base.store, order, info, subtree, category, old(base.tree))
      {
        assert order[p..][1..] == order[p + 1..] && order[p..][0] == order[p];
        id := BiTuples(order[p].0, order[p].1, info, subtree, category);
        if id.Some? {
          return;
        }
        p := p + 1;
      }
      id := None;
    }

    /** The generic values, in order. */
    method BiGenericScan(tries: seq<string>, generic: string, category: string) returns (id: Option<Val>)
      requires base.TreeValid()
      modifies base`tree, base`ruleKeys
      ensures base.TreeValid() && base.ruleKeys == old(base.ruleKeys)
      ensures BiProbe(id, base.tree) == BiGeneric(base.store, tries, generic, category, old(base.tree))
    {
      var k := 0;
      while k < |tries|
        invariant 0 <= k <= |tries| && base.TreeValid() && base.ruleKeys == old(base.ruleKeys)
        invariant BiGeneric(base.store, tries[k..], generic, category, base.tree) ==
                  BiGeneric(base.store, tries, generic, category, old(base.tree))
      {
        assert tries[k..][1..] == tries[k + 1..] && tries[k..][0] == tries[k];
        var node := base.GetMatch("buildinfo", tries[k], generic, category);
        if !Blank(node) {
          return Some(node);
        }
        k := k + 1;
      }
      id := None;
    }

    /** v4_match_bi_helper, returning the id it looks up (the record is read
        by the caller): the category's bi-order table, then the generic
        values of the platform has_bi_keys names. */
    method BiHelper(info: OrdMap<string>, category: string) returns (id: Option<Val>)
      requires base.TreeValid() && BiCategory(category)
      modifies base`tree, base`ruleKeys
      ensures base.TreeValid() && base.ruleKeys == old(base.ruleKeys)
      ensures BiProbe(id, base.tree) == BiHelperSpec(base.store, info, category, old(base.tree))
    {
      if info.values == map[] {
        return None;
      }
      id := BiOrderScan(BiOrderFor(category), info, BiSubtree(category, false), category);
      if id.Some? {
        return;
      }
      var platformName := base.HasBiKeys(info);
      if platformName.Some? {
        id := BiGenericScan(["generic|" + platformName.value, platformName.value + "|generic"],
                            BiSubtree(category, true), category);
      }
    }

    /** The reply of a successful detection. */
    static function Detected(d: DeviceRecord): Reply
    {
      EmptyReply.(hdSpecs := Some(d.specs), status := Some(0), message := Some("OK"))
    }

    /** v4_match_build_info, stated over the state before and after. */
    twostate predicate BuildInfoDetected(info: OrdMap<string>, r: bool)
      reads this, base
    {
      BuildInfoShown(info, r) && base.tree == BuildInfoSpec(base.store, info, old(base.tree)).tree
    }

    /** What v4_match_build_info leaves besides the branch memo. */
    twostate predicate BuildInfoShown(info: OrdMap<string>, r: bool)
      reads this, base`ruleKeys, base`reply, base`error
    {
      BuildInfoFrom(info, old(base.tree), old(buildInfo), old(base.error), r)
    }

    /** BuildInfoShown, with the prior memo, build info and error given. */
    ghost predicate BuildInfoFrom(info: OrdMap<string>, tree0: map<string, Entry>, buildInfo0: Option<OrdMap<string>>,
                                  error0: Option<string>, r: bool)
      reads this, base`ruleKeys, base`reply, base`error
    {
      var b := BuildInfoSpec(base.store, info, tree0);
      r == b.device.Some? && device == b.device && platform == b.platform &&
      browser == None && app == None && ratingResult == None && base.ruleKeys == None &&
      base.reply == (if b.device.Some? then Detected(b.device.value) else EmptyReply) &&
      buildInfo == (if info.values == map[] then buildInfo0 else Some(info)) &&
      base.error == (if b.device.Some? then Some("OK") else error0)
    }

    /** v4_match_build_info: the device and then the platform by build info;
        rule keys are left nil. */
    method V4MatchBuildInfo(info: OrdMap<string>) returns (r: bool)
      requires Valid()
      modifies this`device, this`platform, this`browser, this`app, this`ratingResult, this`buildInfo
      modifies base`tree, base`ruleKeys, base`reply, base`error
      ensures Valid()
      ensures BuildInfoDetected(info, r)
    {
      device := None;
      platform := None;
      browser := None;
      app := None;
      base.ruleKeys := None;
      ratingResult := None;
      base.reply := EmptyReply;
      if info.values == map[] {
        return false;
      }
      buildInfo := Some(info);
      device, platform := BiLookups(info);
      if device.None? {
        return false;
      }
      base.reply := base.reply.(hdSpecs := Some(device.value.specs));
      r := base.SetError(0, "OK");
    }

    /** The lookups of v4_match_build_info: the device, then (when one is
        found) the platform, whose specs are laid over the device's. */
    method BiLookups(info: OrdMap<string>) returns (dev: Option<DeviceRecord>, plat: Option<ExtraRecord>)
      requires base.TreeValid() && info.values != map[]
      modifies base`tree, base`ruleKeys
      ensures base.TreeValid() && base.ruleKeys == old(base.ruleKeys)
      ensures BiDetection(dev, plat, base.tree) == BuildInfoSpec(base.store, info, old(base.tree))
    {
      var id := BiHelper(info, "device");
      dev := if id.Some? then FindDevice(base.store, id.value) else None;
      if dev.None? {
        return dev, None;
      }
      var pid := BiHelper(info, "platform");
      plat := if pid.Some? then FindExtra(base.store, pid.value) else None;
      if plat.Some? {
        dev := Some(SpecsOverlay("platform", dev.value, plat.value));
      }
    }

    /** The state after the stages that follow the device match, as
        SettleSpec gives them; es is the Extra matcher's state before. */
    predicate Shows(res: HttpResult, es: ExtraState, r: Outcome<bool>, oldLanguage: Option<ExtraRecord>)
      reads this, base`ruleKeys, base`orders, base`reply, base`error, extra, extra.base
    {
      r == res.r &&
      (res.extras.None? ==>
         platform == None && browser == None && app == None && language == oldLanguage && ExtraNow() == es) &&
      (res.extras.Some? ==> ExtrasFound(platform, browser, app, language, ExtraNow()) == res.extras.value) &&
      (r.Done? ==> res.device.Some? && device == res.device && ratingResult == res.ratings &&
                   base.reply == Detected(res.device.value))
    }

    /** The stages of v4_match_http_headers after a device is matched. */
    method Settle(matched: DeviceRecord, hardwareInfo: Option<string>) returns (r: Outcome<bool>)
      requires Valid() && base.ruleKeys.Some? && device == Some(matched)
      requires platform == None && browser == None && app == None && ratingResult == None && base.reply == EmptyReply
      modifies this`device, this`platform, this`browser, this`app, this`language, this`ratingResult
      modifies this`extraHeaders, base`tree, base`reply, base`error
      modifies extra`data, extra.base`tree, extra.base`ruleKeys, extra.base`orders
      ensures Valid() && base.ruleKeys == old(base.ruleKeys)
      ensures Shows(SettleSpec(base.store, matched, old(base.ruleKeys), old(ExtraNow()), hardwareInfo),
                    old(ExtraNow()), r, old(language))
    {
      var hw := if hardwareInfo.None? || BlankStr(hardwareInfo.value) then None
                else InfoStringToHash(hardwareInfo.value);
      var d := matched;
      if StopOnDetect(d) {
        if OverlaysResult(d) {
          d := HardwareInfoOverlay(d, hw);
        }
        device := Some(d);
        base.reply := base.reply.(hdSpecs := Some(d.specs));
        var ok := base.SetError(0, "OK");
        return Done(ok);
      }
      r := Resolve(matched, hardwareInfo);
    }

    /** The stages after the match of a device that does not stop on
        detect: the Extras, contention, the overlays. */
    method Resolve(matched: DeviceRecord, hardwareInfo: Option<string>) returns (r: Outcome<bool>)
      requires Valid() && base.ruleKeys.Some? && device == Some(matched) && !StopOnDetect(matched)
      requires ratingResult == None && base.reply == EmptyReply
      modifies this`device, this`platform, this`browser, this`app, this`language, this`ratingResult
      modifies this`extraHeaders, base`tree, base`reply, base`error
      modifies extra`data, extra.base`tree, extra.base`ruleKeys, extra.base`orders
      ensures Valid() && base.ruleKeys == old(base.ruleKeys)
      ensures Shows(SettleSpec(base.store, matched, old(base.ruleKeys), old(ExtraNow()), hardwareInfo),
                    old(ExtraNow()), r, old(language))
    {
      var hw := if hardwareInfo.None? || BlankStr(hardwareInfo.value) then None
                else InfoStringToHash(hardwareInfo.value);
      MatchExtras();
      r := Finish(matched, hardwareInfo, hw);
    }

    /** The stages after the Extras: contention, the overlays, the reply. */
    method Finish(matched: DeviceRecord, hardwareInfo: Option<string>, hw: Option<HwProps>) returns (r: Outcome<bool>)
      requires Valid() && base.ruleKeys.Some? && device == Some(matched) && hw == HwFor(hardwareInfo)
      requires ratingResult == None && base.reply == EmptyReply
      modifies this`device, this`ratingResult, extra`data, base`tree, base`reply, base`error
      ensures Valid()
      ensures var e := ExtrasFound(platform, browser, app, language, ExtraNow());
              var c := CandidatesAsWritten(Read(base.store, "hachecks"), base.ruleKeys);
              var settled := if c.Raised? then Raised else CandidatesSettle(base.store, matched, c.value, e.platform, hw);
              (settled.Raised? ==> r == Raised) &&
              (settled.Done? ==> r == Done(true) && device == Some(FinalDevice(settled.value.0, e, hardwareInfo)) &&
                                 ratingResult == settled.value.1 && base.reply == Detected(device.value))
    {
      var settledOk := Contention(hw);
      if !settledOk {
        return Raised;
      }
      Crown(hardwareInfo, hw);
      r := Done(true);
    }

    /** The final overlays and the OK reply carrying the device's specs. */
    method Crown(hardwareInfo: Option<string>, hw: Option<HwProps>)
      requires device.Some? && hw == HwFor(hardwareInfo) && base.reply == EmptyReply
      modifies this`device, base`reply, base`error
      ensures device == Some(FinalDevice(old(device.value), ExtrasFound(platform, browser, app, language, ExtraNow()),
                                         hardwareInfo))
      ensures base.reply == Detected(device.value)
    {
      Overlay(hardwareInfo, hw);
      base.reply := base.reply.(hdSpecs := Some(device.value.specs));
      var _ := base.SetError(0, "OK");
    }

    /** The end of v4_match_http_headers: "Not Found" on a miss, the
        remaining stages on a match. */
    method Conclude(found: Option<DeviceRecord>, hardwareInfo: Option<string>) returns (r: Outcome<bool>)
      requires Valid() && base.ruleKeys.Some? && device == found
      requires platform == None && browser == None && app == None && ratingResult == None && base.reply == EmptyReply
      modifies this`device, this`platform, this`browser, this`app, this`language, this`ratingResult
      modifies this`extraHeaders, base`tree, base`reply, base`error
      modifies extra`data, extra.base`tree, extra.base`ruleKeys, extra.base`orders
      ensures Valid() && base.ruleKeys == old(base.ruleKeys)
      ensures found.None? ==>
                r == Done(false) && device == None && platform == None && browser == None && app == None &&
                ratingResult == None && language == old(language) && ExtraNow() == old(ExtraNow()) &&
                base.reply == EmptyReply.(status := Some(301), message := Some("Not Found"))
      ensures found.Some? ==>
                Shows(SettleSpec(base.store, found.value, old(base.ruleKeys), old(ExtraNow()), hardwareInfo),
                      old(ExtraNow()), r, old(language))
    {
      if found.None? {
        var _ := base.SetError(301, "Not Found");
        return Done(false);
      }
      r := Settle(found.value, hardwareInfo);
    }

    /** The overlays that end an HTTP detection, on the detected device. */
    method Overlay(hardwareInfo: Option<string>, hw: Option<HwProps>)
      requires device.Some? && hw == HwFor(hardwareInfo)
      modifies this`device
      ensures device == Some(FinalDevice(old(device.value), ExtrasFound(platform, browser, app, language, ExtraNow()),
                                         hardwareInfo))
    {
      var d := device.value;
      if platform.Some? {
        d := SpecsOverlay("platform", d, platform.value);
      }
      if browser.Some? {
        d := SpecsOverlay("browser", d, browser.value);
      }
      if app.Some? {
        d := SpecsOverlay("app", d, app.value);
      }
      if language.Some? {
        d := SpecsOverlay("language", d, language.value);
      }
      if OverlaysResult(d) && hardwareInfo.Some? && !BlankStr(hardwareInfo.value) {
        d := HardwareInfoOverlay(d, hw);
      }
      device := Some(d);
    }

    /** The part of v4_match_http_headers after the blank check, on the
        stripped headers h, from the header lists dh0 and eh0, the device
        order, memo and Extra state es0 and the language before it. */
    ghost predicate Matched(h: OrdMap<string>, hardwareInfo: Option<string>, dh0: OrdMap<string>, order0: seq<string>,
                      tree0: map<string, Entry>, es0: ExtraState, language0: Option<ExtraRecord>, r: Outcome<bool>)
      reads this, base`ruleKeys, base`orders, base`reply, base`error, extra, extra.base
    {
      h.Valid() && dh0.Valid() && es0.Valid() &&
      var m := MatchDeviceSpec(base.store, Absorb(dh0, h, h.keys, "device"), order0, tree0, Some(map[]));
      var es := es0.(headers := Absorb(es0.headers, h, h.keys, "extra"));
      deviceHeaders == m.headers && base.orders.device == m.order && base.ruleKeys == m.keys &&
      if m.device.None? then
        r == Done(false) && device == None && platform == None && browser == None && app == None &&
        ratingResult == None && language == language0 && ExtraNow() == es &&
        base.reply == EmptyReply.(status := Some(301), message := Some("Not Found"))
      else
        Shows(SettleSpec(base.store, m.device.value, m.keys, es, hardwareInfo), es, r, language0)
    }

    /** v4_match_http_headers, stated over the state before and after. */
    twostate predicate HttpDetected(headers: OrdMap<string>, hardwareInfo: Option<string>, new r: Outcome<bool>)
      reads this, base`ruleKeys, base`orders, base`reply, base`error, extra, extra.base
    {
      HttpFrom(headers, hardwareInfo, old(PriorNow()), r)
    }

    /** HttpDetected, with the prior state given. */
    ghost predicate HttpFrom(headers: OrdMap<string>, hardwareInfo: Option<string>, p: Prior, r: Outcome<bool>)
      reads this, base`ruleKeys, base`orders, base`reply, base`error, extra, extra.base
    {
      headers.Valid() &&
      if headers.values == map[] then
        r == Done(false) && device == None && platform == None && browser == None && app == None &&
        ratingResult == None && base.ruleKeys == Some(map[]) && base.reply == EmptyReply && language == p.language
      else
        Matched(headers.Delete("ip").Delete("host"), hardwareInfo, p.deviceHeaders, p.deviceOrder,
                p.tree, p.extra, p.language, r)
    }

    /** v4_match_http_headers: normalises the headers into the persisting
        lists, matches the device, and settles the detection. */
    method V4MatchHttpHeaders(headers: OrdMap<string>, hardwareInfo: Option<string>) returns (r: Outcome<bool>)
      requires Valid() && headers.Valid()
      modifies this`device, this`platform, this`browser, this`app, this`language, this`ratingResult
      modifies this`deviceHeaders, this`extraHeaders
      modifies base`tree, base`ruleKeys, base`orders, base`reply, base`error
      modifies extra`data, extra.base`tree, extra.base`ruleKeys, extra.base`orders
      ensures Valid()
      ensures HttpDetected(headers, hardwareInfo, r)
    {
      device := None;
      platform := None;
      browser := None;
      app := None;
      ratingResult := None;
      base.ruleKeys := Some(map[]);
      base.reply := EmptyReply;
      if headers.values == map[] {
        return Done(false);
      }
      r := MatchHeaders(headers.Delete("ip").Delete("host"), hardwareInfo);
    }

    /** The stages of v4_match_http_headers after the blank check. */
    method MatchHeaders(h: OrdMap<string>, hardwareInfo: Option<string>) returns (r: Outcome<bool>)
      requires Valid() && h.Valid() && base.ruleKeys == Some(map[])
      requires device == None && platform == None && browser == None && app == None && ratingResult == None
      requires base.reply == EmptyReply
      modifies this`device, this`platform, this`browser, this`app, this`language, this`ratingResult
      modifies this`deviceHeaders, this`extraHeaders
      modifies base`tree, base`ruleKeys, base`orders, base`reply, base`error
      modifies extra`data, extra.base`tree, extra.base`ruleKeys, extra.base`orders
      ensures Valid()
      ensures Matched(h, hardwareInfo, old(deviceHeaders), old(base.orders.device), old(base.tree), old(ExtraNow()),
                      old(language), r)
    {
      NormaliseHeaders(h);
      ghost var es := ExtraNow();
      assert es == old(ExtraNow()).(headers := Absorb(old(extraHeaders), h, h.keys, "extra"));
      ghost var m := MatchDeviceSpec(base.store, deviceHeaders, base.orders.device, base.tree, base.ruleKeys);
      var found, dh := MatchDevice(deviceHeaders);
      assert found == m.device && dh == m.headers && base.ruleKeys == m.keys;
      deviceHeaders := dh;
      device := found;
      assert ExtraNow() == es;
      r := Conclude(found, hardwareInfo);
    }

    /** local_detect: header names lower-cased, the hardware info taken out;
        build info when has_bi_keys names a platform, HTTP headers
        otherwise. */
    method LocalDetect(h: OrdMap<string>) returns (r: Outcome<bool>)
      requires Valid() && h.Valid()
      modifies this`device, this`platform, this`browser, this`app, this`language, this`ratingResult
      modifies this`buildInfo, this`deviceHeaders, this`extraHeaders
      modifies base`tree, base`ruleKeys, base`orders, base`reply, base`error
      modifies extra`data, extra.base`tree, extra.base`ruleKeys, extra.base`orders
      ensures Valid()
      ensures r.Done? ==> (r.value <==> device.Some?)
      ensures HasBiKeysSpec(DetectHeaders(h)).Some? ==>
                r.Done? && BuildInfoDetected(DetectHeaders(h), r.value) && language == old(language) &&
                deviceHeaders == old(deviceHeaders) && extraHeaders == old(extraHeaders)
      ensures HasBiKeysSpec(DetectHeaders(h)).None? ==>
                buildInfo == old(buildInfo) && HttpDetected(DetectHeaders(h), HardwareInfoOf(h), r)
    {
      var lower := LowerWalk(h);
      var hardwareInfo := lower.Get("x-local-hardwareinfo");
      var headers := lower.Delete("x-local-hardwareinfo");
      var platformKey := base.HasBiKeys(headers);
      if platformKey.Some? {
        var ok := V4MatchBuildInfo(headers);
        return Done(ok);
      }
      r := V4MatchHttpHeaders(headers, hardwareInfo);
    }

    /** What local_detect on h leaves from the prior state p, apart from the
        device matcher's memo: LocalDetect's contract as one predicate. */
    ghost predicate DetectionFrom(h: OrdMap<string>, p: Prior, r: Outcome<bool>)
      reads this, base`ruleKeys, base`orders, base`reply, base`error, extra, extra.base
    {
      h.Valid() && (r.Done? ==> (r.value <==> device.Some?)) &&
      (HasBiKeysSpec(DetectHeaders(h)).Some? ==>
         r.Done? && BuildInfoFrom(DetectHeaders(h), p.tree, p.buildInfo, p.error, r.value) && language == p.language &&
         deviceHeaders == p.deviceHeaders && extraHeaders == p.extra.headers) &&
      (HasBiKeysSpec(DetectHeaders(h)).None? ==>
         buildInfo == p.buildInfo && HttpFrom(DetectHeaders(h), HardwareInfoOf(h), p, r))
    }

    /** local_detect on the headers without ip and host, as is_helper_useful
        runs it. */
    method DetectStripped(headers: OrdMap<string>) returns (r: Outcome<bool>)
      requires Valid() && headers.Valid()
      modifies this`device, this`platform, this`browser, this`app, this`language, this`ratingResult
      modifies this`buildInfo, this`deviceHeaders, this`extraHeaders
      modifies base`tree, base`ruleKeys, base`orders, base`reply, base`error
      modifies extra`data, extra.base`tree, extra.base`ruleKeys, extra.base`orders
      ensures Valid()
      ensures DetectionFrom(headers.Delete("ip").Delete("host"), old(PriorNow()), r)
      ensures HasBiKeysSpec(DetectHeaders(headers.Delete("ip").Delete("host"))).Some? ==>
                base.tree == BuildInfoSpec(base.store, DetectHeaders(headers.Delete("ip").Delete("host")), old(base.tree)).tree
    {
      r := LocalDetect(headers.Delete("ip").Delete("host"));
    }

    /** The last step of is_helper_useful after a detection: whether the
        hachecks branch holds candidates for the detected rule. Only the
        memo changes, so the detection stays as it was. */
    method Usefulness(ghost h: OrdMap<string>, ghost p: Prior, ghost detected: Outcome<bool>) returns (r: Outcome<bool>)
      requires Valid() && DetectionFrom(h, p, detected)
      modifies base`tree
      ensures Valid() && DetectionFrom(h, p, detected)
      ensures r == (match CandidatesAsWritten(Read(base.store, "hachecks"), base.ruleKeys)
                    case Raised => Raised
                    case Done(c) => Done(c.Some?))
      ensures base.tree == Memo(old(base.tree), base.store, "hachecks")
    {
      var candidates := HighAccuracyCandidates();
      r := if candidates.Raised? then Raised else Done(candidates.value.Some?);
    }

    /** is_helper_useful: false for blank headers or a failed detection;
        otherwise whether the hachecks branch holds candidates for the
        detected rule, which raises after a build-info detection. The
        detection is local_detect's on the headers without ip and host;
        its outcome is the ghost detection. */
    method IsHelperUseful(headers: OrdMap<string>) returns (r: Outcome<bool>, ghost detection: Outcome<bool>)
      requires Valid() && headers.Valid()
      modifies this`device, this`platform, this`browser, this`app, this`language, this`ratingResult
      modifies this`buildInfo, this`deviceHeaders, this`extraHeaders
      modifies base`tree, base`ruleKeys, base`orders, base`reply, base`error
      modifies extra`data, extra.base`tree, extra.base`ruleKeys, extra.base`orders
      ensures Valid()
      ensures headers.values == map[] ==> r == Done(false) && device == old(device) && base.reply == old(base.reply)
      ensures headers.values != map[] && r.Done? ==>
                r.value == (device.Some? && CandidatesAsWritten(Read(base.store, "hachecks"), base.ruleKeys) != Done(None))
      ensures base.ruleKeys.None? ==> r != Done(true)
      ensures headers.values != map[] && device.Some? && base.ruleKeys.None? ==> r == Raised
      ensures headers.values != map[] ==>
                DetectionFrom(headers.Delete("ip").Delete("host"), old(PriorNow()), detection) &&
                (detection.Raised? ==> r == Raised) && (detection == Done(false) ==> r == Done(false))
      ensures headers.values != map[] ==>
                var info := DetectHeaders(headers.Delete("ip").Delete("host"));
                HasBiKeysSpec(info).Some? ==>
                  base.tree == (if detection == Done(true) then Memo(BuildInfoSpec(base.store, info, old(base.tree)).tree,
                                                                     base.store, "hachecks")
                                else BuildInfoSpec(base.store, info, old(base.tree)).tree)
    {
      detection := Done(false);
      r := Done(false);
      if headers.values != map[] {
        var detected := DetectStripped(headers);
        detection := detected;
        if detected.Raised? {
          r := Raised;
        } else if detected.value {
          r := Usefulness(headers.Delete("ip").Delete("host"), old(PriorNow()), detected);
        }
      }
    }

    // ------------------------------------------------------ the list queries
    // fetch_devices reads every device record from the store; its listing is
    // the data parameter (None when the store cannot be read).

    /** local_vendors: the distinct vendors of all records, sorted. */
    method LocalVendors(data: Option<seq<DeviceRecord>>) returns (r: Outcome<bool>)
      modifies base`reply, base`error
      ensures data.None? ==>
                r == Done(false) && base.error == Some(FetchError) &&
                base.reply == EmptyReply.(status := Some(299), message := Some(FetchError))
      ensures data.Some? ==>
                match LocalVendorsSpec(data.value)
                case Raised => r == Raised && base.reply == EmptyReply
                case Done(vendors) =>
                  r == Done(true) && base.error == Some("OK") &&
                  base.reply == EmptyReply.(vendor := Some(vendors), status := Some(0), message := Some("OK"))
    {
      base.reply := EmptyReply;
      if data.None? {
        var _ := base.SetError(299, FetchError);
        return Done(false);
      }
      var devices := data.value;
      var tmp: seq<Val> := [];
      var i := 0;
      while i < |devices|
        invariant 0 <= i <= |devices| && base.reply == EmptyReply
        invariant tmp == VendorsOf(devices[..i])
      {
        assert devices[..i + 1] == devices[..i] + [devices[i]];
        tmp := tmp + [Lookup(devices[i].specs, "general_vendor")];
        i := i + 1;
      }
      assert devices[..i] == devices;
      var vendors := SortedDistinct(tmp);
      if vendors.Raised? {
        return Raised;
      }
      base.reply := base.reply.(vendor := Some(vendors.value));
      var ok := base.SetError(0, "OK");
      r := Done(ok);
    }

    /** local_models: the distinct models of a vendor (ignoring case), with
        the models its aliases name, sorted. */
    method LocalModels(data: Option<seq<DeviceRecord>>, vendor: string) returns (r: Outcome<bool>)
      modifies base`reply, base`error
      ensures data.None? ==>
                r == Done(false) && base.error == Some(FetchError) &&
                base.reply == EmptyReply.(status := Some(299), message := Some(FetchError))
      ensures data.Some? ==>
                match LocalModelsSpec(data.value, vendor)
                case Raised => r == Raised && base.reply == EmptyReply
                case Done(models) =>
                  r == Done(true) && base.error == Some("OK") &&
                  base.reply == EmptyReply.(model := Some(models), status := Some(0), message := Some("OK"))
    {
      base.reply := EmptyReply;
      if data.None? {
        var _ := base.SetError(299, FetchError);
        return Done(false);
      }
      var devices := data.value;
      var v := Downcase(vendor);
      var tmp: seq<Val> := [];
      var i := 0;
      assert devices[0..] == devices;
      ghost var all := ModelsOfAll(devices, v);
      if all.Done? {
        assert tmp + all.value == all.value;
      }
      while i < |devices|
        invariant 0 <= i <= |devices| && base.reply == EmptyReply
        invariant ModelsOfAll(devices, v) ==
                  match ModelsOfAll(devices[i..], v) case Raised => Raised case Done(rest) => Done(tmp + rest)
      {
        assert devices[i..][1..] == devices[i + 1..] && devices[i..][0] == devices[i];
        var found := RecordModels(devices[i], v);
        if found.Raised? {
          return Raised;
        }
        ghost var after := ModelsOfAll(devices[i + 1..], v);
        if after.Done? {
          assert tmp + (found.value + after.value) == (tmp + found.value) + after.value;
        }
        tmp := tmp + found.value;
        i := i + 1;
      }
      assert tmp + [] == tmp;
      var models := SortedDistinct(tmp);
      if models.Raised? {
        return Raised;
      }
      base.reply := base.reply.(model := Some(models.value));
      var ok := base.SetError(0, "OK");
      r := Done(ok);
    }

    /** local_view: the specs of the first record of the vendor and model
        (ignoring case); "Nothing found" when there is none. */
    method LocalView(data: Option<seq<DeviceRecord>>, vendor: string, model: string) returns (r: Outcome<bool>)
      modifies base`reply, base`error
      ensures data.None? ==>
                r == Done(false) && base.error == Some(FetchError) &&
                base.reply == EmptyReply.(status := Some(299), message := Some(FetchError))
      ensures data.Some? ==>
                match LocalViewSpec(data.value, Downcase(vendor), Downcase(model))
                case Raised => r == Raised && base.reply == EmptyReply
                case Done(None) =>
                  r == Done(false) && base.error == Some("Nothing found") &&
                  base.reply == EmptyReply.(status := Some(301), message := Some("Nothing found"))
                case Done(Some(specs)) =>
                  r == Done(true) && base.error == Some("OK") &&
                  base.reply == EmptyReply.(device := Some(specs), status := Some(0), message := Some("OK"))
    {
      base.reply := EmptyReply;
      if data.None? {
        var _ := base.SetError(299, FetchError);
        return Done(false);
      }
      var devices := data.value;
      var v := Downcase(vendor);
      var m := Downcase(model);
      var i := 0;
      assert devices[0..] == devices;
      while i < |devices|
        invariant 0 <= i <= |devices| && base.reply == EmptyReply
        invariant LocalViewSpec(devices, v, m) == LocalViewSpec(devices[i..], v, m)
      {
        assert devices[i..][1..] == devices[i + 1..] && devices[i..][0] == devices[i];
        var dv := Lookup(devices[i].specs, "general_vendor");
        if !dv.VStr? {
          return Raised;
        }
        if v == Downcase(dv.s) {
          var dm := Lookup(devices[i].specs, "general_model");
          if !dm.VStr? {
            return Raised;
          }
          if m == Downcase(dm.s) {
            base.reply := base.reply.(device := Some(devices[i].specs));
            var ok := base.SetError(0, "OK");
            return Done(ok);
          }
        }
        i := i + 1;
      }
      var _ := base.SetError(301, "Nothing found");
      r := Done(false);
    }

    /** local_what_has: every record whose property holds the value
        (ignoring case), in record order. The reply is not reset. */
    method LocalWhatHas(data: Option<seq<DeviceRecord>>, key: string, value: string) returns (r: Outcome<bool>)
      modifies base`reply, base`error
      ensures data.None? ==>
                r == Done(false) && base.error == Some(FetchError) &&
                base.reply == old(base.reply).(status := Some(299), message := Some(FetchError))
      ensures data.Some? ==>
                match LocalWhatHasSpec(data.value, key, value)
                case Raised => r == Raised && base.reply == old(base.reply)
                case Done(found) =>
                  r == Done(true) && base.error == Some("OK") &&
                  base.reply == old(base.reply).(devices := Some(found), status := Some(0), message := Some("OK"))
    {
      if data.None? {
        var _ := base.SetError(299, FetchError);
        return Done(false);
      }
      var devices := data.value;
      var tmp: seq<Found> := [];
      var i := 0;
      assert devices[0..] == devices;
      ghost var all := LocalWhatHasSpec(devices, key, value);
      if all.Done? {
        assert tmp + all.value == all.value;
      }
      while i < |devices|
        invariant 0 <= i <= |devices| && base.reply == old(base.reply)
        invariant LocalWhatHasSpec(devices, key, value) ==
                  match LocalWhatHasSpec(devices[i..], key, value) case Raised => Raised case Done(rest) => Done(tmp + rest)
      {
        assert devices[i..][1..] == devices[i + 1..] && devices[i..][0] == devices[i];
        var hit := PropertyOf(devices[i], key, value);
        if hit.Raised? {
          return Raised;
        }
        var add := if hit.value then [FoundOf(devices[i])] else [];
        ghost var after := LocalWhatHasSpec(devices[i + 1..], key, value);
        if after.Done? {
          assert tmp + (add + after.value) == (tmp + add) + after.value;
        }
        tmp := tmp + add;
        i := i + 1;
      }
      assert tmp + [] == tmp;
      base.reply := base.reply.(devices := Some(tmp));
      var ok := base.SetError(0, "OK");
      r := Done(ok);
    }
  }
}
