/** Extras: resolving the platform, browser and app records from the
    headers, detecting the language, and ruling out devices that cannot run
    the detected platform version. */
module Extras {
  import opened RubyValues
  import opened OrderedHash
  import opened Normalise
  import opened Records
  import opened PlatformVersion
  import opened BaseMatcher

  // -------------------------------------------------------------- match_extra

  /** Header names the order lists are extended with: /^x-/i. */
  predicate IsXHeader(k: string) { |k| >= 2 && ToLower(k[0]) == 'x' && k[1] == '-' }

  /** The order list after appending, in header order, every x- name not
      yet in it. */
  function ExtendOrder(order: seq<string>, keys: seq<string>): seq<string>
    decreases |keys|
  {
    if keys == [] then order
    else ExtendOrder(if keys[0] !in order && IsXHeader(keys[0]) then order + [keys[0]] else order, keys[1..])
  }

  /** The extended list keeps the old list as its prefix, contains every x-
      header name, and holds nothing else. */
  lemma {:induction false} ExtendOrderSpec(order: seq<string>, keys: seq<string>)
    ensures var r := ExtendOrder(order, keys);
            order <= r &&
            (forall k :: k in keys && IsXHeader(k) ==> k in r) &&
            (forall k :: k in r ==> k in order || (k in keys && IsXHeader(k)))
    decreases |keys|
  {
    if keys != [] {
      var next := if keys[0] !in order && IsXHeader(keys[0]) then order + [keys[0]] else order;
      ExtendOrderSpec(next, keys[1..]);
      var r := ExtendOrder(order, keys);
      assert r == ExtendOrder(next, keys[1..]);
      assert order <= next;
      if IsXHeader(keys[0]) {
        assert keys[0] in next;
      }
      assert forall k :: k in keys ==> k == keys[0] || k in keys[1..];
    }
  }

  /** Appending never repeats a name. */
  lemma {:induction false} ExtendOrderDistinct(order: seq<string>, keys: seq<string>)
    requires Distinct(order)
    ensures Distinct(ExtendOrder(order, keys))
    decreases |keys|
  {
    if keys != [] {
      var next := if keys[0] !in order && IsXHeader(keys[0]) then order + [keys[0]] else order;
      ExtendOrderDistinct(next, keys[1..]);
    }
  }

  // ----------------------------------------------------------- match_language

  predicate IsOpening(c: char) { c == ';' || c == ' ' || c == '(' }

  predicate IsClosing(c: char) { c == ';' || c == ' ' || c == ')' }

  /** /[; \(]code[; \)]/i matches with the code starting at position i. */
  predicate DelimitedAt(agent: string, code: string, i: int)
  {
    1 <= i && i + |code| < |agent| && IsOpening(agent[i - 1]) &&
    Downcase(agent[i..i + |code|]) == Downcase(code) && IsClosing(agent[i + |code|])
  }

  predicate Delimited(agent: string, code: string)
  {
    exists i :: 0 <= i < |agent| && DelimitedAt(agent, code, i)
  }

  /** The first code of the table, in table order, delimited in the agent. */
  function FirstCode(agent: string, table: seq<(string, string)>): (r: Option<(string, string)>)
    ensures r.Some? ==> r.value in table && Delimited(agent, r.value.0)
    ensures r.None? ==> forall i :: 0 <= i < |table| ==> !Delimited(agent, table[i].0)
  {
    if table == [] then None
    else if Delimited(agent, table[0].0) then Some(table[0])
    else
      var r := FirstCode(agent, table[1..]);
      assert forall i :: 1 <= i < |table| ==> table[i] == table[1..][i - 1];
      r
  }

  /** The first header, in check order, that is filled and holds a
      delimited code, with the first such code. */
  function LanguageScan(headers: OrdMap<string>, check: seq<string>, table: seq<(string, string)>): Option<(string, string)>
  {
    if check == [] then None
    else if Filled(headers, check[0]) && FirstCode(headers.Get(check[0]).value, table).Some? then
      FirstCode(headers.Get(check[0]).value, table)
    else LanguageScan(headers, check[1..], table)
  }

  lemma {:induction false} LanguageScanSpec(headers: OrdMap<string>, check: seq<string>, table: seq<(string, string)>)
    ensures var r := LanguageScan(headers, check, table);
            (r.Some? ==> r.value in table &&
                         (exists i :: 0 <= i < |check| && Filled(headers, check[i]) &&
                                      Delimited(headers.Get(check[i]).value, r.value.0))) &&
            (r.None? ==> forall i, c :: 0 <= i < |check| && Filled(headers, check[i]) && 0 <= c < |table| ==>
                           !Delimited(headers.Get(check[i]).value, table[c].0))
  {
    if check != [] {
      LanguageScanSpec(headers, check[1..], table);
      assert forall i :: 1 <= i < |check| ==> check[i] == check[1..][i - 1];
    }
  }

  /** The mock Extra built for a language: code and full name. */
  function LanguageExtra(code: string, full: string): ExtraRecord
  {
    ExtraRecord(Some(map["general_language" := VStr(code), "general_language_full" := VStr(full)]))
  }

  /** match_language: a direct table hit on the language header first, then
      the scan of languageOrder followed by every header name. */
  function LanguageSpec(headers: OrdMap<string>, languageOrder: seq<string>, table: seq<(string, string)>): Option<(string, string)>
  {
    if Filled(headers, "language") && LanguageLookup(table, headers.Get("language").value).Some? then
      Some((headers.Get("language").value, LanguageLookup(table, headers.Get("language").value).value))
    else LanguageScan(headers, languageOrder + headers.keys, table)
  }

  // ---------------------------------------------------------- verify_platform

  /** .to_s.downcase.strip of a spec value. */
  function Norm(v: Val): string { Strip(Downcase(ToS(v))) }

  /** verify_platform against the platform Extra held in data: false only
      when the device ships the same platform and the detected version lies
      below its minimum or above its maximum. */
  function VerifyPlatformWith(data: Option<ExtraRecord>, specs: Specs): bool
  {
    var hasSpecs := data.Some? && data.value.specs.Some?;
    var platformName: Option<string> :=
      if hasSpecs && "general_platform" in data.value.specs.value
      then Some(Norm(data.value.specs.value["general_platform"])) else None;
    var platformVersion: Option<string> :=
      if hasSpecs && "general_platform_version" in data.value.specs.value
      then Some(Norm(data.value.specs.value["general_platform_version"])) else None;
    var deviceName := Norm(Lookup(specs, "general_platform"));
    var versionMin := Norm(Lookup(specs, "general_platform_version"));
    var versionMax := Norm(Lookup(specs, "general_platform_version_max"));
    if data.None? || platformName.None? || BlankStr(platformName.value) || BlankStr(deviceName) then true
    else if platformName.value != deviceName then true
    else if platformVersion.Some? && !BlankStr(platformVersion.value) && !BlankStr(versionMin) &&
            ComparePlatformVersions(platformVersion.value, versionMin) <= -1 then false
    else if platformVersion.Some? && !BlankStr(platformVersion.value) && !BlankStr(versionMax) &&
            ComparePlatformVersions(platformVersion.value, versionMax) >= 1 then false
    else true
  }

  /** The detected platform name and version held in an Extra's specs. */
  function DetectedName(data: Option<ExtraRecord>): Option<string>
  {
    if data.Some? && data.value.specs.Some? && "general_platform" in data.value.specs.value
    then Some(Norm(data.value.specs.value["general_platform"])) else None
  }

  function DetectedVersion(data: Option<ExtraRecord>): string
  {
    if data.Some? && data.value.specs.Some? && "general_platform_version" in data.value.specs.value
    then Norm(data.value.specs.value["general_platform_version"]) else ""
  }

  /** verify_platform only ever rules a device out for a version outside
      its range on the very platform it ships. */
  lemma VerifyPlatformFalseIff(data: Option<ExtraRecord>, specs: Specs)
    ensures var name := DetectedName(data);
            var version := DetectedVersion(data);
            var versionMin := Norm(Lookup(specs, "general_platform_version"));
            var versionMax := Norm(Lookup(specs, "general_platform_version_max"));
            !VerifyPlatformWith(data, specs) <==>
              name.Some? && !BlankStr(name.value) && name.value == Norm(Lookup(specs, "general_platform")) &&
              !BlankStr(version) &&
              ((!BlankStr(versionMin) && ComparePlatformVersions(version, versionMin) <= -1) ||
               (!BlankStr(versionMax) && ComparePlatformVersions(version, versionMax) >= 1))
  {
    assert BlankStr("");
  }

  /** A device whose range is exactly the detected version is kept. */
  lemma VerifyPlatformKeepsExactRange(data: Option<ExtraRecord>, specs: Specs)
    requires Norm(Lookup(specs, "general_platform_version")) == DetectedVersion(data)
    requires Norm(Lookup(specs, "general_platform_version_max")) == DetectedVersion(data)
    ensures VerifyPlatformWith(data, specs)
  {
    VerifyPlatformFalseIff(data, specs);
    ComparePlatformVersionsAntisymmetric(DetectedVersion(data), DetectedVersion(data));
  }

  // ------------------------------------------------------------------ class

  /** An Extra object: its own matcher state and the platform record last
      handed to it with set. */
  class Extra {
    const base: Base
    var data: Option<ExtraRecord>

    constructor (store: Store)
      ensures fresh(base) && base.store == store && base.tree == map[] && base.ruleKeys == Some(map[])
      ensures base.orders == InitialUaOrders && base.reply == EmptyReply && base.error == None
      ensures data == None
    {
      base := new Base(store);
      data := None;
    }

    method Set(d: Option<ExtraRecord>)
      modifies this`data
      ensures data == d
    {
      data := d;
    }

    /** verify_platform: reads the record last handed to Set. */
    function VerifyPlatform(specs: Specs): bool
      reads this
    {
      VerifyPlatformWith(data, specs)
    }

    /** match_extra: deletes profile from the headers handed in (returned as
        headers'), extends the class's order list with the x- names, then
        returns the Extra record of the first header whose sieve match is
        truthy (None for Ruby's false, also when that record is missing). */
    method MatchExtra(cls: string, headers: OrdMap<string>) returns (r: Option<ExtraRecord>, headers': OrdMap<string>)
      requires cls == "platform" || cls == "browser" || cls == "app"
      requires headers.Valid() && base.TreeValid() && base.ruleKeys.Some?
      modifies base`tree, base`ruleKeys, base`orders
      ensures headers' == headers.Delete("profile")
      ensures base.orders == old(base.orders).With(cls, ExtendOrder(old(base.orders).For(cls), headers'.keys))
      ensures var s := SieveScan(base.store, cls, cls, headers', base.orders.For(cls), old(base.ruleKeys), old(base.tree));
              r == (if s.node.Some? then FindExtra(base.store, s.node.value) else None) &&
              base.ruleKeys == s.keys && base.tree == s.tree
      ensures base.TreeValid() && base.ruleKeys.Some?
    {
      headers' := headers.Delete("profile");
      var order := ExtendWalk(base.orders.For(cls), headers'.keys);
      base.orders := base.orders.With(cls, order);
      var node := base.ScanHeaders(cls, cls, headers', order);
      r := if node.Some? then FindExtra(base.store, node.value) else None;
    }

    /** match_language: the language Extra for the first direct or scanned
        hit, None (Ruby's false) when there is none. */
    method MatchLanguage(headers: OrdMap<string>) returns (r: Option<ExtraRecord>)
      requires headers.Valid()
      ensures r == match LanguageSpec(headers, base.orders.language, Languages)
                   case Some((code, full)) => Some(LanguageExtra(code, full))
                   case None => None
    {
      var hit := LanguageWalk(headers, base.orders.language, Languages);
      r := match hit
           case Some((code, full)) => Some(LanguageExtra(code, full))
           case None => None;
    }
  }

  /** The loop of match_extra that extends an order list. */
  method ExtendWalk(order: seq<string>, keys: seq<string>) returns (r: seq<string>)
    ensures r == ExtendOrder(order, keys)
  {
    r := order;
    var i := 0;
    while i < |keys|
      invariant 0 <= i <= |keys|
      invariant ExtendOrder(order, keys) == ExtendOrder(r, keys[i..])
    {
      if keys[i] !in r && IsXHeader(keys[i]) {
        r := r + [keys[i]];
      }
      assert keys[i..][1..] == keys[i + 1..];
      i := i + 1;
    }
  }

  /** The inner loop of match_language over the language table. */
  method FirstCodeWalk(agent: string, table: seq<(string, string)>) returns (r: Option<(string, string)>)
    ensures r == FirstCode(agent, table)
  {
    var c := 0;
    while c < |table|
      invariant 0 <= c <= |table|
      invariant FirstCode(agent, table) == FirstCode(agent, table[c..])
    {
      if Delimited(agent, table[c].0) {
        return Some(table[c]);
      }
      assert table[c..][1..] == table[c + 1..];
      c := c + 1;
    }
    return None;
  }

  /** match_language over a table: the direct lookup, then the scan. */
  method LanguageWalk(headers: OrdMap<string>, languageOrder: seq<string>, table: seq<(string, string)>)
    returns (r: Option<(string, string)>)
    ensures r == LanguageSpec(headers, languageOrder, table)
  {
    var candidate := headers.Get("language");
    if candidate.Some? && !BlankStr(candidate.value) {
      var full := LanguageLookup(table, candidate.value);
      if full.Some? {
        return Some((candidate.value, full.value));
      }
    }
    var checkOrder := languageOrder + headers.keys;
    var i := 0;
    while i < |checkOrder|
      invariant 0 <= i <= |checkOrder|
      invariant LanguageScan(headers, checkOrder, table) == LanguageScan(headers, checkOrder[i..], table)
    {
      var header := checkOrder[i];
      assert checkOrder[i..][0] == header && checkOrder[i..][1..] == checkOrder[i + 1..];
      var agent := headers.Get(header);
      if agent.Some? && !BlankStr(agent.value) {
        var found := FirstCodeWalk(agent.value, table);
        if found.Some? {
          return found;
        }
      }
      i := i + 1;
    }
    return None;
  }
}
