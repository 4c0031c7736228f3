/** What the device detector computes, as functions: header normalisation,
    the device match cascade, build-info matching, and the high-accuracy
    contention that ratings resolve. The Device class in module Detection
    runs these steps against its live state and is proved against them. */
module DeviceSpecs {
  import opened RubyValues
  import opened OrderedHash
  import opened Normalise
  import opened Records
  import opened BaseMatcher
  import opened Extras
  import opened Rating
  import opened Overlays

  // ------------------------------------------------------ header normalisation

  /** gsub of one character by another. */
  function Replace(s: string, from: char, to: char): (r: string)
    ensures |r| == |s|
    ensures forall i :: 0 <= i < |s| ==> r[i] == (if s[i] == from then to else s[i])
  {
    seq(|s|, i requires 0 <= i < |s| => if s[i] == from then to else s[i])
  }

  /** The ',' and ';' separated tokens of a language header, lower-cased and
      without spaces. */
  function LanguageTokens(value: string): seq<string>
  {
    Split(Replace(DropSpaces(Downcase(value)), ';', ','), ',')
  }

  predicate IsLanguageHeader(key: string) { key == "accept-language" || key == "content-language" }

  /** A value that arrived with '+' for every space: no space, more than
      five '+' and longer than 20 characters. */
  predicate PlusEncoded(value: string)
  {
    multiset(value)[' '] == 0 && multiset(value)['+'] > 5 && |value| > 20
  }

  /** The name and value one incoming header is stored under, None when a
      language header has no usable first token and is skipped. */
  function NormaliseHeader(key: string, value: string): (r: Option<(string, string)>)
    ensures r.None? ==> IsLanguageHeader(Downcase(key))
    ensures r.Some? ==> r.value.0 == (if IsLanguageHeader(Downcase(key)) then "language" else Downcase(key))
  {
    var k := Downcase(key);
    if IsLanguageHeader(k) then
      var tokens := LanguageTokens(value);
      if tokens == [] || BlankStr(tokens[0]) then None else Some(("language", tokens[0]))
    else if k != "profile" && k != "x-wap-profile" && PlusEncoded(value) then Some((k, Replace(value, '+', ' ')))
    else Some((k, value))
  }

  /** One header written into a stored header list, cleansed for cls. */
  function AbsorbOne(acc: OrdMap<string>, headers: OrdMap<string>, key: string, cls: string): (r: OrdMap<string>)
    requires acc.Valid()
    ensures r.Valid()
  {
    match headers.Get(key)
    case None => acc
    case Some(v) =>
      match NormaliseHeader(key, v)
      case None => acc
      case Some((k, w)) => acc.Put(k, CleanFor(cls, w))
  }

  /** The stored header list after writing the headers named by keys, in
      order, on top of what it already held. */
  function Absorb(acc: OrdMap<string>, headers: OrdMap<string>, keys: seq<string>, cls: string): (r: OrdMap<string>)
    requires acc.Valid()
    ensures r.Valid()
    decreases |keys|
  {
    if keys == [] then acc else Absorb(AbsorbOne(acc, headers, keys[0], cls), headers, keys[1..], cls)
  }

  /** One header of the suffix keys[i..]. */
  lemma AbsorbStep(acc: OrdMap<string>, headers: OrdMap<string>, keys: seq<string>, i: int, cls: string)
    requires acc.Valid() && 0 <= i < |keys|
    ensures Absorb(acc, headers, keys[i..], cls) == Absorb(AbsorbOne(acc, headers, keys[i], cls), headers, keys[i + 1..], cls)
  {
    assert keys[i..][1..] == keys[i + 1..] && keys[i..][0] == keys[i];
  }

  /** Header key stores something under name k. */
  predicate Produces(headers: OrdMap<string>, key: string, k: string)
  {
    headers.Get(key).Some? && NormaliseHeader(key, headers.Get(key).value).Some? &&
    NormaliseHeader(key, headers.Get(key).value).value.0 == k
  }

  /** Absorbing keeps every name the list held before (the lists persist
      from one detection to the next), adds every name a header produces,
      and nothing else. */
  lemma {:induction false} AbsorbNames(acc: OrdMap<string>, headers: OrdMap<string>, keys: seq<string>, cls: string)
    requires acc.Valid()
    ensures var r := Absorb(acc, headers, keys, cls);
            (forall k :: acc.Has(k) ==> r.Has(k)) &&
            (forall i, k :: 0 <= i < |keys| && Produces(headers, keys[i], k) ==> r.Has(k)) &&
            (forall k :: r.Has(k) ==> acc.Has(k) || exists i :: 0 <= i < |keys| && Produces(headers, keys[i], k))
    decreases |keys|
  {
    if keys != [] {
      var next := AbsorbOne(acc, headers, keys[0], cls);
      AbsorbOneNames(acc, headers, keys[0], cls);
      AbsorbNames(next, headers, keys[1..], cls);
      var r := Absorb(acc, headers, keys, cls);
      assert r == Absorb(next, headers, keys[1..], cls);
      assert forall k :: next.Has(k) ==> r.Has(k);
      assert forall i, k :: 0 <= i < |keys[1..]| && Produces(headers, keys[1..][i], k) ==> r.Has(k);
      forall i, k | 0 <= i < |keys| && Produces(headers, keys[i], k) ensures r.Has(k) {
        if i > 0 {
          assert keys[i] == keys[1..][i - 1];
          assert Produces(headers, keys[1..][i - 1], k);
        } else {
          assert next.Has(k);
        }
      }
      forall k | r.Has(k) && !acc.Has(k) ensures exists i :: 0 <= i < |keys| && Produces(headers, keys[i], k) {
        if !Produces(headers, keys[0], k) {
          var i :| 0 <= i < |keys[1..]| && Produces(headers, keys[1..][i], k);
          assert keys[i + 1] == keys[1..][i];
        }
      }
    }
  }

  lemma AbsorbOneNames(acc: OrdMap<string>, headers: OrdMap<string>, key: string, cls: string)
    requires acc.Valid()
    ensures forall k :: AbsorbOne(acc, headers, key, cls).Has(k) <==> acc.Has(k) || Produces(headers, key, k)
  {
  }

  /** A value is stored cleansed: cleansing it again changes nothing. */
  predicate AllCleansed(m: OrdMap<string>, cls: string)
  {
    forall k :: k in m.values ==> CleanFor(cls, m.values[k]) == m.values[k]
  }

  lemma CleanForIdempotent(cls: string, s: string)
    ensures CleanFor(cls, CleanFor(cls, s)) == CleanFor(cls, s)
  {
    if cls == "device" { CleanStrIdempotent(s); } else { ExtraCleanStrIdempotent(s); }
  }

  /** Absorbing keeps every stored value cleansed, which is why get_match
      may cleanse a stored value again without changing it. */
  lemma {:induction false} AbsorbCleansed(acc: OrdMap<string>, headers: OrdMap<string>, keys: seq<string>, cls: string)
    requires acc.Valid() && AllCleansed(acc, cls)
    ensures AllCleansed(Absorb(acc, headers, keys, cls), cls)
    decreases |keys|
  {
    if keys != [] {
      var next := AbsorbOne(acc, headers, keys[0], cls);
      forall k | k in next.values ensures CleanFor(cls, next.values[k]) == next.values[k] {
        if next != acc && k !in acc.values {
          CleanForIdempotent(cls, headers.Get(keys[0]).value);
          CleanForIdempotent(cls, NormaliseHeader(keys[0], headers.Get(keys[0]).value).value.1);
        } else if next != acc {
          CleanForIdempotent(cls, NormaliseHeader(keys[0], headers.Get(keys[0]).value).value.1);
        }
      }
      AbsorbCleansed(next, headers, keys[1..], cls);
    }
  }

  /** A header that is stored at all. */
  predicate Stored(headers: OrdMap<string>, key: string)
  {
    headers.Get(key).Some? && NormaliseHeader(key, headers.Get(key).value).Some?
  }

  /** The last header of the list decides the value stored under its name. */
  lemma {:induction false} AbsorbLastWins(acc: OrdMap<string>, headers: OrdMap<string>, keys: seq<string>, cls: string)
    requires acc.Valid() && keys != [] && Stored(headers, keys[|keys| - 1])
    ensures var last := keys[|keys| - 1];
            var w := NormaliseHeader(last, headers.Get(last).value).value;
            Absorb(acc, headers, keys, cls).Get(w.0) == Some(CleanFor(cls, w.1))
    decreases |keys|
  {
    if |keys| > 1 {
      AbsorbLastWins(AbsorbOne(acc, headers, keys[0], cls), headers, keys[1..], cls);
      assert keys[1..][|keys[1..]| - 1] == keys[|keys| - 1];
    }
  }

  /** A language header whose first token is a plain lower-case code is
      stored under 'language' as that code. */
  lemma LanguageHeaderKeepsFirstCode(key: string, code: string, rest: string)
    requires IsLanguageHeader(Downcase(key))
    requires code != [] && !IsSpace(code[0])
    requires forall i :: 0 <= i < |code| ==> code[i] != ',' && code[i] != ';' && code[i] != ' ' && !IsUpper(code[i])
    ensures NormaliseHeader(key, code + "," + rest) == Some(("language", code))
  {
    var tail := LanguageText(code, rest);
    var t := code + "," + tail;
    FieldsOfSepFree(code, tail, ',');
    assert t == code + [','] + tail;
    DropTrailingKeepsFirst(Fields(t, ','));
    assert LanguageTokens(code + "," + rest) == Split(t, ',');
  }

  /** The lower-cased, space-free, ';'-to-',' text of a language header
      that starts with a plain code and a comma. */
  lemma LanguageText(code: string, rest: string) returns (tail: string)
    requires forall i :: 0 <= i < |code| ==> code[i] != ';' && code[i] != ' ' && !IsUpper(code[i])
    ensures Replace(DropSpaces(Downcase(code + "," + rest)), ';', ',') == code + "," + tail
  {
    tail := Replace(DropSpaces(Downcase(rest)), ';', ',');
    DowncaseNoUpper(code);
    DropSpacesNoSpace(code);
    var lower := LowerText(code, rest);
    assert lower == code + ("," + Downcase(rest));
    DropSpacesAppend(code, "," + Downcase(rest));
    DropSpacesAppend(",", Downcase(rest));
    assert DropSpaces(",") == ",";
    var d := code + ("," + DropSpaces(Downcase(rest)));
    assert DropSpaces(lower) == d;
    ReplaceAppend(code, "," + DropSpaces(Downcase(rest)), ';', ',');
    ReplaceAppend(",", DropSpaces(Downcase(rest)), ';', ',');
    assert Replace(code, ';', ',') == code;
    assert Replace(",", ';', ',') == ",";
  }

  lemma LowerText(code: string, rest: string) returns (lower: string)
    requires Downcase(code) == code
    ensures lower == Downcase(code + "," + rest) && lower == code + ("," + Downcase(rest))
  {
    lower := Downcase(code + "," + rest);
    assert code + "," + rest == code + ("," + rest);
    DowncaseAppend(code, "," + rest);
    DowncaseAppend(",", rest);
    assert Downcase(",") == ",";
  }

  lemma ReplaceAppend(a: string, b: string, from: char, to: char)
    ensures Replace(a + b, from, to) == Replace(a, from, to) + Replace(b, from, to)
  {
  }

  lemma DropTrailingKeepsFirst(fs: seq<string>)
    requires fs != [] && fs[0] != ""
    ensures DropTrailingEmpty(fs) != [] && DropTrailingEmpty(fs)[0] == fs[0]
    decreases |fs|
  {
    if fs[|fs| - 1] == "" {
      DropTrailingKeepsFirst(fs[..|fs| - 1]);
    }
  }

  lemma {:induction false} DowncaseAppend(a: string, b: string)
    ensures Downcase(a + b) == Downcase(a) + Downcase(b)
  {
    if a != [] {
      DowncaseAppend(a[1..], b);
      assert (a + b)[1..] == a[1..] + b;
    }
  }

  lemma {:induction false} DowncaseNoUpper(s: string)
    requires forall i :: 0 <= i < |s| ==> !IsUpper(s[i])
    ensures Downcase(s) == s
  {
    if s != [] { DowncaseNoUpper(s[1..]); }
  }

  lemma {:induction false} DropSpacesAppend(a: string, b: string)
    ensures DropSpaces(a + b) == DropSpaces(a) + DropSpaces(b)
  {
    if a != [] {
      DropSpacesAppend(a[1..], b);
      var c := if a[0] == ' ' then [] else [a[0]];
      calc {
        DropSpaces(a + b);
        { assert (a + b)[0] == a[0] && (a + b)[1..] == a[1..] + b; }
        c + DropSpaces(a[1..] + b);
        c + (DropSpaces(a[1..]) + DropSpaces(b));
        (c + DropSpaces(a[1..])) + DropSpaces(b);
        DropSpaces(a) + DropSpaces(b);
      }
    } else {
      assert a + b == b;
    }
  }

  lemma {:induction false} DropSpacesNoSpace(s: string)
    requires forall i :: 0 <= i < |s| ==> s[i] != ' '
    ensures DropSpaces(s) == s
  {
    if s != [] { DropSpacesNoSpace(s[1..]); }
  }

  /** A '+'-encoded value outside the profile headers is stored with every
      '+' turned back into a space; a profile header keeps its '+'. */
  lemma PlusDecoding(key: string, value: string)
    requires PlusEncoded(value) && !IsLanguageHeader(Downcase(key))
    ensures Downcase(key) != "profile" && Downcase(key) != "x-wap-profile" ==>
              NormaliseHeader(key, value) == Some((Downcase(key), Replace(value, '+', ' '))) &&
              '+' !in Replace(value, '+', ' ')
    ensures Downcase(key) == "profile" ==> NormaliseHeader(key, value) == Some(("profile", value))
  {
  }

  // ------------------------------------------------------------- match_device

  /** A header the exact probes try: present with a non-blank value, and for
      x-operamini-phone not the "? # ?" placeholder. */
  predicate Probed(headers: OrdMap<string>, field: string)
  {
    Filled(headers, field) && (field != "x-operamini-phone" || Strip(headers.Get(field).value) != "? # ?")
  }

  /** The state an exact probe leaves: its hit, the headers, the memo. */
  datatype Step = Step(hit: Option<Val>, headers: OrdMap<string>, tree: map<string, Entry>)

  /** One exact probe: the header's value looked up in the table of header
      in subtree 0. A truthy node is a hit; a miss deletes the header. */
  function ProbeStep(store: Store, headers: OrdMap<string>, tree: map<string, Entry>, field: string,
                     header: string): (r: Step)
    requires headers.Valid()
    ensures r.headers.Valid()
  {
    if !Probed(headers, field) then Step(None, headers, tree)
    else
      var v := headers.Get(field).value;
      var node := MatchSpec(store, header, v, DETECTIONV4_STANDARD, "device").node;
      var tree' := MatchTree(tree, store, header, v, DETECTIONV4_STANDARD, "device");
      if Truthy(node) then Step(Some(node), headers, tree')
      else Step(None, headers.Delete(field), tree')
  }

  /** What match_device leaves: the device found (None for Ruby's false),
      the headers after its deletions, the extended device order, the memo
      and the rule keys. */
  datatype DeviceMatch = DeviceMatch(device: Option<DeviceRecord>, headers: OrdMap<string>, order: seq<string>,
                                     tree: map<string, Entry>, keys: Option<map<string, string>>)

  /** The node of the generic tries and the matcher state they leave. */
  datatype Generic = Generic(id: Val, keys: Option<map<string, string>>, tree: map<string, Entry>)

  /** The headers the generic tries read, in order. */
  const GenericFields: seq<string> := ["x-operamini-phone-ua", "agent", "user-agent"]

  /** The generic tries: while the node found so far is blank, each listed
      header that is present is matched by the sieve in subtree 1. */
  function GenericTries(store: Store, headers: OrdMap<string>, fields: seq<string>, id: Val,
                        keys: Option<map<string, string>>, tree: map<string, Entry>): (r: Generic)
    requires keys.Some?
    ensures r.keys.Some?
    decreases |fields|, headers
  {
    if fields == [] then Generic(id, keys, tree)
    else if Blank(id) && headers.Has(fields[0]) then
      var v := headers.Get(fields[0]).value;
      var m := MatchSpec(store, "user-agent", v, DETECTIONV4_GENERIC, "device");
      GenericTries(store, headers, fields[1..], m.node, Record(keys, "device", m.key),
                   MatchTree(tree, store, "user-agent", v, DETECTIONV4_GENERIC, "device"))
    else GenericTries(store, headers, fields[1..], id, keys, tree)
  }

  /** The user-agent stage: the device order extended with the x- header
      names, scanned with the sieve in subtree 0; on a total miss, the
      generic tries. */
  function UaStage(store: Store, headers: OrdMap<string>, order: seq<string>, tree: map<string, Entry>,
                   keys: Option<map<string, string>>): (r: DeviceMatch)
    requires headers.Valid() && keys.Some?
    ensures r.headers == headers && r.keys.Some? && r.order == ExtendOrder(order, headers.keys)
  {
    var order' := ExtendOrder(order, headers.keys);
    var s := SieveScan(store, DETECTIONV4_STANDARD, "device", headers, order', keys, tree);
    if s.node.Some? then DeviceMatch(FindDevice(store, s.node.value), headers, order', s.tree, s.keys)
    else
      var g := GenericTries(store, headers, GenericFields, VBool(false), s.keys, s.tree);
      DeviceMatch(if Blank(g.id) then None else FindDevice(store, g.id), headers, order', g.tree, g.keys)
  }

  /** match_device: the opera phone probe, the two profile probes, then the
      user-agent stage; the first hit decides, and a hit whose record is
      missing is a miss of the whole match. */
  function MatchDeviceSpec(store: Store, headers: OrdMap<string>, order: seq<string>, tree: map<string, Entry>,
                           keys: Option<map<string, string>>): (r: DeviceMatch)
    requires headers.Valid() && keys.Some?
    ensures r.headers.Valid() && r.keys.Some?
  {
    var s1 := ProbeStep(store, headers, tree, "x-operamini-phone", "x-operamini-phone");
    if s1.hit.Some? then DeviceMatch(FindDevice(store, s1.hit.value), s1.headers, order, s1.tree, keys)
    else
      var s2 := ProbeStep(store, s1.headers, s1.tree, "profile", "profile");
      if s2.hit.Some? then DeviceMatch(FindDevice(store, s2.hit.value), s2.headers, order, s2.tree, keys)
      else
        var s3 := ProbeStep(store, s2.headers, s2.tree, "x-wap-profile", "profile");
        if s3.hit.Some? then DeviceMatch(FindDevice(store, s3.hit.value), s3.headers, order, s3.tree, keys)
        else UaStage(store, s3.headers, order, s3.tree, keys)
  }

  /** The three headers the probes may delete. */
  predicate ProbeField(k: string) { k == "x-operamini-phone" || k == "profile" || k == "x-wap-profile" }

  /** A probe keeps the headers or deletes its own field. */
  lemma ProbeStepHeaders(store: Store, headers: OrdMap<string>, tree: map<string, Entry>, field: string, header: string)
    requires headers.Valid()
    ensures var r := ProbeStep(store, headers, tree, field, header).headers;
            (forall k :: k != field ==> r.Get(k) == headers.Get(k)) &&
            (forall k :: r.Has(k) ==> headers.Has(k)) &&
            (forall k :: k in r.keys ==> k in headers.keys)
  {
  }

  /** match_device deletes at most the three probed headers and leaves
      every other header as it was. */
  lemma MatchDeviceHeaders(store: Store, headers: OrdMap<string>, order: seq<string>, tree: map<string, Entry>,
                           keys: Option<map<string, string>>)
    requires headers.Valid() && keys.Some?
    ensures var r := MatchDeviceSpec(store, headers, order, tree, keys).headers;
            (forall k :: !ProbeField(k) ==> r.Get(k) == headers.Get(k)) &&
            (forall k :: r.Has(k) ==> headers.Has(k))
  {
    var s1 := ProbeStep(store, headers, tree, "x-operamini-phone", "x-operamini-phone");
    var s2 := ProbeStep(store, s1.headers, s1.tree, "profile", "profile");
    var s3 := ProbeStep(store, s2.headers, s2.tree, "x-wap-profile", "profile");
    ProbeStepHeaders(store, headers, tree, "x-operamini-phone", "x-operamini-phone");
    ProbeStepHeaders(store, s1.headers, s1.tree, "profile", "profile");
    ProbeStepHeaders(store, s2.headers, s2.tree, "x-wap-profile", "profile");
    var r := MatchDeviceSpec(store, headers, order, tree, keys).headers;
    assert r == s1.headers || r == s2.headers || r == s3.headers;
  }

  /** The device order only grows: the old list stays its prefix, and what
      is appended are x- header names. */
  lemma MatchDeviceOrder(store: Store, headers: OrdMap<string>, order: seq<string>, tree: map<string, Entry>,
                         keys: Option<map<string, string>>)
    requires headers.Valid() && keys.Some?
    ensures var r := MatchDeviceSpec(store, headers, order, tree, keys);
            order <= r.order && forall k :: k in r.order ==> k in order || (k in headers.keys && IsXHeader(k))
  {
    var s1 := ProbeStep(store, headers, tree, "x-operamini-phone", "x-operamini-phone");
    var s2 := ProbeStep(store, s1.headers, s1.tree, "profile", "profile");
    var s3 := ProbeStep(store, s2.headers, s2.tree, "x-wap-profile", "profile");
    ProbeStepHeaders(store, headers, tree, "x-operamini-phone", "x-operamini-phone");
    ProbeStepHeaders(store, s1.headers, s1.tree, "profile", "profile");
    ProbeStepHeaders(store, s2.headers, s2.tree, "x-wap-profile", "profile");
    ExtendOrderSpec(order, s3.headers.keys);
    var r := MatchDeviceSpec(store, headers, order, tree, keys);
    assert r.order == order || r.order == ExtendOrder(order, s3.headers.keys);
  }

  /** Two rule-key tables that agree on every class but cls. */
  ghost predicate SameExcept(a: map<string, string>, b: map<string, string>, cls: string)
  {
    forall c :: c != cls ==> (c in a <==> c in b) && (c in a ==> a[c] == b[c])
  }

  lemma {:induction false} SieveScanKeysOnly(store: Store, subtree: string, cls: string, headers: OrdMap<string>,
                                             order: seq<string>, keys: Option<map<string, string>>,
                                             tree: map<string, Entry>)
    requires keys.Some?
    ensures SameExcept(SieveScan(store, subtree, cls, headers, order, keys, tree).keys.value, keys.value, cls)
  {
    if order != [] {
      var v := headers.Get(order[0]);
      if v.Some? && !BlankStr(v.value) {
        var m := MatchSpec(store, "user-agent", v.value, subtree, cls);
        var keys' := Record(keys, cls, m.key);
        assert SameExcept(keys'.value, keys.value, cls);
        if !Truthy(m.node) {
          var tree' := MatchTree(tree, store, "user-agent", v.value, subtree, cls);
          SieveScanKeysOnly(store, subtree, cls, headers, order[1..], keys', tree');
          SameExceptChains(SieveScan(store, subtree, cls, headers, order[1..], keys', tree').keys.value,
                           keys'.value, keys.value, cls);
        }
      } else {
        SieveScanKeysOnly(store, subtree, cls, headers, order[1..], keys, tree);
      }
    }
  }

  lemma SameExceptChains(a: map<string, string>, b: map<string, string>, c: map<string, string>, cls: string)
    requires SameExcept(a, b, cls) && SameExcept(b, c, cls)
    ensures SameExcept(a, c, cls)
  {
  }

  lemma {:induction false} GenericTriesKeysOnly(store: Store, headers: OrdMap<string>, fields: seq<string>, id: Val,
                                                keys: Option<map<string, string>>, tree: map<string, Entry>)
    requires keys.Some?
    ensures SameExcept(GenericTries(store, headers, fields, id, keys, tree).keys.value, keys.value, "device")
    decreases |fields|
  {
    if fields != [] {
      if Blank(id) && headers.Has(fields[0]) {
        var v := headers.Get(fields[0]).value;
        var m := MatchSpec(store, "user-agent", v, DETECTIONV4_GENERIC, "device");
        GenericTriesKeysOnly(store, headers, fields[1..], m.node, Record(keys, "device", m.key),
                             MatchTree(tree, store, "user-agent", v, DETECTIONV4_GENERIC, "device"));
      } else {
        GenericTriesKeysOnly(store, headers, fields[1..], id, keys, tree);
      }
    }
  }

  /** match_device records a rule key under 'device' only: the keys of the
      extras classes are untouched. */
  lemma MatchDeviceKeys(store: Store, headers: OrdMap<string>, order: seq<string>, tree: map<string, Entry>,
                        keys: Option<map<string, string>>)
    requires headers.Valid() && keys.Some?
    ensures SameExcept(MatchDeviceSpec(store, headers, order, tree, keys).keys.value, keys.value, "device")
  {
    var s1 := ProbeStep(store, headers, tree, "x-operamini-phone", "x-operamini-phone");
    var s2 := ProbeStep(store, s1.headers, s1.tree, "profile", "profile");
    var s3 := ProbeStep(store, s2.headers, s2.tree, "x-wap-profile", "profile");
    if s1.hit.None? && s2.hit.None? && s3.hit.None? {
      var order' := ExtendOrder(order, s3.headers.keys);
      var s := SieveScan(store, DETECTIONV4_STANDARD, "device", s3.headers, order', keys, s3.tree);
      SieveScanKeysOnly(store, DETECTIONV4_STANDARD, "device", s3.headers, order', keys, s3.tree);
      GenericTriesKeysOnly(store, s3.headers, GenericFields, VBool(false), s.keys, s.tree);
    }
  }

  /** In the user-agent stage the first header of the extended order whose
      sieve match is truthy decides the device. */
  lemma UaStageFirstHitWins(store: Store, headers: OrdMap<string>, order: seq<string>, tree: map<string, Entry>,
                            keys: Option<map<string, string>>)
    requires headers.Valid() && keys.Some?
    ensures var f := FirstHit(store, DETECTIONV4_STANDARD, "device", headers, ExtendOrder(order, headers.keys));
            f.Some? ==> UaStage(store, headers, order, tree, keys).device ==
                          FindDevice(store, NodeFor(store, DETECTIONV4_STANDARD, "device", headers, f.value))
  {
    SieveScanFindsFirstHit(store, DETECTIONV4_STANDARD, "device", headers, ExtendOrder(order, headers.keys), keys, tree);
  }

  /** Without any standard hit, the generic tries decide: a non-blank node
      names the device. */
  lemma UaStageFallsBackToGeneric(store: Store, headers: OrdMap<string>, order: seq<string>, tree: map<string, Entry>,
                                  keys: Option<map<string, string>>)
    requires headers.Valid() && keys.Some?
    requires FirstHit(store, DETECTIONV4_STANDARD, "device", headers, ExtendOrder(order, headers.keys)).None?
    ensures var s := SieveScan(store, DETECTIONV4_STANDARD, "device", headers, ExtendOrder(order, headers.keys), keys, tree);
            var g := GenericTries(store, headers, GenericFields, VBool(false), s.keys, s.tree);
            UaStage(store, headers, order, tree, keys).device == (if Blank(g.id) then None else FindDevice(store, g.id))
  {
    SieveScanFindsFirstHit(store, DETECTIONV4_STANDARD, "device", headers, ExtendOrder(order, headers.keys), keys, tree);
  }

  // ------------------------------------------------------------ local_detect

  /** The headers with every name lower-cased, in first-seen order; a later
      header whose name lower-cases to an earlier one overwrites its value. */
  function LowerNames(acc: OrdMap<string>, h: OrdMap<string>, keys: seq<string>): (r: OrdMap<string>)
    requires acc.Valid()
    ensures r.Valid()
    decreases |keys|
  {
    if keys == [] then acc
    else
      var next := match h.Get(keys[0]) case None => acc case Some(v) => acc.Put(Downcase(keys[0]), v);
      LowerNames(next, h, keys[1..])
  }

  /** One header of the suffix keys[i..], for a header h holds. */
  lemma LowerNamesStep(acc: OrdMap<string>, h: OrdMap<string>, keys: seq<string>, i: int)
    requires acc.Valid() && 0 <= i < |keys| && h.Has(keys[i])
    ensures LowerNames(acc, h, keys[i..]) == LowerNames(acc.Put(Downcase(keys[i]), h.values[keys[i]]), h, keys[i + 1..])
  {
    assert keys[i..][1..] == keys[i + 1..] && keys[i..][0] == keys[i];
  }

  ghost predicate AllLower(m: OrdMap<string>) { forall k :: m.Has(k) ==> Downcase(k) == k }

  lemma DowncaseIdempotent(s: string)
    ensures Downcase(Downcase(s)) == Downcase(s)
  {
  }

  /** After lower-casing, every header name is in lower case. */
  lemma {:induction false} LowerNamesAreLower(acc: OrdMap<string>, h: OrdMap<string>, keys: seq<string>)
    requires acc.Valid() && AllLower(acc)
    ensures AllLower(LowerNames(acc, h, keys))
    decreases |keys|
  {
    if keys != [] {
      DowncaseIdempotent(keys[0]);
      var next := match h.Get(keys[0]) case None => acc case Some(v) => acc.Put(Downcase(keys[0]), v);
      LowerNamesAreLower(next, h, keys[1..]);
    }
  }

  /** A header is found under its lower-cased name whatever its case. */
  lemma {:induction false} LowerNamesFinds(acc: OrdMap<string>, h: OrdMap<string>, keys: seq<string>, i: int)
    requires acc.Valid() && 0 <= i < |keys| && h.Has(keys[i])
    ensures LowerNames(acc, h, keys).Has(Downcase(keys[i]))
    decreases |keys|
  {
    var next := match h.Get(keys[0]) case None => acc case Some(v) => acc.Put(Downcase(keys[0]), v);
    if i == 0 {
      LowerNamesKeeps(next, h, keys[1..], Downcase(keys[0]));
    } else {
      LowerNamesFinds(next, h, keys[1..], i - 1);
    }
  }

  lemma {:induction false} LowerNamesKeeps(acc: OrdMap<string>, h: OrdMap<string>, keys: seq<string>, k: string)
    requires acc.Valid() && acc.Has(k)
    ensures LowerNames(acc, h, keys).Has(k)
    decreases |keys|
  {
    if keys != [] {
      var next := match h.Get(keys[0]) case None => acc case Some(v) => acc.Put(Downcase(keys[0]), v);
      LowerNamesKeeps(next, h, keys[1..], k);
    }
  }

  /** The headers local_detect matches on: names lower-cased, the
      x-local-hardwareinfo header taken out. */
  function DetectHeaders(h: OrdMap<string>): (r: OrdMap<string>)
    requires h.Valid()
    ensures r.Valid() && !r.Has("x-local-hardwareinfo")
  {
    LowerNames(Empty(), h, h.keys).Delete("x-local-hardwareinfo")
  }

  /** The hardware info local_detect hands to the HTTP detection. */
  function HardwareInfoOf(h: OrdMap<string>): Option<string>
    requires h.Valid()
  {
    LowerNames(Empty(), h, h.keys).Get("x-local-hardwareinfo")
  }

  /** A request with an Agent or User-Agent header, in any case, is matched
      as HTTP headers, never by build info. */
  lemma AgentMeansHttp(h: OrdMap<string>, i: int)
    requires h.Valid() && 0 <= i < |h.keys| && h.Has(h.keys[i])
    requires Downcase(h.keys[i]) == "agent" || Downcase(h.keys[i]) == "user-agent"
    ensures HasBiKeysSpec(DetectHeaders(h)).None?
  {
    LowerNamesFinds(Empty(), h, h.keys, i);
    DeleteGet(LowerNames(Empty(), h, h.keys), "x-local-hardwareinfo", Downcase(h.keys[i]));
  }

  // -------------------------------------------------------------- build info

  /** The characters the build-info trim removes at either end: '|', space,
      tab, newline, vertical tab, carriage return and NUL. */
  predicate IsBiTrim(c: char) { c == '|' || c == ' ' || c as int == 0 || 9 <= c as int <= 11 || c as int == 13 }

  function TrimBiLeft(s: string): (r: string)
    ensures |r| <= |s| && r == s[|s| - |r|..]
    ensures r == [] || !IsBiTrim(r[0])
  {
    if s != [] && IsBiTrim(s[0]) then TrimBiLeft(s[1..]) else s
  }

  function TrimBiRight(s: string): (r: string)
    ensures r <= s
    ensures r == [] || !IsBiTrim(r[|r| - 1])
  {
    if s != [] && IsBiTrim(s[|s| - 1]) then TrimBiRight(s[..|s| - 1]) else s
  }

  /** The trim of a composed build-info value. */
  function TrimBi(s: string): (r: string)
    ensures r == [] || (!IsBiTrim(r[0]) && !IsBiTrim(r[|r| - 1]))
  {
    var l := TrimBiLeft(s);
    var r := TrimBiRight(l);
    assert r != [] ==> r[0] == l[0];
    r
  }

  /** A tuple's value: '|' before each part, the part being the platform name
      for 'hd-platform' and the build-info value of the key otherwise; None
      when a key is missing. */
  function TupleValue(tuple: seq<string>, platform: string, info: OrdMap<string>): (r: Option<string>)
    decreases |tuple|, info
    ensures r.None? <==> exists i :: 0 <= i < |tuple| && tuple[i] != "hd-platform" && !info.Has(tuple[i])
  {
    if tuple == [] then Some("")
    else
      var part := if tuple[0] == "hd-platform" then Some(platform) else info.Get(tuple[0]);
      var rest := TupleValue(tuple[1..], platform, info);
      assert forall i :: 1 <= i < |tuple| ==> tuple[i] == tuple[1..][i - 1];
      if part.Some? && rest.Some? then Some("|" + part.value + rest.value) else None
  }

  /** The id an exact build-info lookup gives (None for a blank node), and
      the memo it leaves. */
  datatype BiProbe = BiProbe(id: Option<Val>, tree: map<string, Entry>)

  function BiTry(store: Store, value: string, subtree: string, cls: string, tree: map<string, Entry>): BiProbe
  {
    var node := MatchSpec(store, "buildinfo", value, subtree, cls).node;
    BiProbe(if Blank(node) then None else Some(node), MatchTree(tree, store, "buildinfo", value, subtree, cls))
  }

  /** The tuples of one platform, in order: the first complete tuple whose
      trimmed value has a non-blank node decides. */
  function BiScanTuples(store: Store, platform: string, tuples: seq<seq<string>>, info: OrdMap<string>,
                        subtree: string, cls: string, tree: map<string, Entry>): (r: BiProbe)
    decreases |tuples|, info
  {
    if tuples == [] then BiProbe(None, tree)
    else
      match TupleValue(tuples[0], platform, info)
      case None => BiScanTuples(store, platform, tuples[1..], info, subtree, cls, tree)
      case Some(v) =>
        var t := BiTry(store, TrimBi(v), subtree, cls, tree);
        if t.id.Some? then t else BiScanTuples(store, platform, tuples[1..], info, subtree, cls, t.tree)
  }

  /** The platforms of a bi-order table, in order. */
  function BiScanOrder(store: Store, order: BiOrder, info: OrdMap<string>, subtree: string, cls: string,
                       tree: map<string, Entry>): (r: BiProbe)
    decreases |order|, info
  {
    if order == [] then BiProbe(None, tree)
    else
      var t := BiScanTuples(store, order[0].0, order[0].1, info, subtree, cls, tree);
      if t.id.Some? then t else BiScanOrder(store, order[1..], info, subtree, cls, t.tree)
  }

  /** The generic values, tried in order. */
  function BiGeneric(store: Store, values: seq<string>, subtree: string, cls: string, tree: map<string, Entry>): (r: BiProbe)
    decreases |values|
  {
    if values == [] then BiProbe(None, tree)
    else
      var t := BiTry(store, values[0], subtree, cls, tree);
      if t.id.Some? then t else BiGeneric(store, values[1..], subtree, cls, t.tree)
  }

  predicate BiCategory(category: string) { category == "device" || category == "platform" }

  /** The bi-order table of a category, as the configuration writes it (the
      platform table keeps its upper-case iOS key). */
  function BiOrderFor(category: string): BiOrder
  {
    if category == "device" then DeviceBiOrder else PlatformBiOrderAsWritten
  }

  /** Devices are looked up in subtree 0 (1 for the generic values), the
      platform in the subtree named after it. */
  function BiSubtree(category: string, generic: bool): string
  {
    if category != "device" then category
    else if generic then DETECTIONV4_GENERIC else DETECTIONV4_STANDARD
  }

  /** v4_match_bi_helper: the tuples of the category's bi-order table, then
      "generic|p" and "p|generic" for the platform has_bi_keys names. */
  function BiHelperSpec(store: Store, info: OrdMap<string>, category: string, tree: map<string, Entry>): BiProbe
    requires BiCategory(category)
  {
    if info.values == map[] then BiProbe(None, tree)
    else
      var first := BiScanOrder(store, BiOrderFor(category), info, BiSubtree(category, false), category, tree);
      if first.id.Some? then first
      else
        match HasBiKeysSpec(info)
        case None => first
        case Some(p) => BiGeneric(store, ["generic|" + p, p + "|generic"], BiSubtree(category, true), category, first.tree)
  }

  /** The id v4_match_bi_helper returns is never blank. */
  lemma BiHelperIdsNonBlank(store: Store, info: OrdMap<string>, category: string, tree: map<string, Entry>)
    requires BiCategory(category)
    ensures var r := BiHelperSpec(store, info, category, tree); r.id.Some? ==> !Blank(r.id.value)
  {
    if info.values != map[] {
      BiScanIdsNonBlank(store, BiOrderFor(category), info, BiSubtree(category, false), category, tree);
      var first := BiScanOrder(store, BiOrderFor(category), info, BiSubtree(category, false), category, tree);
      match HasBiKeysSpec(info)
      case None =>
      case Some(p) => BiGenericIdsNonBlank(store, ["generic|" + p, p + "|generic"], BiSubtree(category, true), category, first.tree);
    }
  }

  lemma {:induction false} BiScanIdsNonBlank(store: Store, order: BiOrder, info: OrdMap<string>, subtree: string,
                                             cls: string, tree: map<string, Entry>)
    ensures var r := BiScanOrder(store, order, info, subtree, cls, tree); r.id.Some? ==> !Blank(r.id.value)
    decreases |order|
  {
    if order != [] {
      BiTuplesIdsNonBlank(store, order[0].0, order[0].1, info, subtree, cls, tree);
      var t := BiScanTuples(store, order[0].0, order[0].1, info, subtree, cls, tree);
      BiScanIdsNonBlank(store, order[1..], info, subtree, cls, t.tree);
    }
  }

  lemma {:induction false} BiTuplesIdsNonBlank(store: Store, platform: string, tuples: seq<seq<string>>,
                                               info: OrdMap<string>, subtree: string, cls: string,
                                               tree: map<string, Entry>)
    ensures var r := BiScanTuples(store, platform, tuples, info, subtree, cls, tree); r.id.Some? ==> !Blank(r.id.value)
    decreases |tuples|
  {
    if tuples != [] {
      match TupleValue(tuples[0], platform, info)
      case None => BiTuplesIdsNonBlank(store, platform, tuples[1..], info, subtree, cls, tree);
      case Some(v) =>
        var t := BiTry(store, TrimBi(v), subtree, cls, tree);
        if t.id.None? {
          BiTuplesIdsNonBlank(store, platform, tuples[1..], info, subtree, cls, t.tree);
        }
    }
  }

  lemma {:induction false} BiGenericIdsNonBlank(store: Store, values: seq<string>, subtree: string, cls: string,
                                                tree: map<string, Entry>)
    ensures var r := BiGeneric(store, values, subtree, cls, tree); r.id.Some? ==> !Blank(r.id.value)
    decreases |values|
  {
    if values != [] {
      var t := BiTry(store, values[0], subtree, cls, tree);
      BiGenericIdsNonBlank(store, values[1..], subtree, cls, t.tree);
    }
  }

  /** A platform none of whose tuples is complete is passed over without a
      lookup: the memo is not touched. */
  lemma {:induction false} IncompleteTuplesSkipped(store: Store, platform: string, tuples: seq<seq<string>>,
                                                   info: OrdMap<string>, subtree: string, cls: string,
                                                   tree: map<string, Entry>)
    requires forall t :: 0 <= t < |tuples| ==> TupleValue(tuples[t], platform, info).None?
    ensures BiScanTuples(store, platform, tuples, info, subtree, cls, tree) == BiProbe(None, tree)
    decreases |tuples|
  {
    if tuples != [] {
      assert TupleValue(tuples[0], platform, info).None?;
      assert forall t :: 1 <= t < |tuples| ==> tuples[t] == tuples[1..][t - 1];
      IncompleteTuplesSkipped(store, platform, tuples[1..], info, subtree, cls, tree);
    }
  }

  /** Two present keys compose to "|a|b"; trimmed, that is "a|b" when a does
      not start and b does not end with a trimmed character. */
  lemma TwoKeyValue(k1: string, k2: string, platform: string, info: OrdMap<string>)
    requires k1 != "hd-platform" && k2 != "hd-platform" && info.Has(k1) && info.Has(k2)
    requires info.values[k1] != [] && !IsBiTrim(info.values[k1][0])
    requires info.values[k2] != [] && !IsBiTrim(info.values[k2][|info.values[k2]| - 1])
    ensures TupleValue([k1, k2], platform, info) == Some("|" + info.values[k1] + "|" + info.values[k2])
    ensures TrimBi("|" + info.values[k1] + "|" + info.values[k2]) == info.values[k1] + "|" + info.values[k2]
  {
    var a := info.values[k1];
    var b := info.values[k2];
    assert [k1, k2][1..] == [k2];
    assert [k2][1..] == [];
    assert TupleValue([k2], platform, info) == Some("|" + b + "");
    assert "|" + b + "" == "|" + b;
    assert "|" + a + ("|" + b) == "|" + a + "|" + b;
    var s := "|" + a + "|" + b;
    assert s[1..] == a + "|" + b;
    assert TrimBiLeft(s[1..]) == s[1..];
    assert TrimBiLeft(s) == a + "|" + b;
  }

  /** The platform-bi-order table as written names 'uidevice.systemName';
      local_detect lower-cases every build-info name first, so that tuple is
      never complete and iOS build info never resolves a platform through
      it. */
  lemma IosPlatformTupleUnreachableAsWritten(h: OrdMap<string>)
    ensures var info := LowerNames(Empty(), h, h.keys);
            PlatformBiOrderAsWritten[1].0 == "ios" &&
            TupleValue(PlatformBiOrderAsWritten[1].1[0], "ios", info).None?
  {
    var info := LowerNames(Empty(), h, h.keys);
    LowerNamesAreLower(Empty(), h, h.keys);
    var name := "uidevice.systemName";
    assert PlatformBiOrderAsWritten[1].1[0][0] == name;
    assert Downcase(name)[15] == 'n' && name[15] == 'N';
    assert !info.Has(name);
  }

  /** With the name in lower case the iOS tuple composes as intended. */
  lemma IosPlatformTupleReachable(h: OrdMap<string>, i: int, j: int)
    requires 0 <= i < |h.keys| && 0 <= j < |h.keys| && h.Has(h.keys[i]) && h.Has(h.keys[j])
    requires Downcase(h.keys[i]) == "uidevice.systemname" && Downcase(h.keys[j]) == "uidevice.systemversion"
    ensures var info := LowerNames(Empty(), h, h.keys);
            PlatformBiOrder[1].0 == "ios" &&
            info.Has("uidevice.systemname") && info.Has("uidevice.systemversion") &&
            TupleValue(PlatformBiOrder[1].1[0], "ios", info) ==
              Some("|" + info.values["uidevice.systemname"] + "|" + info.values["uidevice.systemversion"])
  {
    var info := LowerNames(Empty(), h, h.keys);
    LowerNamesFinds(Empty(), h, h.keys, i);
    LowerNamesFinds(Empty(), h, h.keys, j);
    var t := PlatformBiOrder[1].1[0];
    assert t == ["uidevice.systemname", "uidevice.systemversion"];
    assert t[1..] == ["uidevice.systemversion"] && t[1..][1..] == [];
    var a := info.values["uidevice.systemname"];
    var b := info.values["uidevice.systemversion"];
    assert TupleValue(t[1..], "ios", info) == Some("|" + b + "");
    assert "|" + b + "" == "|" + b;
    assert "|" + a + ("|" + b) == "|" + a + "|" + b;
  }

  // ------------------------------------------------------ high accuracy checks

  /** The entry a hachecks branch holds under the device rule key (normally
      a list of candidate ids); None when it holds nothing or a blank value. */
  function CandidatesIn(branch: Entry, keys: map<string, string>): Option<Val>
  {
    if !branch.TableEntry? || "device" !in keys || keys["device"] !in branch.table ||
       Blank(branch.table[keys["device"]]) then None
    else Some(branch.table[keys["device"]])
  }

  /** get_high_accuracy_candidates as written: a missing hachecks branch
      raises, and so does a build-info detection, which leaves the rule keys
      nil. */
  function CandidatesAsWritten(branch: Option<Entry>, keys: Option<map<string, string>>): Outcome<Option<Val>>
  {
    if branch.None? || keys.None? then Raised else Done(CandidatesIn(branch.value, keys.value))
  }

  /** get_high_accuracy_candidates with nil rule keys read as "no rule key":
      a build-info detection has no candidates. */
  function Candidates(branch: Option<Entry>, keys: Option<map<string, string>>): (r: Outcome<Option<Val>>)
    ensures keys.Some? ==> r == CandidatesAsWritten(branch, keys)
    ensures branch.Some? && keys.None? ==> r == Done(None)
  {
    if branch.None? then Raised
    else if keys.None? then Done(None)
    else Done(CandidatesIn(branch.value, keys.value))
  }

  /** After a build-info detection (rule keys nil) the code as written
      raises whenever the hachecks branch exists; the corrected version
      answers "no candidates". */
  lemma HelperAfterBuildInfo(branch: Entry)
    ensures CandidatesAsWritten(Some(branch), None) == Raised
    ensures Candidates(Some(branch), None) == Done(None)
  {
  }

  /** A candidate passes when it has a record whose specs agree with the
      detected platform. */
  predicate Passes(store: Store, data: Option<ExtraRecord>, id: Val)
  {
    FindDevice(store, id).Some? && VerifyPlatformWith(data, FindDevice(store, id).value.specs)
  }

  /** The candidates that pass the platform check, in order; a candidate
      without a record raises. */
  function PlatformPass(store: Store, data: Option<ExtraRecord>, ids: seq<Val>): Outcome<seq<Val>>
    decreases |ids|
  {
    if ids == [] then Done([])
    else if FindDevice(store, ids[0]).None? then Raised
    else
      var rest := PlatformPass(store, data, ids[1..]);
      if rest.Raised? then Raised
      else Done((if Passes(store, data, ids[0]) then [ids[0]] else []) + rest.value)
  }

  /** The check raises exactly when some candidate has no record; otherwise
      it keeps exactly the candidates that pass, in order, and no other. */
  lemma {:induction false} PlatformPassExactly(store: Store, data: Option<ExtraRecord>, ids: seq<Val>)
    ensures PlatformPass(store, data, ids).Done? <==> forall i :: 0 <= i < |ids| ==> FindDevice(store, ids[i]).Some?
    ensures PlatformPass(store, data, ids).Done? ==>
              forall v :: v in PlatformPass(store, data, ids).value <==> v in ids && Passes(store, data, v)
    ensures PlatformPass(store, data, ids).Done? ==> |PlatformPass(store, data, ids).value| <= |ids|
    decreases |ids|
  {
    if ids != [] {
      PlatformPassExactly(store, data, ids[1..]);
      assert forall i :: 1 <= i < |ids| ==> ids[i] == ids[1..][i - 1];
      assert forall v :: v in ids <==> v == ids[0] || v in ids[1..];
    }
  }

  /** The ratings of the candidates, in order: a record without specs is
      left out, a candidate without a record or a rating that raises
      raises. */
  function RateAll(store: Store, ids: seq<Val>, p: HwProps): (r: Outcome<seq<Candidate>>)
    ensures r.Done? ==> |r.value| <= |ids|
    decreases |ids|
  {
    if ids == [] then Done([])
    else if FindDevice(store, ids[0]).None? then Raised
    else
      var rest := RateAll(store, ids[1..], p);
      match FindRating(FindDevice(store, ids[0]).value, p)
      case RatingRaised => Raised
      case NoSpecs => rest
      case Rated(rating) => if rest.Raised? then Raised else Done([Candidate(ids[0], rating)] + rest.value)
  }

  /** Every rated candidate is a listed id, rated as find_rating rates its
      record. */
  lemma {:induction false} RateAllSound(store: Store, ids: seq<Val>, p: HwProps)
    requires RateAll(store, ids, p).Done?
    ensures forall c :: c in RateAll(store, ids, p).value ==>
              c.id in ids && FindDevice(store, c.id).Some? && FindRating(FindDevice(store, c.id).value, p) == Rated(c.rating)
    decreases |ids|
  {
    if ids != [] {
      assert RateAll(store, ids[1..], p).Done?;
      RateAllSound(store, ids[1..], p);
    }
  }

  /** The extras' overlays, in the order platform, browser, app, language,
      each applied only when its Extra was found. */
  function OverlayExtras(d: DeviceRecord, platform: Option<ExtraRecord>, browser: Option<ExtraRecord>,
                         app: Option<ExtraRecord>, language: Option<ExtraRecord>): (r: DeviceRecord)
    ensures r.id == d.id && r.ops == d.ops
  {
    var d1 := if platform.Some? then SpecsOverlay("platform", d, platform.value) else d;
    var d2 := if browser.Some? then SpecsOverlay("browser", d1, browser.value) else d1;
    var d3 := if app.Some? then SpecsOverlay("app", d2, app.value) else d2;
    if language.Some? then SpecsOverlay("language", d3, language.value) else d3
  }

  /** A named detected platform survives the later overlays: the browser,
      app and language overlays never write the platform fields. */
  lemma PlatformSurvivesOverlays(d: DeviceRecord, e: Specs, browser: Option<ExtraRecord>,
                                 app: Option<ExtraRecord>, language: Option<ExtraRecord>)
    requires !Blank(Lookup(e, "general_platform"))
    ensures Lookup(OverlayExtras(d, Some(ExtraRecord(Some(e))), browser, app, language).specs, "general_platform") ==
            Lookup(e, "general_platform")
  {
    PlatformOverlayNames(d, e);
  }

  // ------------------------------------------------------------ build info run

  /** What v4_match_build_info settles on: the device (with the platform
      overlaid), the platform Extra, and the memo. */
  datatype BiDetection = BiDetection(device: Option<DeviceRecord>, platform: Option<ExtraRecord>,
                                     tree: map<string, Entry>)

  function BuildInfoSpec(store: Store, info: OrdMap<string>, tree: map<string, Entry>): BiDetection
  {
    if info.values == map[] then BiDetection(None, None, tree)
    else
      var d := BiHelperSpec(store, info, "device", tree);
      var dev := if d.id.Some? then FindDevice(store, d.id.value) else None;
      if dev.None? then BiDetection(None, None, d.tree)
      else
        var p := BiHelperSpec(store, info, "platform", d.tree);
        var plat := if p.id.Some? then FindExtra(store, p.id.value) else None;
        BiDetection(Some(if plat.Some? then SpecsOverlay("platform", dev.value, plat.value) else dev.value), plat, p.tree)
  }

  /** A build-info detection is a stored device record found under a
      non-blank id, carrying its own ops, and running the platform the
      platform Extra names, when it names one. */
  lemma BuildInfoDetects(store: Store, info: OrdMap<string>, tree: map<string, Entry>)
    ensures var r := BuildInfoSpec(store, info, tree);
            (r.device.None? ==> r.platform.None?) &&
            (r.device.Some? ==>
               info.values != map[] &&
               exists id :: !Blank(id) && FindDevice(store, id).Some? &&
                            FindDevice(store, id).value.ops == r.device.value.ops &&
                            FindDevice(store, id).value.id == r.device.value.id) &&
            (r.device.Some? && r.platform.Some? && r.platform.value.specs.Some? &&
             !Blank(Lookup(r.platform.value.specs.value, "general_platform")) ==>
               Lookup(r.device.value.specs, "general_platform") == Lookup(r.platform.value.specs.value, "general_platform"))
  {
    var r := BuildInfoSpec(store, info, tree);
    if info.values != map[] {
      var d := BiHelperSpec(store, info, "device", tree);
      BiHelperIdsNonBlank(store, info, "device", tree);
      if r.device.Some? {
        var id := d.id.value;
        assert !Blank(id) && FindDevice(store, id).Some?;
        if r.platform.Some? && r.platform.value.specs.Some? &&
           !Blank(Lookup(r.platform.value.specs.value, "general_platform")) {
          PlatformOverlayNames(FindDevice(store, id).value, r.platform.value.specs.value);
        }
      }
    }
  }

  // ------------------------------------------------------------- the extras

  /** The Extra matcher's state that persists between detections, and the
      extra header list it reads (match_extra deletes 'profile' from it). */
  datatype ExtraState = ExtraState(headers: OrdMap<string>, orders: UaOrders, keys: Option<map<string, string>>,
                                   tree: map<string, Entry>)
  {
    ghost predicate Valid() { headers.Valid() && keys.Some? }
  }

  predicate ExtraClass(cls: string) { cls == "platform" || cls == "browser" || cls == "app" }

  /** One match_extra call on the state. */
  function ExtraStep(store: Store, cls: string, s: ExtraState): (r: (Option<ExtraRecord>, ExtraState))
    requires ExtraClass(cls) && s.Valid()
    ensures r.1.Valid()
  {
    var h := s.headers.Delete("profile");
    var order := ExtendOrder(s.orders.For(cls), h.keys);
    var sc := SieveScan(store, cls, cls, h, order, s.keys, s.tree);
    ((if sc.node.Some? then FindExtra(store, sc.node.value) else None),
     ExtraState(h, s.orders.With(cls, order), sc.keys, sc.tree))
  }

  /** The four Extras of an HTTP detection and the state they leave. */
  datatype ExtrasFound = ExtrasFound(platform: Option<ExtraRecord>, browser: Option<ExtraRecord>,
                                     app: Option<ExtraRecord>, language: Option<ExtraRecord>, state: ExtraState)

  /** platform, browser and app in that order, each on the state the one
      before left, then the language on the final header list. */
  function ExtrasSpec(store: Store, s: ExtraState): (r: ExtrasFound)
    requires s.Valid()
    ensures r.state.Valid()
  {
    var p := ExtraStep(store, "platform", s);
    var b := ExtraStep(store, "browser", p.1);
    var a := ExtraStep(store, "app", b.1);
    var lang := match LanguageSpec(a.1.headers, a.1.orders.language, Languages)
                case Some((code, full)) => Some(LanguageExtra(code, full))
                case None => None;
    ExtrasFound(p.0, b.0, a.0, lang, a.1)
  }

  lemma DeleteTwice(h: OrdMap<string>, k: string)
    requires h.Valid()
    ensures h.Delete(k).Delete(k) == h.Delete(k)
  {
    assert Remove(h.Delete(k).keys, k) == h.Delete(k).keys by {
      RemoveAbsent(h.Delete(k).keys, k);
    }
  }

  /** After the extras the extra header list has lost 'profile' and nothing
      else, the language order is untouched, and the device order is not
      theirs to extend. */
  lemma ExtrasDropProfileOnly(store: Store, s: ExtraState)
    requires s.Valid()
    ensures var r := ExtrasSpec(store, s);
            r.state.headers == s.headers.Delete("profile") &&
            r.state.orders.language == s.orders.language && r.state.orders.device == s.orders.device
  {
    var h := s.headers.Delete("profile");
    DeleteTwice(s.headers, "profile");
    DeleteTwice(h, "profile");
  }

  // ------------------------------------------------------------- contention

  /** The hardware properties of a detection: none unless the hardware info
      is a non-blank string that parses. */
  function HwFor(hardwareInfo: Option<string>): Option<HwProps>
  {
    if hardwareInfo.None? || BlankStr(hardwareInfo.value) then None else InfoStringToHash(hardwareInfo.value)
  }

  predicate StopOnDetect(d: DeviceRecord) { Lookup(d.ops, "stop_on_detect") == VInt(1) }

  predicate OverlaysResult(d: DeviceRecord) { !Blank(Lookup(d.ops, "overlay_result_specs")) }

  /** The contention stage on a device with a hachecks entry: raises unless
      the entry is a list of ids; otherwise the candidates that pass the
      platform check; with two or more of them and hardware
      properties, the ratings, and the record of the best-ranked one when
      its score is not zero and its record exists. The device settled on
      and the rating list, if one was made. */
  function ContentionSpec(store: Store, matched: DeviceRecord, entry: Val, platform: Option<ExtraRecord>,
                          hw: Option<HwProps>): Outcome<(DeviceRecord, Option<seq<Candidate>>)>
  {
    if !entry.VList? then Raised
    else match PlatformPass(store, platform, entry.items)
    case Raised => Raised
    case Done(pass) =>
      if |pass| < 2 || hw.None? then Done((matched, None))
      else
        match RateAll(store, pass, hw.value)
        case Raised => Raised
        case Done(rated) =>
          if rated == [] then Raised
          else
            var best := Best(rated);
            var found := FindDevice(store, best.id);
            Done((if best.rating.score != 0 && found.Some? then found.value else matched, Some(rated)))
  }

  /** The device settled on for the hachecks entry: without one, the
      matched device and no ratings. */
  function CandidatesSettle(store: Store, matched: DeviceRecord, entry: Option<Val>, platform: Option<ExtraRecord>,
                            hw: Option<HwProps>): Outcome<(DeviceRecord, Option<seq<Candidate>>)>
  {
    if entry.None? then Done((matched, None)) else ContentionSpec(store, matched, entry.value, platform, hw)
  }

  /** Contention keeps the matched device or replaces it by the record of a
      candidate that passed the platform check and ranks best among the
      rated ones, with a score that is not zero. */
  lemma ContentionSettles(store: Store, matched: DeviceRecord, entry: Val, platform: Option<ExtraRecord>,
                          hw: Option<HwProps>)
    requires ContentionSpec(store, matched, entry, platform, hw).Done?
    ensures entry.VList?
    ensures var (d, ratings) := ContentionSpec(store, matched, entry, platform, hw).value;
            d == matched ||
            (ratings.Some? && hw.Some? &&
             exists c :: BestRanked(c, ratings.value) && c.rating.score != 0 && c.id in entry.items &&
                         Passes(store, platform, c.id) && FindDevice(store, c.id) == Some(d) &&
                         FindRating(d, hw.value) == Rated(c.rating))
  {
    var ids := entry.items;
    var pass := PlatformPass(store, platform, ids).value;
    PlatformPassExactly(store, platform, ids);
    if |pass| >= 2 && hw.Some? {
      var rated := RateAll(store, pass, hw.value).value;
      RateAllSound(store, pass, hw.value);
      var best := Best(rated);
      BestIsBestRanked(rated);
      assert best in rated;
    }
  }

  /** The overlays that end an HTTP detection: the extras, then the
      hardware when the device asks for it and hardware info was given. */
  function FinalDevice(d: DeviceRecord, e: ExtrasFound, hardwareInfo: Option<string>): (r: DeviceRecord)
    ensures r.id == d.id && r.ops == d.ops
  {
    var o := OverlayExtras(d, e.platform, e.browser, e.app, e.language);
    if OverlaysResult(o) && hardwareInfo.Some? && !BlankStr(hardwareInfo.value) then HardwareInfoOverlay(o, HwFor(hardwareInfo))
    else o
  }

  /** The hardware overlay never touches the platform a detected Extra
      named. */
  lemma FinalKeepsPlatform(d: DeviceRecord, e: ExtrasFound, hardwareInfo: Option<string>, ps: Specs)
    requires e.platform == Some(ExtraRecord(Some(ps))) && !Blank(Lookup(ps, "general_platform"))
    ensures Lookup(FinalDevice(d, e, hardwareInfo).specs, "general_platform") == Lookup(ps, "general_platform")
  {
    var o := OverlayExtras(d, e.platform, e.browser, e.app, e.language);
    PlatformSurvivesOverlays(d, ps, e.browser, e.app, e.language);
    HardwareOverlayEffect(o, HwFor(hardwareInfo));
  }

  /** What an HTTP detection ends with once a device is matched: the
      outcome, the device, the Extras (None when the device stops on detect
      and none are looked for) and the rating list. */
  datatype HttpResult = HttpResult(r: Outcome<bool>, device: Option<DeviceRecord>, extras: Option<ExtrasFound>,
                                   ratings: Option<seq<Candidate>>)

  /** The stages after the device match: a device that stops on detect only
      takes the hardware overlay; otherwise the Extras, the contention among
      the high-accuracy candidates, and the final overlays. */
  function SettleSpec(store: Store, matched: DeviceRecord, keys: Option<map<string, string>>, es: ExtraState,
                      hardwareInfo: Option<string>): (res: HttpResult)
    requires es.Valid()
    ensures res.r.Done? ==> res.r == Done(true) && res.device.Some?
    ensures res.extras.None? <==> StopOnDetect(matched)
  {
    if StopOnDetect(matched) then
      HttpResult(Done(true), Some(if OverlaysResult(matched) then HardwareInfoOverlay(matched, HwFor(hardwareInfo))
                                 else matched), None, None)
    else
      var e := ExtrasSpec(store, es);
      var c := CandidatesAsWritten(Read(store, "hachecks"), keys);
      var settled: Outcome<(DeviceRecord, Option<seq<Candidate>>)> :=
        if c.Raised? then Raised else CandidatesSettle(store, matched, c.value, e.platform, HwFor(hardwareInfo));
      match settled
      case Raised => HttpResult(Raised, None, Some(e), None)
      case Done((d, ratings)) => HttpResult(Done(true), Some(FinalDevice(d, e, hardwareInfo)), Some(e), ratings)
  }

  /** A detected device keeps the id and ops of the matched record or of a
      contention winner; when the Extras are matched, the platform they
      name is the platform the device reports. */
  lemma SettleKeepsIdentity(store: Store, matched: DeviceRecord, keys: Option<map<string, string>>, es: ExtraState,
                            hardwareInfo: Option<string>)
    requires es.Valid()
    ensures var res := SettleSpec(store, matched, keys, es, hardwareInfo);
            res.r.Done? ==>
              (res.device.value.ops == matched.ops && res.device.value.id == matched.id) ||
              (exists id :: FindDevice(store, id).Some? && res.device.value.ops == FindDevice(store, id).value.ops &&
                            res.device.value.id == FindDevice(store, id).value.id)
    ensures var res := SettleSpec(store, matched, keys, es, hardwareInfo);
            res.r.Done? && res.extras.Some? && res.extras.value.platform.Some? &&
            res.extras.value.platform.value.specs.Some? &&
            !Blank(Lookup(res.extras.value.platform.value.specs.value, "general_platform")) ==>
              Lookup(res.device.value.specs, "general_platform") ==
              Lookup(res.extras.value.platform.value.specs.value, "general_platform")
  {
    var res := SettleSpec(store, matched, keys, es, hardwareInfo);
    if !StopOnDetect(matched) && res.r.Done? {
      var e := ExtrasSpec(store, es);
      var c := CandidatesAsWritten(Read(store, "hachecks"), keys);
      var d: DeviceRecord;
      if c.value.None? {
        d := matched;
      } else {
        ContentionSettles(store, matched, c.value.value, e.platform, HwFor(hardwareInfo));
        d := ContentionSpec(store, matched, c.value.value, e.platform, HwFor(hardwareInfo)).value.0;
      }
      assert res.device == Some(FinalDevice(d, e, hardwareInfo));
      if e.platform.Some? && e.platform.value.specs.Some? &&
         !Blank(Lookup(e.platform.value.specs.value, "general_platform")) {
        FinalKeepsPlatform(d, e, hardwareInfo, e.platform.value.specs.value);
      }
    }
  }
}
