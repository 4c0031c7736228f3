/** The list queries over every device record: the vendors, the models of
    one vendor (aliases included), the specs of one vendor and model, and
    the devices having a property. A value Ruby cannot downcase or sort makes
    the query raise. */
module Queries {
  import opened RubyValues
  import opened Records
  import opened BaseMatcher

  /** The message fetch_devices leaves when the store cannot list the
      device records (status 299). */
  const FetchError: string := "Error : fetchDevices cannot read files from store."

  // ---------------------------------------------------- sorting, uniqueness

  /** Adjacent strings are in strictly ascending String#<=> order. */
  predicate StrictlySorted(s: seq<string>)
  {
    forall i :: 0 <= i < |s| - 1 ==> StrCmp(s[i], s[i + 1]) < 0
  }

  /** Inserts x into an ascending list, before the first larger string,
      unless it is already there. */
  function InsertSorted(x: string, s: seq<string>): seq<string>
  {
    if s == [] then [x]
    else if x == s[0] then s
    else if StrCmp(x, s[0]) < 0 then [x] + s
    else [s[0]] + InsertSorted(x, s[1..])
  }

  lemma StrictlySortedTail(s: seq<string>)
    requires StrictlySorted(s) && s != []
    ensures StrictlySorted(s[1..])
  {
    forall i | 0 <= i < |s[1..]| - 1 ensures StrCmp(s[1..][i], s[1..][i + 1]) < 0 {
      assert s[1..][i] == s[i + 1] && s[1..][i + 1] == s[i + 2];
    }
  }

  lemma StrictlySortedCons(x: string, t: seq<string>)
    requires StrictlySorted(t) && (t != [] ==> StrCmp(x, t[0]) < 0)
    ensures StrictlySorted([x] + t)
  {
    var r := [x] + t;
    forall i | 0 <= i < |r| - 1 ensures StrCmp(r[i], r[i + 1]) < 0 {
      if i > 0 { assert r[i] == t[i - 1] && r[i + 1] == t[i]; }
    }
  }

  /** Insertion keeps the list strictly ascending and adds exactly x. */
  lemma {:induction false} InsertSortedSpec(x: string, s: seq<string>)
    requires StrictlySorted(s)
    ensures var r := InsertSorted(x, s);
            StrictlySorted(r) && (forall k :: k in r <==> k == x || k in s) &&
            r != [] && (r[0] == x || (s != [] && r[0] == s[0]))
  {
    if s != [] && x != s[0] {
      if StrCmp(x, s[0]) < 0 {
        StrictlySortedCons(x, s);
      } else {
        StrCmpAntisymmetric(x, s[0]);
        StrictlySortedTail(s);
        InsertSortedSpec(x, s[1..]);
        var t := InsertSorted(x, s[1..]);
        if |s| > 1 { assert StrCmp(s[0], s[1]) < 0; }
        StrictlySortedCons(s[0], t);
        assert s == [s[0]] + s[1..];
      }
    }
  }

  /** The distinct strings of s in ascending order (uniq then sort, or sort
      then uniq: both give this). */
  function SortUniq(s: seq<string>): seq<string>
  {
    if s == [] then [] else InsertSorted(s[0], SortUniq(s[1..]))
  }

  lemma {:induction false} SortUniqSpec(s: seq<string>)
    ensures StrictlySorted(SortUniq(s))
    ensures forall k :: k in SortUniq(s) <==> k in s
  {
    if s != [] {
      SortUniqSpec(s[1..]);
      InsertSortedSpec(s[0], SortUniq(s[1..]));
      assert s == [s[0]] + s[1..];
    }
  }

  /** A strictly sorted list holds each string once. */
  lemma {:induction false} StrictlySortedDistinct(s: seq<string>)
    requires StrictlySorted(s)
    ensures forall i, j :: 0 <= i < j < |s| ==> StrCmp(s[i], s[j]) < 0 && s[i] != s[j]
  {
    forall i, j | 0 <= i < j < |s| ensures StrCmp(s[i], s[j]) < 0 && s[i] != s[j] {
      SortedPair(s, i, j);
      StrCmpAntisymmetric(s[i], s[j]);
    }
  }

  lemma {:induction false} SortedPair(s: seq<string>, i: int, j: int)
    requires StrictlySorted(s) && 0 <= i < j < |s|
    ensures StrCmp(s[i], s[j]) < 0
    decreases j - i
  {
    if j > i + 1 {
      SortedPair(s, i + 1, j);
      StrCmpTransitive(s[i], s[i + 1], s[j]);
    }
  }

  /** String#<=> chains: a < b and b < c give a < c. */
  lemma {:induction false} StrCmpTransitive(a: string, b: string, c: string)
    requires StrCmp(a, b) < 0 && StrCmp(b, c) < 0
    ensures StrCmp(a, c) < 0
  {
    if a != [] && b != [] && c != [] && a[0] == b[0] && b[0] == c[0] {
      StrCmpTransitive(a[1..], b[1..], c[1..]);
    }
  }

  predicate AllStrings(vals: seq<Val>) { forall i :: 0 <= i < |vals| ==> vals[i].VStr? }

  function Strs(vals: seq<Val>): (r: seq<string>)
    requires AllStrings(vals)
    ensures |r| == |vals| && forall i :: 0 <= i < |vals| ==> r[i] == vals[i].s
  {
    seq(|vals|, i requires 0 <= i < |vals| => vals[i].s)
  }

  function Wrap(s: seq<string>): (r: seq<Val>)
    ensures |r| == |s| && forall i :: 0 <= i < |s| ==> r[i] == VStr(s[i])
  {
    seq(|s|, i requires 0 <= i < |s| => VStr(s[i]))
  }

  // ----------------------------------------------------------- integer lists

  /** Adjacent integers are strictly ascending. */
  predicate Ascending(s: seq<int>)
  {
    forall i :: 0 <= i < |s| - 1 ==> s[i] < s[i + 1]
  }

  /** Inserts x into an ascending list, before the first larger integer,
      unless it is already there. */
  function InsertInt(x: int, s: seq<int>): seq<int>
  {
    if s == [] then [x]
    else if x == s[0] then s
    else if x < s[0] then [x] + s
    else [s[0]] + InsertInt(x, s[1..])
  }

  lemma {:induction false} InsertIntSpec(x: int, s: seq<int>)
    requires Ascending(s)
    ensures var r := InsertInt(x, s);
            Ascending(r) && (forall k :: k in r <==> k == x || k in s) &&
            r != [] && (r[0] == x || (s != [] && r[0] == s[0]))
  {
    if s != [] && x != s[0] && x > s[0] {
      assert Ascending(s[1..]) by {
        forall i | 0 <= i < |s[1..]| - 1 ensures s[1..][i] < s[1..][i + 1] {
          assert s[1..][i] == s[i + 1] && s[1..][i + 1] == s[i + 2];
        }
      }
      InsertIntSpec(x, s[1..]);
      var t := InsertInt(x, s[1..]);
      if |s| > 1 { assert s[0] < s[1]; }
      var r := [s[0]] + t;
      forall i | 0 <= i < |r| - 1 ensures r[i] < r[i + 1] {
        if i > 0 { assert r[i] == t[i - 1] && r[i + 1] == t[i]; }
      }
      assert s == [s[0]] + s[1..];
    }
  }

  /** The distinct integers of s in ascending order. */
  function SortUniqInts(s: seq<int>): seq<int>
  {
    if s == [] then [] else InsertInt(s[0], SortUniqInts(s[1..]))
  }

  lemma {:induction false} SortUniqIntsSpec(s: seq<int>)
    ensures Ascending(SortUniqInts(s))
    ensures forall k :: k in SortUniqInts(s) <==> k in s
  {
    if s != [] {
      SortUniqIntsSpec(s[1..]);
      InsertIntSpec(s[0], SortUniqInts(s[1..]));
      assert s == [s[0]] + s[1..];
    }
  }

  predicate AllInts(vals: seq<Val>) { forall i :: 0 <= i < |vals| ==> vals[i].VInt? }

  function Ints(vals: seq<Val>): (r: seq<int>)
    requires AllInts(vals)
    ensures |r| == |vals| && forall i :: 0 <= i < |vals| ==> r[i] == vals[i].i
  {
    seq(|vals|, i requires 0 <= i < |vals| => vals[i].i)
  }

  function WrapInts(s: seq<int>): (r: seq<Val>)
    ensures |r| == |s| && forall i :: 0 <= i < |s| ==> r[i] == VInt(s[i])
  {
    seq(|s|, i requires 0 <= i < |s| => VInt(s[i]))
  }

  // --------------------------------------------------------- sort! and uniq

  /** uniq and sort! on a list of values: strings in String#<=> order and
      integers in numeric order, one copy each; a list of one repeated value
      as that value (Ruby compares equal objects as 0); anything else holds
      two values <=> cannot order (a string and an integer, nil, true and
      false, two different lists) and raises. */
  function SortedDistinct(vals: seq<Val>): Outcome<seq<Val>>
  {
    if AllStrings(vals) then Done(Wrap(SortUniq(Strs(vals))))
    else if AllInts(vals) then Done(WrapInts(SortUniqInts(Ints(vals))))
    else if forall i :: 0 <= i < |vals| ==> vals[i] == vals[0] then Done([vals[0]])
    else Raised
  }

  /** The answer is in ascending order: as strings, as integers, or a single
      value. */
  predicate SortedVals(r: seq<Val>)
  {
    (AllStrings(r) && StrictlySorted(Strs(r))) || (AllInts(r) && Ascending(Ints(r))) || |r| <= 1
  }

  /** sort! and uniq answer exactly when the values are all strings, all
      integers or all one value; the answer is sorted and holds exactly the
      values given. */
  lemma SortedDistinctSpec(vals: seq<Val>)
    ensures SortedDistinct(vals).Done? <==>
            AllStrings(vals) || AllInts(vals) || forall i :: 0 <= i < |vals| ==> vals[i] == vals[0]
    ensures SortedDistinct(vals).Done? ==>
            var r := SortedDistinct(vals).value;
            SortedVals(r) && forall v :: v in r <==> v in vals
  {
    if AllStrings(vals) {
      SortedDistinctStrings(vals);
    } else if AllInts(vals) {
      SortedDistinctInts(vals);
    } else if forall i :: 0 <= i < |vals| ==> vals[i] == vals[0] {
      assert vals != [] by { assert !AllStrings(vals); }
      forall v ensures v in [vals[0]] <==> v in vals {
        if v in vals {
          var j :| 0 <= j < |vals| && vals[j] == v;
        }
      }
    }
  }

  /** Over integers the result is ascending and holds exactly the inputs. */
  lemma SortedDistinctInts(vals: seq<Val>)
    requires AllInts(vals) && !AllStrings(vals)
    ensures SortedDistinct(vals).Done?
    ensures var r := SortedDistinct(vals).value;
            AllInts(r) && Ascending(Ints(r)) && (forall v :: v in r <==> v in vals)
  {
    var s := Ints(vals);
    var u := SortUniqInts(s);
    SortUniqIntsSpec(s);
    var r := WrapInts(u);
    assert Ints(r) == u;
    forall v ensures v in r <==> v in vals {
      if v in r {
        var i :| 0 <= i < |r| && r[i] == v;
        assert u[i] in s;
        var j :| 0 <= j < |s| && s[j] == u[i];
        assert vals[j] == v;
      }
      if v in vals {
        var j :| 0 <= j < |vals| && vals[j] == v;
        assert s[j] in u;
        var i :| 0 <= i < |u| && u[i] == s[j];
        assert r[i] == v;
      }
    }
  }

  /** Over strings the result is sorted and holds exactly the inputs. */
  lemma SortedDistinctStrings(vals: seq<Val>)
    requires AllStrings(vals)
    ensures SortedDistinct(vals).Done?
    ensures var r := SortedDistinct(vals).value;
            AllStrings(r) && StrictlySorted(Strs(r)) &&
            (forall v :: v in r <==> v in vals)
  {
    var s := Strs(vals);
    var u := SortUniq(s);
    SortUniqSpec(s);
    var r := Wrap(u);
    assert Strs(r) == u;
    forall v ensures v in r <==> v in vals {
      if v in r {
        var i :| 0 <= i < |r| && r[i] == v;
        assert u[i] in s;
        var j :| 0 <= j < |s| && s[j] == u[i];
        assert vals[j] == v;
      }
      if v in vals {
        var j :| 0 <= j < |vals| && vals[j] == v;
        assert s[j] in u;
        var i :| 0 <= i < |u| && u[i] == s[j];
        assert r[i] == v;
      }
    }
  }

  // ------------------------------------------------------------- local_vendors

  /** general_vendor of every record, in record order. */
  function VendorsOf(devices: seq<DeviceRecord>): (r: seq<Val>)
    ensures |r| == |devices| && forall i :: 0 <= i < |devices| ==> r[i] == Lookup(devices[i].specs, "general_vendor")
  {
    seq(|devices|, i requires 0 <= i < |devices| => Lookup(devices[i].specs, "general_vendor"))
  }

  /** local_vendors' answer: the distinct vendors, sorted. */
  function LocalVendorsSpec(devices: seq<DeviceRecord>): Outcome<seq<Val>>
  {
    SortedDistinct(VendorsOf(devices))
  }

  /** With string vendors the list is sorted, without repeats, and names
      exactly the vendors of the records. */
  lemma LocalVendorsSorted(devices: seq<DeviceRecord>)
    requires AllStrings(VendorsOf(devices))
    ensures LocalVendorsSpec(devices).Done?
    ensures var r := LocalVendorsSpec(devices).value;
            AllStrings(r) && StrictlySorted(Strs(r)) &&
            forall v :: v in r <==> exists i :: 0 <= i < |devices| && Lookup(devices[i].specs, "general_vendor") == v
  {
    SortedDistinctStrings(VendorsOf(devices));
  }

  /** local_vendors answers when sort! can order the vendors; the answer is
      sorted and names exactly the vendors of the records. */
  lemma LocalVendorsExactly(devices: seq<DeviceRecord>)
    ensures LocalVendorsSpec(devices).Done? <==>
            var vs := VendorsOf(devices);
            AllStrings(vs) || AllInts(vs) || forall i :: 0 <= i < |vs| ==> vs[i] == vs[0]
    ensures LocalVendorsSpec(devices).Done? ==>
            var r := LocalVendorsSpec(devices).value;
            SortedVals(r) &&
            forall v :: v in r <==> exists i :: 0 <= i < |devices| && Lookup(devices[i].specs, "general_vendor") == v
  {
    var vs := VendorsOf(devices);
    SortedDistinctSpec(vs);
    forall v ensures v in vs <==> exists i :: 0 <= i < |devices| && Lookup(devices[i].specs, "general_vendor") == v {
      if v in vs {
        var i :| 0 <= i < |vs| && vs[i] == v;
      }
    }
  }

  // -------------------------------------------------------------- local_models

  /** The first index of pat in s. */
  function IndexOf(s: string, pat: string): (r: Option<nat>)
    ensures r.Some? ==> r.value <= |s| && pat <= s[r.value..]
    ensures r.Some? ==> forall i :: 0 <= i < r.value ==> !(pat <= s[i..])
    ensures r.None? ==> forall i :: 0 <= i <= |s| ==> !(pat <= s[i..])
  {
    if pat <= s then Some(0)
    else if s == [] then None
    else
      assert forall i :: 1 <= i <= |s| ==> s[i..] == s[1..][i - 1..];
      match IndexOf(s[1..], pat)
      case None => None
      case Some(i) => Some(i + 1)
  }

  /** index(pat) == 0 exactly when s starts with pat. */
  lemma IndexAtStart(s: string, pat: string)
    ensures IndexOf(s, pat) == Some(0) <==> pat <= s
  {
  }

  /** String#sub with a string pattern: the first occurrence replaced. */
  function Sub(s: string, pat: string, rep: string): string
  {
    match IndexOf(s, pat)
    case None => s
    case Some(i) => s[..i] + rep + s[i + |pat|..]
  }

  /** What one record adds to the model list of a (down-cased) vendor: its
      model when the vendor matches, then every alias that starts with
      "vendor " (ignoring case) with the first literal "vendor " removed. */
  function ModelsOfRecord(d: DeviceRecord, vendor: string): Outcome<seq<Val>>
  {
    var v := Lookup(d.specs, "general_vendor");
    if !v.VStr? then Raised
    else
      var own := if vendor == Downcase(v.s) then [Lookup(d.specs, "general_model")] else [];
      var aliases := Lookup(d.specs, "general_aliases");
      if Blank(aliases) then Done(own)
      else if !aliases.VList? || !AllStrings(aliases.items) then Raised
      else Done(own + AliasModels(aliases.items, vendor + " "))
  }

  /** What one alias adds: the alias without the key when it starts with the
      key ignoring case. */
  function AliasModel(a: string, key: string): seq<Val>
  {
    if key <= Downcase(a) then [VStr(Sub(a, key, ""))] else []
  }

  function AliasModels(aliases: seq<Val>, key: string): seq<Val>
    requires AllStrings(aliases)
  {
    if aliases == [] then []
    else AliasModel(aliases[0].s, key) + AliasModels(aliases[1..], key)
  }

  function ModelsOfAll(devices: seq<DeviceRecord>, vendor: string): Outcome<seq<Val>>
  {
    if devices == [] then Done([])
    else match (ModelsOfRecord(devices[0], vendor), ModelsOfAll(devices[1..], vendor))
      case (Done(a), Done(b)) => Done(a + b)
      case _ => Raised
  }

  /** One alias of the suffix aliases[i..]. */
  lemma AliasModelsStep(aliases: seq<Val>, key: string, i: int)
    requires AllStrings(aliases) && 0 <= i < |aliases|
    ensures AllStrings(aliases[i + 1..])
    ensures AliasModels(aliases[i..], key) == AliasModel(aliases[i].s, key) + AliasModels(aliases[i + 1..], key)
  {
    assert aliases[i..][1..] == aliases[i + 1..] && aliases[i..][0] == aliases[i];
  }

  /** The test the loop makes on one alias, an index of the key at 0, is
      the prefix test. */
  method AliasStep(a: string, key: string) returns (one: seq<Val>)
    ensures one == AliasModel(a, key)
  {
    IndexAtStart(Downcase(a), key);
    one := [];
    if IndexOf(Downcase(a), key) == Some(0) {
      one := [VStr(Sub(a, key, ""))];
    }
  }

  /** The alias loop of local_models on one record. */
  method AliasWalk(aliases: seq<Val>, key: string) returns (models: seq<Val>)
    requires AllStrings(aliases)
    ensures models == AliasModels(aliases, key)
  {
    models := [];
    var i := 0;
    assert aliases[0..] == aliases;
    while i < |aliases|
      invariant 0 <= i <= |aliases| && AllStrings(aliases[i..])
      invariant AliasModels(aliases, key) == models + AliasModels(aliases[i..], key)
    {
      var a := aliases[i].s;
      AliasModelsStep(aliases, key, i);
      var one := AliasStep(a, key);
      ghost var tail := AliasModels(aliases[i + 1..], key);
      assert models + one + tail == models + (one + tail);
      models := models + one;
      i := i + 1;
    }
    assert models + [] == models;
  }

  /** The body of local_models' loop on one record: its model when the
      vendor matches, then the aliases' models. */
  method RecordModels(d: DeviceRecord, vendor: string) returns (r: Outcome<seq<Val>>)
    ensures r == ModelsOfRecord(d, vendor)
  {
    var v := Lookup(d.specs, "general_vendor");
    if !v.VStr? {
      return Raised;
    }
    var own := if vendor == Downcase(v.s) then [Lookup(d.specs, "general_model")] else [];
    var aliases := Lookup(d.specs, "general_aliases");
    if Blank(aliases) {
      return Done(own);
    }
    if !aliases.VList? || !AllStrings(aliases.items) {
      return Raised;
    }
    var more := AliasWalk(aliases.items, vendor + " ");
    r := Done(own + more);
  }

  /** local_models' answer for a vendor, compared in lower case. */
  function LocalModelsSpec(devices: seq<DeviceRecord>, vendor: string): Outcome<seq<Val>>
  {
    match ModelsOfAll(devices, Downcase(vendor))
    case Done(tmp) => SortedDistinct(tmp)
    case Raised => Raised
  }

  /** A record whose vendor matches contributes its model. */
  lemma {:induction false} ModelsIncludeOwnModel(devices: seq<DeviceRecord>, vendor: string, i: int)
    requires 0 <= i < |devices| && ModelsOfAll(devices, vendor).Done?
    requires Lookup(devices[i].specs, "general_vendor").VStr?
    requires Downcase(Lookup(devices[i].specs, "general_vendor").s) == vendor
    ensures Lookup(devices[i].specs, "general_model") in ModelsOfAll(devices, vendor).value
  {
    if i > 0 {
      ModelsIncludeOwnModel(devices[1..], vendor, i - 1);
    }
  }

  /** v is one of the models record d lists for vendor: its own model when
      the vendor matches ignoring case, or what is left of an alias that
      starts with "vendor " ignoring case once the first "vendor " is
      removed. */
  predicate ModelOf(d: DeviceRecord, vendor: string, v: Val)
  {
    var vd := Lookup(d.specs, "general_vendor");
    var al := Lookup(d.specs, "general_aliases");
    (vd.VStr? && vendor == Downcase(vd.s) && Lookup(d.specs, "general_model") == v) ||
    (!Blank(al) && al.VList? &&
     exists j :: 0 <= j < |al.items| && al.items[j].VStr? && vendor + " " <= Downcase(al.items[j].s) &&
                 v == VStr(Sub(al.items[j].s, vendor + " ", "")))
  }

  lemma {:induction false} AliasModelsHas(aliases: seq<Val>, key: string, v: Val)
    requires AllStrings(aliases)
    ensures v in AliasModels(aliases, key) <==>
            exists j :: 0 <= j < |aliases| && key <= Downcase(aliases[j].s) && v == VStr(Sub(aliases[j].s, key, ""))
  {
    if aliases != [] {
      var rest := aliases[1..];
      AliasModelsHas(rest, key, v);
      assert forall j :: 1 <= j < |aliases| ==> aliases[j] == rest[j - 1];
      if exists j :: 0 <= j < |aliases| && key <= Downcase(aliases[j].s) && v == VStr(Sub(aliases[j].s, key, "")) {
        var j :| 0 <= j < |aliases| && key <= Downcase(aliases[j].s) && v == VStr(Sub(aliases[j].s, key, ""));
        if j > 0 { assert rest[j - 1] == aliases[j]; }
      }
    }
  }

  lemma RecordModelsHas(d: DeviceRecord, vendor: string, v: Val)
    requires ModelsOfRecord(d, vendor).Done?
    ensures v in ModelsOfRecord(d, vendor).value <==> ModelOf(d, vendor, v)
  {
    var al := Lookup(d.specs, "general_aliases");
    if !Blank(al) {
      AliasModelsHas(al.items, vendor + " ", v);
    }
  }

  lemma {:induction false} ModelsOfAllHas(devices: seq<DeviceRecord>, vendor: string, v: Val)
    requires ModelsOfAll(devices, vendor).Done?
    ensures v in ModelsOfAll(devices, vendor).value <==> exists i :: 0 <= i < |devices| && ModelOf(devices[i], vendor, v)
  {
    if devices != [] {
      var rest := devices[1..];
      ModelsOfAllHas(rest, vendor, v);
      RecordModelsHas(devices[0], vendor, v);
      assert forall i :: 1 <= i < |devices| ==> devices[i] == rest[i - 1];
      if exists i :: 0 <= i < |devices| && ModelOf(devices[i], vendor, v) {
        var i :| 0 <= i < |devices| && ModelOf(devices[i], vendor, v);
        if i > 0 { assert ModelOf(rest[i - 1], vendor, v); }
      }
    }
  }

  /** local_models answers when every record's models could be listed and
      sort! can order them; the answer is sorted, and a value is in it
      exactly when some record lists it as a model of the vendor. */
  lemma LocalModelsExactly(devices: seq<DeviceRecord>, vendor: string)
    ensures LocalModelsSpec(devices, vendor).Done? <==>
            ModelsOfAll(devices, Downcase(vendor)).Done? &&
            var tmp := ModelsOfAll(devices, Downcase(vendor)).value;
            AllStrings(tmp) || AllInts(tmp) || forall i :: 0 <= i < |tmp| ==> tmp[i] == tmp[0]
    ensures LocalModelsSpec(devices, vendor).Done? ==>
            var r := LocalModelsSpec(devices, vendor).value;
            SortedVals(r) &&
            (AllStrings(ModelsOfAll(devices, Downcase(vendor)).value) ==> AllStrings(r) && StrictlySorted(Strs(r))) &&
            forall v :: v in r <==> exists i :: 0 <= i < |devices| && ModelOf(devices[i], Downcase(vendor), v)
  {
    var all := ModelsOfAll(devices, Downcase(vendor));
    if all.Done? {
      SortedDistinctSpec(all.value);
      if AllStrings(all.value) {
        SortedDistinctStrings(all.value);
      }
      forall v ensures v in all.value <==> exists i :: 0 <= i < |devices| && ModelOf(devices[i], Downcase(vendor), v) {
        ModelsOfAllHas(devices, Downcase(vendor), v);
      }
    }
  }

  /** An alias keeps the text after the vendor name only when it starts
      with the vendor name exactly as down-cased; "Samsung Galaxy" under
      vendor "samsung" is listed whole. */
  lemma AliasCaseKept()
    ensures AliasModels([VStr("Samsung Galaxy")], "samsung ") == [VStr("Samsung Galaxy")]
  {
    var a := "Samsung Galaxy";
    assert Downcase(a) == "samsung galaxy";
    assert "samsung " <= Downcase(a);
    assert IndexOf(a, "samsung ").None? by {
      forall i | 0 <= i <= |a| ensures !("samsung " <= a[i..]) {
        if i == 0 { assert a[0] != 's'; }
        else if i + 8 <= |a| { assert a[i..][7] == a[i + 7]; assert a[i + 7] != ' '; }
      }
    }
  }

  // ---------------------------------------------------------------- local_view

  /** local_view's answer: the specs of the first record whose vendor and
      model equal the given ones ignoring case (None, 'Nothing found', when
      there is none). */
  function LocalViewSpec(devices: seq<DeviceRecord>, vendor: string, model: string): Outcome<Option<Specs>>
  {
    if devices == [] then Done(None)
    else
      var v := Lookup(devices[0].specs, "general_vendor");
      var m := Lookup(devices[0].specs, "general_model");
      if !v.VStr? then Raised
      else if vendor == Downcase(v.s) && !m.VStr? then Raised
      else if vendor == Downcase(v.s) && model == Downcase(m.s) then Done(Some(devices[0].specs))
      else LocalViewSpec(devices[1..], vendor, model)
  }

  /** A record whose vendor and model equal the given ones ignoring case. */
  predicate ViewMatches(d: DeviceRecord, vendor: string, model: string)
  {
    var v := Lookup(d.specs, "general_vendor");
    var m := Lookup(d.specs, "general_model");
    v.VStr? && m.VStr? && vendor == Downcase(v.s) && model == Downcase(m.s)
  }

  /** A found record matches the vendor and model, and no earlier record
      does; nothing found means no record matches. */
  lemma {:induction false} LocalViewFirst(devices: seq<DeviceRecord>, vendor: string, model: string)
    requires LocalViewSpec(devices, vendor, model).Done?
    ensures var r := LocalViewSpec(devices, vendor, model).value;
            (r.Some? ==> exists i :: 0 <= i < |devices| && devices[i].specs == r.value &&
                           ViewMatches(devices[i], vendor, model) &&
                           forall j :: 0 <= j < i ==> !ViewMatches(devices[j], vendor, model)) &&
            (r.None? ==> forall i :: 0 <= i < |devices| ==> !ViewMatches(devices[i], vendor, model))
  {
    if devices != [] && !ViewMatches(devices[0], vendor, model) {
      var rest := devices[1..];
      LocalViewFirst(rest, vendor, model);
      assert forall i :: 1 <= i < |devices| ==> devices[i] == rest[i - 1];
      var r := LocalViewSpec(rest, vendor, model).value;
      if r.Some? {
        var i :| 0 <= i < |rest| && rest[i].specs == r.value && ViewMatches(rest[i], vendor, model) &&
                 forall j :: 0 <= j < i ==> !ViewMatches(rest[j], vendor, model);
        assert devices[i + 1] == rest[i];
      }
    }
  }

  // ------------------------------------------------------------ local_what_has

  /** Whether one record has the property: a non-blank string containing the
      value, or a list one of whose strings does (ignoring case). */
  function HasProperty(d: DeviceRecord, key: string, value: string): Outcome<bool>
  {
    var v := Lookup(d.specs, key);
    if Blank(v) then Done(false)
    else match v
      case VStr(s) => Done(Contains(Downcase(s), Downcase(value)))
      case VList(items) =>
        if AllStrings(items) then
          Done(exists i :: 0 <= i < |items| && Contains(Downcase(items[i].s), Downcase(value)))
        else Raised
      case _ => Raised
  }

  /** The inner loop of local_what_has over a list value: every element is
      down-cased (a non-string raises), and a match anywhere counts. */
  method ListHas(items: seq<Val>, value: string) returns (r: Outcome<bool>)
    ensures r == if AllStrings(items)
                 then Done(exists i :: 0 <= i < |items| && Contains(Downcase(items[i].s), Downcase(value)))
                 else Raised
  {
    var found := false;
    var i := 0;
    while i < |items|
      invariant 0 <= i <= |items| && forall j :: 0 <= j < i ==> items[j].VStr?
      invariant found <==> exists j :: 0 <= j < i && items[j].VStr? && Contains(Downcase(items[j].s), Downcase(value))
    {
      if !items[i].VStr? {
        return Raised;
      }
      if Contains(Downcase(items[i].s), Downcase(value)) {
        found := true;
      }
      i := i + 1;
    }
    r := Done(found);
  }

  /** The test local_what_has makes of one record. */
  method PropertyOf(d: DeviceRecord, key: string, value: string) returns (r: Outcome<bool>)
    ensures r == HasProperty(d, key, value)
  {
    var v := Lookup(d.specs, key);
    if Blank(v) {
      return Done(false);
    }
    if v.VStr? {
      return Done(Contains(Downcase(v.s), Downcase(value)));
    }
    if v.VList? {
      r := ListHas(v.items, value);
      return;
    }
    r := Raised;
  }

  function FoundOf(d: DeviceRecord): Found
  {
    Found(d.id, Lookup(d.specs, "general_vendor"), Lookup(d.specs, "general_model"))
  }

  /** local_what_has' answer: every record having the property, in order. */
  function LocalWhatHasSpec(devices: seq<DeviceRecord>, key: string, value: string): Outcome<seq<Found>>
  {
    if devices == [] then Done([])
    else match (HasProperty(devices[0], key, value), LocalWhatHasSpec(devices[1..], key, value))
      case (Done(hit), Done(rest)) => Done((if hit then [FoundOf(devices[0])] else []) + rest)
      case _ => Raised
  }

  /** A record is listed exactly when it has the property. */
  lemma {:induction false} LocalWhatHasExactly(devices: seq<DeviceRecord>, key: string, value: string)
    requires LocalWhatHasSpec(devices, key, value).Done?
    ensures forall i :: 0 <= i < |devices| ==> HasProperty(devices[i], key, value).Done?
    ensures forall i :: 0 <= i < |devices| && HasProperty(devices[i], key, value).value ==>
              FoundOf(devices[i]) in LocalWhatHasSpec(devices, key, value).value
    ensures forall f :: f in LocalWhatHasSpec(devices, key, value).value ==>
              exists i :: 0 <= i < |devices| && HasProperty(devices[i], key, value).value && f == FoundOf(devices[i])
    ensures |LocalWhatHasSpec(devices, key, value).value| <= |devices|
  {
    if devices != [] {
      var rest := devices[1..];
      LocalWhatHasExactly(rest, key, value);
      assert forall i :: 1 <= i < |devices| ==> devices[i] == rest[i - 1];
      forall f | f in LocalWhatHasSpec(devices, key, value).value
        ensures exists i :: 0 <= i < |devices| && HasProperty(devices[i], key, value).value && f == FoundOf(devices[i])
      {
        if f in LocalWhatHasSpec(rest, key, value).value {
          var i :| 0 <= i < |rest| && HasProperty(rest[i], key, value).value && f == FoundOf(rest[i]);
          assert devices[i + 1] == rest[i];
        }
      }
    }
  }
}
