/** The matching core every detector object shares: the branch memo over the
    store, the sieve and exact-lookup rule matcher, the build-info key sniffer
    and the reply/error bookkeeping. */
module BaseMatcher {
  import opened RubyValues
  import opened OrderedHash
  import opened Normalise
  import opened Records

  /** One device listed by local_what_has: its id, vendor and model. */
  datatype Found = Found(id: Val, vendor: Val, model: Val)

  /** The reply hash: status, message, the detected spec hash, and the
      answers of the list queries (vendor, model, device, devices). */
  datatype Reply = Reply(status: Option<int>, message: Option<string>, hdSpecs: Option<Specs>,
                         vendor: Option<seq<Val>>, model: Option<seq<Val>>, device: Option<Specs>,
                         devices: Option<seq<Found>>)

  const EmptyReply: Reply := Reply(None, None, None, None, None, None, None)

  // ------------------------------------------------------ the sieve, purely

  /** A sieve hit: the filter and match strings of the winning rule and its
      node. */
  datatype Hit = Hit(filter: string, pattern: string, node: Val)

  /** The first match string of a filter that occurs in the value. */
  function FindMatch(matches: seq<(string, Val)>, value: string): Option<(string, Val)>
  {
    if matches == [] then None
    else if Contains(value, matches[0].0) then Some(matches[0])
    else FindMatch(matches[1..], value)
  }

  predicate RuleHits(rule: Rule, value: string)
  {
    Contains(value, rule.filter) && FindMatch(rule.matches, value).Some?
  }

  /** The first filter of an order that occurs in the value and has a match
      string occurring in it, with that match. */
  function FindInFilters(rules: seq<Rule>, value: string): Option<Hit>
  {
    if rules == [] then None
    else if RuleHits(rules[0], value) then
      var m := FindMatch(rules[0].matches, value).value;
      Some(Hit(rules[0].filter, m.0, m.1))
    else FindInFilters(rules[1..], value)
  }

  /** The first hit of the first order that has one. */
  function SieveFind(orders: seq<seq<Rule>>, value: string): Option<Hit>
  {
    if orders == [] then None
    else if FindInFilters(orders[0], value).Some? then FindInFilters(orders[0], value)
    else SieveFind(orders[1..], value)
  }

  /** FindMatch picks the first match string occurring in the value, and
      finds nothing only when none occurs. */
  lemma {:induction false} FindMatchFirst(matches: seq<(string, Val)>, value: string)
    ensures var r := FindMatch(matches, value);
            (r.Some? ==> exists k :: 0 <= k < |matches| && matches[k] == r.value && Contains(value, matches[k].0) &&
                           forall j :: 0 <= j < k ==> !Contains(value, matches[j].0)) &&
            (r.None? ==> forall k :: 0 <= k < |matches| ==> !Contains(value, matches[k].0))
  {
    if matches != [] && !Contains(value, matches[0].0) {
      FindMatchFirst(matches[1..], value);
      assert forall k :: 1 <= k < |matches| ==> matches[k] == matches[1..][k - 1];
    }
  }

  /** FindInFilters picks the first filter that hits, with its first match. */
  lemma {:induction false} FindInFiltersFirst(rules: seq<Rule>, value: string)
    ensures var r := FindInFilters(rules, value);
            (r.Some? ==> exists k :: 0 <= k < |rules| && RuleHits(rules[k], value) &&
                           r.value == Hit(rules[k].filter, FindMatch(rules[k].matches, value).value.0,
                                          FindMatch(rules[k].matches, value).value.1) &&
                           forall j :: 0 <= j < k ==> !RuleHits(rules[j], value)) &&
            (r.None? ==> forall k :: 0 <= k < |rules| ==> !RuleHits(rules[k], value))
  {
    if rules != [] && !RuleHits(rules[0], value) {
      FindInFiltersFirst(rules[1..], value);
      assert forall k :: 1 <= k < |rules| ==> rules[k] == rules[1..][k - 1];
    }
  }

  /** SieveFind takes the hit of the first order that has one. */
  lemma {:induction false} SieveFindFirst(orders: seq<seq<Rule>>, value: string)
    ensures var r := SieveFind(orders, value);
            (r.Some? ==> exists k :: 0 <= k < |orders| && FindInFilters(orders[k], value) == r &&
                           forall j :: 0 <= j < k ==> FindInFilters(orders[j], value).None?) &&
            (r.None? ==> forall k :: 0 <= k < |orders| ==> FindInFilters(orders[k], value).None?)
  {
    if orders != [] && FindInFilters(orders[0], value).None? {
      SieveFindFirst(orders[1..], value);
      assert forall k :: 1 <= k < |orders| ==> orders[k] == orders[1..][k - 1];
    }
  }

  // ---------------------------------------------------- get_match, purely

  /** The cleanser get_match applies: the device one for class 'device', the
      extras one for every other class. */
  function CleanFor(cls: string, value: string): string
  {
    if cls == "device" then CleanStr(value) else ExtraCleanStr(value)
  }

  /** The rule key recorded for a sieve hit. */
  function RuleKey(header: string, filter: string, pattern: string): string
  {
    CleanStr(header) + ":" + CleanStr(filter) + ":" + CleanStr(pattern)
  }

  /** What get_match returns (Ruby's false as VBool(false)) and the rule key
      it records, if any. */
  datatype MatchResult = MatchResult(node: Val, key: Option<string>)

  const NoMatch: MatchResult := MatchResult(VBool(false), None)

  function MatchSpec(store: Store, header: string, value: string, subtree: string, cls: string): (r: MatchResult)
    ensures |CleanFor(cls, value)| < 4 ==> r == NoMatch
    ensures Read(store, header + subtree).None? ==> r == NoMatch
    ensures header != "user-agent" ==> r.key.None?
    ensures r.key.Some? ==> header == "user-agent"
  {
    var v := CleanFor(cls, value);
    if |v| < 4 then NoMatch
    else
      match Read(store, header + subtree)
      case None => NoMatch
      case Some(branch) =>
        if header == "user-agent" then
          if !branch.SieveEntry? then NoMatch
          else
            match SieveFind(branch.orders, v)
            case None => NoMatch
            case Some(h) => MatchResult(h.node, Some(RuleKey(header, h.filter, h.pattern)))
        else if branch.TableEntry? && v in branch.table && !Blank(branch.table[v]) then
          MatchResult(branch.table[v], None)
        else NoMatch
  }

  /** @detected_rule_key after a match: the key is recorded under the class. */
  function Record(keys: Option<map<string, string>>, cls: string, key: Option<string>): Option<map<string, string>>
    requires key.Some? ==> keys.Some?
  {
    if key.None? then keys else Some(keys.value[cls := key.value])
  }

  /** The branch memo after get_branch(name). */
  function Memo(tree: map<string, Entry>, store: Store, name: string): map<string, Entry>
  {
    if name in tree || Read(store, name).None? then tree else tree[name := Read(store, name).value]
  }

  /** The memo after get_match: the branch is fetched only for a cleansed
      value of at least four characters. */
  function MatchTree(tree: map<string, Entry>, store: Store, header: string, value: string, subtree: string,
                     cls: string): map<string, Entry>
  {
    if |CleanFor(cls, value)| < 4 then tree else Memo(tree, store, header + subtree)
  }

  // ------------------------------------------------------ has_bi_keys, purely

  function LowerKeys(keys: seq<string>): set<string>
  {
    set i | 0 <= i < |keys| :: Downcase(keys[i])
  }

  predicate TupleComplete(tuple: seq<string>, present: set<string>)
  {
    |tuple| > 0 && forall i :: 0 <= i < |tuple| ==> tuple[i] in present
  }

  predicate PlatformHas(tuples: seq<seq<string>>, present: set<string>)
  {
    exists t :: 0 <= t < |tuples| && TupleComplete(tuples[t], present)
  }

  /** The first platform having a tuple all of whose keys are present. */
  function FirstPlatform(order: BiOrder, present: set<string>): Option<string>
  {
    if order == [] then None
    else if PlatformHas(order[0].1, present) then Some(order[0].0)
    else FirstPlatform(order[1..], present)
  }

  lemma {:induction false} FirstPlatformFirst(order: BiOrder, present: set<string>)
    ensures var r := FirstPlatform(order, present);
            (r.Some? ==> exists p :: 0 <= p < |order| && order[p].0 == r.value && PlatformHas(order[p].1, present) &&
                           forall q :: 0 <= q < p ==> !PlatformHas(order[q].1, present)) &&
            (r.None? ==> forall p :: 0 <= p < |order| ==> !PlatformHas(order[p].1, present))
  {
    if order != [] && !PlatformHas(order[0].1, present) {
      FirstPlatformFirst(order[1..], present);
      assert forall p :: 1 <= p < |order| ==> order[p] == order[1..][p - 1];
    }
  }

  /** has_bi_keys: false (None) when the headers carry agent or user-agent,
      otherwise the first device-bi-order platform whose tuple is complete
      among the lower-cased header names. */
  function HasBiKeysSpec(headers: OrdMap<string>): Option<string>
  {
    if headers.Has("agent") || headers.Has("user-agent") then None
    else FirstPlatform(DeviceBiOrder, LowerKeys(headers.keys))
  }

  // ------------------------------------------------- the sieve, step by step

  /** The walk over one filter's match strings, first hit wins. */
  method MatchesWalk(matches: seq<(string, Val)>, value: string) returns (r: Option<(string, Val)>)
    ensures r == FindMatch(matches, value)
  {
    var k := 0;
    while k < |matches|
      invariant 0 <= k <= |matches|
      invariant FindMatch(matches, value) == FindMatch(matches[k..], value)
    {
      if Contains(value, matches[k].0) {
        return Some(matches[k]);
      }
      assert matches[k..][1..] == matches[k + 1..];
      k := k + 1;
    }
    return None;
  }

  /** The walk over one order's filters: a filter occurring in the value
      has its match strings tried; the first hit wins. */
  method FiltersWalk(rules: seq<Rule>, value: string) returns (r: Option<Hit>)
    ensures r == FindInFilters(rules, value)
  {
    var j := 0;
    while j < |rules|
      invariant 0 <= j <= |rules|
      invariant FindInFilters(rules, value) == FindInFilters(rules[j..], value)
    {
      if Contains(value, rules[j].filter) {
        var m := MatchesWalk(rules[j].matches, value);
        if m.Some? {
          return Some(Hit(rules[j].filter, m.value.0, m.value.1));
        }
      }
      assert rules[j..][1..] == rules[j + 1..];
      j := j + 1;
    }
    return None;
  }

  /** The walk over the orders of a sieve branch. */
  method SieveWalk(orders: seq<seq<Rule>>, value: string) returns (r: Option<Hit>)
    ensures r == SieveFind(orders, value)
  {
    var i := 0;
    while i < |orders|
      invariant 0 <= i <= |orders|
      invariant SieveFind(orders, value) == SieveFind(orders[i..], value)
    {
      var h := FiltersWalk(orders[i], value);
      if h.Some? {
        return h;
      }
      assert orders[i..][1..] == orders[i + 1..];
      i := i + 1;
    }
    return None;
  }

  // --------------------------------------------------- header scan, purely

  /** The matcher state threaded through a header scan. */
  datatype Scan = Scan(node: Option<Val>, keys: Option<map<string, string>>, tree: map<string, Entry>)

  /** The header scan of match_device and match_extra: the node of the
      first listed header with a non-blank value whose user-agent sieve
      match in the subtree is truthy, with the rule keys and memo as every
      attempt leaves them. */
  function SieveScan(store: Store, subtree: string, cls: string, headers: OrdMap<string>, order: seq<string>,
                     keys: Option<map<string, string>>, tree: map<string, Entry>): Scan
    requires keys.Some?
    ensures SieveScan(store, subtree, cls, headers, order, keys, tree).keys.Some?
  {
    if order == [] then Scan(None, keys, tree)
    else
      var field := order[0];
      match headers.Get(field)
      case Some(v) =>
        if BlankStr(v) then SieveScan(store, subtree, cls, headers, order[1..], keys, tree)
        else
          var m := MatchSpec(store, "user-agent", v, subtree, cls);
          var keys' := Record(keys, cls, m.key);
          var tree' := MatchTree(tree, store, "user-agent", v, subtree, cls);
          if Truthy(m.node) then Scan(Some(m.node), keys', tree')
          else SieveScan(store, subtree, cls, headers, order[1..], keys', tree')
      case None => SieveScan(store, subtree, cls, headers, order[1..], keys, tree)
  }

  /** A header worth matching: present with a non-blank value. */
  predicate Filled(headers: OrdMap<string>, field: string)
  {
    headers.Get(field).Some? && !BlankStr(headers.Get(field).value)
  }

  /** The node the user-agent sieve in the subtree gives a header's value. */
  function NodeFor(store: Store, subtree: string, cls: string, headers: OrdMap<string>, field: string): Val
    requires Filled(headers, field)
  {
    MatchSpec(store, "user-agent", headers.Get(field).value, subtree, cls).node
  }

  /** A header whose value the sieve matches to a truthy node. */
  predicate Hits(store: Store, subtree: string, cls: string, headers: OrdMap<string>, field: string)
  {
    Filled(headers, field) && Truthy(NodeFor(store, subtree, cls, headers, field))
  }

  /** The first name of the order that satisfies p. */
  function FirstWhere(order: seq<string>, p: string -> bool): (r: Option<string>)
    ensures r.Some? ==> r.value in order && p(r.value)
  {
    if order == [] then None
    else if p(order[0]) then Some(order[0])
    else FirstWhere(order[1..], p)
  }

  /** FirstWhere names a name of the order satisfying p with none before it,
      and is None exactly when no name satisfies p. */
  lemma {:induction false} FirstWhereSpec(order: seq<string>, p: string -> bool)
    ensures var f := FirstWhere(order, p);
            (f.Some? ==> exists i :: 0 <= i < |order| && order[i] == f.value &&
                                     forall j :: 0 <= j < i ==> !p(order[j])) &&
            (f.None? <==> forall i :: 0 <= i < |order| ==> !p(order[i]))
  {
    if order != [] && !p(order[0]) {
      var rest := order[1..];
      FirstWhereSpec(rest, p);
      assert forall i :: 1 <= i < |order| ==> order[i] == rest[i - 1];
      var f := FirstWhere(rest, p);
      if f.Some? {
        var i :| 0 <= i < |rest| && rest[i] == f.value && forall j :: 0 <= j < i ==> !p(rest[j]);
        assert order[i + 1] == rest[i];
      }
    }
  }

  /** The first header of the order that hits. */
  function FirstHit(store: Store, subtree: string, cls: string, headers: OrdMap<string>, order: seq<string>): (r: Option<string>)
    ensures r.Some? ==> r.value in order && Hits(store, subtree, cls, headers, r.value)
  {
    FirstWhere(order, f => Hits(store, subtree, cls, headers, f))
  }

  /** The scan returns the sieve node of the first header that hits, and
      nothing when no header does. */
  lemma {:induction false} SieveScanFindsFirstHit(store: Store, subtree: string, cls: string, headers: OrdMap<string>, order: seq<string>,
                                                  keys: Option<map<string, string>>, tree: map<string, Entry>)
    requires keys.Some?
    ensures var f := FirstHit(store, subtree, cls, headers, order);
            SieveScan(store, subtree, cls, headers, order, keys, tree).node ==
              if f.Some? then Some(NodeFor(store, subtree, cls, headers, f.value)) else None
  {
    if order != [] && !Hits(store, subtree, cls, headers, order[0]) {
      var v := headers.Get(order[0]);
      if Filled(headers, order[0]) {
        SieveScanFindsFirstHit(store, subtree, cls, headers, order[1..],
                               Record(keys, cls, MatchSpec(store, "user-agent", v.value, subtree, cls).key),
                               MatchTree(tree, store, "user-agent", v.value, subtree, cls));
      } else {
        SieveScanFindsFirstHit(store, subtree, cls, headers, order[1..], keys, tree);
      }
    }
  }

  // ------------------------------------------------------------- the class

  /** What a Base object holds between calls. */
  datatype MatcherState = MatcherState(tree: map<string, Entry>, ruleKeys: Option<map<string, string>>,
                                       orders: UaOrders, reply: Reply, error: Option<string>)

  class Base {
    const store: Store
    var tree: map<string, Entry>
    var ruleKeys: Option<map<string, string>>
    var orders: UaOrders
    var reply: Reply
    var error: Option<string>

    /** The memo only holds what the store holds under the same name. */
    ghost predicate TreeValid()
      reads this
    {
      forall k :: k in tree ==> Read(store, k) == Some(tree[k])
    }

    function State(): MatcherState
      reads this
    {
      MatcherState(tree, ruleKeys, orders, reply, error)
    }

    constructor (store: Store)
      ensures this.store == store && tree == map[] && ruleKeys == Some(map[])
      ensures orders == InitialUaOrders && reply == EmptyReply && error == None
      ensures TreeValid()
    {
      this.store := store;
      tree := map[];
      ruleKeys := Some(map[]);
      orders := InitialUaOrders;
      reply := EmptyReply;
      error := None;
    }

    /** get_branch: the store's branch, cached in the memo on first use. */
    method GetBranch(name: string) returns (r: Option<Entry>)
      requires TreeValid()
      modifies this`tree
      ensures TreeValid()
      ensures r == Read(store, name)
      ensures tree == Memo(old(tree), store, name)
    {
      if name in tree && !EntryBlank(tree[name]) {
        return Some(tree[name]);
      }
      var tmp := Read(store, name);
      if tmp.Some? {
        tree := tree[name := tmp.value];
        return tmp;
      }
      return None;
    }

    /** get_match: the sieve for header 'user-agent' (recording the rule key
        of the hit under cls), exact lookup of the cleansed value for every
        other header. */
    method GetMatch(header: string, value: string, subtree: string, cls: string) returns (node: Val)
      requires TreeValid()
      requires header == "user-agent" ==> ruleKeys.Some?
      modifies this`tree, this`ruleKeys
      ensures TreeValid()
      ensures node == MatchSpec(store, header, value, subtree, cls).node
      ensures ruleKeys == Record(old(ruleKeys), cls, MatchSpec(store, header, value, subtree, cls).key)
      ensures tree == MatchTree(old(tree), store, header, value, subtree, cls)
    {
      var v := if cls == "device" then CleanStr(value) else ExtraCleanStr(value);
      var treetag := header + subtree;
      if |v| < 4 {
        return VBool(false);
      }
      var branch := GetBranch(treetag);
      if branch.None? {
        return VBool(false);
      }
      if header == "user-agent" {
        if branch.value.SieveEntry? {
          var hit := SieveWalk(branch.value.orders, v);
          if hit.Some? {
            ruleKeys := Some(ruleKeys.value[cls := RuleKey(header, hit.value.filter, hit.value.pattern)]);
            return hit.value.node;
          }
        }
      } else {
        if branch.value.TableEntry? && v in branch.value.table && !Blank(branch.value.table[v]) {
          return branch.value.table[v];
        }
      }
      return VBool(false);
    }

    /** The header scan of match_device and match_extra, against the live
        matcher state: the first truthy sieve node wins. */
    method ScanHeaders(subtree: string, cls: string, headers: OrdMap<string>, order: seq<string>) returns (node: Option<Val>)
      requires TreeValid() && ruleKeys.Some?
      modifies this`tree, this`ruleKeys
      ensures TreeValid()
      ensures SieveScan(store, subtree, cls, headers, order, old(ruleKeys), old(tree)) ==
              Scan(node, ruleKeys, tree)
    {
      var j := 0;
      while j < |order|
        invariant 0 <= j <= |order|
        invariant TreeValid() && ruleKeys.Some?
        invariant SieveScan(store, subtree, cls, headers, order, old(ruleKeys), old(tree)) ==
                  SieveScan(store, subtree, cls, headers, order[j..], ruleKeys, tree)
      {
        var field := order[j];
        assert order[j..][0] == field && order[j..][1..] == order[j + 1..];
        var value := headers.Get(field);
        if value.Some? && !BlankStr(value.value) {
          var id := GetMatch("user-agent", value.value, subtree, cls);
          if Truthy(id) {
            return Some(id);
          }
        }
        j := j + 1;
      }
      return None;
    }

    /** has_bi_keys, with its counter loop over each tuple. */
    method HasBiKeys(headers: OrdMap<string>) returns (platform: Option<string>)
      ensures platform == HasBiKeysSpec(headers)
    {
      var dataKeys := LowerKeys(headers.keys);
      if headers.Has("agent") {
        return None;
      }
      if headers.Has("user-agent") {
        return None;
      }
      var biKeys := DeviceBiOrder;
      var p := 0;
      while p < |biKeys|
        invariant 0 <= p <= |biKeys|
        invariant FirstPlatform(biKeys, dataKeys) == FirstPlatform(biKeys[p..], dataKeys)
      {
        var tuples := biKeys[p].1;
        var t := 0;
        while t < |tuples|
          invariant 0 <= t <= |tuples|
          invariant forall u :: 0 <= u < t ==> !TupleComplete(tuples[u], dataKeys)
        {
          var tuple := tuples[t];
          var count := 0;
          var total := |tuple|;
          var i := 0;
          while i < |tuple|
            invariant 0 <= count <= i <= |tuple|
            invariant count == i <==> forall j :: 0 <= j < i ==> tuple[j] in dataKeys
            invariant i > 0 ==> count != total
          {
            if tuple[i] in dataKeys {
              count := count + 1;
            }
            if count == total {
              assert PlatformHas(tuples, dataKeys) by { assert TupleComplete(tuples[t], dataKeys); }
              return Some(biKeys[p].0);
            }
            i := i + 1;
          }
          t := t + 1;
        }
        assert biKeys[p..][1..] == biKeys[p + 1..];
        p := p + 1;
      }
      return None;
    }

    /** set_error: records the message and status; true exactly for status 0. */
    method SetError(status: int, msg: string) returns (ok: bool)
      modifies this`error, this`reply
      ensures ok <==> status == 0
      ensures error == Some(msg)
      ensures reply == old(reply).(status := Some(status), message := Some(msg))
    {
      error := Some(msg);
      reply := reply.(status := Some(status), message := Some(msg));
      return status == 0;
    }
  }
}
