/** The parts of the top-level client that shape a detection request:
    server environment variables turned back into header names, detect
    variables set one at a time, and the choice of id and request body at
    the start of a detection. */
module Hd4Client {
  import opened RubyValues
  import opened OrderedHash

  // ------------------------------------------------------- header names

  /** String#upcase on ASCII text. */
  function Upcase(s: string): (r: string)
    ensures |r| == |s| && forall i :: 0 <= i < |s| ==> r[i] == ToUpper(s[i])
  {
    seq(|s|, i requires 0 <= i < |s| => ToUpper(s[i]))
  }

  function Capitalized(parts: seq<string>): (r: seq<string>)
    ensures |r| == |parts| && forall i :: 0 <= i < |parts| ==> r[i] == Capitalize(parts[i])
  {
    seq(|parts|, i requires 0 <= i < |parts| => Capitalize(parts[i]))
  }

  /** An environment variable set_server_headers copies: /^HTTP_/. */
  predicate IsHttpVariable(k: string) { "HTTP_" <= k }

  /** The header name of a variable without its HTTP_ prefix: split on
      '_', each piece capitalised, joined with '-'. */
  function HeaderName(meta: string): string
  {
    Join(Capitalized(Split(meta, '_')), "-")
  }

  /** The detect request after copying the variables named by keys, in
      order: an HTTP_ variable is stored under its header name, replacing
      an entry of that name; every other variable is skipped. */
  function ServerHeaders(acc: OrdMap<string>, env: OrdMap<string>, keys: seq<string>): (r: OrdMap<string>)
    requires acc.Valid()
    ensures r.Valid()
    decreases |keys|
  {
    if keys == [] then acc
    else
      var k := keys[0];
      var next := if IsHttpVariable(k) && env.Has(k) then acc.Put(HeaderName(k[5..]), env.values[k]) else acc;
      ServerHeaders(next, env, keys[1..])
  }

  /** A header name in canonical form: non-empty dash-separated pieces,
      each starting with a character that is not a lower-case letter and
      holding no upper-case letter after it, and no '_' anywhere. */
  predicate CanonicalPiece(p: string)
  {
    p != [] && !IsLower(p[0]) && (forall i :: 1 <= i < |p| ==> !IsUpper(p[i])) &&
    '_' !in p && '-' !in p
  }

  /** Each piece upper-cased. */
  function Upcased(pieces: seq<string>): (r: seq<string>)
    ensures |r| == |pieces| && forall i :: 0 <= i < |pieces| ==> r[i] == Upcase(pieces[i])
  {
    seq(|pieces|, i requires 0 <= i < |pieces| => Upcase(pieces[i]))
  }

  /** The CGI meta-variable a web server makes of a header (section 4.1.18
      of RFC 3875): HTTP_, then the name upper-cased with '-' as '_'. */
  function MetaVariable(pieces: seq<string>): string
  {
    "HTTP_" + Join(Upcased(pieces), "_")
  }

  /** set_server_headers undoes the server's renaming for every header in
      canonical form: the header comes back with its own name. */
  lemma HeaderNameOfMetaVariable(pieces: seq<string>)
    requires |pieces| >= 1 && forall i :: 0 <= i < |pieces| ==> CanonicalPiece(pieces[i])
    ensures IsHttpVariable(MetaVariable(pieces))
    ensures HeaderName(MetaVariable(pieces)[5..]) == Join(pieces, "-")
  {
    var up := Upcased(pieces);
    assert MetaVariable(pieces)[5..] == Join(up, "_");
    SplitUpcased(pieces);
    CapitalizedUpcased(pieces);
  }

  lemma SplitUpcased(pieces: seq<string>)
    requires |pieces| >= 1 && forall i :: 0 <= i < |pieces| ==> CanonicalPiece(pieces[i])
    ensures Split(Join(Upcased(pieces), "_"), '_') == Upcased(pieces)
  {
    var up := Upcased(pieces);
    forall i | 0 <= i < |up| ensures '_' !in up[i] {
      forall j | 0 <= j < |up[i]| ensures up[i][j] != '_' {
        assert up[i][j] == ToUpper(pieces[i][j]);
      }
    }
    FieldsOfJoin(up, '_');
    assert up[|up| - 1] != "";
  }

  lemma CapitalizedUpcased(pieces: seq<string>)
    requires forall i :: 0 <= i < |pieces| ==> CanonicalPiece(pieces[i])
    ensures Capitalized(Upcased(pieces)) == pieces
  {
    forall i | 0 <= i < |pieces| ensures Capitalize(Upcased(pieces)[i]) == pieces[i] {
      CapitalizeUpcase(pieces[i]);
    }
  }

  lemma CapitalizeUpcase(p: string)
    requires CanonicalPiece(p)
    ensures Capitalize(Upcase(p)) == p
  {
    var u := Upcase(p);
    assert u[1..] == Upcase(p[1..]);
    assert Downcase(Upcase(p[1..])) == p[1..];
  }

  /** One step of the fold over keys[i..]. */
  lemma ServerHeadersStep(acc: OrdMap<string>, env: OrdMap<string>, keys: seq<string>, i: int)
    requires acc.Valid() && 0 <= i < |keys|
    ensures var k := keys[i];
            var next := if IsHttpVariable(k) && env.Has(k) then acc.Put(HeaderName(k[5..]), env.values[k]) else acc;
            ServerHeaders(acc, env, keys[i..]) == ServerHeaders(next, env, keys[i + 1..])
  {
    assert keys[i..][1..] == keys[i + 1..] && keys[i..][0] == keys[i];
  }

  /** A header no copied variable names keeps its old value. */
  lemma {:induction false} ServerHeadersUntouched(acc: OrdMap<string>, env: OrdMap<string>, keys: seq<string>,
                                                  name: string)
    requires acc.Valid()
    requires forall k :: k in keys && IsHttpVariable(k) && env.Has(k) ==> HeaderName(k[5..]) != name
    ensures ServerHeaders(acc, env, keys).Get(name) == acc.Get(name)
    decreases |keys|
  {
    if keys != [] {
      var k := keys[0];
      var next := if IsHttpVariable(k) && env.Has(k) then acc.Put(HeaderName(k[5..]), env.values[k]) else acc;
      ServerHeadersUntouched(next, env, keys[1..], name);
    }
  }

  /** A copied variable that no later variable overwrites ends up under its
      header name. */
  lemma {:induction false} ServerHeadersCopies(acc: OrdMap<string>, env: OrdMap<string>, keys: seq<string>, i: int)
    requires acc.Valid() && 0 <= i < |keys|
    requires IsHttpVariable(keys[i]) && env.Has(keys[i])
    requires forall j :: i < j < |keys| && IsHttpVariable(keys[j]) && env.Has(keys[j]) ==>
               HeaderName(keys[j][5..]) != HeaderName(keys[i][5..])
    ensures ServerHeaders(acc, env, keys).Get(HeaderName(keys[i][5..])) == Some(env.values[keys[i]])
    decreases |keys|
  {
    if i == 0 {
      ServerHeadersCopiesFirst(acc, env, keys);
    } else {
      var k := keys[0];
      var next := if IsHttpVariable(k) && env.Has(k) then acc.Put(HeaderName(k[5..]), env.values[k]) else acc;
      forall j | i - 1 < j < |keys[1..]| && IsHttpVariable(keys[1..][j]) && env.Has(keys[1..][j])
        ensures HeaderName(keys[1..][j][5..]) != HeaderName(keys[1..][i - 1][5..])
      {
        assert keys[1..][j] == keys[j + 1];
      }
      ServerHeadersCopies(next, env, keys[1..], i - 1);
    }
  }

  /** The first key copied and never overwritten stays. */
  lemma ServerHeadersCopiesFirst(acc: OrdMap<string>, env: OrdMap<string>, keys: seq<string>)
    requires acc.Valid() && 0 < |keys|
    requires IsHttpVariable(keys[0]) && env.Has(keys[0])
    requires forall j :: 0 < j < |keys| && IsHttpVariable(keys[j]) && env.Has(keys[j]) ==>
               HeaderName(keys[j][5..]) != HeaderName(keys[0][5..])
    ensures ServerHeaders(acc, env, keys).Get(HeaderName(keys[0][5..])) == Some(env.values[keys[0]])
  {
    var k := keys[0];
    var name := HeaderName(k[5..]);
    var next := acc.Put(name, env.values[k]);
    forall k' | k' in keys[1..] && IsHttpVariable(k') && env.Has(k')
      ensures HeaderName(k'[5..]) != name
    {
      var j :| 0 <= j < |keys[1..]| && keys[1..][j] == k';
      assert keys[j + 1] == k';
    }
    ServerHeadersUntouched(next, env, keys[1..], name);
  }

  // ------------------------------------------------------------ the client

  class Hd4 {
    /** @detect_request: the headers a detection uses when it is given none. */
    var detectRequest: OrdMap<string>
    /** The configured site id. */
    const siteId: Val

    ghost predicate Valid()
      reads this
    {
      detectRequest.Valid()
    }

    constructor (siteId: Val)
      ensures Valid() && detectRequest == Empty() && this.siteId == siteId
    {
      detectRequest := Empty();
      this.siteId := siteId;
    }

    /** set_server_headers: copies the HTTP_ variables of the environment,
        in order, into the detect request under their header names. */
    method SetServerHeaders(env: OrdMap<string>)
      requires Valid() && env.Valid()
      modifies this`detectRequest
      ensures Valid()
      ensures detectRequest == ServerHeaders(old(detectRequest), env, env.keys)
    {
      var i := 0;
      assert env.keys[0..] == env.keys;
      while i < |env.keys|
        invariant 0 <= i <= |env.keys| && detectRequest.Valid()
        invariant ServerHeaders(detectRequest, env, env.keys[i..]) == ServerHeaders(old(detectRequest), env, env.keys)
      {
        var k := env.keys[i];
        ghost var before := detectRequest;
        if IsHttpVariable(k) && env.Has(k) {
          var name := HeaderName(k[5..]);
          detectRequest := detectRequest.Put(name, env.values[k]);
        }
        ServerHeadersStep(before, env, env.keys, i);
        i := i + 1;
      }
    }

    /** set_detect_var: the value is stored under the lower-cased key; every
        other entry is kept, and a new key goes last. */
    method SetDetectVar(key: string, value: string)
      requires Valid()
      modifies this`detectRequest
      ensures Valid()
      ensures detectRequest.Get(Downcase(key)) == Some(value)
      ensures forall k :: k != Downcase(key) ==> detectRequest.Get(k) == old(detectRequest).Get(k)
      ensures detectRequest.keys == old(detectRequest).keys ||
              detectRequest.keys == old(detectRequest).keys + [Downcase(key)]
    {
      detectRequest := detectRequest.Put(Downcase(key), value);
    }

    /** The start of device_detect: the id is data's non-blank 'id' or else
        the site id; 'id' is deleted from data; the request is what is left
        of data, or the detect request when nothing is left. */
    method DetectSelection(data: OrdMap<string>) returns (id: Val, rest: OrdMap<string>, request: OrdMap<string>)
      requires Valid() && data.Valid()
      ensures data.Has("id") && !BlankStr(data.values["id"]) ==> id == VStr(data.values["id"])
      ensures !data.Has("id") || BlankStr(data.values["id"]) ==> id == siteId
      ensures !rest.Has("id") && forall k :: k != "id" ==> rest.Get(k) == data.Get(k)
      ensures request == (if rest.values == map[] then detectRequest else rest)
    {
      if data.Has("id") && !BlankStr(data.values["id"]) {
        id := VStr(data.values["id"]);
      } else {
        id := siteId;
      }
      rest := data.Delete("id");
      request := if rest.values == map[] then detectRequest else rest;
    }
  }
}
