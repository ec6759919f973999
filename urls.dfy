/**
 * The parts of `urllib.parse` the scrapers depend on, in the simplified form they use: the
 * components of a parsed URL, the `hostname` property, `parse_qs` (splitting on `&`, cutting each
 * field at its first `=`, dropping blank values, grouping values by name in first-seen order),
 * `dict.update` of a parsed query, and `urlencode(..., doseq=True)`. Names and values are opaque:
 * no percent-decoding or quoting happens here.
 */
module Urls {
  import opened Wrappers
  import opened Text

  /**
   * A URL: its full text together with the components `urlparse` reports for it. The model does
   * not re-derive the components from the text; URLs it constructs itself come from `Build`.
   */
  datatype Url = Url(text: string, scheme: string, netloc: string, path: string, query: string, fragment: string)

  /** `urlunparse`/`geturl()` for a URL that has a scheme and a host, as every URL built here has. */
  function Build(scheme: string, netloc: string, path: string, query: string, fragment: string): Url {
    var text := scheme + "://" + netloc + path
      + (if query == "" then "" else "?" + query)
      + (if fragment == "" then "" else "#" + fragment);
    Url(text, scheme, netloc, path, query, fragment)
  }

  /**
   * `urlsplit`, and so `urlparse`, raises `ValueError("Invalid IPv6 URL")` for a netloc that has a
   * `[` without a `]`, or a `]` without a `[`.
   */
  predicate BracketsMatch(netloc: string) {
    ('[' in netloc) == (']' in netloc)
  }

  // ---------------------------------------------------------------------------------------
  // The hostname property

  /** The part of the netloc after its last `@` (all of it when there is none). */
  function HostInfo(netloc: string): string {
    if '@' in netloc then netloc[LastIndexOf(netloc, '@') + 1..] else netloc
  }

  /** The host inside `[...]` when there is a `[`, else the part before the first `:`. */
  function HostPart(hostinfo: string): string {
    if '[' in hostinfo then
      var b := hostinfo[IndexOf(hostinfo, '[') + 1..];
      if ']' in b then b[..IndexOf(b, ']')] else b
    else if ':' in hostinfo then
      hostinfo[..IndexOf(hostinfo, ':')]
    else
      hostinfo
  }

  /**
   * `urlparse(url).hostname` for a URL with the given netloc: None when there is no host, else the
   * host lower-cased up to any `%` zone suffix.
   */
  function Hostname(netloc: string): Option<string> {
    var host := HostPart(HostInfo(netloc));
    if host == "" then None
    else if '%' in host then
      var k := IndexOf(host, '%');
      Some(Lower(host[..k]) + host[k..])
    else
      Some(Lower(host))
  }

  lemma HostInfoSuffix(netloc: string)
    ensures '@' !in HostInfo(netloc)
    ensures exists i :: 0 <= i <= |netloc| && HostInfo(netloc) == netloc[i..]
  {
    if '@' in netloc {
      var i := LastIndexOf(netloc, '@') + 1;
      assert HostInfo(netloc) == netloc[i..];
    } else {
      assert HostInfo(netloc) == netloc[0..];
    }
  }

  lemma HostInfoAfterAt(user: string, info: string)
    requires '@' !in info
    ensures HostInfo(user + "@" + info) == info
  {
    LastIndexOfAppend(user, '@', info);
    assert user + "@" + info == user + ['@'] + info;
  }

  lemma HostPartOfPort(host: string, port: string)
    requires ':' !in host && '[' !in host && '[' !in port
    ensures HostPart(host + ":" + port) == host
    ensures HostPart(host) == host
  {
    var info := host + ":" + port;
    assert '[' !in info by {
      assert forall c :: c in info ==> c in host || c == ':' || c in port;
    }
    IndexOfAppend(host, ':', port);
    assert info == host + [':'] + port;
    assert info[..|host|] == host;
  }

  /** User information before `@` and a port after `:` do not belong to the hostname. */
  lemma HostnameOfAuthority(user: string, host: string, port: string)
    requires host != "" && '@' !in host && ':' !in host && '[' !in host && '%' !in host
    requires '@' !in port && '[' !in port
    ensures Hostname(user + "@" + host + ":" + port) == Some(Lower(host))
    ensures Hostname(host) == Some(Lower(host))
  {
    var info := host + ":" + port;
    assert '@' !in info by {
      assert forall c :: c in info ==> c in host || c == ':' || c in port;
    }
    assert user + "@" + host + ":" + port == user + "@" + info;
    HostInfoAfterAt(user, info);
    HostPartOfPort(host, port);
  }

  /** A `[` in front of a plain host without the closing `]`: the hostname is read past the `[`. */
  lemma HostnameAfterBracket(host: string)
    requires host != "" && '@' !in host && '[' !in host && ']' !in host && '%' !in host
    requires forall i :: 0 <= i < |host| ==> !IsUpper(host[i])
    ensures !BracketsMatch("[" + host)
    ensures Hostname("[" + host) == Some(host)
  {
    var n := "[" + host;
    assert forall c :: c in n <==> c == '[' || c in host;
    assert n == [] + ['['] + host;
    assert HostInfo(n) == n;
    IndexOfAppend([], '[', host);
    assert n[1..] == host;
    assert HostPart(n) == host;
    LowerUnchanged(host);
  }

  // ---------------------------------------------------------------------------------------
  // parse_qs

  /** A parsed query: names in first-seen order, each with its values in order. */
  type Query = seq<(string, seq<string>)>

  /** One `name=value` field, cut at its first `=`; a field without `=` or with a blank value is dropped. */
  function FieldPair(field: string): (p: Option<(string, string)>)
    ensures p.Some? ==> '=' !in p.value.0 && p.value.1 != ""
    ensures p.Some? ==> field == p.value.0 + "=" + p.value.1
  {
    if '=' in field then
      var i := IndexOf(field, '=');
      if i + 1 < |field| then
        assert field == field[..i] + "=" + field[i + 1..];
        Some((field[..i], field[i + 1..]))
      else
        None
    else
      None
  }

  function Pairs(fields: seq<string>): seq<(string, string)> {
    if fields == [] then []
    else
      match FieldPair(fields[0])
      case Some(p) => [p] + Pairs(fields[1..])
      case None => Pairs(fields[1..])
  }

  /** `parse_qsl(query)`: the kept name/value pairs in order. */
  function ParseQsl(query: string): seq<(string, string)> {
    Pairs(SplitOn(query, '&'))
  }

  function Keys(q: Query): set<string> {
    if q == [] then {} else {q[0].0} + Keys(q[1..])
  }

  predicate UniqueKeys(q: Query) {
    q == [] || (q[0].0 !in Keys(q[1..]) && UniqueKeys(q[1..]))
  }

  /** `q[name]`, when the name is present. */
  function Lookup(q: Query, name: string): (r: Option<seq<string>>)
    ensures r.None? <==> name !in Keys(q)
  {
    if q == [] then None
    else if q[0].0 == name then Some(q[0].1)
    else Lookup(q[1..], name)
  }

  /** `q[name][0]`, when the name is present. */
  function FirstValue(q: Query, name: string): Option<string> {
    match Lookup(q, name)
    case Some(vs) => if vs == [] then None else Some(vs[0])
    case None => None
  }

  /** One step of `parse_qs` grouping: append to the name's list, or add the name at the end. */
  function Add(q: Query, name: string, value: string): (r: Query)
    ensures Keys(r) == Keys(q) + {name}
    ensures UniqueKeys(q) ==> UniqueKeys(r)
  {
    if q == [] then [(name, [value])]
    else if q[0].0 == name then [(name, q[0].1 + [value])] + q[1..]
    else [q[0]] + Add(q[1..], name, value)
  }

  function Group(ps: seq<(string, string)>): (q: Query)
    ensures UniqueKeys(q)
  {
    if ps == [] then [] else Add(Group(ps[..|ps| - 1]), ps[|ps| - 1].0, ps[|ps| - 1].1)
  }

  /** `parse_qs(query)`. */
  function ParseQs(query: string): Query {
    Group(ParseQsl(query))
  }

  /** The values paired with `name`, in order. */
  function ValuesOf(ps: seq<(string, string)>, name: string): seq<string> {
    if ps == [] then []
    else
      var last := ps[|ps| - 1];
      ValuesOf(ps[..|ps| - 1], name) + (if last.0 == name then [last.1] else [])
  }

  lemma {:induction false} LookupAdd(q: Query, name: string, value: string, other: string)
    ensures Lookup(Add(q, name, value), other) ==
      if other == name then Some(Lookup(q, name).GetOr([]) + [value]) else Lookup(q, other)
  {
    if q == [] {
      assert Lookup(q, name).GetOr([]) + [value] == [value];
    } else if q[0].0 == name {
      assert ([(name, q[0].1 + [value])] + q[1..])[1..] == q[1..];
    } else {
      assert ([q[0]] + Add(q[1..], name, value))[1..] == Add(q[1..], name, value);
      LookupAdd(q[1..], name, value, other);
    }
  }

  /** Grouping collects, for every name, exactly the values paired with it, in order. */
  lemma {:induction false} GroupLookup(ps: seq<(string, string)>, name: string)
    ensures Lookup(Group(ps), name) == if ValuesOf(ps, name) == [] then None else Some(ValuesOf(ps, name))
  {
    if ps != [] {
      var init, last := ps[..|ps| - 1], ps[|ps| - 1];
      GroupLookup(init, name);
      LookupAdd(Group(init), last.0, last.1, name);
      assert ValuesOf(ps, name) == ValuesOf(init, name) + (if last.0 == name then [last.1] else []);
      assert Group(ps) == Add(Group(init), last.0, last.1);
      if ValuesOf(init, name) == [] {
        assert Lookup(Group(init), name).GetOr([]) == [];
        if last.0 == name {
          assert ValuesOf(ps, name) == [last.1];
          assert Lookup(Group(ps), name) == Some([] + [last.1]);
        } else {
          assert ValuesOf(ps, name) == [];
        }
      } else if last.0 != name {
        assert ValuesOf(ps, name) == ValuesOf(init, name) + [];
        assert ValuesOf(init, name) + [] == ValuesOf(init, name);
      }
    }
  }

  // ---------------------------------------------------------------------------------------
  // dict.update and urlencode(doseq=True)

  /** `q.update({name: value})`: an existing name keeps its place and gets the single value. */
  function Set(q: Query, name: string, value: string): (r: Query)
    ensures Keys(r) == Keys(q) + {name}
    ensures UniqueKeys(q) ==> UniqueKeys(r)
  {
    if q == [] then [(name, [value])]
    else if q[0].0 == name then [(name, [value])] + q[1..]
    else [q[0]] + Set(q[1..], name, value)
  }

  lemma {:induction false} LookupSet(q: Query, name: string, value: string, other: string)
    ensures Lookup(Set(q, name, value), other) == if other == name then Some([value]) else Lookup(q, other)
  {
    if q != [] && q[0].0 == name {
      assert ([(name, [value])] + q[1..])[1..] == q[1..];
    } else if q != [] {
      assert ([q[0]] + Set(q[1..], name, value))[1..] == Set(q[1..], name, value);
      LookupSet(q[1..], name, value, other);
    }
  }

  /** `name=value` for every value of one entry. */
  function EntryFields(name: string, values: seq<string>): seq<string> {
    if values == [] then [] else [name + "=" + values[0]] + EntryFields(name, values[1..])
  }

  function Fields(q: Query): seq<string> {
    if q == [] then [] else EntryFields(q[0].0, q[0].1) + Fields(q[1..])
  }

  /** `urlencode(q, doseq=True)`, without quoting. */
  function Encode(q: Query): string {
    JoinWith(Fields(q), '&')
  }

  /** A name/value pair that survives `Encode` followed by `ParseQs`. */
  predicate GoodPair(p: (string, string)) {
    '&' !in p.0 && '=' !in p.0 && p.1 != "" && '&' !in p.1
  }

  predicate GoodValues(name: string, values: seq<string>) {
    forall j :: 0 <= j < |values| ==> GoodPair((name, values[j]))
  }

  /** What `Encode` needs in order to be read back by `ParseQs`. */
  predicate WellFormed(q: Query) {
    q == [] ||
      (q[0].1 != [] && GoodValues(q[0].0, q[0].1) && q[0].0 !in Keys(q[1..]) && WellFormed(q[1..]))
  }

  lemma {:induction false} PairsAppend(a: seq<string>, b: seq<string>)
    ensures Pairs(a + b) == Pairs(a) + Pairs(b)
  {
    if a != [] {
      assert (a + b)[1..] == a[1..] + b;
      PairsAppend(a[1..], b);
    } else {
      assert a + b == b;
    }
  }

  lemma {:induction false} ValuesOfAppend(a: seq<(string, string)>, b: seq<(string, string)>, name: string)
    ensures ValuesOf(a + b, name) == ValuesOf(a, name) + ValuesOf(b, name)
    decreases |b|
  {
    if b == [] {
      assert a + b == a;
    } else {
      assert (a + b)[..|a + b| - 1] == a + b[..|b| - 1];
      ValuesOfAppend(a, b[..|b| - 1], name);
    }
  }

  lemma {:induction false} ValuesOfCons(p: (string, string), rest: seq<(string, string)>, name: string)
    ensures ValuesOf([p] + rest, name) == (if p.0 == name then [p.1] else []) + ValuesOf(rest, name)
  {
    ValuesOfAppend([p], rest, name);
    assert [p][..0] == [];
  }

  lemma {:induction false} EntryFieldsPairs(name: string, values: seq<string>, other: string)
    requires GoodValues(name, values)
    ensures ValuesOf(Pairs(EntryFields(name, values)), other) == if other == name then values else []
  {
    if values != [] {
      var f := name + "=" + values[0];
      assert GoodPair((name, values[0]));
      assert f[|name|] == '=';
      assert f == name + ['='] + values[0];
      IndexOfAppend(name, '=', values[0]);
      assert f[..|name|] == name && f[|name| + 1..] == values[0];
      assert FieldPair(f) == Some((name, values[0]));
      EntryFieldsPairs(name, values[1..], other);
      ValuesOfCons((name, values[0]), Pairs(EntryFields(name, values[1..])), other);
      if other == name {
        assert values == [values[0]] + values[1..];
      }
    }
  }

  lemma {:induction false} FieldsPairs(q: Query, name: string)
    requires WellFormed(q)
    ensures ValuesOf(Pairs(Fields(q)), name) == match Lookup(q, name) case Some(vs) => vs case None => []
  {
    if q != [] {
      FieldsPairs(q[1..], name);
      PairsAppend(EntryFields(q[0].0, q[0].1), Fields(q[1..]));
      ValuesOfAppend(Pairs(EntryFields(q[0].0, q[0].1)), Pairs(Fields(q[1..])), name);
      EntryFieldsPairs(q[0].0, q[0].1, name);
      if q[0].0 == name {
        assert Lookup(q[1..], name).None?;
      }
    }
  }

  lemma {:induction false} EntryFieldsShape(name: string, values: seq<string>)
    requires GoodValues(name, values)
    ensures forall i :: 0 <= i < |EntryFields(name, values)| ==> '&' !in EntryFields(name, values)[i]
  {
    if values != [] {
      assert GoodPair((name, values[0]));
      EntryFieldsShape(name, values[1..]);
      assert '&' !in name + "=" + values[0];
    }
  }

  lemma {:induction false} FieldsShape(q: Query)
    requires WellFormed(q)
    ensures forall i :: 0 <= i < |Fields(q)| ==> '&' !in Fields(q)[i]
    ensures q != [] ==> Fields(q) != []
  {
    if q != [] {
      FieldsShape(q[1..]);
      EntryFieldsShape(q[0].0, q[0].1);
    }
  }

  lemma {:induction false} LookupInWellFormed(q: Query, name: string)
    requires WellFormed(q) && name in Keys(q)
    ensures Lookup(q, name).Some? && Lookup(q, name).value != []
  {
    if q[0].0 != name {
      LookupInWellFormed(q[1..], name);
    }
  }

  /** Encoding a well-formed query and parsing it again gives every name its values back. */
  lemma ParseQsEncode(q: Query, name: string)
    requires WellFormed(q)
    ensures Lookup(ParseQs(Encode(q)), name) == Lookup(q, name)
  {
    var fs := Fields(q);
    FieldsShape(q);
    if fs == [] {
      assert q == [];
      assert SplitOn(Encode(q), '&') == [""];
      assert ParseQsl(Encode(q)) == [];
    } else {
      SplitOnJoin(fs, '&');
    }
    GroupLookup(ParseQsl(Encode(q)), name);
    FieldsPairs(q, name);
    if name in Keys(q) {
      LookupInWellFormed(q, name);
    }
  }

  // ---------------------------------------------------------------------------------------
  // Parsed queries are well formed, and updates keep them so

  lemma {:induction false} PairsGood(fields: seq<string>)
    requires forall i :: 0 <= i < |fields| ==> '&' !in fields[i]
    ensures forall i :: 0 <= i < |Pairs(fields)| ==> GoodPair(Pairs(fields)[i])
  {
    if fields != [] {
      PairsGood(fields[1..]);
      match FieldPair(fields[0])
      case Some(p) =>
        assert fields[0] == p.0 + "=" + p.1;
        assert forall c :: c in p.0 || c in p.1 ==> c in fields[0];
      case None =>
    }
  }

  lemma {:induction false} AddWellFormed(q: Query, name: string, value: string)
    requires WellFormed(q) && GoodPair((name, value))
    ensures WellFormed(Add(q, name, value))
  {
    if q != [] && q[0].0 == name {
      assert ([(name, q[0].1 + [value])] + q[1..])[1..] == q[1..];
      assert GoodValues(name, q[0].1 + [value]) by {
        forall j | 0 <= j < |q[0].1 + [value]|
          ensures GoodPair((name, (q[0].1 + [value])[j]))
        {
          if j < |q[0].1| {
            assert GoodPair((name, q[0].1[j]));
          }
        }
      }
    } else if q != [] {
      AddWellFormed(q[1..], name, value);
      assert ([q[0]] + Add(q[1..], name, value))[1..] == Add(q[1..], name, value);
    }
  }

  lemma {:induction false} GroupWellFormed(ps: seq<(string, string)>)
    requires forall i :: 0 <= i < |ps| ==> GoodPair(ps[i])
    ensures WellFormed(Group(ps))
  {
    if ps != [] {
      GroupWellFormed(ps[..|ps| - 1]);
      AddWellFormed(Group(ps[..|ps| - 1]), ps[|ps| - 1].0, ps[|ps| - 1].1);
    }
  }

  /** Whatever `parse_qs` returns can be encoded and parsed back. */
  lemma ParseQsWellFormed(query: string)
    ensures WellFormed(ParseQs(query))
  {
    PairsGood(SplitOn(query, '&'));
    GroupWellFormed(ParseQsl(query));
  }

  lemma {:induction false} SetWellFormed(q: Query, name: string, value: string)
    requires WellFormed(q) && GoodPair((name, value))
    ensures WellFormed(Set(q, name, value))
  {
    if q != [] && q[0].0 == name {
      assert ([(name, [value])] + q[1..])[1..] == q[1..];
    } else if q != [] {
      SetWellFormed(q[1..], name, value);
      assert ([q[0]] + Set(q[1..], name, value))[1..] == Set(q[1..], name, value);
    }
  }

  /** `q.update(additions)`, one addition after the other. */
  function SetAll(q: Query, additions: seq<(string, string)>): Query {
    if additions == [] then q
    else
      var last := additions[|additions| - 1];
      Set(SetAll(q, additions[..|additions| - 1]), last.0, last.1)
  }

  /** The value the last addition for `name` gives it. */
  function LastValue(additions: seq<(string, string)>, name: string): Option<string> {
    if additions == [] then None
    else if additions[|additions| - 1].0 == name then Some(additions[|additions| - 1].1)
    else LastValue(additions[..|additions| - 1], name)
  }

  /** After the update a name has the single value its last addition gives, or keeps its values. */
  lemma {:induction false} LookupSetAll(q: Query, additions: seq<(string, string)>, name: string)
    ensures Lookup(SetAll(q, additions), name) ==
      match LastValue(additions, name) case Some(v) => Some([v]) case None => Lookup(q, name)
  {
    if additions != [] {
      var last := additions[|additions| - 1];
      LookupSetAll(q, additions[..|additions| - 1], name);
      LookupSet(SetAll(q, additions[..|additions| - 1]), last.0, last.1, name);
    }
  }

  lemma {:induction false} SetAllWellFormed(q: Query, additions: seq<(string, string)>)
    requires WellFormed(q)
    requires forall i :: 0 <= i < |additions| ==> GoodPair(additions[i])
    ensures WellFormed(SetAll(q, additions))
  {
    if additions != [] {
      var last := additions[|additions| - 1];
      SetAllWellFormed(q, additions[..|additions| - 1]);
      SetWellFormed(SetAll(q, additions[..|additions| - 1]), last.0, last.1);
    }
  }

  /** In a well-formed query a name has a first value exactly when it is present, and that value is good. */
  lemma {:induction false} FirstValueOfWellFormed(q: Query, name: string)
    requires WellFormed(q)
    ensures FirstValue(q, name).Some? <==> name in Keys(q)
    ensures FirstValue(q, name).Some? ==> GoodPair((name, FirstValue(q, name).value))
  {
    if q != [] {
      if q[0].0 == name {
        assert GoodPair((name, q[0].1[0]));
      } else {
        FirstValueOfWellFormed(q[1..], name);
      }
    }
  }

  // ---------------------------------------------------------------------------------------
  // Two-entry queries, as the scrapers build them

  lemma LastValueTwo(a: string, x: string, b: string, y: string, name: string)
    ensures LastValue([(a, x), (b, y)], name) == if name == b then Some(y) else if name == a then Some(x) else None
  {
    var adds := [(a, x), (b, y)];
    assert adds[..1] == [(a, x)] && adds[..1][..0] == [];
    assert LastValue([(a, x)], name) == if name == a then Some(x) else LastValue([], name);
    assert LastValue(adds, name) == if name == b then Some(y) else LastValue([(a, x)], name);
  }

  lemma LookupTwo(a: string, x: string, b: string, y: string, name: string)
    ensures Lookup([(a, [x]), (b, [y])], name) == if name == a then Some([x]) else if name == b then Some([y]) else None
  {
    var q := [(a, [x]), (b, [y])];
    assert q[1..] == [(b, [y])] && q[1..][1..] == [];
  }

  lemma WellFormedTwo(a: string, x: string, b: string, y: string)
    requires GoodPair((a, x)) && GoodPair((b, y)) && a != b
    ensures WellFormed([(a, [x]), (b, [y])])
  {
    var q := [(a, [x]), (b, [y])];
    assert q[1..] == [(b, [y])] && q[1..][1..] == [];
    assert Keys(q[1..]) == {b} + Keys([]);
    assert GoodValues(a, [x]) && GoodValues(b, [y]);
  }

  lemma EncodeTwo(a: string, x: string, b: string, y: string)
    ensures Encode([(a, [x]), (b, [y])]) == a + "=" + x + "&" + b + "=" + y
  {
    var q := [(a, [x]), (b, [y])];
    assert q[1..] == [(b, [y])] && q[1..][1..] == [];
    assert EntryFields(a, [x]) == [a + "=" + x] by { assert [x][1..] == []; }
    assert EntryFields(b, [y]) == [b + "=" + y] by { assert [y][1..] == []; }
    assert Fields(q[1..]) == EntryFields(b, [y]) + Fields([]);
    assert Fields(q) == [a + "=" + x] + [b + "=" + y];
    assert JoinWith([a + "=" + x, b + "=" + y], '&') == a + "=" + x + ['&'] + JoinWith([b + "=" + y], '&');
  }

  /** A query string of two distinct well-formed fields reads back as those two fields. */
  lemma TwoFieldQuery(qs: string, a: string, x: string, b: string, y: string, name: string)
    requires GoodPair((a, x)) && GoodPair((b, y)) && a != b
    requires qs == a + "=" + x + "&" + b + "=" + y
    ensures Lookup(ParseQs(qs), name) == if name == a then Some([x]) else if name == b then Some([y]) else None
  {
    var q := [(a, [x]), (b, [y])];
    WellFormedTwo(a, x, b, y);
    EncodeTwo(a, x, b, y);
    ParseQsEncode(q, name);
    LookupTwo(a, x, b, y, name);
  }

  // ---------------------------------------------------------------------------------------
  // One-entry queries

  lemma LookupOne(a: string, x: string, name: string)
    ensures Lookup([(a, [x])], name) == if name == a then Some([x]) else None
  {
    assert [(a, [x])][1..] == [];
  }

  lemma WellFormedOne(a: string, x: string)
    requires GoodPair((a, x))
    ensures WellFormed([(a, [x])])
  {
    assert [(a, [x])][1..] == [];
    assert GoodValues(a, [x]);
  }

  lemma EncodeOne(a: string, x: string)
    ensures Encode([(a, [x])]) == a + "=" + x
  {
    assert [(a, [x])][1..] == [];
    assert EntryFields(a, [x]) == [a + "=" + x] by { assert [x][1..] == []; }
    assert Fields([(a, [x])]) == [a + "=" + x] + Fields([]);
  }

  /** A single `name=value` query reads back as that one value. */
  lemma ParseQsOne(a: string, x: string, name: string)
    requires GoodPair((a, x))
    ensures Lookup(ParseQs(a + "=" + x), name) == if name == a then Some([x]) else None
    ensures FirstValue(ParseQs(a + "=" + x), a) == Some(x)
  {
    EncodeOne(a, x);
    WellFormedOne(a, x);
    ParseQsEncode([(a, [x])], name);
    ParseQsEncode([(a, [x])], a);
    LookupOne(a, x, name);
    LookupOne(a, x, a);
  }

  // ---------------------------------------------------------------------------------------
  // Queries written field by field

  /** A query joined from `&`-free fields parses field by field. */
  lemma LookupJoined(fields: seq<string>, name: string)
    requires |fields| >= 1
    requires forall i :: 0 <= i < |fields| ==> '&' !in fields[i]
    ensures Lookup(ParseQs(JoinWith(fields, '&')), name) ==
      var vs := ValuesOf(Pairs(fields), name); if vs == [] then None else Some(vs)
  {
    SplitOnJoin(fields, '&');
    GroupLookup(Pairs(fields), name);
  }

  lemma FieldPairOf(k: string, v: string)
    requires '=' !in k && v != ""
    ensures FieldPair(k + "=" + v) == Some((k, v))
  {
    var f := k + "=" + v;
    assert f == k + ['='] + v;
    IndexOfAppend(k, '=', v);
    assert f[..|k|] == k && f[|k| + 1..] == v;
  }

  lemma FieldPairBlank(k: string)
    requires '=' !in k
    ensures FieldPair(k + "=") == None
  {
    var f := k + "=";
    assert f == k + ['='] + [];
    IndexOfAppend(k, '=', []);
  }

  /** `name=value` for every pair, as a URL template writes its query. */
  function Written(ps: seq<(string, string)>): (fields: seq<string>)
    ensures |fields| == |ps|
    ensures forall i :: 0 <= i < |ps| ==> fields[i] == ps[i].0 + "=" + ps[i].1
  {
    if ps == [] then [] else [ps[0].0 + "=" + ps[0].1] + Written(ps[1..])
  }

  /** The pairs with a non-blank value, in order. */
  function NonBlank(ps: seq<(string, string)>): seq<(string, string)> {
    if ps == [] then [] else (if ps[0].1 == "" then [] else [ps[0]]) + NonBlank(ps[1..])
  }

  /** Reading written pairs back drops exactly the blank ones. */
  lemma {:induction false} PairsWritten(ps: seq<(string, string)>)
    requires forall i :: 0 <= i < |ps| ==> '=' !in ps[i].0
    ensures Pairs(Written(ps)) == NonBlank(ps)
  {
    if ps != [] {
      var k, v := ps[0].0, ps[0].1;
      var fs := Written(ps);
      assert fs[0] == k + "=" + v && fs[1..] == Written(ps[1..]);
      PairsWritten(ps[1..]);
      if v == "" {
        assert k + "=" + v == k + "=";
        FieldPairBlank(k);
        assert NonBlank(ps) == [] + NonBlank(ps[1..]);
      } else {
        FieldPairOf(k, v);
      }
    }
  }

  /** A written query parses to the non-blank values of each name. */
  lemma LookupWritten(ps: seq<(string, string)>, name: string)
    requires ps != []
    requires forall i :: 0 <= i < |ps| ==> '=' !in ps[i].0 && '&' !in ps[i].0 && '&' !in ps[i].1
    ensures Lookup(ParseQs(JoinWith(Written(ps), '&')), name) ==
      var vs := ValuesOf(NonBlank(ps), name); if vs == [] then None else Some(vs)
  {
    var fs := Written(ps);
    forall i | 0 <= i < |fs| ensures '&' !in fs[i] {
      assert fs[i] == ps[i].0 + "=" + ps[i].1;
    }
    LookupJoined(fs, name);
    PairsWritten(ps);
  }
}
