/** The flat-entry codec of the Yandex 360 provider
    (octodns_yandex/yandex360_provider.py, `map_entries_to_records` and
    `map_record_to_entries`): the Yandex 360 DNS API lists one entry per
    value, and octodns wants one record per name and type. */
module Yandex360Codec {
  import opened Common
  import opened Records

  /** The type-specific fields of a wire entry. The numeric fields are the
      integers the API sends (the source passes them through `int()`); the
      CAA flags field is named `flag` on the wire. */
  datatype Rdata =
    | AddressField(address: string)
    | TargetField(target: string)
    | TextField(text: string)
    | MxFields(preference: int, exchange: string)
    | SrvFields(priority: int, weight: int, port: int, srvTarget: string)
    | CaaFields(flag: int, tag: string, value: string)

  /** The body of a wire entry: what `create_dns_record` and
      `update_dns_record` send. The apex is named "@". */
  datatype Entry = Entry(name: string, rtype: string, ttl: int, rdata: Rdata)

  /** An entry as the API lists it, with the id the API assigned. */
  datatype ListedEntry = ListedEntry(recordId: string, entry: Entry)

  // ---------------------------------------------------------------------
  // The order `sorted(entries, key=_keyfunc)` puts entries in
  // ---------------------------------------------------------------------

  /** `_keyfunc`: the `(name, type)` pair an entry is grouped by. */
  datatype Key = Key(name: string, rtype: string)

  function KeyOf(e: ListedEntry): Key {
    Key(e.entry.name, e.entry.rtype)
  }

  /** Python's `<` on strings: code point by code point, a proper prefix first. */
  predicate StrLess(a: string, b: string)
    decreases |a|
  {
    if a == [] then b != []
    else if b == [] then false
    else if a[0] != b[0] then a[0] < b[0]
    else StrLess(a[1..], b[1..])
  }

  /** Python's `<` on `(name, type)` tuples. */
  predicate KeyLess(x: Key, y: Key) {
    StrLess(x.name, y.name) || (x.name == y.name && StrLess(x.rtype, y.rtype))
  }

  lemma {:induction false} StrLessIrreflexive(a: string)
    ensures !StrLess(a, a)
  {
    if a != [] {
      StrLessIrreflexive(a[1..]);
    }
  }

  lemma {:induction false} StrLessTransitive(a: string, b: string, c: string)
    requires StrLess(a, b) && StrLess(b, c)
    ensures StrLess(a, c)
  {
    if a != [] && a[0] == b[0] && b[0] == c[0] {
      StrLessTransitive(a[1..], b[1..], c[1..]);
    }
  }

  lemma {:induction false} StrLessTotal(a: string, b: string)
    requires a != b
    ensures StrLess(a, b) || StrLess(b, a)
  {
    if a != [] && b != [] && a[0] == b[0] {
      assert a == [a[0]] + a[1..] && b == [b[0]] + b[1..];
      StrLessTotal(a[1..], b[1..]);
    }
  }

  lemma KeyLessIrreflexive(x: Key)
    ensures !KeyLess(x, x)
  {
    StrLessIrreflexive(x.name);
    StrLessIrreflexive(x.rtype);
  }

  lemma KeyLessTransitive(x: Key, y: Key, z: Key)
    requires KeyLess(x, y) && KeyLess(y, z)
    ensures KeyLess(x, z)
  {
    if StrLess(x.name, y.name) && StrLess(y.name, z.name) {
      StrLessTransitive(x.name, y.name, z.name);
    } else if x.name == y.name && y.name == z.name {
      StrLessTransitive(x.rtype, y.rtype, z.rtype);
    }
  }

  lemma KeyLessTotal(x: Key, y: Key)
    requires x != y
    ensures KeyLess(x, y) || KeyLess(y, x)
  {
    if x.name != y.name {
      StrLessTotal(x.name, y.name);
    } else {
      StrLessTotal(x.rtype, y.rtype);
    }
  }

  /** Strictly increasing, hence without repeats. */
  predicate Sorted(ks: seq<Key>) {
    forall i, j | 0 <= i < j < |ks| :: KeyLess(ks[i], ks[j])
  }

  /** A key in front of a sorted list of keys it is below keeps it sorted. */
  lemma SortedCons(k: Key, ks: seq<Key>)
    requires Sorted(ks)
    requires forall x | x in ks :: KeyLess(k, x)
    ensures Sorted([k] + ks)
  {
    var r := [k] + ks;
    forall i, j | 0 <= i < j < |r| ensures KeyLess(r[i], r[j]) {
      if i == 0 {
        assert r[j] == ks[j - 1];
      } else {
        assert r[i] == ks[i - 1] && r[j] == ks[j - 1];
      }
    }
  }

  /** One key added to a sorted list of distinct keys. */
  function Insert(k: Key, ks: seq<Key>): (r: seq<Key>)
    requires Sorted(ks)
    ensures Sorted(r)
    ensures forall x :: x in r <==> x == k || x in ks
    decreases |ks|
  {
    if ks == [] then [k]
    else if k == ks[0] then ks
    else if KeyLess(k, ks[0]) then
      assert forall x | x in ks :: KeyLess(k, x) by {
        forall x | x in ks ensures KeyLess(k, x) {
          if x != ks[0] {
            var j :| 0 <= j < |ks| && ks[j] == x;
            KeyLessTransitive(k, ks[0], x);
          }
        }
      }
      SortedCons(k, ks);
      [k] + ks
    else
      assert Sorted(ks[1..]);
      var rest := Insert(k, ks[1..]);
      assert forall x | x in rest :: KeyLess(ks[0], x) by {
        KeyLessTotal(k, ks[0]);
        forall x | x in rest ensures KeyLess(ks[0], x) {
          if x != k {
            var j :| 0 <= j < |ks[1..]| && ks[1..][j] == x;
            assert ks[j + 1] == x;
          }
        }
      }
      SortedCons(ks[0], rest);
      assert ks == [ks[0]] + ks[1..];
      [ks[0]] + rest
  }

  /** The distinct keys of a listing in ascending order: the keys
      `itertools.groupby` visits over the sorted entries. */
  function SortedKeys(es: seq<ListedEntry>): (r: seq<Key>)
    ensures Sorted(r)
    ensures forall i | 0 <= i < |es| :: KeyOf(es[i]) in r
    ensures forall x | x in r :: exists i | 0 <= i < |es| :: KeyOf(es[i]) == x
    decreases |es|
  {
    if es == [] then []
    else
      var rest := SortedKeys(es[1..]);
      var r := Insert(KeyOf(es[0]), rest);
      assert forall i | 0 <= i < |es| :: KeyOf(es[i]) in r by {
        forall i | 0 <= i < |es| ensures KeyOf(es[i]) in r {
          if i > 0 { assert es[i] == es[1..][i - 1]; }
        }
      }
      assert forall x | x in r :: exists i | 0 <= i < |es| :: KeyOf(es[i]) == x by {
        forall x | x in r ensures exists i | 0 <= i < |es| :: KeyOf(es[i]) == x {
          if x != KeyOf(es[0]) {
            var i :| 0 <= i < |es[1..]| && KeyOf(es[1..][i]) == x;
            assert es[i + 1] == es[1..][i];
          }
        }
      }
      r
  }

  /** Every key names at least one entry of the listing. */
  predicate KeysListed(keys: seq<Key>, es: seq<ListedEntry>) {
    forall k | k in keys :: exists i | 0 <= i < |es| :: KeyOf(es[i]) == k
  }

  /** The group of one key: its entries in listing order, as a stable sort
      followed by `groupby` yields them. */
  function Group(es: seq<ListedEntry>, k: Key): (r: seq<ListedEntry>)
    ensures forall e | e in r :: e in es && KeyOf(e) == k
    ensures |r| > 0 <==> exists i | 0 <= i < |es| :: KeyOf(es[i]) == k
    ensures |r| > 0 ==>
      (exists i | 0 <= i < |es| :: (es[i] == r[0] && forall j | 0 <= j < i :: KeyOf(es[j]) != k))
    decreases |es|
  {
    if es == [] then []
    else if KeyOf(es[0]) == k then [es[0]] + Group(es[1..], k)
    else
      var rest := Group(es[1..], k);
      assert |rest| > 0 ==>
        (exists i | 0 <= i < |es| :: (es[i] == rest[0] && forall j | 0 <= j < i :: KeyOf(es[j]) != k))
      by {
        if |rest| > 0 {
          var i :| 0 <= i < |es[1..]| && es[1..][i] == rest[0]
            && forall j | 0 <= j < i :: KeyOf(es[1..][j]) != k;
          assert es[i + 1] == rest[0];
          forall j | 0 <= j < i + 1 ensures KeyOf(es[j]) != k {
            if j > 0 { assert es[j] == es[1..][j - 1]; }
          }
        }
      }
      assert (exists i | 0 <= i < |es| :: KeyOf(es[i]) == k)
        ==> exists i | 0 <= i < |es[1..]| :: KeyOf(es[1..][i]) == k
      by {
        if exists i | 0 <= i < |es| :: KeyOf(es[i]) == k {
          var i :| 0 <= i < |es| && KeyOf(es[i]) == k;
          assert es[1..][i - 1] == es[i];
        }
      }
      rest
  }

  /** One step of the grouping: the first entry, when it has the key,
      followed by the group of the rest. */
  lemma GroupUnfold(es: seq<ListedEntry>, k: Key)
    requires es != []
    ensures Group(es, k) == (if KeyOf(es[0]) == k then [es[0]] else []) + Group(es[1..], k)
  {
  }

  /** Grouping keeps listing order: the group of a listing read in two
      parts is the group of the first part followed by that of the second. */
  lemma {:induction false} GroupAppend(a: seq<ListedEntry>, b: seq<ListedEntry>, k: Key)
    ensures Group(a + b, k) == Group(a, k) + Group(b, k)
    decreases |a|
  {
    if a == [] {
      assert a + b == b;
    } else {
      GroupAppend(a[1..], b, k);
      GroupAppendStep(a, b, k);
    }
  }

  /** The inductive step of GroupAppend, on the first entry of `a`. */
  lemma GroupAppendStep(a: seq<ListedEntry>, b: seq<ListedEntry>, k: Key)
    requires a != []
    requires Group(a[1..] + b, k) == Group(a[1..], k) + Group(b, k)
    ensures Group(a + b, k) == Group(a, k) + Group(b, k)
  {
    GroupUnfoldAppend(a, b, k);
    GroupUnfold(a, k);
    ConcatAssoc(if KeyOf(a[0]) == k then [a[0]] else [], Group(a[1..], k), Group(b, k));
  }

  /** GroupUnfold on a listing read in two parts. */
  lemma GroupUnfoldAppend(a: seq<ListedEntry>, b: seq<ListedEntry>, k: Key)
    requires a != []
    ensures Group(a + b, k) == (if KeyOf(a[0]) == k then [a[0]] else []) + Group(a[1..] + b, k)
  {
    assert (a + b)[1..] == a[1..] + b;
    GroupUnfold(a + b, k);
  }

  lemma ConcatAssoc<T>(x: seq<T>, y: seq<T>, z: seq<T>)
    ensures x + (y + z) == (x + y) + z
  {
  }

  /** A single entry is its own group exactly when it has the key. */
  lemma GroupSingle(e: ListedEntry, k: Key)
    ensures Group([e], k) == if KeyOf(e) == k then [e] else []
  {
    GroupUnfold([e], k);
    assert [e][1..] == [];
  }

  /** No entry of the key is dropped: each one is in its group. */
  lemma {:induction false} GroupComplete(es: seq<ListedEntry>, k: Key)
    ensures forall i | 0 <= i < |es| && KeyOf(es[i]) == k :: es[i] in Group(es, k)
    decreases |es|
  {
    if es != [] {
      GroupComplete(es[1..], k);
      GroupUnfold(es, k);
      forall i | 0 <= i < |es| && KeyOf(es[i]) == k ensures es[i] in Group(es, k) {
        if i > 0 { assert es[i] == es[1..][i - 1]; }
      }
    }
  }

  // ---------------------------------------------------------------------
  // TXT escaping
  // ---------------------------------------------------------------------

  /** Decode direction: every `;` becomes `\;`, which octodns' TXT
      validation demands. */
  function EscapeText(t: string): string {
    Replace(t, ";", "\\;")
  }

  /** Encode direction: `\;` back to `;`, then `\\` to `\` (the API doubles
      backslashes). */
  function UnescapeText(v: string): string {
    Replace(Replace(v, "\\;", ";"), "\\\\", "\\")
  }

  /** The escaped text never starts with a bare `;`. */
  lemma {:induction false} EscapeHead(t: string)
    ensures |EscapeText(t)| >= |t|
    ensures t != [] ==> EscapeText(t)[0] == (if t[0] == ';' then '\\' else t[0])
    ensures t != [] && t[0] == ';' ==> EscapeText(t) == "\\;" + EscapeText(t[1..])
    ensures t != [] && t[0] != ';' ==> EscapeText(t) == [t[0]] + EscapeText(t[1..])
  {
    if t != [] {
      EscapeHead(t[1..]);
      assert ";" <= t <==> t[0] == ';';
    }
  }

  /** Removing the `\` that decoding put before each `;` gives back the
      listed text, whatever it holds. */
  lemma {:induction false} UnescapeSemicolons(t: string)
    ensures Replace(EscapeText(t), "\\;", ";") == t
  {
    if t != [] {
      EscapeHead(t[1..]);
      EscapeHead(t);
      UnescapeSemicolons(t[1..]);
      var e := EscapeText(t);
      var rest := EscapeText(t[1..]);
      if t[0] == ';' {
        assert e == "\\;" + rest;
        assert "\\;" <= e;
        assert e[2..] == rest;
      } else {
        assert e == [t[0]] + rest;
        assert !("\\;" <= e) by {
          if t[0] == '\\' && |e| >= 2 {
            assert e[1] == rest[0];
          }
        }
        if |e| >= 2 {
          assert e[1..] == rest;
        } else {
          assert rest == [] && t[1..] == [];
        }
      }
    }
  }

  /** `s.replace(pat, rep)` leaves a string without the pattern's first
      character unchanged. */
  lemma {:induction false} ReplaceAbsent(s: string, pat: string, rep: string)
    requires |pat| > 0 && pat[0] !in s
    ensures Replace(s, pat, rep) == s
  {
    if |s| >= |pat| {
      assert !(pat <= s) by { assert s[0] != pat[0]; }
      ReplaceAbsent(s[1..], pat, rep);
      assert s == [s[0]] + s[1..];
    }
  }

  /** Encoding what decoding produced collapses doubled backslashes and
      changes nothing else; text without a backslash comes back as listed. */
  lemma TextRoundTrip(t: string)
    ensures UnescapeText(EscapeText(t)) == Replace(t, "\\\\", "\\")
    ensures '\\' !in t ==> UnescapeText(EscapeText(t)) == t
  {
    UnescapeSemicolons(t);
    if '\\' !in t {
      ReplaceAbsent(t, "\\\\", "\\");
    }
  }

  // ---------------------------------------------------------------------
  // Decoding: map_entries_to_records
  // ---------------------------------------------------------------------

  /** The value one entry contributes to its group: `None` for a type octodns
      registers but the decoder has no branch for; a missing field raises. */
  function DecodeValue(rtype: string, rd: Rdata): Result<Option<Value>> {
    if rtype in {"A", "AAAA"} then
      if rd.AddressField? then Ok(Some(Plain(rd.address))) else Err(MissingField("address"))
    else if rtype in {"CNAME", "NS"} then
      if rd.TargetField? then Ok(Some(Plain(rd.target))) else Err(MissingField("target"))
    else if rtype == "TXT" then
      if rd.TextField? then Ok(Some(Plain(EscapeText(rd.text)))) else Err(MissingField("text"))
    else if rtype == "MX" then
      if rd.MxFields? then Ok(Some(MxValue(rd.preference, rd.exchange))) else Err(MissingField("preference"))
    else if rtype == "SRV" then
      if rd.SrvFields? then Ok(Some(SrvValue(rd.priority, rd.weight, rd.port, rd.srvTarget)))
      else Err(MissingField("priority"))
    else if rtype == "CAA" then
      if rd.CaaFields? then Ok(Some(CaaValue(rd.flag, rd.tag, rd.value))) else Err(MissingField("flag"))
    else Ok(None)
  }

  /** The values of a group, in listing order. */
  function GroupValues(rtype: string, group: seq<ListedEntry>): Result<seq<Value>>
    decreases |group|
  {
    if group == [] then Ok([])
    else
      match DecodeValue(rtype, group[0].entry.rdata)
      case Err(e) => Err(e)
      case Ok(v) =>
        match GroupValues(rtype, group[1..])
        case Err(e) => Err(e)
        case Ok(vs) => Ok((if v.Some? then [v.value] else []) + vs)
  }

  /** The wire apex "@" is octodns' "". */
  function RecordName(wireName: string): string {
    if wireName == "@" then "" else wireName
  }

  /** The record of one group: an unregistered type raises; the TTL is the
      first entry's. */
  function DecodeGroup(registered: set<string>, k: Key, group: seq<ListedEntry>): Result<Record>
    requires |group| > 0
  {
    if k.rtype !in registered then Err(UnknownRecordType(k.rtype))
    else
      match GroupValues(k.rtype, group)
      case Err(e) => Err(e)
      case Ok(vs) => Ok(Record(RecordName(k.name), k.rtype, group[0].entry.ttl, DataOf(vs)))
  }

  /** The records of the given keys, in their order; the first failing
      group's error otherwise. */
  function DecodeKeys(registered: set<string>, keys: seq<Key>, es: seq<ListedEntry>): Result<seq<Record>>
    requires KeysListed(keys, es)
    decreases |keys|
  {
    if keys == [] then Ok([])
    else
      assert keys[0] in keys;
      assert KeysListed(keys[1..], es) by {
        forall k | k in keys[1..] ensures k in keys { }
      }
      match DecodeGroup(registered, keys[0], Group(es, keys[0]))
      case Err(e) => Err(e)
      case Ok(r) =>
        match DecodeKeys(registered, keys[1..], es)
        case Err(e) => Err(e)
        case Ok(rs) => Ok([r] + rs)
  }

  /** What `map_entries_to_records` returns for a listing. */
  function DecodeEntries(registered: set<string>, es: seq<ListedEntry>): Result<seq<Record>> {
    DecodeKeys(registered, SortedKeys(es), es)
  }

  /** `prefix` followed by a result, or the result's error. */
  function Prefixed<T>(prefix: seq<T>, r: Result<seq<T>>): Result<seq<T>> {
    match r
    case Err(e) => Err(e)
    case Ok(xs) => Ok(prefix + xs)
  }

  lemma PrefixedNil<T>(r: Result<seq<T>>)
    ensures Prefixed([], r) == r
  {
    if r.Ok? {
      assert [] + r.value == r.value;
    }
  }

  lemma PrefixedPrefixed<T>(a: seq<T>, b: seq<T>, r: Result<seq<T>>)
    ensures Prefixed(a, Prefixed(b, r)) == Prefixed(a + b, r)
  {
    if r.Ok? {
      assert a + (b + r.value) == (a + b) + r.value;
    }
  }

  lemma PrefixedEmpty<T>(a: seq<T>)
    ensures Prefixed(a, Ok([])) == Ok(a)
  {
    assert a + [] == a;
  }

  /** The inner loop of `map_entries_to_records`: the values of one group. */
  method DecodeGroupValues(rtype: string, group: seq<ListedEntry>) returns (r: Result<seq<Value>>)
    ensures r == GroupValues(rtype, group)
  {
    var values: seq<Value> := [];
    PrefixedNil(GroupValues(rtype, group));
    assert group[0..] == group;
    for n := 0 to |group|
      invariant GroupValues(rtype, group) == Prefixed(values, GroupValues(rtype, group[n..]))
    {
      assert group[n..][0] == group[n] && group[n..][1..] == group[n + 1..];
      var v := DecodeValue(rtype, group[n].entry.rdata);
      if v.Err? {
        return Err(v.error);
      }
      var got := if v.value.Some? then [v.value.value] else [];
      assert GroupValues(rtype, group[n..]) == Prefixed(got, GroupValues(rtype, group[n + 1..]));
      PrefixedPrefixed(values, got, GroupValues(rtype, group[n + 1..]));
      values := values + got;
    }
    assert group[|group|..] == [];
    PrefixedEmpty(values);
    return Ok(values);
  }

  /** One step of `DecodeKeys`: the first key's record, then the rest. */
  lemma DecodeKeysStep(registered: set<string>, keys: seq<Key>, es: seq<ListedEntry>)
    requires KeysListed(keys, es) && keys != []
    ensures KeysListed(keys[1..], es) && |Group(es, keys[0])| > 0
    ensures DecodeKeys(registered, keys, es) ==
      match DecodeGroup(registered, keys[0], Group(es, keys[0]))
      case Err(e) => Err(e)
      case Ok(rec) => Prefixed([rec], DecodeKeys(registered, keys[1..], es))
  {
    assert keys[0] in keys;
    assert KeysListed(keys[1..], es) by {
      forall k | k in keys[1..] ensures k in keys { }
    }
  }

  /** The body of the outer loop of `map_entries_to_records`: the record of
      one group. */
  method DecodeKey(registered: set<string>, k: Key, group: seq<ListedEntry>) returns (r: Result<Record>)
    requires |group| > 0
    ensures r == DecodeGroup(registered, k, group)
  {
    if k.rtype !in registered {
      return Err(UnknownRecordType(k.rtype));
    }
    var values := DecodeGroupValues(k.rtype, group);
    if values.Err? {
      return Err(values.error);
    }
    return Ok(Record(RecordName(k.name), k.rtype, group[0].entry.ttl, DataOf(values.value)));
  }

  /** `map_entries_to_records`: one record per distinct `(name, type)`, in
      ascending key order. `registered` is `Record.registered_types()`. */
  method MapEntriesToRecords(registered: set<string>, entries: seq<ListedEntry>) returns (r: Result<seq<Record>>)
    ensures r == DecodeEntries(registered, entries)
  {
    var remaining := SortedKeys(entries);
    var records: seq<Record> := [];
    PrefixedNil(DecodeEntries(registered, entries));
    while remaining != []
      invariant KeysListed(remaining, entries)
      invariant DecodeEntries(registered, entries) == Prefixed(records, DecodeKeys(registered, remaining, entries))
      decreases |remaining|
    {
      var k := remaining[0];
      DecodeKeysStep(registered, remaining, entries);
      var record := DecodeKey(registered, k, Group(entries, k));
      if record.Err? {
        return Err(record.error);
      }
      PrefixedPrefixed(records, [record.value], DecodeKeys(registered, remaining[1..], entries));
      records := records + [record.value];
      remaining := remaining[1..];
    }
    PrefixedEmpty(records);
    return Ok(records);
  }

  /** What decoding promises of the record of one key: its name with "@"
      read as the apex, its type (one octodns registers), the TTL of the
      first entry of its group in listing order, and the group's values,
      under `value` exactly when there is one. */
  predicate DecodedFrom(registered: set<string>, k: Key, es: seq<ListedEntry>, rec: Record) {
    var g := Group(es, k);
    && |g| > 0
    && rec.name == RecordName(k.name)
    && rec.rtype == k.rtype
    && k.rtype in registered
    && rec.ttl == g[0].entry.ttl
    && GroupValues(k.rtype, g) == Ok(ValuesOf(rec.data))
    && (rec.data.Single? <==> |ValuesOf(rec.data)| == 1)
  }

  /** A group that decodes gives a record decoded from it. */
  lemma GroupDecodedFrom(registered: set<string>, k: Key, es: seq<ListedEntry>)
    requires |Group(es, k)| > 0 && DecodeGroup(registered, k, Group(es, k)).Ok?
    ensures DecodedFrom(registered, k, es, DecodeGroup(registered, k, Group(es, k)).value)
  {
  }

  /** Decoding yields one record per key, in key order, each decoded from
      its group. */
  lemma {:induction false} DecodeOnePerKey(registered: set<string>, keys: seq<Key>, es: seq<ListedEntry>)
    requires KeysListed(keys, es)
    ensures var r := DecodeKeys(registered, keys, es);
      r.Ok? ==> (|r.value| == |keys|
        && forall n | 0 <= n < |keys| :: DecodedFrom(registered, keys[n], es, r.value[n]))
    decreases |keys|
  {
    if keys != [] {
      DecodeKeysStep(registered, keys, es);
      DecodeOnePerKey(registered, keys[1..], es);
      var r := DecodeKeys(registered, keys, es);
      if r.Ok? {
        var g := DecodeGroup(registered, keys[0], Group(es, keys[0]));
        var rest := DecodeKeys(registered, keys[1..], es);
        assert g.Ok? && rest.Ok? && r.value == [g.value] + rest.value;
        GroupDecodedFrom(registered, keys[0], es);
        var decoded := (k, rc) => DecodedFrom(registered, k, es, rc);
        PairwiseCons(decoded, keys, g.value, rest.value);
      }
    }
  }

  /** A property holding pairwise of the first key and record and of the
      others holds pairwise of all of them. */
  lemma PairwiseCons<K, R>(p: (K, R) -> bool, keys: seq<K>, rec: R, rest: seq<R>)
    requires keys != [] && p(keys[0], rec) && |rest| == |keys| - 1
    requires forall n | 0 <= n < |rest| :: p(keys[1..][n], rest[n])
    ensures forall n | 0 <= n < |keys| :: p(keys[n], ([rec] + rest)[n])
  {
    var all := [rec] + rest;
    forall n | 0 <= n < |keys| ensures p(keys[n], all[n]) {
      if n > 0 {
        assert keys[1..][n - 1] == keys[n] && all[n] == rest[n - 1];
      }
    }
  }

  /** A group whose type octodns does not register fails the whole decode. */
  lemma {:induction false} DecodeUnknownType(registered: set<string>, keys: seq<Key>, es: seq<ListedEntry>, k: Key)
    requires KeysListed(keys, es)
    requires k in keys && k.rtype !in registered
    ensures DecodeKeys(registered, keys, es).Err?
    decreases |keys|
  {
    if keys[0] != k {
      assert k in keys[1..];
      assert KeysListed(keys[1..], es) by {
        forall x | x in keys[1..] ensures x in keys { }
      }
      DecodeUnknownType(registered, keys[1..], es, k);
    }
  }

  /** Decoding a listing: the keys visited are the listing's distinct
      `(name, type)` pairs in strictly ascending order; on success there is
      one record per key, in that order, each decoded from its group; a
      listed entry of a type octodns does not register makes it raise. */
  lemma DecodeListing(registered: set<string>, es: seq<ListedEntry>)
    ensures var keys := SortedKeys(es);
      && Sorted(keys)
      && (forall i | 0 <= i < |es| :: KeyOf(es[i]) in keys)
      && (forall k | k in keys :: exists i | 0 <= i < |es| :: KeyOf(es[i]) == k)
    ensures var r := DecodeEntries(registered, es);
      r.Ok? ==> (|r.value| == |SortedKeys(es)|
        && forall n | 0 <= n < |r.value| :: DecodedFrom(registered, SortedKeys(es)[n], es, r.value[n]))
    ensures (exists i | 0 <= i < |es| :: es[i].entry.rtype !in registered)
      ==> DecodeEntries(registered, es).Err?
  {
    DecodeOnePerKey(registered, SortedKeys(es), es);
    if exists i | 0 <= i < |es| :: es[i].entry.rtype !in registered {
      var i :| 0 <= i < |es| && es[i].entry.rtype !in registered;
      DecodeUnknownType(registered, SortedKeys(es), es, KeyOf(es[i]));
    }
  }

  // ---------------------------------------------------------------------
  // Encoding: map_record_to_entries
  // ---------------------------------------------------------------------

  /** `name if name else '@'` */
  function WireName(hostname: string): string {
    if hostname == "" then "@" else hostname
  }

  /** The type-specific fields of one value. A type without a branch raises;
      so does a value of a shape its type does not take (octodns never
      builds one). */
  function EncodeValue(rtype: string, v: Value): Result<Rdata> {
    if rtype in {"A", "AAAA"} then
      if v.Plain? then Ok(AddressField(v.text)) else Err(MalformedValue(rtype))
    else if rtype in {"CNAME", "NS"} then
      if v.Plain? then Ok(TargetField(v.text)) else Err(MalformedValue(rtype))
    else if rtype == "TXT" then
      if v.Plain? then Ok(TextField(UnescapeText(v.text))) else Err(MalformedValue(rtype))
    else if rtype == "MX" then
      if v.MxValue? then Ok(MxFields(v.preference, v.exchange)) else Err(MalformedValue(rtype))
    else if rtype == "SRV" then
      if v.SrvValue? then Ok(SrvFields(v.priority, v.weight, v.port, v.target)) else Err(MalformedValue(rtype))
    else if rtype == "CAA" then
      if v.CaaValue? then Ok(CaaFields(v.flags, v.tag, v.value)) else Err(MalformedValue(rtype))
    else Err(UnsupportedRecordType(rtype))
  }

  /** One entry per value, in value order, each with the shared name, type
      and TTL; the first value that fails to encode fails the whole. */
  function EncodeValues(name: string, rtype: string, ttl: int, vs: seq<Value>): (r: Result<seq<Entry>>)
    ensures r.Ok? <==> forall i | 0 <= i < |vs| :: EncodeValue(rtype, vs[i]).Ok?
    ensures r.Ok? ==> (|r.value| == |vs|
      && forall i | 0 <= i < |vs| ::
           r.value[i] == Entry(name, rtype, ttl, EncodeValue(rtype, vs[i]).value))
    decreases |vs|
  {
    if vs == [] then Ok([])
    else
      match EncodeValue(rtype, vs[0])
      case Err(e) => Err(e)
      case Ok(rd) =>
        match EncodeValues(name, rtype, ttl, vs[1..])
        case Err(e) =>
          assert exists i | 0 <= i < |vs| :: EncodeValue(rtype, vs[i]).Err? by {
            var i :| 0 <= i < |vs[1..]| && EncodeValue(rtype, vs[1..][i]).Err?;
            assert vs[i + 1] == vs[1..][i];
          }
          Err(e)
        case Ok(rest) =>
          assert forall i | 1 <= i < |vs| :: vs[i] == vs[1..][i - 1];
          Ok([Entry(name, rtype, ttl, rd)] + rest)
  }

  /** What `map_record_to_entries` returns for a record. */
  function EncodeRecord(hostname: string -> string, r: Record): Result<seq<Entry>> {
    EncodeValues(WireName(hostname(r.name)), r.rtype, r.ttl, ValuesOf(r.data))
  }

  /** `map_record_to_entries`: `hostname` is the zone's `hostname_from_fqdn`. */
  method MapRecordToEntries(hostname: string -> string, r: Record) returns (res: Result<seq<Entry>>)
    ensures res == EncodeRecord(hostname, r)
  {
    var name := hostname(r.name);
    var wireName := if name != "" then name else "@";
    var values := ValuesOf(r.data);
    var entries: seq<Entry> := [];
    assert values[0..] == values;
    PrefixedNil(EncodeRecord(hostname, r));
    for n := 0 to |values|
      invariant EncodeRecord(hostname, r) == Prefixed(entries, EncodeValues(wireName, r.rtype, r.ttl, values[n..]))
    {
      assert values[n..][0] == values[n] && values[n..][1..] == values[n + 1..];
      var rd := EncodeValue(r.rtype, values[n]);
      if rd.Err? {
        return Err(rd.error);
      }
      var entry := Entry(wireName, r.rtype, r.ttl, rd.value);
      assert EncodeValues(wireName, r.rtype, r.ttl, values[n..])
        == Prefixed([entry], EncodeValues(wireName, r.rtype, r.ttl, values[n + 1..]));
      PrefixedPrefixed(entries, [entry], EncodeValues(wireName, r.rtype, r.ttl, values[n + 1..]));
      entries := entries + [entry];
    }
    assert values[|values|..] == [];
    PrefixedEmpty(entries);
    return Ok(entries);
  }

  /** Encoding gives one entry per value, in value order, each carrying the
      record's wire name ("@" for the apex), type and TTL; a type the
      encoder has no branch for raises as soon as there is a value. */
  lemma EncodeShape(hostname: string -> string, r: Record)
    ensures var res := EncodeRecord(hostname, r);
      && (res.Ok? ==>
            |res.value| == |ValuesOf(r.data)|
            && forall i | 0 <= i < |res.value| ::
                 && res.value[i].name == (if hostname(r.name) == "" then "@" else hostname(r.name))
                 && res.value[i].rtype == r.rtype && res.value[i].ttl == r.ttl
                 && EncodeValue(r.rtype, ValuesOf(r.data)[i]) == Ok(res.value[i].rdata))
      && ((r.rtype !in {"A", "AAAA", "CNAME", "NS", "TXT", "MX", "SRV", "CAA"} && |ValuesOf(r.data)| > 0)
            ==> res == Err(UnsupportedRecordType(r.rtype)))
  {
  }

  // ---------------------------------------------------------------------
  // Round trips
  // ---------------------------------------------------------------------

  /** The types both directions handle. */
  predicate Handled(rtype: string) {
    rtype in {"A", "AAAA", "CNAME", "NS", "TXT", "MX", "SRV", "CAA"}
  }

  /** An entry's fields have the shape its type reads; TXT text holds no
      backslash. */
  predicate FieldsFit(rtype: string, rd: Rdata) {
    if rtype in {"A", "AAAA"} then rd.AddressField?
    else if rtype in {"CNAME", "NS"} then rd.TargetField?
    else if rtype == "TXT" then rd.TextField? && '\\' !in rd.text
    else if rtype == "MX" then rd.MxFields?
    else if rtype == "SRV" then rd.SrvFields?
    else if rtype == "CAA" then rd.CaaFields?
    else false
  }

  /** A value has the shape its type takes; TXT is left out, its text being
      escaped one way only. */
  predicate ValueFits(rtype: string, v: Value) {
    if rtype in {"A", "AAAA", "CNAME", "NS"} then v.Plain?
    else if rtype == "MX" then v.MxValue?
    else if rtype == "SRV" then v.SrvValue?
    else if rtype == "CAA" then v.CaaValue?
    else false
  }

  /** A group of listed entries sharing one key and one TTL, fields fitting
      their type, and not named "" (which would come back as "@"). */
  predicate UniformGroup(es: seq<ListedEntry>, k: Key, ttl: int) {
    && |es| > 0 && k.name != "" && Handled(k.rtype)
    && forall i | 0 <= i < |es| ::
         KeyOf(es[i]) == k && es[i].entry.ttl == ttl && FieldsFit(k.rtype, es[i].entry.rdata)
  }

  lemma {:induction false} SortedKeysUniform(es: seq<ListedEntry>, k: Key)
    requires |es| > 0 && forall i | 0 <= i < |es| :: KeyOf(es[i]) == k
    ensures SortedKeys(es) == [k]
  {
    var r := SortedKeys(es);
    assert KeyOf(es[0]) in r;
    assert forall x | x in r :: x == k;
    if |r| > 1 {
      assert r[0] in r && r[1] in r;
      assert r[0] == r[1];
      KeyLessIrreflexive(r[0]);
    }
  }

  lemma {:induction false} GroupUniform(es: seq<ListedEntry>, k: Key)
    requires forall i | 0 <= i < |es| :: KeyOf(es[i]) == k
    ensures Group(es, k) == es
  {
    if es != [] {
      GroupUniform(es[1..], k);
    }
  }

  /** The entry bodies of listed entries, ids dropped. */
  function Bodies(es: seq<ListedEntry>): (r: seq<Entry>)
    ensures |r| == |es| && forall i | 0 <= i < |es| :: r[i] == es[i].entry
    decreases |es|
  {
    if es == [] then [] else [es[0].entry] + Bodies(es[1..])
  }

  /** Decoding then encoding the values of a uniform group gives back its
      entries, in order. */
  lemma {:induction false} GroupValuesRoundTrip(es: seq<ListedEntry>, k: Key, ttl: int)
    requires k.name != "" && Handled(k.rtype)
    requires forall i | 0 <= i < |es| ::
      KeyOf(es[i]) == k && es[i].entry.ttl == ttl && FieldsFit(k.rtype, es[i].entry.rdata)
    ensures GroupValues(k.rtype, es).Ok?
    ensures |GroupValues(k.rtype, es).value| == |es|
    ensures EncodeValues(WireName(RecordName(k.name)), k.rtype, ttl, GroupValues(k.rtype, es).value) == Ok(Bodies(es))
    decreases |es|
  {
    if es != [] {
      GroupValuesRoundTrip(es[1..], k, ttl);
      var rd := es[0].entry.rdata;
      if k.rtype == "TXT" {
        TextRoundTrip(rd.text);
      }
      var v := DecodeValue(k.rtype, rd).value.value;
      var rest := GroupValues(k.rtype, es[1..]).value;
      var vs := GroupValues(k.rtype, es).value;
      assert vs == [v] + rest;
      assert vs[0] == v && vs[1..] == rest;
      assert EncodeValue(k.rtype, v) == Ok(rd);
      assert es[0].entry == Entry(WireName(RecordName(k.name)), k.rtype, ttl, rd);
    }
  }

  /** Listing to records to entries: a group of entries decodes to one
      record that encodes back to exactly the listed entries (ids aside),
      when the zone maps relative names to themselves. */
  lemma EntriesRoundTrip(registered: set<string>, hostname: string -> string, es: seq<ListedEntry>, k: Key, ttl: int)
    requires UniformGroup(es, k, ttl) && k.rtype in registered
    requires hostname(RecordName(k.name)) == RecordName(k.name)
    ensures DecodeEntries(registered, es).Ok? && |DecodeEntries(registered, es).value| == 1
    ensures EncodeRecord(hostname, DecodeEntries(registered, es).value[0]) == Ok(Bodies(es))
  {
    GroupValuesRoundTrip(es, k, ttl);
    var vs := GroupValues(k.rtype, es).value;
    var rec := Record(RecordName(k.name), k.rtype, ttl, DataOf(vs));
    assert DecodeGroup(registered, k, es) == Ok(rec);
    DecodeOneKey(registered, es, k, rec);
  }

  /** A listing of one key decodes to the record of its one group. */
  lemma DecodeOneKey(registered: set<string>, es: seq<ListedEntry>, k: Key, rec: Record)
    requires |es| > 0 && forall i | 0 <= i < |es| :: KeyOf(es[i]) == k
    requires DecodeGroup(registered, k, es) == Ok(rec)
    ensures DecodeEntries(registered, es) == Ok([rec])
  {
    SortedKeysUniform(es, k);
    GroupUniform(es, k);
    assert k in [k];
    assert KeysListed([k], es);
    assert DecodeKeys(registered, [k][1..], es) == Ok([]);
    assert [rec] + [] == [rec];
  }

  /** A record's encoded entries, as the API would list them under `ids`. */
  function Listed(ids: seq<string>, es: seq<Entry>): (r: seq<ListedEntry>)
    requires |ids| == |es|
    ensures |r| == |es| && forall i | 0 <= i < |es| :: r[i] == ListedEntry(ids[i], es[i])
  {
    seq(|es|, i requires 0 <= i < |es| => ListedEntry(ids[i], es[i]))
  }

  lemma {:induction false} ValuesRoundTrip(listed: seq<ListedEntry>, rtype: string, vs: seq<Value>)
    requires |listed| == |vs|
    requires forall i | 0 <= i < |vs| :: ValueFits(rtype, vs[i])
    requires forall i | 0 <= i < |vs| :: EncodeValue(rtype, vs[i]) == Ok(listed[i].entry.rdata)
    ensures GroupValues(rtype, listed) == Ok(vs)
    decreases |vs|
  {
    if vs != [] {
      ValuesRoundTrip(listed[1..], rtype, vs[1..]);
      assert vs == [vs[0]] + vs[1..];
    }
  }

  /** Record to entries to record: a record of a non-TXT type, values of the
      shape its type takes and data in octodns' form (`value` exactly when
      there is one value) comes back unchanged, whatever ids the API
      assigns, when it is not named "@" and the zone maps its name to
      itself. */
  lemma RecordRoundTrip(registered: set<string>, hostname: string -> string, r: Record, ids: seq<string>)
    requires Handled(r.rtype) && r.rtype != "TXT" && r.rtype in registered
    requires |ValuesOf(r.data)| > 0 && r.data == DataOf(ValuesOf(r.data))
    requires forall i | 0 <= i < |ValuesOf(r.data)| :: ValueFits(r.rtype, ValuesOf(r.data)[i])
    requires r.name != "@" && hostname(r.name) == r.name
    requires |ids| == |ValuesOf(r.data)|
    ensures EncodeRecord(hostname, r).Ok?
    ensures DecodeEntries(registered, Listed(ids, EncodeRecord(hostname, r).value)) == Ok([r])
  {
    var vs := ValuesOf(r.data);
    assert forall i | 0 <= i < |vs| :: EncodeValue(r.rtype, vs[i]).Ok?;
    var es := EncodeRecord(hostname, r).value;
    var listed := Listed(ids, es);
    var k := Key(WireName(r.name), r.rtype);
    assert forall i | 0 <= i < |listed| :: KeyOf(listed[i]) == k;
    ValuesRoundTrip(listed, r.rtype, vs);
    assert RecordName(k.name) == r.name;
    assert listed[0].entry.ttl == r.ttl;
    assert DecodeGroup(registered, k, listed) == Ok(r);
    DecodeOneKey(registered, listed, k, r);
  }
}
