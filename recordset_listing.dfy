/** The record-set pass of `populate` shared, line for line, by both Yandex
    Cloud DNS providers: page through `ListRecordSets` until the cursor is
    empty, skip record sets whose type is not a substring of the `SUPPORTS`
    string, decode the rest and add them to the zone one by one. */
module RecordSetListing {
  import opened Common
  import opened Records
  import opened Mappings

  /** `str()` of the provider's `SUPPORTS` set. Python prints a set of
      strings in an order fixed by string hashing, which varies between
      runs; this is the order of the declaration. */
  const Supports: string :=
    "{'A', 'AAAA', 'CAA', 'CNAME', 'MX', 'NS', 'PTR', 'SRV', 'TXT', 'YandexCloudProvider/ANAME'}"

  /** `rset.type not in self.SUPPORTS` is a test on a string, so it admits
      every substring of it, not just the member types. The providers pass
      `Supports` as `supports`. */
  predicate Admitted(supports: string, rtype: string) {
    Contains(supports, rtype)
  }

  /** What a run of decodes leaves behind: the records added to the zone,
      and the error that stopped it, if any. */
  datatype Loaded = Loaded(added: seq<Record>, error: Option<Error>)

  /** Running `b` after `a`, unless `a` stopped on an error. */
  function Then(a: Loaded, b: Loaded): (r: Loaded)
    ensures a.error.Some? ==> r == a
    ensures a.error.None? ==> r.added == a.added + b.added && r.error == b.error
  {
    if a.error.Some? then a else Loaded(a.added + b.added, b.error)
  }

  /** The records the loop adds for a sequence of listed record sets. */
  function LoadAll(supports: string, hostname: string -> string, parse: Parser, rsets: seq<RecordSet>): Loaded
    decreases |rsets|
  {
    if rsets == [] then Loaded([], None)
    else if !Admitted(supports, rsets[0].rtype) then LoadAll(supports, hostname, parse, rsets[1..])
    else
      match MapRecordSet(hostname, parse, rsets[0])
      case Err(e) => Loaded([], Some(e))
      case Ok(rec) =>
        var rest := LoadAll(supports, hostname, parse, rsets[1..]);
        Loaded([rec] + rest.added, rest.error)
  }

  /** Loading a listing in two parts is loading the first part and then,
      unless it failed, the second. */
  lemma {:induction false} LoadAllAppend(supports: string, hostname: string -> string, parse: Parser, a: seq<RecordSet>, b: seq<RecordSet>)
    ensures LoadAll(supports, hostname, parse, a + b) == Then(LoadAll(supports, hostname, parse, a), LoadAll(supports, hostname, parse, b))
  {
    if a != [] {
      assert (a + b)[0] == a[0];
      assert (a + b)[1..] == a[1..] + b;
      LoadAllAppend(supports, hostname, parse, a[1..], b);
      if !Admitted(supports, a[0].rtype) {
        assert LoadAll(supports, hostname, parse, a) == LoadAll(supports, hostname, parse, a[1..]);
        assert LoadAll(supports, hostname, parse, a + b) == LoadAll(supports, hostname, parse, a[1..] + b);
      } else if MapRecordSet(hostname, parse, a[0]).Err? {
        assert LoadAll(supports, hostname, parse, a).error.Some?;
        assert LoadAll(supports, hostname, parse, a + b) == LoadAll(supports, hostname, parse, a);
      } else {
        var rec := MapRecordSet(hostname, parse, a[0]).value;
        var ra := LoadAll(supports, hostname, parse, a[1..]);
        var rb := LoadAll(supports, hostname, parse, b);
        assert LoadAll(supports, hostname, parse, a) == Loaded([rec] + ra.added, ra.error);
        assert LoadAll(supports, hostname, parse, a + b) == Loaded([rec] + Then(ra, rb).added, Then(ra, rb).error);
        if ra.error.None? {
          assert [rec] + (ra.added + rb.added) == ([rec] + ra.added) + rb.added;
        }
      }
    } else {
      assert a + b == b;
      var rb := LoadAll(supports, hostname, parse, b);
      assert [] + rb.added == rb.added;
    }
  }

  /** The admitted record sets of a listing, in listing order. */
  function AdmittedOf(supports: string, rsets: seq<RecordSet>): (r: seq<RecordSet>)
    ensures |r| <= |rsets|
    ensures forall i | 0 <= i < |r| :: Admitted(supports, r[i].rtype)
    ensures forall x | x in rsets && Admitted(supports, x.rtype) :: x in r
    ensures forall x | x in r :: x in rsets
    decreases |rsets|
  {
    if rsets == [] then []
    else if Admitted(supports, rsets[0].rtype) then [rsets[0]] + AdmittedOf(supports, rsets[1..])
    else AdmittedOf(supports, rsets[1..])
  }

  /** Skipping is all the filter does: loading a listing is loading its
      admitted record sets alone. */
  lemma {:induction false} LoadAllSkips(supports: string, hostname: string -> string, parse: Parser, rsets: seq<RecordSet>)
    ensures LoadAll(supports, hostname, parse, rsets) == LoadAll(supports, hostname, parse, AdmittedOf(supports, rsets))
  {
    if rsets != [] {
      LoadAllSkips(supports, hostname, parse, rsets[1..]);
      if Admitted(supports, rsets[0].rtype) {
        assert ([rsets[0]] + AdmittedOf(supports, rsets[1..]))[1..] == AdmittedOf(supports, rsets[1..]);
      }
    }
  }

  /** A listing of admitted record sets loads without error exactly when
      every one of them decodes, and then adds one record per record set,
      decoded, in listing order. */
  lemma {:induction false} LoadAllDecodes(supports: string, hostname: string -> string, parse: Parser, rsets: seq<RecordSet>)
    requires forall i | 0 <= i < |rsets| :: Admitted(supports, rsets[i].rtype)
    ensures var l := LoadAll(supports, hostname, parse, rsets);
      && (l.error.None? <==> forall i | 0 <= i < |rsets| :: MapRecordSet(hostname, parse, rsets[i]).Ok?)
      && (l.error.None? ==>
            |l.added| == |rsets|
            && forall i | 0 <= i < |rsets| :: MapRecordSet(hostname, parse, rsets[i]) == Ok(l.added[i]))
  {
    if rsets != [] {
      LoadAllDecodes(supports, hostname, parse, rsets[1..]);
      var l := LoadAll(supports, hostname, parse, rsets);
      if l.error.None? {
        forall i | 0 <= i < |rsets|
          ensures MapRecordSet(hostname, parse, rsets[i]) == Ok(l.added[i])
        {
          if i > 0 { assert rsets[i] == rsets[1..][i - 1]; }
        }
      } else if MapRecordSet(hostname, parse, rsets[0]).Ok? {
        var i :| 0 <= i < |rsets[1..]| && MapRecordSet(hostname, parse, rsets[1..][i]).Err?;
        assert rsets[i + 1] == rsets[1..][i];
      }
    }
  }

  /** The inner loop of the record-set pass: the record sets of one answer,
      filtered, decoded and added one by one. */
  method LoadItems(zone: Zone, supports: string, hostname: string -> string, parse: Parser, items: seq<RecordSet>)
    returns (error: Option<Error>)
    modifies zone
    ensures var l := LoadAll(supports, hostname, parse, items);
      zone.records == old(zone.records) + l.added && error == l.error
  {
    for n := 0 to |items|
      invariant LoadAll(supports, hostname, parse, items[..n]).error.None?
      invariant zone.records == old(zone.records) + LoadAll(supports, hostname, parse, items[..n]).added
    {
      var rset := items[n];
      LoadAllAppend(supports, hostname, parse, items[..n], [rset]);
      assert items[..n + 1] == items[..n] + [rset];
      if !Admitted(supports, rset.rtype) {
        continue;
      }
      var record := MapRecordSet(hostname, parse, rset);
      if record.Err? {
        LoadAllAppend(supports, hostname, parse, items[..n + 1], items[n + 1..]);
        assert items == items[..n + 1] + items[n + 1..];
        return Some(record.error);
      }
      zone.AddRecord(record.value);
    }
    assert items[..|items|] == items;
    return None;
  }

  /** One more answer after answers that loaded without error: its records
      follow theirs, and an error in it ends the whole listing. */
  lemma LoadPage(supports: string, hostname: string -> string, parse: Parser,
                 seen: seq<RecordSet>, loaded: seq<Record>, items: seq<RecordSet>, rest: seq<RecordSet>)
    requires LoadAll(supports, hostname, parse, seen) == Loaded(loaded, None)
    ensures var li := LoadAll(supports, hostname, parse, items);
      && LoadAll(supports, hostname, parse, seen + items) == Loaded(loaded + li.added, li.error)
      && (li.error.Some? ==> LoadAll(supports, hostname, parse, (seen + items) + rest) == Loaded(loaded + li.added, li.error))
  {
    LoadAllAppend(supports, hostname, parse, seen, items);
    LoadAllAppend(supports, hostname, parse, seen + items, rest);
  }

  /** The record-set pass of `populate`: `answers` are the successive
      answers of `ListRecordSets` for the zone. On an error the records
      added before it stay in the zone, as they do in the source. */
  method LoadRecordSets(zone: Zone, supports: string, hostname: string -> string, parse: Parser, answers: seq<TokenPage<RecordSet>>)
    returns (error: Option<Error>)
    requires TokenListingEnds(answers)
    modifies zone
    ensures var l := LoadAll(supports, hostname, parse, TokenItems(answers));
      zone.records == old(zone.records) + l.added && error == l.error
  {
    ghost var before := zone.records;
    ghost var seen: seq<RecordSet> := [];
    ghost var loaded: seq<Record> := [];
    var done := false;
    var i := 0;
    while !done
      invariant 0 <= i <= |answers|
      invariant !done ==> forall k | 0 <= k < i :: answers[k].nextPageToken != ""
      invariant done ==> seen == TokenItems(answers)
      invariant !done ==> seen == ItemsOf(answers[..i])
      invariant LoadAll(supports, hostname, parse, seen) == Loaded(loaded, None)
      invariant zone.records == before + loaded
      decreases |answers| - i + (if done then 0 else 1)
    {
      TokenListingGoesOn(answers, i);
      var resp := answers[i];
      TokenItemsSplit(answers, i);
      ItemsOfSnoc(answers, i);
      if resp.nextPageToken != "" {
        // the next request carries resp.nextPageToken
      } else {
        done := true;
      }
      ghost var rest := if resp.nextPageToken == "" then [] else TokenItems(answers[i + 1..]);
      var err := LoadItems(zone, supports, hostname, parse, resp.items);
      LoadPage(supports, hostname, parse, seen, loaded, resp.items, rest);
      ghost var li := LoadAll(supports, hostname, parse, resp.items);
      assert zone.records == before + (loaded + li.added);
      if err.Some? {
        assert TokenItems(answers) == (seen + resp.items) + rest;
        return err;
      }
      seen := seen + resp.items;
      loaded := loaded + li.added;
      i := i + 1;
    }
    return None;
  }
}
