/** The Yandex 360 provider (octodns_yandex/yandex360_provider.py): find the
    organisation that owns the zone's domain, page through the domain's DNS
    entries, and turn a plan into create, update and delete calls on
    individual entries. The HTTP requests are the answers and calls of the
    model: listings are given as the answers the API would send, and
    `_apply` returns the calls it would make, in order. */
module Yandex360 {
  import opened Common
  import opened Records
  import opened Yandex360Codec

  // ---------------------------------------------------------------------
  // The domain name of a zone
  // ---------------------------------------------------------------------

  /** `rstrip('.')`: the name without its trailing dots. */
  function RStripDots(s: string): (r: string)
    ensures r <= s
    ensures r == [] || r[|r| - 1] != '.'
    ensures forall i | |r| <= i < |s| :: s[i] == '.'
    decreases |s|
  {
    if s == [] || s[|s| - 1] != '.' then s
    else
      var r := RStripDots(s[..|s| - 1]);
      assert forall i | |r| <= i < |s| - 1 :: s[i] == s[..|s| - 1][i];
      r
  }

  /** The domain the Yandex 360 API knows a zone by (`idna_encode` is the
      identity on the ASCII names of this model). */
  function DomainName(zoneName: string): string {
    RStripDots(zoneName)
  }

  // ---------------------------------------------------------------------
  // find_org_id_for_domain
  // ---------------------------------------------------------------------

  /** An organisation as `list_orgs` lists it, with the successive answers
      `list_domains` gives for it (pages 1, 2, ...), each a list of domain
      names. */
  datatype Org = Org(id: string, domainAnswers: seq<NumberedPage<string>>)

  /** The organisation's domain listing is finite and names the domain. */
  predicate Owns(o: Org, domain: string) {
    NumberedListingEnds(o.domainAnswers, 0) && domain in NumberedItems(o.domainAnswers, 0)
  }

  /** The id of the first listed organisation owning the domain. */
  function FirstOwner(orgs: seq<Org>, domain: string): Option<string>
    decreases |orgs|
  {
    if orgs == [] then None
    else if Owns(orgs[0], domain) then Some(orgs[0].id)
    else FirstOwner(orgs[1..], domain)
  }

  /** The lookup finds an organisation exactly when one of them owns the
      domain, and then the id of the first that does. */
  lemma {:induction false} FirstOwnerMeans(orgs: seq<Org>, domain: string)
    ensures var r := FirstOwner(orgs, domain);
      && (r.Some? <==> exists i | 0 <= i < |orgs| :: Owns(orgs[i], domain))
      && (r.Some? ==> exists i | 0 <= i < |orgs| ::
            (orgs[i].id == r.value && Owns(orgs[i], domain) && forall j | 0 <= j < i :: !Owns(orgs[j], domain)))
    decreases |orgs|
  {
    if orgs != [] && !Owns(orgs[0], domain) {
      FirstOwnerMeans(orgs[1..], domain);
      var r := FirstOwner(orgs[1..], domain);
      if exists i | 0 <= i < |orgs| :: Owns(orgs[i], domain) {
        var i :| 0 <= i < |orgs| && Owns(orgs[i], domain);
        assert orgs[1..][i - 1] == orgs[i];
      }
      if r.Some? {
        var i :| 0 <= i < |orgs[1..]| && orgs[1..][i].id == r.value && Owns(orgs[1..][i], domain)
          && forall j | 0 <= j < i :: !Owns(orgs[1..][j], domain);
        assert orgs[i + 1] == orgs[1..][i];
        forall j | 0 <= j < i + 1 ensures !Owns(orgs[j], domain) {
          if j > 0 { assert orgs[j] == orgs[1..][j - 1]; }
        }
      } else {
        forall i | 0 <= i < |orgs| ensures !Owns(orgs[i], domain) {
          if i > 0 { assert orgs[i] == orgs[1..][i - 1]; }
        }
      }
    }
  }

  lemma {:induction false} FirstOwnerAppend(a: seq<Org>, b: seq<Org>, domain: string)
    ensures FirstOwner(a + b, domain) == if FirstOwner(a, domain).Some? then FirstOwner(a, domain) else FirstOwner(b, domain)
    decreases |a|
  {
    if a == [] {
      assert a + b == b;
    } else {
      assert (a + b)[0] == a[0] && (a + b)[1..] == a[1..] + b;
      FirstOwnerAppend(a[1..], b, domain);
    }
  }

  /** One answer of a page-number listing, and what is left after it. */
  lemma NumberedItemsStep<T>(answers: seq<NumberedPage<T>>, k: nat)
    requires NumberedListingEnds(answers, k)
    ensures k < |answers|
    ensures answers[k].pages <= k + 1 ==> NumberedItems(answers, k) == answers[k].items
    ensures answers[k].pages > k + 1 ==>
      NumberedListingEnds(answers, k + 1) && NumberedItems(answers, k) == answers[k].items + NumberedItems(answers, k + 1)
  {
    if answers[k].pages > k + 1 {
      var j :| k <= j < |answers| && answers[j].pages <= j + 1;
      assert j != k;
    }
  }

  /** A page-number listing read up to answer k, with `acc` gathered so
      far: answer k either ends it or leaves the rest to be read. */
  lemma NumberedAccumulate<T>(answers: seq<NumberedPage<T>>, k: nat, acc: seq<T>, whole: seq<T>)
    requires NumberedListingEnds(answers, k) && whole == acc + NumberedItems(answers, k)
    ensures k < |answers|
    ensures answers[k].pages <= k + 1 ==> whole == acc + answers[k].items
    ensures answers[k].pages > k + 1 ==>
      NumberedListingEnds(answers, k + 1) && whole == (acc + answers[k].items) + NumberedItems(answers, k + 1)
  {
    NumberedItemsStep(answers, k);
  }

  /** The domain loop of `find_org_id_for_domain` for one organisation:
      request pages 1, 2, ... while the page number is at most the page
      count of the last answer, and stop at the first domain of the name. */
  method OrgOwns(o: Org, domain: string) returns (found: bool)
    requires NumberedListingEnds(o.domainAnswers, 0)
    ensures found <==> Owns(o, domain)
  {
    var answers := o.domainAnswers;
    var page, pages := 1, 1;
    while page <= pages
      invariant 1 <= page <= |answers| + 1
      invariant page <= pages ==> NumberedListingEnds(answers, page - 1)
      invariant page <= pages ==> (Owns(o, domain) <==> domain in NumberedItems(answers, page - 1))
      invariant page > pages ==> !Owns(o, domain)
      decreases |answers| + 1 - page
    {
      NumberedItemsStep(answers, page - 1);
      var resp := answers[page - 1];
      pages := resp.pages;
      page := page + 1;
      for n := 0 to |resp.items|
        invariant domain !in resp.items[..n]
      {
        if resp.items[n] == domain {
          return true;
        }
      }
      assert resp.items[..|resp.items|] == resp.items;
    }
    return false;
  }

  /** Past organisations none of which owns the domain, the next one
      decides alone. */
  lemma FirstOwnerSnoc(orgs: seq<Org>, n: nat, domain: string)
    requires n < |orgs| && FirstOwner(orgs[..n], domain).None?
    ensures FirstOwner(orgs[..n + 1], domain) == if Owns(orgs[n], domain) then Some(orgs[n].id) else None
    ensures Owns(orgs[n], domain) ==> FirstOwner(orgs, domain) == Some(orgs[n].id)
  {
    var one := [orgs[n]];
    assert one[1..] == [];
    FirstOwnerAppend(orgs[..n], one, domain);
    assert orgs[..n + 1] == orgs[..n] + one;
    FirstOwnerAppend(orgs[..n + 1], orgs[n + 1..], domain);
    assert orgs == orgs[..n + 1] + orgs[n + 1..];
  }

  /** The organisation loop over one answer of `list_orgs`. */
  method FindInOrgs(orgs: seq<Org>, domain: string) returns (r: Option<string>)
    requires forall i | 0 <= i < |orgs| :: NumberedListingEnds(orgs[i].domainAnswers, 0)
    ensures r == FirstOwner(orgs, domain)
  {
    for n := 0 to |orgs|
      invariant FirstOwner(orgs[..n], domain).None?
    {
      FirstOwnerSnoc(orgs, n, domain);
      var found := OrgOwns(orgs[n], domain);
      if found {
        return Some(orgs[n].id);
      }
    }
    assert orgs[..|orgs|] == orgs;
    return None;
  }

  /** Every organisation of every answer has a finite domain listing. */
  predicate DomainListingsEnd(answers: seq<TokenPage<Org>>) {
    forall i, j | 0 <= i < |answers| && 0 <= j < |answers[i].items| ::
      NumberedListingEnds(answers[i].items[j].domainAnswers, 0)
  }

  /** `find_org_id_for_domain`: `answers` are the successive answers of
      `list_orgs`; the id of the first organisation, in listing order, one
      of whose domains has the name. */
  method FindOrgIdForDomain(answers: seq<TokenPage<Org>>, domain: string) returns (r: Option<string>)
    requires TokenListingEnds(answers) && DomainListingsEnd(answers)
    ensures r == FirstOwner(TokenItems(answers), domain)
  {
    ghost var seen: seq<Org> := [];
    var done := false;
    var i := 0;
    while !done
      invariant 0 <= i <= |answers|
      invariant !done ==> forall k | 0 <= k < i :: answers[k].nextPageToken != ""
      invariant done ==> seen == TokenItems(answers)
      invariant !done ==> seen == ItemsOf(answers[..i])
      invariant FirstOwner(seen, domain).None?
      decreases |answers| - i + (if done then 0 else 1)
    {
      TokenListingGoesOn(answers, i);
      var resp := answers[i];
      TokenItemsSplit(answers, i);
      ItemsOfSnoc(answers, i);
      if resp.nextPageToken != "" {
        // the next request carries resp.nextPageToken
      } else {
        done := true;
      }
      ghost var rest := if resp.nextPageToken == "" then [] else TokenItems(answers[i + 1..]);
      var found := FindInOrgs(resp.items, domain);
      FirstOwnerAppend(seen, resp.items, domain);
      if found.Some? {
        assert TokenItems(answers) == (seen + resp.items) + rest;
        FirstOwnerAppend(seen + resp.items, rest, domain);
        return found;
      }
      seen := seen + resp.items;
      i := i + 1;
    }
    return None;
  }

  // ---------------------------------------------------------------------
  // collect_zone_entries and populate
  // ---------------------------------------------------------------------

  /** `collect_zone_entries`: `answers` are the successive answers of
      `list_dns_records` (pages 1, 2, ...); all their entries, in order. */
  method CollectZoneEntries(answers: seq<NumberedPage<ListedEntry>>) returns (entries: seq<ListedEntry>)
    requires NumberedListingEnds(answers, 0)
    ensures entries == NumberedItems(answers, 0)
  {
    entries := [];
    var page, pages := 1, 1;
    while page <= pages
      invariant 1 <= page <= |answers| + 1
      invariant page <= pages ==>
        (NumberedListingEnds(answers, page - 1) && NumberedItems(answers, 0) == entries + NumberedItems(answers, page - 1))
      invariant page > pages ==> entries == NumberedItems(answers, 0)
      decreases |answers| + 1 - page
    {
      NumberedAccumulate(answers, page - 1, entries, NumberedItems(answers, 0));
      var resp := answers[page - 1];
      pages := resp.pages;
      page := page + 1;
      entries := entries + resp.items;
    }
  }

  /** The items of a run of pages, concatenated back to front. */
  function PagesItems<T>(pages: seq<NumberedPage<T>>): seq<T>
    decreases |pages|
  {
    if pages == [] then [] else PagesItems(pages[..|pages| - 1]) + pages[|pages| - 1].items
  }

  /** PagesItems read front to back. */
  lemma {:induction false} PagesItemsCons<T>(pages: seq<NumberedPage<T>>)
    requires pages != []
    ensures PagesItems(pages) == pages[0].items + PagesItems(pages[1..])
    decreases |pages|
  {
    if |pages| > 1 {
      var init := pages[..|pages| - 1];
      PagesItemsCons(init);
      assert init[1..] == pages[1..][..|pages[1..]| - 1];
      assert init[0] == pages[0];
    } else {
      assert pages[..0] == [];
      assert pages[1..] == [];
    }
  }

  /** The entries `collect_zone_entries` returns are the items of exactly
      the pages it requests: from the first up to and including the first
      page whose reported page count it has reached. */
  lemma {:induction false} CollectedPages<T>(answers: seq<NumberedPage<T>>, from: nat, stop: nat)
    requires from <= stop < |answers| && answers[stop].pages <= stop + 1
    requires forall j | from <= j < stop :: answers[j].pages > j + 1
    ensures NumberedListingEnds(answers, from)
    ensures NumberedItems(answers, from) == PagesItems(answers[from..stop + 1])
    decreases stop - from
  {
    assert answers[from..stop + 1][0] == answers[from];
    PagesItemsCons(answers[from..stop + 1]);
    if from == stop {
      assert answers[from..stop + 1][1..] == [];
    } else {
      CollectedPages(answers, from + 1, stop);
      assert answers[from..stop + 1][1..] == answers[from + 1..stop + 1];
    }
  }

  /** The last loop of `populate`: the records added one by one. */
  method AddRecords(zone: Zone, records: seq<Record>)
    modifies zone
    ensures zone.records == old(zone.records) + records
  {
    for n := 0 to |records|
      invariant zone.records == old(zone.records) + records[..n]
    {
      assert records[..n + 1] == records[..n] + [records[n]];
      zone.AddRecord(records[n]);
    }
    assert records[..|records|] == records;
  }

  /** `populate`: false when no organisation owns the domain, leaving the
      zone alone; otherwise the domain's entries are decoded, all of them
      before any record is added, and the records added in decode order. */
  method Populate(zone: Zone, registered: set<string>, orgAnswers: seq<TokenPage<Org>>,
                  entryAnswers: seq<NumberedPage<ListedEntry>>)
    returns (r: Result<bool>)
    requires TokenListingEnds(orgAnswers) && DomainListingsEnd(orgAnswers)
    requires NumberedListingEnds(entryAnswers, 0)
    modifies zone
    ensures FirstOwner(TokenItems(orgAnswers), DomainName(zone.name)).None? ==>
      r == Ok(false) && zone.records == old(zone.records)
    ensures FirstOwner(TokenItems(orgAnswers), DomainName(zone.name)).Some? ==>
      var decoded := DecodeEntries(registered, NumberedItems(entryAnswers, 0));
      && (decoded.Err? ==> r == Err(decoded.error) && zone.records == old(zone.records))
      && (decoded.Ok? ==> r == Ok(true) && zone.records == old(zone.records) + decoded.value)
  {
    var orgId := FindOrgIdForDomain(orgAnswers, DomainName(zone.name));
    if orgId.None? {
      return Ok(false);
    }
    var entries := CollectZoneEntries(entryAnswers);
    var records := MapEntriesToRecords(registered, entries);
    if records.Err? {
      return Err(records.error);
    }
    AddRecords(zone, records.value);
    return Ok(true);
  }

  // ---------------------------------------------------------------------
  // _apply
  // ---------------------------------------------------------------------

  /** The requests `_apply` makes on entries of the domain. */
  datatype Call =
    | CreateEntry(entry: Entry)
    | UpdateEntry(recordId: string, entry: Entry)
    | DeleteEntry(recordId: string)

  /** The calls made, in order, and the error that stopped `_apply`, if any. */
  datatype Outcome = Outcome(calls: seq<Call>, error: Option<Error>)

  /** Calls made before an outcome. */
  function Emit(calls: seq<Call>, o: Outcome): Outcome {
    Outcome(calls + o.calls, o.error)
  }

  /** Running `b` after `a`, unless `a` stopped on an error. */
  function Then(a: Outcome, b: Outcome): Outcome {
    if a.error.Some? then a else Emit(a.calls, b)
  }

  /** The key under which `_apply` searches the listed ids of a record:
      `(type, keyName(name))`. */
  function SearchKey(keyName: string -> string, r: Record): Key {
    Key(keyName(r.name), r.rtype)
  }

  /** The search name as written in the source: `hostname_from_fqdn(name)`,
      which is "" for the apex while the API lists the apex as "@". */
  function AsWrittenName(hostname: string -> string): string -> string {
    hostname
  }

  /** The search name the entries are listed under: the name
      `map_record_to_entries` sends, "@" for the apex. */
  function SearchName(hostname: string -> string): string -> string {
    x => WireName(hostname(x))
  }

  /** The changes `_apply` sorts into its `delete` list, in plan order. */
  function DeletesOf(changes: seq<Change>): (r: seq<Change>)
    ensures forall c | c in r :: c in changes && c.Delete?
    decreases |changes|
  {
    if changes == [] then []
    else DeletesOf(changes[..|changes| - 1]) + (if changes[|changes| - 1].Delete? then [changes[|changes| - 1]] else [])
  }

  /** The changes sorted into `create` (no existing record), in plan order. */
  function CreatesOf(changes: seq<Change>): (r: seq<Change>)
    ensures forall c | c in r :: c in changes && c.Create?
    decreases |changes|
  {
    if changes == [] then []
    else CreatesOf(changes[..|changes| - 1]) + (if changes[|changes| - 1].Create? then [changes[|changes| - 1]] else [])
  }

  /** The changes sorted into `update`, in plan order. */
  function UpdatesOf(changes: seq<Change>): (r: seq<Change>)
    ensures forall c | c in r :: c in changes && c.Update?
    decreases |changes|
  {
    if changes == [] then []
    else UpdatesOf(changes[..|changes| - 1]) + (if changes[|changes| - 1].Update? then [changes[|changes| - 1]] else [])
  }

  /** The keys `_apply` searches: those of the changes with an existing record. */
  function Searched(keyName: string -> string, changes: seq<Change>): set<Key>
    decreases |changes|
  {
    if changes == [] then {}
    else
      var last := changes[|changes| - 1];
      Searched(keyName, changes[..|changes| - 1]) + (if last.Create? then {} else {SearchKey(keyName, last.existing)})
  }

  /** Every change with an existing record has its key searched. */
  lemma {:induction false} SearchedCovers(keyName: string -> string, changes: seq<Change>)
    ensures forall c | c in changes && !c.Create? :: SearchKey(keyName, c.existing) in Searched(keyName, changes)
    decreases |changes|
  {
    if changes != [] {
      var init := changes[..|changes| - 1];
      SearchedCovers(keyName, init);
      assert forall c | c in changes :: c in init || c == changes[|changes| - 1];
    }
  }

  /** The ids of the listed entries with a key, in listing order. */
  function IdsOf(entries: seq<ListedEntry>, k: Key): (r: seq<string>)
    ensures |r| <= |entries|
    decreases |entries|
  {
    if entries == [] then []
    else
      var last := entries[|entries| - 1];
      IdsOf(entries[..|entries| - 1], k) + (if KeyOf(last) == k then [last.recordId] else [])
  }

  /** `records_to_search` once filled: every searched key with the ids of
      the listed entries under it. */
  function SearchMap(keyName: string -> string, changes: seq<Change>, entries: seq<ListedEntry>): map<Key, seq<string>> {
    map k | k in Searched(keyName, changes) :: IdsOf(entries, k)
  }

  function DeleteCalls(ids: seq<string>): (r: seq<Call>)
    ensures |r| == |ids| && forall i | 0 <= i < |ids| :: r[i] == DeleteEntry(ids[i])
    decreases |ids|
  {
    if ids == [] then [] else [DeleteEntry(ids[0])] + DeleteCalls(ids[1..])
  }

  function CreateCalls(es: seq<Entry>): (r: seq<Call>)
    ensures |r| == |es| && forall i | 0 <= i < |es| :: r[i] == CreateEntry(es[i])
    decreases |es|
  {
    if es == [] then [] else [CreateEntry(es[0])] + CreateCalls(es[1..])
  }

  /** An update of one record: the listed ids are consumed in order, each
      new entry updating the next id while there is one and being created
      otherwise; the ids left over are deleted. */
  function MatchCalls(ids: seq<string>, es: seq<Entry>): seq<Call>
    decreases |es|
  {
    if es == [] then DeleteCalls(ids)
    else if ids == [] then [CreateEntry(es[0])] + MatchCalls([], es[1..])
    else [UpdateEntry(ids[0], es[0])] + MatchCalls(ids[1..], es[1..])
  }

  /** The delete phase: each deleted record's listed ids, deleted. */
  function DeletePhase(search: map<Key, seq<string>>, keyName: string -> string, dels: seq<Change>): seq<Call>
    requires forall c | c in dels :: !c.Create? && SearchKey(keyName, c.existing) in search
    decreases |dels|
  {
    if dels == [] then []
    else DeleteCalls(search[SearchKey(keyName, dels[0].existing)]) + DeletePhase(search, keyName, dels[1..])
  }

  /** The create phase: each new record's entries, created; a record that
      does not encode stops `_apply`. */
  function CreatePhase(hostname: string -> string, creates: seq<Change>): Outcome
    requires forall c | c in creates :: c.Create?
    decreases |creates|
  {
    if creates == [] then Outcome([], None)
    else
      match EncodeRecord(hostname, creates[0].desired)
      case Err(e) => Outcome([], Some(e))
      case Ok(es) => Emit(CreateCalls(es), CreatePhase(hostname, creates[1..]))
  }

  /** The update phase: each record's new entries matched against its
      listed ids. */
  function UpdatePhase(hostname: string -> string, search: map<Key, seq<string>>, keyName: string -> string,
                       updates: seq<Change>): Outcome
    requires forall c | c in updates :: c.Update? && SearchKey(keyName, c.existing) in search
    decreases |updates|
  {
    if updates == [] then Outcome([], None)
    else
      match EncodeRecord(hostname, updates[0].desired)
      case Err(e) => Outcome([], Some(e))
      case Ok(es) =>
        Emit(MatchCalls(search[SearchKey(keyName, updates[0].existing)], es),
             UpdatePhase(hostname, search, keyName, updates[1..]))
  }

  /** What `_apply` does once the organisation is found, searching ids
      under `keyName`: deletes, then creates, then updates. */
  function ApplyCalls(hostname: string -> string, keyName: string -> string, changes: seq<Change>,
                      entries: seq<ListedEntry>): Outcome
  {
    SearchedCovers(keyName, changes);
    var search := SearchMap(keyName, changes, entries);
    Emit(DeletePhase(search, keyName, DeletesOf(changes)),
         Then(CreatePhase(hostname, CreatesOf(changes)), UpdatePhase(hostname, search, keyName, UpdatesOf(changes))))
  }

  /** Every key with no ids yet. */
  function NoIds(keys: set<Key>): (m: map<Key, seq<string>>)
    ensures m.Keys == keys && forall k | k in m :: m[k] == []
  {
    map k | k in keys :: []
  }

  /** The first loop of `_apply`: sort the changes into the three lists and
      enter the key of every existing record with no ids yet. */
  method Classify(keyName: string -> string, changes: seq<Change>)
    returns (dels: seq<Change>, creates: seq<Change>, updates: seq<Change>, search: map<Key, seq<string>>)
    ensures dels == DeletesOf(changes) && creates == CreatesOf(changes) && updates == UpdatesOf(changes)
    ensures search == NoIds(Searched(keyName, changes))
  {
    dels, creates, updates, search := [], [], [], map[];
    for n := 0 to |changes|
      invariant dels == DeletesOf(changes[..n]) && creates == CreatesOf(changes[..n]) && updates == UpdatesOf(changes[..n])
      invariant search == NoIds(Searched(keyName, changes[..n]))
    {
      var change := changes[n];
      ClassifyStep(keyName, changes, n);
      if change.Create? {
        creates := creates + [change];
      } else {
        NoIdsAdd(Searched(keyName, changes[..n]), SearchKey(keyName, change.existing));
        search := search[SearchKey(keyName, change.existing) := []];
        if change.Delete? {
          dels := dels + [change];
        } else {
          updates := updates + [change];
        }
      }
    }
    assert changes[..|changes|] == changes;
  }

  /** Entering one more key with no ids. */
  lemma NoIdsAdd(keys: set<Key>, k: Key)
    ensures NoIds(keys)[k := []] == NoIds(keys + {k})
  {
  }

  /** One more change extends each list and the searched keys by that change alone. */
  lemma ClassifyStep(keyName: string -> string, changes: seq<Change>, n: nat)
    requires n < |changes|
    ensures var c := changes[n];
      && DeletesOf(changes[..n + 1]) == DeletesOf(changes[..n]) + (if c.Delete? then [c] else [])
      && CreatesOf(changes[..n + 1]) == CreatesOf(changes[..n]) + (if c.Create? then [c] else [])
      && UpdatesOf(changes[..n + 1]) == UpdatesOf(changes[..n]) + (if c.Update? then [c] else [])
      && Searched(keyName, changes[..n + 1])
         == Searched(keyName, changes[..n]) + (if c.Create? then {} else {SearchKey(keyName, c.existing)})
  {
    assert changes[..n + 1][..n] == changes[..n] && changes[..n + 1][n] == changes[n];
  }

  /** The ids under a key, one listed entry further. */
  lemma IdsOfSnoc(entries: seq<ListedEntry>, n: nat, k: Key)
    requires n < |entries|
    ensures IdsOf(entries[..n + 1], k)
      == IdsOf(entries[..n], k) + (if KeyOf(entries[n]) == k then [entries[n].recordId] else [])
  {
    assert entries[..n + 1][..n] == entries[..n] && entries[..n + 1][n] == entries[n];
  }

  /** The second loop of `_apply`: every listed entry whose key is searched
      adds its id under that key. */
  method FillSearch(search: map<Key, seq<string>>, entries: seq<ListedEntry>) returns (filled: map<Key, seq<string>>)
    ensures filled.Keys == search.Keys
    ensures forall k | k in filled :: filled[k] == search[k] + IdsOf(entries, k)
  {
    filled := search;
    for n := 0 to |entries|
      invariant filled.Keys == search.Keys
      invariant forall k | k in filled :: filled[k] == search[k] + IdsOf(entries[..n], k)
    {
      var entry := entries[n];
      var k := KeyOf(entry);
      ghost var before := filled;
      if k in filled {
        filled := filled[k := filled[k] + [entry.recordId]];
      }
      forall x | x in filled ensures filled[x] == search[x] + IdsOf(entries[..n + 1], x) {
        IdsOfSnoc(entries, n, x);
        assert filled[x] == before[x] + (if k == x then [entry.recordId] else []);
      }
    }
    assert entries[..|entries|] == entries;
  }

  /** One `delete_dns_record` per id, in order. */
  method DeleteIds(ids: seq<string>) returns (calls: seq<Call>)
    ensures calls == DeleteCalls(ids)
  {
    calls := [];
    for m := 0 to |ids|
      invariant calls == DeleteCalls(ids[..m])
    {
      DeleteCallsSnoc(ids, m);
      calls := calls + [DeleteEntry(ids[m])];
    }
    assert ids[..|ids|] == ids;
  }

  lemma DeleteCallsSnoc(ids: seq<string>, m: nat)
    requires m < |ids|
    ensures DeleteCalls(ids[..m + 1]) == DeleteCalls(ids[..m]) + [DeleteEntry(ids[m])]
  {
    var a := DeleteCalls(ids[..m + 1]);
    var b := DeleteCalls(ids[..m]) + [DeleteEntry(ids[m])];
    assert |a| == |b|;
    forall i | 0 <= i < |a| ensures a[i] == b[i] {
      if i < m { assert ids[..m + 1][i] == ids[..m][i]; }
    }
  }

  /** One `create_dns_record` per entry, in order. */
  method CreateEntries(es: seq<Entry>) returns (calls: seq<Call>)
    ensures calls == CreateCalls(es)
  {
    calls := [];
    for m := 0 to |es|
      invariant calls == CreateCalls(es[..m])
    {
      CreateCallsSnoc(es, m);
      calls := calls + [CreateEntry(es[m])];
    }
    assert es[..|es|] == es;
  }

  lemma CreateCallsSnoc(es: seq<Entry>, m: nat)
    requires m < |es|
    ensures CreateCalls(es[..m + 1]) == CreateCalls(es[..m]) + [CreateEntry(es[m])]
  {
    var a := CreateCalls(es[..m + 1]);
    var b := CreateCalls(es[..m]) + [CreateEntry(es[m])];
    assert |a| == |b|;
    forall i | 0 <= i < |a| ensures a[i] == b[i] {
      if i < m { assert es[..m + 1][i] == es[..m][i]; }
    }
  }

  /** The delete phase from one deleted record on. */
  lemma DeletePhaseStep(search: map<Key, seq<string>>, keyName: string -> string, dels: seq<Change>, n: nat)
    requires forall c | c in dels :: !c.Create? && SearchKey(keyName, c.existing) in search
    requires n < |dels|
    ensures !dels[n].Create? && SearchKey(keyName, dels[n].existing) in search
    ensures DeletePhase(search, keyName, dels[n..])
      == DeleteCalls(search[SearchKey(keyName, dels[n].existing)]) + DeletePhase(search, keyName, dels[n + 1..])
  {
    assert dels[n] in dels;
    assert dels[n..][0] == dels[n] && dels[n..][1..] == dels[n + 1..];
  }

  /** The delete loop of `_apply`. */
  method DeleteFound(search: map<Key, seq<string>>, keyName: string -> string, dels: seq<Change>) returns (calls: seq<Call>)
    requires forall c | c in dels :: !c.Create? && SearchKey(keyName, c.existing) in search
    ensures calls == DeletePhase(search, keyName, dels)
  {
    calls := [];
    assert dels[0..] == dels && [] + DeletePhase(search, keyName, dels) == DeletePhase(search, keyName, dels);
    for n := 0 to |dels|
      invariant calls + DeletePhase(search, keyName, dels[n..]) == DeletePhase(search, keyName, dels)
    {
      DeletePhaseStep(search, keyName, dels, n);
      var deleted := DeleteIds(search[SearchKey(keyName, dels[n].existing)]);
      assert calls + (deleted + DeletePhase(search, keyName, dels[n + 1..]))
        == (calls + deleted) + DeletePhase(search, keyName, dels[n + 1..]);
      calls := calls + deleted;
    }
    assert dels[|dels|..] == [] && calls + [] == calls;
  }

  lemma EmitEmit(a: seq<Call>, b: seq<Call>, o: Outcome)
    ensures Emit(a, Emit(b, o)) == Emit(a + b, o)
  {
    assert a + (b + o.calls) == (a + b) + o.calls;
  }

  /** The create loop of `_apply`. */
  method CreateAll(hostname: string -> string, creates: seq<Change>) returns (o: Outcome)
    requires forall c | c in creates :: c.Create?
    ensures o == CreatePhase(hostname, creates)
  {
    var calls: seq<Call> := [];
    assert creates[0..] == creates && [] + CreatePhase(hostname, creates).calls == CreatePhase(hostname, creates).calls;
    for n := 0 to |creates|
      invariant Emit(calls, CreatePhase(hostname, creates[n..])) == CreatePhase(hostname, creates)
    {
      assert creates[n..][0] == creates[n] && creates[n..][1..] == creates[n + 1..];
      assert creates[n] in creates;
      var es := MapRecordToEntries(hostname, creates[n].desired);
      if es.Err? {
        assert calls + [] == calls;
        return Outcome(calls, Some(es.error));
      }
      var created := CreateEntries(es.value);
      EmitEmit(calls, created, CreatePhase(hostname, creates[n + 1..]));
      calls := calls + created;
    }
    assert creates[|creates|..] == [] && calls + [] == calls;
    return Outcome(calls, None);
  }

  /** One step of the matching loop: the next id, if any, is updated with
      the next entry; otherwise the entry is created. */
  lemma MatchStep(ids: seq<string>, es: seq<Entry>, next: nat, n: nat)
    requires next <= |ids| && n < |es|
    ensures var call := if next < |ids| then UpdateEntry(ids[next], es[n]) else CreateEntry(es[n]);
      var after := if next < |ids| then next + 1 else next;
      MatchCalls(ids[next..], es[n..]) == [call] + MatchCalls(ids[after..], es[n + 1..])
  {
    assert es[n..][0] == es[n] && es[n..][1..] == es[n + 1..];
    if next < |ids| {
      assert ids[next..][0] == ids[next] && ids[next..][1..] == ids[next + 1..];
    } else {
      assert ids[next..] == [];
    }
  }

  /** The matching loop of `_apply` for one update: an iterator over the
      listed ids, advanced once per new entry, then drained by deletes. */
  method MatchEntries(ids: seq<string>, es: seq<Entry>) returns (calls: seq<Call>)
    ensures calls == MatchCalls(ids, es)
  {
    calls := [];
    var next := 0;
    assert ids[0..] == ids && es[0..] == es && [] + MatchCalls(ids, es) == MatchCalls(ids, es);
    for n := 0 to |es|
      invariant next <= |ids|
      invariant calls + MatchCalls(ids[next..], es[n..]) == MatchCalls(ids, es)
    {
      MatchStep(ids, es, next, n);
      ghost var rest := MatchCalls(ids[if next < |ids| then next + 1 else next..], es[n + 1..]);
      var call;
      if next < |ids| {
        call := UpdateEntry(ids[next], es[n]);
        next := next + 1;
      } else {
        call := CreateEntry(es[n]);
      }
      assert calls + ([call] + rest) == (calls + [call]) + rest;
      calls := calls + [call];
    }
    assert es[|es|..] == [];
    var deleted := DeleteIds(ids[next..]);
    calls := calls + deleted;
  }

  /** The update loop of `_apply`. */
  method UpdateAll(hostname: string -> string, search: map<Key, seq<string>>, keyName: string -> string,
                   updates: seq<Change>) returns (o: Outcome)
    requires forall c | c in updates :: c.Update? && SearchKey(keyName, c.existing) in search
    ensures o == UpdatePhase(hostname, search, keyName, updates)
  {
    var calls: seq<Call> := [];
    ghost var whole := UpdatePhase(hostname, search, keyName, updates);
    assert updates[0..] == updates && [] + whole.calls == whole.calls;
    for n := 0 to |updates|
      invariant Emit(calls, UpdatePhase(hostname, search, keyName, updates[n..])) == whole
    {
      assert updates[n..][0] == updates[n] && updates[n..][1..] == updates[n + 1..];
      assert updates[n] in updates;
      var es := MapRecordToEntries(hostname, updates[n].desired);
      if es.Err? {
        assert calls + [] == calls;
        return Outcome(calls, Some(es.error));
      }
      var matched := MatchEntries(search[SearchKey(keyName, updates[n].existing)], es.value);
      EmitEmit(calls, matched, UpdatePhase(hostname, search, keyName, updates[n + 1..]));
      calls := calls + matched;
    }
    assert updates[|updates|..] == [] && calls + [] == calls;
    return Outcome(calls, None);
  }

  /** `_apply`: a domain no organisation owns raises 'Zone not found'
      before any call; otherwise the calls of the plan, searching each
      existing record's ids under `hostname_from_fqdn` of its name, as
      the source does (see AsWrittenKeyMissesApex for what that costs the
      apex). */
  method Apply(zoneName: string, hostname: string -> string, changes: seq<Change>,
               orgAnswers: seq<TokenPage<Org>>, entryAnswers: seq<NumberedPage<ListedEntry>>)
    returns (o: Outcome)
    requires TokenListingEnds(orgAnswers) && DomainListingsEnd(orgAnswers)
    requires NumberedListingEnds(entryAnswers, 0)
    ensures FirstOwner(TokenItems(orgAnswers), DomainName(zoneName)).None? ==> o == Outcome([], Some(ZoneNotFound))
    ensures FirstOwner(TokenItems(orgAnswers), DomainName(zoneName)).Some? ==>
      o == ApplyCalls(hostname, AsWrittenName(hostname), changes, NumberedItems(entryAnswers, 0))
  {
    var orgId := FindOrgIdForDomain(orgAnswers, DomainName(zoneName));
    if orgId.None? {
      return Outcome([], Some(ZoneNotFound));
    }
    var keyName := AsWrittenName(hostname);
    var dels, creates, updates, search := Classify(keyName, changes);
    SearchedCovers(keyName, changes);
    var entries := CollectZoneEntries(entryAnswers);
    var filled := FillSearch(search, entries);
    assert filled == SearchMap(keyName, changes, entries) by {
      forall k | k in filled ensures filled[k] == IdsOf(entries, k) {
        assert [] + IdsOf(entries, k) == IdsOf(entries, k);
      }
    }
    var deleted := DeleteFound(filled, keyName, dels);
    var created := CreateAll(hostname, creates);
    if created.error.Some? {
      return Emit(deleted, created);
    }
    var updated := UpdateAll(hostname, filled, keyName, updates);
    return Emit(deleted, Emit(created.calls, updated));
  }

  // ---------------------------------------------------------------------
  // Properties of _apply
  // ---------------------------------------------------------------------

  /** Every change lands in exactly one of the three lists: together they
      hold each change of the plan exactly as often as the plan does. */
  lemma {:induction false} ClassifyPartition(changes: seq<Change>)
    ensures multiset(DeletesOf(changes)) + multiset(CreatesOf(changes)) + multiset(UpdatesOf(changes))
      == multiset(changes)
    ensures |DeletesOf(changes)| + |CreatesOf(changes)| + |UpdatesOf(changes)| == |changes|
    decreases |changes|
  {
    if changes != [] {
      var init := changes[..|changes| - 1];
      var last := changes[|changes| - 1];
      ClassifyPartition(init);
      assert changes == init + [last];
      ClassifySnoc(init, last);
      PartitionStep(DeletesOf(init), CreatesOf(init), UpdatesOf(init), init, last,
                    DeletesOf(changes), CreatesOf(changes), UpdatesOf(changes));
    }
  }

  /** The counting step of ClassifyPartition, on plain sequences. */
  lemma PartitionStep(d: seq<Change>, c: seq<Change>, u: seq<Change>, init: seq<Change>, last: Change,
                      d': seq<Change>, c': seq<Change>, u': seq<Change>)
    requires multiset(d) + multiset(c) + multiset(u) == multiset(init)
    requires d' == d + (if last.Delete? then [last] else [])
    requires c' == c + (if last.Create? then [last] else [])
    requires u' == u + (if last.Update? then [last] else [])
    ensures multiset(d') + multiset(c') + multiset(u') == multiset(init + [last])
    ensures |d'| + |c'| + |u'| == |init| + 1
  {
    assert |multiset(init)| == |init|;
  }

  /** Classifying one more change appends it to the list of its kind. */
  lemma ClassifySnoc(init: seq<Change>, last: Change)
    ensures DeletesOf(init + [last]) == DeletesOf(init) + (if last.Delete? then [last] else [])
    ensures CreatesOf(init + [last]) == CreatesOf(init) + (if last.Create? then [last] else [])
    ensures UpdatesOf(init + [last]) == UpdatesOf(init) + (if last.Update? then [last] else [])
  {
    assert (init + [last])[..|init|] == init;
  }

  /** An empty plan makes no call. */
  lemma EmptyPlan(hostname: string -> string, keyName: string -> string, entries: seq<ListedEntry>)
    ensures ApplyCalls(hostname, keyName, [], entries) == Outcome([], None)
  {
  }

  /** The calls of one update, position by position: the first
      min(|ids|, |entries|) update the listed ids in order, the entries
      beyond the ids are created, the ids beyond the entries deleted. */
  lemma {:induction false} MatchClosedForm(ids: seq<string>, es: seq<Entry>)
    ensures var calls := MatchCalls(ids, es);
      && |calls| == (if |ids| < |es| then |es| else |ids|)
      && (forall i | 0 <= i < |ids| && i < |es| :: calls[i] == UpdateEntry(ids[i], es[i]))
      && (forall i | |ids| <= i < |es| :: calls[i] == CreateEntry(es[i]))
      && (forall i | |es| <= i < |ids| :: calls[i] == DeleteEntry(ids[i]))
    decreases |es|
  {
    if es != [] {
      if ids == [] {
        MatchClosedForm([], es[1..]);
      } else {
        MatchClosedForm(ids[1..], es[1..]);
      }
      var calls := MatchCalls(ids, es);
      var rest := MatchCalls(if ids == [] then [] else ids[1..], es[1..]);
      assert calls == [calls[0]] + rest;
      forall i | 1 <= i < |calls| ensures calls[i] == rest[i - 1] { }
    }
  }

  /** The entries of the domain, by id, and the entries created (whose ids
      the API assigns). */
  datatype Domain = Domain(live: map<string, Entry>, created: seq<Entry>)

  /** The effect of one call on the domain. */
  function Exec(d: Domain, c: Call): Domain {
    match c
    case CreateEntry(e) => d.(created := d.created + [e])
    case UpdateEntry(id, e) => d.(live := d.live[id := e])
    case DeleteEntry(id) => d.(live := d.live - {id})
  }

  function ExecAll(d: Domain, calls: seq<Call>): Domain
    decreases |calls|
  {
    if calls == [] then d else ExecAll(Exec(d, calls[0]), calls[1..])
  }

  lemma {:induction false} ExecAllAppend(d: Domain, a: seq<Call>, b: seq<Call>)
    ensures ExecAll(d, a + b) == ExecAll(ExecAll(d, a), b)
    decreases |a|
  {
    if a == [] {
      assert a + b == b;
    } else {
      assert (a + b)[0] == a[0] && (a + b)[1..] == a[1..] + b;
      ExecAllAppend(Exec(d, a[0]), a[1..], b);
    }
  }

  predicate Distinct(ids: seq<string>) {
    forall i, j | 0 <= i < j < |ids| :: ids[i] != ids[j]
  }

  /** Deleting ids removes exactly them. */
  lemma {:induction false} DeletesRemove(d: Domain, ids: seq<string>)
    ensures var d' := ExecAll(d, DeleteCalls(ids));
      && d'.created == d.created
      && (forall id | id in ids :: id !in d'.live)
      && (forall id | id in d.live && id !in ids :: id in d'.live && d'.live[id] == d.live[id])
      && (forall id | id in d'.live :: id in d.live)
    decreases |ids|
  {
    if ids != [] {
      DeletesRemove(Exec(d, DeleteEntry(ids[0])), ids[1..]);
      assert forall id | id in ids :: id == ids[0] || id in ids[1..];
    }
  }

  /** What an update leaves behind: the ids matched hold the new entries
      in order, the ids left over are gone, every other entry is as it was,
      and the created entries are the new entries beyond the ids. */
  predicate Converged(d: Domain, after: Domain, ids: seq<string>, es: seq<Entry>) {
    var m := if |ids| < |es| then |ids| else |es|;
    && (forall i | 0 <= i < m :: ids[i] in after.live && after.live[ids[i]] == es[i])
    && (forall i | m <= i < |ids| :: ids[i] !in after.live)
    && (forall id | id in d.live && id !in ids :: id in after.live && after.live[id] == d.live[id])
    && (forall id | id in after.live :: id in d.live || id in ids)
    && after.created == d.created + es[m..]
  }

  lemma ConvergedStep(d: Domain, after: Domain, ids: seq<string>, es: seq<Entry>)
    requires ids != [] && es != [] && Distinct(ids)
    requires Converged(Exec(d, UpdateEntry(ids[0], es[0])), after, ids[1..], es[1..])
    ensures Converged(d, after, ids, es)
  {
    var m := if |ids| < |es| then |ids| else |es|;
    var d1 := Exec(d, UpdateEntry(ids[0], es[0]));
    assert ids[0] !in ids[1..] by {
      forall j | 0 <= j < |ids[1..]| ensures ids[1..][j] != ids[0] {
        assert ids[1..][j] == ids[j + 1];
      }
    }
    assert es[1..][m - 1..] == es[m..];
    forall i | 0 <= i < m ensures ids[i] in after.live && after.live[ids[i]] == es[i] {
      if i > 0 {
        assert ids[i] == ids[1..][i - 1] && es[i] == es[1..][i - 1];
      }
    }
    forall i | m <= i < |ids| ensures ids[i] !in after.live {
      assert ids[i] == ids[1..][i - 1];
    }
    forall id | id in d.live && id !in ids ensures id in after.live && after.live[id] == d.live[id] {
      assert id !in ids[1..];
    }
    forall id | id in after.live ensures id in d.live || id in ids {
      if id !in d1.live {
        assert id in ids[1..];
      }
    }
  }

  lemma {:induction false} CreatesAppend(d: Domain, es: seq<Entry>)
    ensures ExecAll(d, MatchCalls([], es)) == d.(created := d.created + es)
    decreases |es|
  {
    if es == [] {
      assert d.created + es == d.created;
    } else {
      CreatesAppend(Exec(d, CreateEntry(es[0])), es[1..]);
      assert d.created + [es[0]] + es[1..] == d.created + es;
    }
  }

  /** An update converges: afterwards the entries of the record are exactly
      the new ones, on the matched ids and among the created entries, and
      nothing else in the domain changed. */
  lemma {:induction false} MatchConverges(d: Domain, ids: seq<string>, es: seq<Entry>)
    requires Distinct(ids)
    ensures Converged(d, ExecAll(d, MatchCalls(ids, es)), ids, es)
    decreases |es|
  {
    if es == [] {
      DeletesRemove(d, ids);
      assert d.created + es[0..] == d.created;
    } else if ids == [] {
      CreatesAppend(d, es);
    } else {
      var d1 := Exec(d, UpdateEntry(ids[0], es[0]));
      assert Distinct(ids[1..]);
      MatchConverges(d1, ids[1..], es[1..]);
      ConvergedStep(d, ExecAll(d, MatchCalls(ids, es)), ids, es);
    }
  }

  /** The ids under a key when every listed entry carries it: all of them. */
  lemma {:induction false} IdsOfUniform(entries: seq<ListedEntry>, k: Key)
    requires forall i | 0 <= i < |entries| :: KeyOf(entries[i]) == k
    ensures |IdsOf(entries, k)| == |entries|
    ensures forall i | 0 <= i < |entries| :: IdsOf(entries, k)[i] == entries[i].recordId
    decreases |entries|
  {
    if entries != [] {
      IdsOfUniform(entries[..|entries| - 1], k);
    }
  }

  /** The ids under a key no listed entry carries: none. */
  lemma {:induction false} IdsOfAbsent(entries: seq<ListedEntry>, k: Key)
    requires forall i | 0 <= i < |entries| :: KeyOf(entries[i]) != k
    ensures IdsOf(entries, k) == []
    decreases |entries|
  {
    if entries != [] {
      IdsOfAbsent(entries[..|entries| - 1], k);
    }
  }

  /** Searching under the wire name finds every entry a record was sent
      as, whatever ids the API assigned, the apex included. */
  lemma CorrectedKeyFindsOwnEntries(hostname: string -> string, r: Record, ids: seq<string>)
    requires EncodeRecord(hostname, r).Ok? && |ids| == |EncodeRecord(hostname, r).value|
    ensures IdsOf(Listed(ids, EncodeRecord(hostname, r).value), SearchKey(SearchName(hostname), r)) == ids
  {
    var es := EncodeRecord(hostname, r).value;
    var listed := Listed(ids, es);
    EncodeShape(hostname, r);
    assert SearchName(hostname)(r.name) == WireName(hostname(r.name));
    IdsOfUniform(listed, SearchKey(SearchName(hostname), r));
  }

  /** As written, the search name of an apex record is "", while its
      entries are listed as "@": none of them is found. */
  lemma AsWrittenKeyMissesApex(hostname: string -> string, r: Record, ids: seq<string>)
    requires hostname(r.name) == ""
    requires EncodeRecord(hostname, r).Ok? && |ids| == |EncodeRecord(hostname, r).value|
    ensures IdsOf(Listed(ids, EncodeRecord(hostname, r).value), SearchKey(AsWrittenName(hostname), r)) == []
  {
    var es := EncodeRecord(hostname, r).value;
    EncodeShape(hostname, r);
    IdsOfAbsent(Listed(ids, es), SearchKey(AsWrittenName(hostname), r));
  }

  /** A plan of one change lands in the one list of its kind. */
  lemma OneChangeLists(c: Change)
    ensures DeletesOf([c]) == (if c.Delete? then [c] else [])
    ensures CreatesOf([c]) == (if c.Create? then [c] else [])
    ensures UpdatesOf([c]) == (if c.Update? then [c] else [])
  {
    var changes := [c];
    assert changes[..0] == [];
  }

  /** A plan of one change on an existing record searches its one key. */
  lemma OneChangeSearch(keyName: string -> string, c: Change, entries: seq<ListedEntry>)
    requires !c.Create?
    ensures var k := SearchKey(keyName, c.existing);
      var search := SearchMap(keyName, [c], entries);
      k in search && search[k] == IdsOf(entries, k)
  {
    var changes := [c];
    assert changes[..0] == [];
    assert SearchKey(keyName, c.existing) in Searched(keyName, changes);
  }

  /** A plan deleting one record deletes the ids listed under its search key. */
  lemma OneDeletePlan(hostname: string -> string, keyName: string -> string, r: Record, entries: seq<ListedEntry>)
    ensures ApplyCalls(hostname, keyName, [Delete(r)], entries)
      == Outcome(DeleteCalls(IdsOf(entries, SearchKey(keyName, r))), None)
  {
    var c := Delete(r);
    OneChangeLists(c);
    OneChangeSearch(keyName, c, entries);
    var search := SearchMap(keyName, [c], entries);
    var k := SearchKey(keyName, r);
    var ids := search[k];
    var dels: seq<Change> := [c];
    assert DeletePhase(search, keyName, dels) == DeleteCalls(ids) by {
      assert dels[1..] == [];
      assert DeleteCalls(ids) + [] == DeleteCalls(ids);
    }
    assert Then(CreatePhase(hostname, []), UpdatePhase(hostname, search, keyName, [])) == Outcome([], None);
    assert DeleteCalls(ids) + [] == DeleteCalls(ids);
  }

  /** A plan updating one record matches its new entries against the ids
      listed under its search key, unless the new record does not encode. */
  lemma OneUpdatePlan(hostname: string -> string, keyName: string -> string, r: Record, desired: Record,
                      entries: seq<ListedEntry>)
    ensures var ids := IdsOf(entries, SearchKey(keyName, r));
      ApplyCalls(hostname, keyName, [Update(r, desired)], entries) ==
        match EncodeRecord(hostname, desired)
        case Err(e) => Outcome([], Some(e))
        case Ok(es) => Outcome(MatchCalls(ids, es), None)
  {
    var c := Update(r, desired);
    OneChangeLists(c);
    OneChangeSearch(keyName, c, entries);
    var search := SearchMap(keyName, [c], entries);
    var k := SearchKey(keyName, r);
    var ups: seq<Change> := [c];
    assert ups[1..] == [];
    assert DeletePhase(search, keyName, []) == [];
    match EncodeRecord(hostname, desired)
    case Err(e) => {
      assert UpdatePhase(hostname, search, keyName, ups) == Outcome([], Some(e));
    }
    case Ok(es) => {
      assert UpdatePhase(hostname, search, keyName, ups) == Emit(MatchCalls(search[k], es), Outcome([], None));
      assert MatchCalls(search[k], es) + [] == MatchCalls(search[k], es);
      assert [] + ([] + MatchCalls(search[k], es)) == MatchCalls(search[k], es);
    }
  }

  /** Deleting a record whose entries are what the domain lists deletes
      each of them, and nothing else. */
  lemma DeleteConverges(hostname: string -> string, r: Record, ids: seq<string>)
    requires EncodeRecord(hostname, r).Ok? && |ids| == |EncodeRecord(hostname, r).value|
    ensures ApplyCalls(hostname, SearchName(hostname), [Delete(r)], Listed(ids, EncodeRecord(hostname, r).value))
      == Outcome(DeleteCalls(ids), None)
  {
    CorrectedKeyFindsOwnEntries(hostname, r, ids);
    OneDeletePlan(hostname, SearchName(hostname), r, Listed(ids, EncodeRecord(hostname, r).value));
  }

  /** Updating a record whose entries are what the domain lists matches the
      new entries against exactly those ids (see MatchConverges). */
  lemma UpdateConverges(hostname: string -> string, r: Record, desired: Record, ids: seq<string>)
    requires EncodeRecord(hostname, r).Ok? && |ids| == |EncodeRecord(hostname, r).value|
    requires EncodeRecord(hostname, desired).Ok?
    ensures ApplyCalls(hostname, SearchName(hostname), [Update(r, desired)], Listed(ids, EncodeRecord(hostname, r).value))
      == Outcome(MatchCalls(ids, EncodeRecord(hostname, desired).value), None)
  {
    CorrectedKeyFindsOwnEntries(hostname, r, ids);
    OneUpdatePlan(hostname, SearchName(hostname), r, desired, Listed(ids, EncodeRecord(hostname, r).value));
  }

  /** The apex, as written: a plan deleting the apex A record, whose one
      entry the domain lists as "@" under id "1", makes no call at all,
      while searching under the wire name deletes that entry. */
  lemma ApexDeleteAsWritten()
    ensures var hostname := SameName;
      var r := Record("", "A", 300, Single(Plain("192.0.2.1")));
      var listed := [ListedEntry("1", Entry("@", "A", 300, AddressField("192.0.2.1")))];
      && ApplyCalls(hostname, AsWrittenName(hostname), [Delete(r)], listed) == Outcome([], None)
      && ApplyCalls(hostname, SearchName(hostname), [Delete(r)], listed) == Outcome([DeleteEntry("1")], None)
  {
    var hostname := SameName;
    var r := Record("", "A", 300, Single(Plain("192.0.2.1")));
    var e := Entry("@", "A", 300, AddressField("192.0.2.1"));
    var listed := [ListedEntry("1", e)];
    ApexEncodes(hostname, r, e);
    assert listed == Listed(["1"], [e]);
    AsWrittenKeyMissesApex(hostname, r, ["1"]);
    OneDeletePlan(hostname, AsWrittenName(hostname), r, listed);
    DeleteConverges(hostname, r, ["1"]);
  }

  /** A zone whose records are named relative to it: `hostname_from_fqdn`
      leaves their names as they are. */
  function SameName(name: string): string {
    name
  }

  /** The one-value apex A record encodes to its one "@" entry. */
  lemma ApexEncodes(hostname: string -> string, r: Record, e: Entry)
    requires hostname("") == "" && r.name == "" && r.rtype == "A" && r.data.Single? && r.data.value.Plain?
    requires e == Entry("@", "A", r.ttl, AddressField(r.data.value.text))
    ensures EncodeRecord(hostname, r) == Ok([e])
  {
    var vs := ValuesOf(r.data);
    assert vs == [r.data.value] && vs[1..] == [];
    assert WireName(hostname(r.name)) == "@";
    assert EncodeValue("A", r.data.value) == Ok(e.rdata);
    assert EncodeValues("@", "A", r.ttl, vs[1..]) == Ok([]);
    assert [e] + [] == [e];
  }

  /** The apex, as written: a plan updating the apex A record creates the
      new entry beside the listed one instead of updating it, leaving two
      entries where one is wanted. */
  lemma ApexUpdateAsWritten()
    ensures var hostname := SameName;
      var r := Record("", "A", 300, Single(Plain("192.0.2.1")));
      var desired := Record("", "A", 300, Single(Plain("192.0.2.2")));
      var listed := [ListedEntry("1", Entry("@", "A", 300, AddressField("192.0.2.1")))];
      && ApplyCalls(hostname, AsWrittenName(hostname), [Update(r, desired)], listed)
           == Outcome([CreateEntry(Entry("@", "A", 300, AddressField("192.0.2.2")))], None)
      && ApplyCalls(hostname, SearchName(hostname), [Update(r, desired)], listed)
           == Outcome([UpdateEntry("1", Entry("@", "A", 300, AddressField("192.0.2.2")))], None)
  {
    var hostname := SameName;
    var r := Record("", "A", 300, Single(Plain("192.0.2.1")));
    var desired := Record("", "A", 300, Single(Plain("192.0.2.2")));
    var e := Entry("@", "A", 300, AddressField("192.0.2.1"));
    var want := Entry("@", "A", 300, AddressField("192.0.2.2"));
    var listed := [ListedEntry("1", e)];
    ApexEncodes(hostname, r, e);
    ApexEncodes(hostname, desired, want);
    assert listed == Listed(["1"], [e]);
    AsWrittenKeyMissesApex(hostname, r, ["1"]);
    OneUpdatePlan(hostname, AsWrittenName(hostname), r, desired, listed);
    UpdateConverges(hostname, r, desired, ["1"]);
    assert MatchCalls([], [want]) == [CreateEntry(want)];
    assert MatchCalls(["1"], [want]) == [UpdateEntry("1", want)];
  }
}
