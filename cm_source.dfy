/** The Yandex Cloud Certificate Manager source
    (octodns_yandex/yandexcloud_cm_source.py): the DNS challenges of managed
    certificates become CNAME or TXT records of the zone that owns them.
    The zone is changed in place, and each challenge is checked against the
    records already in it, those added for earlier challenges included. */
module CertificateSource {
  import opened Common
  import opened Records

  /** The record types the source can produce. */
  const Supports: set<string> := {"CNAME", "TXT"}

  /** The constructor options the model keeps: the record type to produce
      and the TTL to give it. */
  datatype Config = Config(folderId: string, recordType: string, recordTtl: int)

  /** The constructor: a record type outside `Supports` is rejected. */
  function NewSource(folderId: string, recordType: string, recordTtl: int): (r: Result<Config>)
    ensures r.Ok? <==> recordType in {"CNAME", "TXT"}
    ensures r.Ok? ==> r.value.recordType == recordType && r.value.recordTtl == recordTtl
    ensures r.Err? ==> r.error == UnsupportedConfig("record_type")
  {
    if recordType !in Supports then Err(UnsupportedConfig("record_type"))
    else Ok(Config(folderId, recordType, recordTtl))
  }

  datatype CertificateType = CertificateTypeUnspecified | Imported | Managed
  datatype ChallengeType = ChallengeTypeUnspecified | Dns | Http

  /** The DNS record a challenge asks for. */
  datatype DnsChallenge = DnsChallenge(name: string, rtype: string, value: string)
  datatype Challenge = Challenge(ctype: ChallengeType, dnsChallenge: DnsChallenge)
  datatype Certificate = Certificate(ctype: CertificateType, domains: seq<string>, challenges: seq<Challenge>)

  /** `zone.owns(type, fqdn)`, an octodns internal, as a parameter. */
  type Owner = (string, string) -> bool

  /** octodns' record equality, as `new_record in zone.records` uses it. */
  type Same = (Record, Record) -> bool

  /** `next((x for x in domains if owns(type, x)), None)` */
  function FirstOwned(owns: Owner, rtype: string, domains: seq<string>): (r: Option<string>)
    ensures r.None? <==> forall i | 0 <= i < |domains| :: !owns(rtype, domains[i])
    ensures r.Some? ==> exists i | 0 <= i < |domains| ::
      (domains[i] == r.value && owns(rtype, domains[i]) && forall j | 0 <= j < i :: !owns(rtype, domains[j]))
    decreases |domains|
  {
    if domains == [] then None
    else if owns(rtype, domains[0]) then Some(domains[0])
    else
      var r := FirstOwned(owns, rtype, domains[1..]);
      assert forall i | 1 <= i < |domains| :: domains[i] == domains[1..][i - 1];
      assert r.Some? ==> exists i | 0 <= i < |domains| ::
        (domains[i] == r.value && owns(rtype, domains[i]) && forall j | 0 <= j < i :: !owns(rtype, domains[j]))
      by {
        if r.Some? {
          var i :| 0 <= i < |domains[1..]| && domains[1..][i] == r.value && owns(rtype, domains[1..][i])
            && forall j | 0 <= j < i :: !owns(rtype, domains[1..][j]);
          assert domains[i + 1] == domains[1..][i];
        }
      }
      r
  }

  /** A certificate the source looks into: a managed one whose first owned
      domain is there and, Python's truth test being what it is, not "". */
  predicate Eligible(cfg: Config, owns: Owner, cert: Certificate) {
    cert.ctype == Managed
    && var d := FirstOwned(owns, cfg.recordType, cert.domains);
       d.Some? && d.value != ""
  }

  /** A challenge that yields a record: a DNS challenge of the configured
      type for a name the zone owns. */
  predicate Qualifies(cfg: Config, owns: Owner, ch: Challenge) {
    ch.ctype == Dns && ch.dnsChallenge.rtype == cfg.recordType && owns(cfg.recordType, ch.dnsChallenge.name)
  }

  /** The record built for a challenge: zone-relative name, the challenge's
      type and value, the configured TTL. */
  function ChallengeRecord(cfg: Config, hostname: string -> string, ch: Challenge): Record {
    Record(hostname(ch.dnsChallenge.name), ch.dnsChallenge.rtype, cfg.recordTtl, Single(Plain(ch.dnsChallenge.value)))
  }

  /** Some record of the list is the same as `r`. */
  predicate AnySame(same: Same, records: seq<Record>, r: Record)
    decreases |records|
  {
    records != [] && (same(records[0], r) || AnySame(same, records[1..], r))
  }

  lemma {:induction false} AnySameAppend(same: Same, a: seq<Record>, b: seq<Record>, r: Record)
    ensures AnySame(same, a + b, r) <==> AnySame(same, a, r) || AnySame(same, b, r)
    decreases |a|
  {
    if a != [] {
      assert (a + b)[0] == a[0] && (a + b)[1..] == a[1..] + b;
      AnySameAppend(same, a[1..], b, r);
    } else {
      assert a + b == b;
    }
  }

  /** The zone's records after the challenge loop: each qualifying
      challenge adds its record unless the same record is already there.
      What is added extends the records; every added record comes from a
      qualifying challenge and had no same record before it. */
  function AddChallenges(cfg: Config, owns: Owner, hostname: string -> string, same: Same,
                         records: seq<Record>, chs: seq<Challenge>): (r: seq<Record>)
    ensures records <= r && |r| <= |records| + |chs|
    ensures forall i | |records| <= i < |r| ::
      exists j | 0 <= j < |chs| :: Qualifies(cfg, owns, chs[j]) && r[i] == ChallengeRecord(cfg, hostname, chs[j])
    ensures forall i | |records| <= i < |r| :: !AnySame(same, r[..i], r[i])
    decreases |chs|
  {
    if chs == [] then records
    else
      var rec := ChallengeRecord(cfg, hostname, chs[0]);
      var next := if Qualifies(cfg, owns, chs[0]) && !AnySame(same, records, rec) then records + [rec] else records;
      var r := AddChallenges(cfg, owns, hostname, same, next, chs[1..]);
      assert forall i | |records| <= i < |r| ::
        exists j | 0 <= j < |chs| :: Qualifies(cfg, owns, chs[j]) && r[i] == ChallengeRecord(cfg, hostname, chs[j])
      by {
        forall i | |records| <= i < |r|
          ensures exists j | 0 <= j < |chs| :: Qualifies(cfg, owns, chs[j]) && r[i] == ChallengeRecord(cfg, hostname, chs[j])
        {
          if i < |next| {
            assert r[i] == next[i] == rec;
          } else {
            assert |next| <= i < |r|;
            var j :| 0 <= j < |chs[1..]| && Qualifies(cfg, owns, chs[1..][j]) && r[i] == ChallengeRecord(cfg, hostname, chs[1..][j]);
            assert chs[j + 1] == chs[1..][j];
          }
        }
      }
      assert forall i | |records| <= i < |r| :: !AnySame(same, r[..i], r[i]) by {
        forall i | |records| <= i < |r| ensures !AnySame(same, r[..i], r[i]) {
          if i < |next| {
            assert r[..i] == records;
          }
        }
      }
      r
  }

  /** `process_certificate` on the zone's records. */
  function ProcessCertificate(cfg: Config, owns: Owner, hostname: string -> string, same: Same,
                              records: seq<Record>, cert: Certificate): seq<Record>
  {
    if !Eligible(cfg, owns, cert) then records
    else AddChallenges(cfg, owns, hostname, same, records, cert.challenges)
  }

  /** Every certificate processed in turn. */
  function ProcessAll(cfg: Config, owns: Owner, hostname: string -> string, same: Same,
                      records: seq<Record>, certs: seq<Certificate>): seq<Record>
    decreases |certs|
  {
    if certs == [] then records
    else ProcessAll(cfg, owns, hostname, same, ProcessCertificate(cfg, owns, hostname, same, records, certs[0]), certs[1..])
  }

  lemma {:induction false} ProcessAllAppend(cfg: Config, owns: Owner, hostname: string -> string, same: Same,
                                            records: seq<Record>, a: seq<Certificate>, b: seq<Certificate>)
    ensures ProcessAll(cfg, owns, hostname, same, records, a + b)
      == ProcessAll(cfg, owns, hostname, same, ProcessAll(cfg, owns, hostname, same, records, a), b)
    decreases |a|
  {
    if a == [] {
      assert a + b == b;
    } else {
      assert (a + b)[0] == a[0] && (a + b)[1..] == a[1..] + b;
      ProcessAllAppend(cfg, owns, hostname, same, ProcessCertificate(cfg, owns, hostname, same, records, a[0]), a[1..], b);
    }
  }

  /** A certificate that is not managed, or none of whose domains the zone
      owns, or whose first owned domain is "", adds nothing. */
  lemma IneligibleAddsNothing(cfg: Config, owns: Owner, hostname: string -> string, same: Same,
                              records: seq<Record>, cert: Certificate)
    requires cert.ctype != Managed
      || (forall i | 0 <= i < |cert.domains| :: !owns(cfg.recordType, cert.domains[i]))
      || (exists i | 0 <= i < |cert.domains| ::
            (cert.domains[i] == "" && owns(cfg.recordType, cert.domains[i])
             && forall j | 0 <= j < i :: !owns(cfg.recordType, cert.domains[j])))
    ensures ProcessCertificate(cfg, owns, hostname, same, records, cert) == records
  {
    if cert.ctype == Managed && exists i | 0 <= i < |cert.domains| :: owns(cfg.recordType, cert.domains[i]) {
      var i :| 0 <= i < |cert.domains| && cert.domains[i] == "" && owns(cfg.recordType, cert.domains[i])
        && forall j | 0 <= j < i :: !owns(cfg.recordType, cert.domains[j]);
      var d := FirstOwned(owns, cfg.recordType, cert.domains);
      var k :| 0 <= k < |cert.domains| && cert.domains[k] == d.value && owns(cfg.recordType, cert.domains[k])
        && forall j | 0 <= j < k :: !owns(cfg.recordType, cert.domains[j]);
      assert k == i;
    }
  }

  /** With a reflexive record equality, after the challenge loop every
      qualifying challenge's record is in the zone: added, or found there. */
  lemma {:induction false} ChallengesCovered(cfg: Config, owns: Owner, hostname: string -> string, same: Same,
                                             records: seq<Record>, chs: seq<Challenge>)
    requires forall r: Record :: same(r, r)
    ensures var after := AddChallenges(cfg, owns, hostname, same, records, chs);
      forall j | 0 <= j < |chs| && Qualifies(cfg, owns, chs[j]) :: AnySame(same, after, ChallengeRecord(cfg, hostname, chs[j]))
    decreases |chs|
  {
    if chs != [] {
      var rec := ChallengeRecord(cfg, hostname, chs[0]);
      var next := if Qualifies(cfg, owns, chs[0]) && !AnySame(same, records, rec) then records + [rec] else records;
      var after := AddChallenges(cfg, owns, hostname, same, records, chs);
      ChallengesCovered(cfg, owns, hostname, same, next, chs[1..]);
      forall j | 0 <= j < |chs| && Qualifies(cfg, owns, chs[j])
        ensures AnySame(same, after, ChallengeRecord(cfg, hostname, chs[j]))
      {
        if j == 0 {
          assert AnySame(same, next, rec) by {
            if !AnySame(same, records, rec) {
              AnySameAppend(same, records, [rec], rec);
            }
          }
          assert after == next + after[|next|..];
          AnySameAppend(same, next, after[|next|..], rec);
        } else {
          assert chs[j] == chs[1..][j - 1];
        }
      }
    }
  }

  /** The challenge loop of `process_certificate`. */
  method AddChallengeRecords(zone: Zone, cfg: Config, owns: Owner, hostname: string -> string, same: Same,
                             chs: seq<Challenge>)
    modifies zone
    ensures zone.records == AddChallenges(cfg, owns, hostname, same, old(zone.records), chs)
  {
    ghost var want := AddChallenges(cfg, owns, hostname, same, zone.records, chs);
    for n := 0 to |chs|
      invariant AddChallenges(cfg, owns, hostname, same, zone.records, chs[n..]) == want
    {
      assert chs[n..][0] == chs[n] && chs[n..][1..] == chs[n + 1..];
      var challenge := chs[n];
      if challenge.ctype != Dns {
        continue;
      }
      var challengeRecord := challenge.dnsChallenge;
      if challengeRecord.rtype != cfg.recordType {
        continue;
      }
      if !owns(cfg.recordType, challengeRecord.name) {
        continue;
      }
      var newRecord := Record(hostname(challengeRecord.name), challengeRecord.rtype, cfg.recordTtl,
                              Single(Plain(challengeRecord.value)));
      var present := HasSameRecord(zone.records, same, newRecord);
      if present {
        continue;
      }
      zone.AddRecord(newRecord);
    }
    assert chs[|chs|..] == [];
  }

  /** `new_record in zone.records`: a scan for a same record. */
  method HasSameRecord(records: seq<Record>, same: Same, r: Record) returns (found: bool)
    ensures found <==> AnySame(same, records, r)
  {
    for n := 0 to |records|
      invariant AnySame(same, records, r) <==> AnySame(same, records[n..], r)
    {
      assert records[n..][0] == records[n] && records[n..][1..] == records[n + 1..];
      if same(records[n], r) {
        return true;
      }
    }
    return false;
  }

  /** `next(...)` over the domains: the first one the zone owns. */
  method FindOwnedDomain(owns: Owner, rtype: string, domains: seq<string>) returns (r: Option<string>)
    ensures r == FirstOwned(owns, rtype, domains)
  {
    for n := 0 to |domains|
      invariant FirstOwned(owns, rtype, domains) == FirstOwned(owns, rtype, domains[n..])
    {
      assert domains[n..][0] == domains[n] && domains[n..][1..] == domains[n + 1..];
      if owns(rtype, domains[n]) {
        return Some(domains[n]);
      }
    }
    return None;
  }

  /** `process_certificate` */
  method ProcessCertificateInZone(zone: Zone, cfg: Config, owns: Owner, hostname: string -> string, same: Same,
                                  cert: Certificate)
    modifies zone
    ensures zone.records == ProcessCertificate(cfg, owns, hostname, same, old(zone.records), cert)
  {
    if cert.ctype != Managed {
      return;
    }
    var owned := FindOwnedDomain(owns, cfg.recordType, cert.domains);
    if owned.None? || owned.value == "" {
      return;
    }
    AddChallengeRecords(zone, cfg, owns, hostname, same, cert.challenges);
  }

  /** The certificates of one answer, in order. */
  method ProcessCertificates(zone: Zone, cfg: Config, owns: Owner, hostname: string -> string, same: Same,
                             certs: seq<Certificate>)
    modifies zone
    ensures zone.records == ProcessAll(cfg, owns, hostname, same, old(zone.records), certs)
  {
    ghost var want := ProcessAll(cfg, owns, hostname, same, zone.records, certs);
    for n := 0 to |certs|
      invariant ProcessAll(cfg, owns, hostname, same, zone.records, certs[n..]) == want
    {
      assert certs[n..][0] == certs[n] && certs[n..][1..] == certs[n + 1..];
      ProcessCertificateInZone(zone, cfg, owns, hostname, same, certs[n]);
    }
    assert certs[|certs|..] == [];
  }

  /** `populate`: `answers` are the successive answers of the certificate
      listing of the folder; every certificate of every answer is
      processed, in order. */
  method Populate(zone: Zone, cfg: Config, owns: Owner, hostname: string -> string, same: Same,
                  answers: seq<TokenPage<Certificate>>)
    requires TokenListingEnds(answers)
    modifies zone
    ensures zone.records == ProcessAll(cfg, owns, hostname, same, old(zone.records), TokenItems(answers))
  {
    ghost var before := zone.records;
    ghost var seen: seq<Certificate> := [];
    var done := false;
    var i := 0;
    while !done
      invariant 0 <= i <= |answers|
      invariant !done ==> forall k | 0 <= k < i :: answers[k].nextPageToken != ""
      invariant done ==> seen == TokenItems(answers)
      invariant !done ==> seen == ItemsOf(answers[..i])
      invariant zone.records == ProcessAll(cfg, owns, hostname, same, before, seen)
      decreases |answers| - i + (if done then 0 else 1)
    {
      TokenListingGoesOn(answers, i);
      var resp := answers[i];
      TokenItemsSplit(answers, i);
      ItemsOfSnoc(answers, i);
      if resp.nextPageToken != "" {
        // the next request carries resp.nextPageToken
      } else {
        done := true;
      }
      ProcessCertificates(zone, cfg, owns, hostname, same, resp.items);
      ProcessAllAppend(cfg, owns, hostname, same, before, seen, resp.items);
      seen := seen + resp.items;
      i := i + 1;
    }
  }
}
