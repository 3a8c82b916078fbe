/** The Yandex Cloud DNS provider (octodns_yandex/yandexcloud_provider.py):
    zone lookup with an override map and a public/private preference, and
    `populate` over the zone's record sets. `_apply` does nothing. */
module YandexCloud {
  import opened Common
  import opened Records
  import opened Mappings
  import opened RecordSetListing

  /** A DNS zone as `dns_service.List` returns it; the two flags say whether
      the `public_visibility` and `private_visibility` fields are set. */
  datatype DnsZone = DnsZone(id: string, publicVisibility: bool, privateVisibility: bool)

  /** The provider options the lookup reads: `prioritize_public` (true,
      false or unset) and `zone_ids_map`. */
  datatype Config = Config(prioritizePublic: Option<bool>, zoneIdsMap: map<string, string>)

  /** `[e for e in zones if e.HasField('public_visibility')]` */
  function PublicZones(zones: seq<DnsZone>): (r: seq<DnsZone>)
    ensures forall z | z in r :: z in zones && z.publicVisibility
    ensures |r| > 0 <==> exists i | 0 <= i < |zones| :: zones[i].publicVisibility
    ensures |r| > 0 ==>
      (exists i | 0 <= i < |zones| :: (zones[i] == r[0] && forall j | 0 <= j < i :: !zones[j].publicVisibility))
    decreases |zones|
  {
    if zones == [] then []
    else if zones[0].publicVisibility then [zones[0]] + PublicZones(zones[1..])
    else
      var rest := PublicZones(zones[1..]);
      assert |rest| > 0 ==>
        (exists i | 0 <= i < |zones| :: (zones[i] == rest[0] && forall j | 0 <= j < i :: !zones[j].publicVisibility))
      by {
        if |rest| > 0 {
          var i :| 0 <= i < |zones[1..]| && zones[1..][i] == rest[0]
            && forall j | 0 <= j < i :: !zones[1..][j].publicVisibility;
          assert zones[i + 1] == rest[0];
          assert forall j | 0 <= j < i + 1 :: !zones[j].publicVisibility by {
            forall j | 0 <= j < i + 1 ensures !zones[j].publicVisibility {
              if j > 0 { assert zones[j] == zones[1..][j - 1]; }
            }
          }
        }
      }
      assert (exists i | 0 <= i < |zones| :: zones[i].publicVisibility)
        ==> exists i | 0 <= i < |zones[1..]| :: zones[1..][i].publicVisibility
      by {
        if exists i | 0 <= i < |zones| :: zones[i].publicVisibility {
          var i :| 0 <= i < |zones| && zones[i].publicVisibility;
          assert zones[1..][i - 1] == zones[i];
        }
      }
      rest
  }

  /** `[e for e in zones if e.HasField('private_visibility')]` */
  function PrivateZones(zones: seq<DnsZone>): (r: seq<DnsZone>)
    ensures forall z | z in r :: z in zones && z.privateVisibility
    ensures |r| > 0 <==> exists i | 0 <= i < |zones| :: zones[i].privateVisibility
    ensures |r| > 0 ==>
      (exists i | 0 <= i < |zones| :: (zones[i] == r[0] && forall j | 0 <= j < i :: !zones[j].privateVisibility))
    decreases |zones|
  {
    if zones == [] then []
    else if zones[0].privateVisibility then [zones[0]] + PrivateZones(zones[1..])
    else
      var rest := PrivateZones(zones[1..]);
      assert |rest| > 0 ==>
        (exists i | 0 <= i < |zones| :: (zones[i] == rest[0] && forall j | 0 <= j < i :: !zones[j].privateVisibility))
      by {
        if |rest| > 0 {
          var i :| 0 <= i < |zones[1..]| && zones[1..][i] == rest[0]
            && forall j | 0 <= j < i :: !zones[1..][j].privateVisibility;
          assert zones[i + 1] == rest[0];
          assert forall j | 0 <= j < i + 1 :: !zones[j].privateVisibility by {
            forall j | 0 <= j < i + 1 ensures !zones[j].privateVisibility {
              if j > 0 { assert zones[j] == zones[1..][j - 1]; }
            }
          }
        }
      }
      assert (exists i | 0 <= i < |zones| :: zones[i].privateVisibility)
        ==> exists i | 0 <= i < |zones[1..]| :: zones[1..][i].privateVisibility
      by {
        if exists i | 0 <= i < |zones| :: zones[i].privateVisibility {
          var i :| 0 <= i < |zones| && zones[i].privateVisibility;
          assert zones[1..][i - 1] == zones[i];
        }
      }
      rest
  }

  /** The disambiguation step: with several zones and a preference set,
      `True` narrows to the public zones when there are any, `False` narrows
      to the private zones even when there are none. */
  function Narrow(prioritizePublic: Option<bool>, zones: seq<DnsZone>): seq<DnsZone> {
    if |zones| > 1 && prioritizePublic.Some? then
      if prioritizePublic.value then
        var publicZones := PublicZones(zones);
        if |publicZones| > 0 then publicZones else zones
      else PrivateZones(zones)
    else zones
  }

  /** `_get_zone_id_by_name`. `listing` is what `dns_service.List` answers
      for the zone name; it is consulted only when the name is not in the
      override map. `Ok(None)` is "no zone"; `zones[0]` on an emptied list
      raises. */
  function ZoneIdByName(cfg: Config, zoneName: string, listing: seq<DnsZone>): Result<Option<string>> {
    if zoneName in cfg.zoneIdsMap then Ok(Some(cfg.zoneIdsMap[zoneName]))
    else if |listing| < 1 then Ok(None)
    else
      var zones := Narrow(cfg.prioritizePublic, listing);
      if |zones| == 0 then Err(IndexOutOfRange) else Ok(Some(zones[0].id))
  }

  /** A name in the override map resolves to its mapped id whatever the
      listing would say. */
  lemma OverrideWins(cfg: Config, zoneName: string, listing: seq<DnsZone>)
    requires zoneName in cfg.zoneIdsMap
    ensures ZoneIdByName(cfg, zoneName, listing) == Ok(Some(cfg.zoneIdsMap[zoneName]))
  {
  }

  /** Without an override, an empty listing means the zone is not found. */
  lemma EmptyListingNotFound(cfg: Config, zoneName: string)
    requires zoneName !in cfg.zoneIdsMap
    ensures ZoneIdByName(cfg, zoneName, []) == Ok(None)
  {
  }

  /** Preferring public zones among several: the first public zone in
      listing order when there is one, else the first zone. */
  lemma PreferPublic(cfg: Config, zoneName: string, listing: seq<DnsZone>)
    requires zoneName !in cfg.zoneIdsMap && cfg.prioritizePublic == Some(true) && |listing| > 1
    ensures (forall i | 0 <= i < |listing| :: !listing[i].publicVisibility)
      ==> ZoneIdByName(cfg, zoneName, listing) == Ok(Some(listing[0].id))
    ensures forall i | 0 <= i < |listing| && listing[i].publicVisibility
                       && (forall j | 0 <= j < i :: !listing[j].publicVisibility) ::
      ZoneIdByName(cfg, zoneName, listing) == Ok(Some(listing[i].id))
  {
    forall i | 0 <= i < |listing| && listing[i].publicVisibility
                && (forall j | 0 <= j < i :: !listing[j].publicVisibility)
      ensures ZoneIdByName(cfg, zoneName, listing) == Ok(Some(listing[i].id))
    {
      var p := PublicZones(listing);
      var k :| 0 <= k < |listing| && listing[k] == p[0] && forall j | 0 <= j < k :: !listing[j].publicVisibility;
      assert p[0] in p;
      assert k == i;
    }
  }

  /** Preferring private zones among several: the first private zone in
      listing order; when none is private, `zones[0]` raises. */
  lemma PreferPrivate(cfg: Config, zoneName: string, listing: seq<DnsZone>)
    requires zoneName !in cfg.zoneIdsMap && cfg.prioritizePublic == Some(false) && |listing| > 1
    ensures (forall i | 0 <= i < |listing| :: !listing[i].privateVisibility)
      ==> ZoneIdByName(cfg, zoneName, listing) == Err(IndexOutOfRange)
    ensures forall i | 0 <= i < |listing| && listing[i].privateVisibility
                       && (forall j | 0 <= j < i :: !listing[j].privateVisibility) ::
      ZoneIdByName(cfg, zoneName, listing) == Ok(Some(listing[i].id))
  {
    forall i | 0 <= i < |listing| && listing[i].privateVisibility
                && (forall j | 0 <= j < i :: !listing[j].privateVisibility)
      ensures ZoneIdByName(cfg, zoneName, listing) == Ok(Some(listing[i].id))
    {
      var p := PrivateZones(listing);
      var k :| 0 <= k < |listing| && listing[k] == p[0] && forall j | 0 <= j < k :: !listing[j].privateVisibility;
      assert p[0] in p;
      assert k == i;
    }
  }

  /** With one zone, or with no preference, the first zone listed wins. */
  lemma FirstZoneOtherwise(cfg: Config, zoneName: string, listing: seq<DnsZone>)
    requires zoneName !in cfg.zoneIdsMap && |listing| > 0
    requires |listing| == 1 || cfg.prioritizePublic.None?
    ensures ZoneIdByName(cfg, zoneName, listing) == Ok(Some(listing[0].id))
  {
  }

  /** Whatever the preference, a zone found without the override map is a
      listed zone. */
  lemma FoundZoneIsListed(cfg: Config, zoneName: string, listing: seq<DnsZone>)
    requires zoneName !in cfg.zoneIdsMap
    ensures var r := ZoneIdByName(cfg, zoneName, listing);
      r.Ok? && r.value.Some? ==> exists i | 0 <= i < |listing| :: listing[i].id == r.value.value
  {
    var zones := Narrow(cfg.prioritizePublic, listing);
    if |listing| > 0 && |zones| > 0 {
      assert zones[0] in zones;
      assert zones[0] in listing;
    }
  }

  /** Two zones share a name, a private A and a public B: preferring public
      picks B, preferring private picks A, and an override picks its own id. */
  lemma PrivateAndPublicScenario(zoneName: string, a: string, b: string, pinned: string)
    ensures var listing := [DnsZone(a, false, true), DnsZone(b, true, false)];
      && ZoneIdByName(Config(Some(true), map[]), zoneName, listing) == Ok(Some(b))
      && ZoneIdByName(Config(Some(false), map[]), zoneName, listing) == Ok(Some(a))
      && ZoneIdByName(Config(None, map[]), zoneName, listing) == Ok(Some(a))
      && ZoneIdByName(Config(Some(true), map[zoneName := pinned]), zoneName, listing) == Ok(Some(pinned))
  {
    var listing := [DnsZone(a, false, true), DnsZone(b, true, false)];
    assert listing[1..][1..] == [];
    assert PublicZones(listing) == PublicZones(listing[1..]) == [listing[1]];
    assert PrivateZones(listing)[0] == listing[0];
  }

  /** `populate`: `listing` is the zone listing for `zone.name` and
      `answers` the successive `ListRecordSets` answers for the zone found.
      Not found gives false and leaves the zone alone; otherwise every
      admitted record set is decoded and added, and the result is true
      unless a decode raised. */
  method Populate(cfg: Config, zone: Zone, listing: seq<DnsZone>, answers: seq<TokenPage<RecordSet>>,
                  hostname: string -> string, parse: Parser)
    returns (r: Result<bool>)
    requires TokenListingEnds(answers)
    modifies zone
    ensures match ZoneIdByName(cfg, zone.name, listing)
      case Err(e) => r == Err(e) && zone.records == old(zone.records)
      case Ok(None) => r == Ok(false) && zone.records == old(zone.records)
      case Ok(Some(_)) =>
        var l := LoadAll(Supports, hostname, parse, TokenItems(answers));
        && zone.records == old(zone.records) + l.added
        && r == (if l.error.Some? then Err(l.error.value) else Ok(true))
  {
    var existingZoneId := ZoneIdByName(cfg, zone.name, listing);
    if existingZoneId.Err? {
      return Err(existingZoneId.error);
    }
    if existingZoneId.value.None? {
      return Ok(false);
    }
    var error := LoadRecordSets(zone, Supports, hostname, parse, answers);
    if error.Some? {
      return Err(error.value);
    }
    return Ok(true);
  }

  /** `_apply` is `pass`: whatever the changes, nothing is submitted. */
  method Apply(zone: Zone, changes: seq<Change>) returns (submitted: seq<RecordSet>)
    ensures submitted == []
  {
    submitted := [];
  }
}
