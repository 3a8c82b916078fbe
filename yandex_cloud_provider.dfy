/** The older Yandex Cloud DNS provider
    (octodns_yandex/yandex_cloud_provider.py): the first listed zone of the
    name wins, with no override map and no disambiguation. Its `populate`
    runs the same record-set pass as the newer provider. */
module YandexCloudLegacy {
  import opened Common
  import opened Records
  import opened Mappings
  import opened RecordSetListing
  import YandexCloud

  /** `_get_zone_id_by_name`: the id of the first zone `dns_service.List`
      returns for the name, if any. */
  function ZoneIdByName(listing: seq<YandexCloud.DnsZone>): (r: Option<string>)
    ensures r.None? <==> |listing| == 0
    ensures r.Some? ==> r.value == listing[0].id
  {
    if |listing| < 1 then None else Some(listing[0].id)
  }

  /** The older lookup is the newer one with no override for the name and
      no public/private preference, on every listing. */
  lemma AgreesWithUnsetPreference(cfg: YandexCloud.Config, zoneName: string, listing: seq<YandexCloud.DnsZone>)
    requires zoneName !in cfg.zoneIdsMap && cfg.prioritizePublic.None?
    ensures YandexCloud.ZoneIdByName(cfg, zoneName, listing) == Ok(ZoneIdByName(listing))
  {
  }

  /** `populate`: false when no zone is listed, leaving the zone alone;
      otherwise the record-set pass, and true unless a decode raised. */
  method Populate(zone: Zone, listing: seq<YandexCloud.DnsZone>, answers: seq<TokenPage<RecordSet>>,
                  hostname: string -> string, parse: Parser)
    returns (r: Result<bool>)
    requires TokenListingEnds(answers)
    modifies zone
    ensures |listing| == 0 ==> r == Ok(false) && zone.records == old(zone.records)
    ensures |listing| > 0 ==>
      var l := LoadAll(Supports, hostname, parse, TokenItems(answers));
      && zone.records == old(zone.records) + l.added
      && r == (if l.error.Some? then Err(l.error.value) else Ok(true))
  {
    var existingZoneId := ZoneIdByName(listing);
    if existingZoneId.None? {
      return Ok(false);
    }
    var error := LoadRecordSets(zone, Supports, hostname, parse, answers);
    if error.Some? {
      return Err(error.value);
    }
    return Ok(true);
  }

  /** `_apply` is `pass`: whatever the changes, nothing is submitted. */
  method Apply(zone: Zone, changes: seq<Change>) returns (submitted: seq<RecordSet>)
    ensures submitted == []
  {
    submitted := [];
  }
}
