# octodns-yandex, modelled in Dafny

octodns-yandex connects octodns to three Yandex services:

- **Yandex Cloud DNS providers.** There are two of them: `yandexcloud_provider.py` and the older `yandex_cloud_provider.py`.
  - Each finds the DNS zone of a name.
  - In `populate` it pages through the zone's record sets. It keeps those whose type appears in its `SUPPORTS` string and decodes each one through the type table of `mappings.py`. The decoded records go into the octodns zone.
  - `_apply` does nothing.
- **The Yandex 360 provider** (`yandex360_provider.py`). It works on flat DNS entries: one entry per value, each with an id.
  - It finds the organisation that owns the zone's domain.
  - In `populate` it lists the domain's entries and groups them into octodns records by `(name, type)`.
  - `_apply` turns a plan into create, update and delete calls on individual entries.
- **The Certificate Manager source** (`yandexcloud_cm_source.py`). It adds the DNS challenge records of managed certificates to a zone.

The modules follow those files:

- `Common` (`common.dfy`): errors, `Option` and `Result`, paginated listings, Python's `in` and `str.replace` on strings
- `Records` (`records.dfy`): the octodns side: records, plan changes, and the `Zone` class whose `add_record` appends
- `Mappings` (`mappings.dfy`): the record-set decoder
- `RecordSetListing` (`recordset_listing.dfy`): the record-set pass of `populate`, shared line for line by both Cloud providers
- `YandexCloud` (`yandexcloud_provider.dfy`): the newer Cloud provider
- `YandexCloudLegacy` (`yandex_cloud_provider.dfy`): the older Cloud provider
- `Yandex360Codec` (`yandex360_codec.dfy`): `map_entries_to_records` and `map_record_to_entries`
- `Yandex360` (`yandex360_provider.dfy`): the 360 provider's lookups, `populate` and `_apply`
- `CertificateSource` (`cm_source.dfy`): the Certificate Manager source

Remote services are the answers they would give, and the operations read those answers:

- A cursor listing is a sequence of `TokenPage`s: the i-th request gets the i-th answer.
- A page-number listing is a sequence of `NumberedPage`s.
- The 360 `_apply` returns the calls it would make, in order, as an `Outcome`.

Some octodns internals are function parameters: `hostname_from_fqdn`, `zone.owns`, `parse_rdata_text`, record equality, and the set of registered record types.

Every loop the source has is a method with loop invariants. Each method is proved against a specification function, and the properties are lemmas about those functions.

## Model

| member | source | states |
|---|---|---|
| `Mappings.ParseAll` | octodns_yandex/mappings.py:26-38 | `parse_rdata_texts` gives one value per text, each the parse of that text, in order |
| `Mappings.Handle` | octodns_yandex/mappings.py:9-38 | A single-value handler raises exactly when the record set has no text; otherwise the record keeps the handler's type and the record set's TTL |
| `Mappings.MapRecordSet` | octodns_yandex/mappings.py:56-67 | A type with no table entry raises 'Unsupported record type'; a decoded record is named `hostname_from_fqdn` of the record-set name |
| `Mappings.SupportedTypes` | octodns_yandex/mappings.py:40-53 | The decoder accepts exactly the ten table types A, AAAA, CAA, CNAME, ANAME, MX, NS, PTR, SRV, TXT |
| `Mappings.SingleValueTypes` | octodns_yandex/mappings.py:9-23 | CNAME and ANAME raise on an empty record set; otherwise they keep only the first text, parsed, as `value`, and ignore the later texts |
| `Mappings.MultiValueTypes` | octodns_yandex/mappings.py:26-38 | Every other table type always decodes, with its type and TTL, to `values` holding the parse of every text in order; splitting the texts in two concatenates the two halves' values |
| `RecordSetListing.LoadAllAppend` | octodns_yandex/yandexcloud_provider.py:190-205 | Loading a listing in two parts is loading the first part and then, unless it failed, the second |
| `RecordSetListing.AdmittedOf` | octodns_yandex/yandexcloud_provider.py:201-203 | The record sets the `SUPPORTS` test admits: no more than the listing has, all admitted and listed, and every admitted one kept |
| `RecordSetListing.LoadAllSkips` | octodns_yandex/yandexcloud_provider.py:202-203 | Skipping is all the filter does: loading a listing equals loading its admitted record sets alone |
| `RecordSetListing.LoadAllDecodes` | octodns_yandex/yandexcloud_provider.py:201-205 | Admitted record sets load without error exactly when each decodes; then one record per record set is added, decoded, in order |
| `RecordSetListing.LoadItems` | octodns_yandex/yandexcloud_provider.py:201-205 | The inner loop appends the loaded records to the zone and returns the error that stopped it, if any |
| `RecordSetListing.LoadRecordSets` | octodns_yandex/yandexcloud_provider.py:187-205 | Paging until the cursor is empty adds the records of the whole listing; on an error, the records added before it stay |
| `YandexCloud.PublicZones` | octodns_yandex/yandexcloud_provider.py:156 | Only public zones of the listing are kept; the result is non-empty iff some zone is public, and its head is the first public zone |
| `YandexCloud.PrivateZones` | octodns_yandex/yandexcloud_provider.py:161 | The same for private zones |
| `YandexCloud.OverrideWins` | octodns_yandex/yandexcloud_provider.py:137-139 | A name in `zone_ids_map` resolves to its mapped id, whatever the listing |
| `YandexCloud.EmptyListingNotFound` | octodns_yandex/yandexcloud_provider.py:150-152 | Without an override, an empty listing gives no zone |
| `YandexCloud.PreferPublic` | octodns_yandex/yandexcloud_provider.py:154-159 | With several zones and `prioritize_public` true, the first public zone wins; with no public zone, the first zone wins |
| `YandexCloud.PreferPrivate` | octodns_yandex/yandexcloud_provider.py:160-165 | With several zones and `prioritize_public` false, the first private zone wins; with no private zone, `zones[0]` raises |
| `YandexCloud.FirstZoneOtherwise` | octodns_yandex/yandexcloud_provider.py:154-172 | With one zone, or with no preference set, the first listed zone wins |
| `YandexCloud.FoundZoneIsListed` | octodns_yandex/yandexcloud_provider.py:145-172 | Without the override, any zone id found is that of a listed zone |
| `YandexCloud.PrivateAndPublicScenario` | octodns_yandex/yandexcloud_provider.py:136-172 | For a private zone A and a public zone B of one name: public picks B, private picks A, unset picks A, and an override picks its own id |
| `YandexCloud.Populate` | octodns_yandex/yandexcloud_provider.py:174-209 | A lookup error raises and "no zone" returns false, both leaving the zone alone; otherwise the whole listing is loaded, giving true unless a decode raised |
| `YandexCloud.Apply` | octodns_yandex/yandexcloud_provider.py:211-212 | `_apply` submits nothing |
| `YandexCloudLegacy.ZoneIdByName` | octodns_yandex/yandex_cloud_provider.py:138-141 | No zone iff the listing is empty; otherwise the first listed zone's id |
| `YandexCloudLegacy.AgreesWithUnsetPreference` | octodns_yandex/yandex_cloud_provider.py:138-141 | The older lookup is the newer one with no override and no preference |
| `YandexCloudLegacy.Populate` | octodns_yandex/yandex_cloud_provider.py:143-178 | No zone returns false and leaves the zone alone; otherwise the whole listing is loaded, giving true unless a decode raised |
| `YandexCloudLegacy.Apply` | octodns_yandex/yandex_cloud_provider.py:180-181 | `_apply` submits nothing |
| `Records.ValuesOf` | octodns_yandex/yandex360_provider.py:95-96 | A record's values: its one `value`, or its `values` |
| `Records.DataOf` | octodns_yandex/yandex360_provider.py:67-70 | Decoded values go under `value` exactly when there is one of them, and reading them back gives the same values |
| `Records.Zone.constructor` | octodns_yandex/yandexcloud_provider.py:187 | A zone starts with its name and records |
| `Records.Zone.AddRecord` | octodns_yandex/yandexcloud_provider.py:205 | `add_record` appends the record |
| `Yandex360Codec.KeyLessIrreflexive` | octodns_yandex/yandex360_provider.py:15-19 | The `(name, type)` order used by `sorted` is irreflexive |
| `Yandex360Codec.KeyLessTransitive` | octodns_yandex/yandex360_provider.py:15-19 | The order is transitive |
| `Yandex360Codec.KeyLessTotal` | octodns_yandex/yandex360_provider.py:15-19 | Any two distinct keys are ordered |
| `Yandex360Codec.Insert` | octodns_yandex/yandex360_provider.py:19 | Inserting a key into a sorted key list keeps it sorted, with exactly the old keys and the new one |
| `Yandex360Codec.SortedKeys` | octodns_yandex/yandex360_provider.py:19-20 | The groups `groupby` visits after `sorted`: strictly ascending keys, exactly those of the listed entries |
| `Yandex360Codec.Group` | octodns_yandex/yandex360_provider.py:19-22 | A group holds entries of its key only; it is non-empty iff the key is listed; its head is the first listed entry with the key, as a stable sort keeps it |
| `Yandex360Codec.GroupAppend` | octodns_yandex/yandex360_provider.py:19-22 | Grouping keeps listing order: the group of a listing read in two parts is the first part's group followed by the second's |
| `Yandex360Codec.GroupSingle` | octodns_yandex/yandex360_provider.py:19-22 | A single entry forms the group of its own key and is in no other group; with GroupAppend this fixes every group as the listed entries of its key, in listing order |
| `Yandex360Codec.GroupComplete` | octodns_yandex/yandex360_provider.py:19-22 | No listed entry is dropped: each entry is in the group of its key |
| `Yandex360Codec.UnescapeSemicolons` | octodns_yandex/yandex360_provider.py:42 | The encoder's first replace (line 105) undoes the decoder's `;` escape (line 42) on every text |
| `Yandex360Codec.TextRoundTrip` | octodns_yandex/yandex360_provider.py:42 | TXT text escaped by the decoder (line 42) and unescaped by the encoder (line 105) comes back with each doubled backslash halved, so unchanged when it holds no backslash |
| `Yandex360Codec.DecodeGroupValues` | octodns_yandex/yandex360_provider.py:34-66 | The value loop of one group computes the group's values as specified, which the two round-trip lemmas below characterise |
| `Yandex360Codec.DecodeKey` | octodns_yandex/yandex360_provider.py:21-80 | One group becomes one record, as the specification function decodes it |
| `Yandex360Codec.MapEntriesToRecords` | octodns_yandex/yandex360_provider.py:14-82 | `map_entries_to_records` computes the decoding specification: one record per key in key order, or the first group's error |
| `Yandex360Codec.DecodeOnePerKey` | octodns_yandex/yandex360_provider.py:20-80 | Decoding gives one record per key, each named with '@' read as the apex, typed, with the first entry's TTL and the group's values |
| `Yandex360Codec.DecodeUnknownType` | octodns_yandex/yandex360_provider.py:23-26 | A listed type octodns does not register makes decoding raise 'Unknown record type' |
| `Yandex360Codec.DecodeListing` | octodns_yandex/yandex360_provider.py:14-82 | For any listing: its keys in ascending order, one decoded record per key, and an error whenever an unregistered type is listed |
| `Yandex360Codec.EncodeValues` | octodns_yandex/yandex360_provider.py:97-128 | Encoding succeeds iff every value encodes; then there is one entry per value, in order, with the shared name, type and TTL |
| `Yandex360Codec.MapRecordToEntries` | octodns_yandex/yandex360_provider.py:85-129 | `map_record_to_entries` computes the encoding specification |
| `Yandex360Codec.EncodeShape` | octodns_yandex/yandex360_provider.py:85-129 | One entry per value, named `name if name else '@'`, with the record's type and TTL; a value of a type with no branch raises |
| `Yandex360Codec.GroupValuesRoundTrip` | octodns_yandex/yandex360_provider.py:97-126 | A uniform group's values, as decoded by lines 34-70, encode back to exactly its entries |
| `Yandex360Codec.EntriesRoundTrip` | octodns_yandex/yandex360_provider.py:14-129 | Entries sharing a non-empty name, a type and a TTL decode to one record, which encodes back to exactly those entries |
| `Yandex360Codec.ValuesRoundTrip` | octodns_yandex/yandex360_provider.py:34-70 | Values that encode (lines 97-126) to the listed entries decode from them to the same values |
| `Yandex360Codec.RecordRoundTrip` | octodns_yandex/yandex360_provider.py:14-129 | A non-TXT record with well-shaped values, listed under any ids, decodes back to itself |
| `Yandex360.RStripDots` | octodns_yandex/yandex360_provider.py:260 | `rstrip('.')` gives a prefix with no trailing dot, and only dots are removed |
| `Yandex360.FirstOwnerMeans` | octodns_yandex/yandex360_provider.py:209-236 | The lookup finds an organisation iff one owns the domain, and then the id of the first owner in listing order |
| `Yandex360.FirstOwnerAppend` | octodns_yandex/yandex360_provider.py:212-234 | Across two runs of organisations, the first run decides when it has an owner, else the second |
| `Yandex360.OrgOwns` | octodns_yandex/yandex360_provider.py:223-234 | The domain loop answers true iff the organisation's domain listing names the domain |
| `Yandex360.FindInOrgs` | octodns_yandex/yandex360_provider.py:220-234 | The organisation loop of one answer returns the first owner |
| `Yandex360.FindOrgIdForDomain` | octodns_yandex/yandex360_provider.py:209-236 | `find_org_id_for_domain` returns the first owner over every page of `list_orgs` |
| `Yandex360.CollectZoneEntries` | octodns_yandex/yandex360_provider.py:238-250 | `collect_zone_entries` gathers every entry of every page, in order, until the page count is reached |
| `Yandex360.CollectedPages` | octodns_yandex/yandex360_provider.py:238-250 | The entries collected are the items of exactly the pages requested, in page order: from the first page up to and including the first page whose reported page count is reached |
| `Yandex360.AddRecords` | octodns_yandex/yandex360_provider.py:268-269 | The records are appended to the zone in order |
| `Yandex360.Populate` | octodns_yandex/yandex360_provider.py:252-273 | No owner returns false and leaves the zone alone; a decoding error raises with the zone unchanged; otherwise the decoded records are added and the result is true |
| `Yandex360.Classify` | octodns_yandex/yandex360_provider.py:288-298 | Changes are sorted into delete, create and update lists, in plan order, and each existing record's key is entered with no ids yet |
| `Yandex360.ClassifyPartition` | octodns_yandex/yandex360_provider.py:290-298 | Every change lands in exactly one of the three lists: together, as multisets, they are the plan, so nothing is dropped or repeated (each list holds only changes of its kind, by DeletesOf, CreatesOf and UpdatesOf) |
| `Yandex360.FillSearch` | octodns_yandex/yandex360_provider.py:301-306 | Each searched key collects the ids of the listed entries under it, in listing order; no key is added |
| `Yandex360.DeleteFound` | octodns_yandex/yandex360_provider.py:308-311 | The delete loop deletes every id found for each deleted record, in order |
| `Yandex360.CreateAll` | octodns_yandex/yandex360_provider.py:313-316 | The create loop creates every entry of each new record; a record that does not encode stops `_apply` |
| `Yandex360.MatchEntries` | octodns_yandex/yandex360_provider.py:320-332 | The loop over the new entries and the id iterator, followed by the drain of leftover ids, makes the calls that MatchClosedForm describes |
| `Yandex360.UpdateAll` | octodns_yandex/yandex360_provider.py:318-332 | The update loop matches each updated record in turn; an encoding error stops it |
| `Yandex360.Apply` | octodns_yandex/yandex360_provider.py:275-332 | No owner raises 'Zone not found' before any call; otherwise the deletes, then creates, then updates of the plan, with ids searched under `hostname_from_fqdn` of the name |
| `Yandex360.EmptyPlan` | octodns_yandex/yandex360_provider.py:288-332 | An empty plan makes no call |
| `Yandex360.MatchClosedForm` | octodns_yandex/yandex360_provider.py:320-332 | Position by position, an update updates the listed ids while both remain, creates the extra entries and deletes the leftover ids |
| `Yandex360.ExecAllAppend` | octodns_yandex/yandex360_provider.py:309-332 | Running calls in two parts is running them one after another |
| `Yandex360.DeletesRemove` | octodns_yandex/yandex360_provider.py:331-332 | Deleting ids removes exactly them from the domain and leaves every other entry as it was |
| `Yandex360.MatchConverges` | octodns_yandex/yandex360_provider.py:320-332 | For distinct ids, an update leaves the new entries on the matched ids and created past them, removes the leftover ids, and changes nothing else |
| `Yandex360.CorrectedKeyFindsOwnEntries` | octodns_yandex/yandex360_provider.py:303-306 | Searching under the wire name of line 89 finds every id of a record's own listed entries, the apex included |
| `Yandex360.AsWrittenKeyMissesApex` | octodns_yandex/yandex360_provider.py:294-306 | Searching under `hostname_from_fqdn` finds none of an apex record's entries |
| `Yandex360.OneDeletePlan` | octodns_yandex/yandex360_provider.py:308-311 | A plan deleting one record deletes exactly the ids listed under its search key |
| `Yandex360.OneUpdatePlan` | octodns_yandex/yandex360_provider.py:318-332 | A plan updating one record matches its new entries against the ids under its search key, or stops if they do not encode |
| `Yandex360.DeleteConverges` | octodns_yandex/yandex360_provider.py:308-311 | Under the wire-name key, deleting a record deletes each of its listed entries, and nothing else |
| `Yandex360.UpdateConverges` | octodns_yandex/yandex360_provider.py:318-332 | Under the wire-name key, updating a record matches the new entries against exactly its listed ids |
| `Yandex360.ApexDeleteAsWritten` | octodns_yandex/yandex360_provider.py:294-311 | As written, deleting the apex A record listed as '@' makes no call; the wire-name key deletes it |
| `Yandex360.ApexUpdateAsWritten` | octodns_yandex/yandex360_provider.py:294-332 | As written, updating the apex A record creates a second entry instead of updating the listed one |
| `CertificateSource.NewSource` | octodns_yandex/yandexcloud_cm_source.py:44-48 | The source is built iff `record_type` is CNAME or TXT, keeping the type and TTL; otherwise it raises a configuration error |
| `CertificateSource.FirstOwned` | octodns_yandex/yandexcloud_cm_source.py:72-74 | The first domain the zone owns, or none iff it owns none |
| `CertificateSource.AddChallenges` | octodns_yandex/yandexcloud_cm_source.py:77-105 | The challenge loop only appends; each added record comes from a qualifying DNS challenge of the configured type for an owned name, and had no same record before it |
| `CertificateSource.ProcessAllAppend` | octodns_yandex/yandexcloud_cm_source.py:119-132 | Processing two runs of certificates is processing them one after the other |
| `CertificateSource.IneligibleAddsNothing` | octodns_yandex/yandexcloud_cm_source.py:69-75 | A certificate that is not managed, owns no domain, or whose first owned domain is "" adds nothing |
| `CertificateSource.ChallengesCovered` | octodns_yandex/yandexcloud_cm_source.py:77-105 | With a reflexive record equality, every qualifying challenge's record is in the zone afterwards, added or already there |
| `CertificateSource.HasSameRecord` | octodns_yandex/yandexcloud_cm_source.py:102 | `new_record in zone.records` is true iff some record is the same |
| `CertificateSource.FindOwnedDomain` | octodns_yandex/yandexcloud_cm_source.py:72-74 | The `next(...)` scan returns the first owned domain |
| `CertificateSource.AddChallengeRecords` | octodns_yandex/yandexcloud_cm_source.py:77-105 | The challenge loop leaves the zone as the challenge specification says |
| `CertificateSource.ProcessCertificateInZone` | octodns_yandex/yandexcloud_cm_source.py:68-105 | `process_certificate` leaves the zone as the certificate specification says |
| `CertificateSource.ProcessCertificates` | octodns_yandex/yandexcloud_cm_source.py:131-132 | Each certificate of an answer is processed, in order |
| `CertificateSource.Populate` | octodns_yandex/yandexcloud_cm_source.py:107-134 | Paging until the cursor is empty processes every listed certificate, in order |

## Left out

- Transport is a parameter: HTTP, gRPC, authentication, the SDK clients, timeouts and logging are not modelled. Listings are given as the answers the services would send.
- `idna_encode` is not modelled: zone names are taken as already ASCII.
- `Record.new`, octodns record validation, `lenient`, and the duplicate checks inside `zone.add_record` belong to octodns and are not modelled. A record is the value the provider builds, and `add_record` appends it.
- `int()` coercion is not modelled: numeric wire fields are integers already.
- Python prints a set in hash order, so the `SUPPORTS` string of the Cloud providers is taken in declaration order. The ANAME tag is taken as `YandexCloudProvider/ANAME`; `octodns_yandex/record.py` is not part of this model.
- The 360 provider's `SUPPORTS` constant is not modelled: none of the modelled operations reads it.
- `make_request` failures are not modelled: every call is taken to succeed, and calls already made before an error stay made.
- Yandex360Codec.EncodeValue: a value whose shape does not fit its type raises `MalformedValue` in the model. octodns never builds such a value. For TXT, MX, SRV and CAA the source would raise `AttributeError` on the value; for A, AAAA, CNAME and NS it would put the object into the field and send it.
- Yandex360Codec.DecodeValue: a missing wire field is `MissingField`. The model can only express one missing field per type, the first field the branch reads.
- RecordSetListing.LoadRecordSets, YandexCloud.Populate, YandexCloudLegacy.Populate, CertificateSource.Populate, Yandex360.FindOrgIdForDomain, Yandex360.CollectZoneEntries, Yandex360.Populate and Yandex360.Apply require their listings to end; the source loops forever when a listing it reads never ends. The 360 lookups also require listings the source never reads to end. The source returns at the first owning organisation (yandex360_provider.py lines 233-235), but the model requires every organisation page, and every organisation's domain listing, to end.
- Yandex360Codec.RecordRoundTrip: states the round trip for non-TXT records not named "@" only. TXT text loses backslashes (see TextRoundTrip), and a record named "@" comes back as the apex.
- Yandex360Codec.EntriesRoundTrip: excludes entries named "". Such an entry decodes to the apex, which encodes back as "@".
- Yandex360.Apply: the search key is modelled as the code computes it. The corrected key is proved about in DeleteConverges and UpdateConverges (see Findings).
- Yandex360.MatchConverges: requires distinct listed ids. The API's ids are unique per entry, which the model does not derive.
- CertificateSource.ChallengesCovered: assumes the record equality is reflexive. octodns' equality is not part of this model.
- `YandexCloudCMSource.populate` returns nothing, so the model's `Populate` has no result.

## Findings

| source | as written | input that shows it | evidently intended | confidence | as-written member | corrected member |
|---|---|---|---|---|---|---|
| octodns_yandex/yandex360_provider.py:294 | `_apply` searches the ids of an existing record under `(type, hostname_from_fqdn(name))`, which is "" for the apex. The API lists apex entries as "@", and the same key is used again at lines 310 and 320. | A plan deleting the apex A record whose one entry is listed as `@` with id `1` makes no call. A plan updating it creates a second `@` entry instead of updating entry `1`. | Search under the name the entries are sent with, `name if name else '@'` (line 89). The record's own entries are then found, so a delete removes them and an update rewrites them. | not executed; follows from the listed name (line 89) and the search key (line 294) | Yandex360.ApexDeleteAsWritten | Yandex360.DeleteConverges |
