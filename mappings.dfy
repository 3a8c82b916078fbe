/** The grouped record-set decoder of the Yandex Cloud DNS providers
    (octodns_yandex/mappings.py): a table from wire type to a single-value
    or multi-value handler, and `map_rset_to_octodns`, which looks the
    type up and builds the octodns record. */
module Mappings {
  import opened Common
  import opened Records

  /** A Yandex Cloud DNS record set: all values of one name and type, each
      as its presentation (rdata) text. */
  datatype RecordSet = RecordSet(name: string, rtype: string, ttl: int, data: seq<string>)

  /** `map_one(cls)` and `map_multiple(cls)`, remembering the octodns type
      tag of the record class they were built for. */
  datatype Handler = MapOne(recordType: string) | MapMultiple(recordType: string)

  /** The type tag of the provider's ANAME record class. The class lives in
      octodns_yandex/record.py, which is not part of this model. */
  const AnameType: string := "YandexCloudProvider/ANAME"

  /** The dispatch table, keyed by wire type. */
  const Handlers: map<string, Handler> := map[
    "A" := MapMultiple("A"),
    "AAAA" := MapMultiple("AAAA"),
    "CAA" := MapMultiple("CAA"),
    "CNAME" := MapOne("CNAME"),
    "ANAME" := MapOne(AnameType),
    "MX" := MapMultiple("MX"),
    "NS" := MapMultiple("NS"),
    "PTR" := MapMultiple("PTR"),
    "SRV" := MapMultiple("SRV"),
    "TXT" := MapMultiple("TXT")
  ]

  /** octodns' `parse_rdata_text` of the value class of the record class
      with the given type tag: an octodns internal, so a parameter. */
  type Parser = (string, string) -> Value

  /** `parse_rdata_texts`: every text parsed on its own, in order. */
  function ParseAll(parse: Parser, recordType: string, texts: seq<string>): (vs: seq<Value>)
    ensures |vs| == |texts|
    ensures forall i | 0 <= i < |texts| :: vs[i] == parse(recordType, texts[i])
    decreases |texts|
  {
    if texts == [] then [] else [parse(recordType, texts[0])] + ParseAll(parse, recordType, texts[1..])
  }

  /** The record data a handler builds from a record set (its `type`,
      `ttl` and `value`/`values`); `map_one` indexes `data[0]`, which
      raises on an empty record set. */
  function Handle(h: Handler, parse: Parser, rset: RecordSet): (r: Result<Record>)
    ensures r.Err? <==> h.MapOne? && |rset.data| == 0
    ensures r.Ok? ==> r.value.rtype == h.recordType && r.value.ttl == rset.ttl
  {
    match h
    case MapOne(t) =>
      if |rset.data| == 0 then Err(IndexOutOfRange)
      else Ok(Record(rset.name, t, rset.ttl, Single(parse(t, rset.data[0]))))
    case MapMultiple(t) =>
      Ok(Record(rset.name, t, rset.ttl, Multi(ParseAll(parse, t, rset.data))))
  }

  /** `map_rset_to_octodns`: a record set whose type has no handler raises
      'Unsupported record type'; otherwise the handler's data under the
      zone-relative name `hostname(rset.name)`. */
  function MapRecordSet(hostname: string -> string, parse: Parser, rset: RecordSet): (r: Result<Record>)
    ensures rset.rtype !in Handlers ==> r == Err(UnsupportedRecordType(rset.rtype))
    ensures r.Ok? ==> rset.rtype in Handlers && r.value.name == hostname(rset.name)
  {
    if rset.rtype !in Handlers then Err(UnsupportedRecordType(rset.rtype))
    else
      match Handle(Handlers[rset.rtype], parse, rset)
      case Err(e) => Err(e)
      case Ok(rec) => Ok(rec.(name := hostname(rset.name)))
  }

  /** The wire types the decoder accepts are exactly the ten table keys. */
  lemma SupportedTypes()
    ensures Handlers.Keys == {"A", "AAAA", "CAA", "CNAME", "ANAME", "MX", "NS", "PTR", "SRV", "TXT"}
  {
  }

  /** CNAME and ANAME keep only the first text, as `value`; the texts after
      it are ignored, and an empty record set raises. */
  lemma SingleValueTypes(hostname: string -> string, parse: Parser, rset: RecordSet)
    requires rset.rtype in {"CNAME", "ANAME"}
    ensures |rset.data| == 0 ==> MapRecordSet(hostname, parse, rset) == Err(IndexOutOfRange)
    ensures |rset.data| > 0 ==>
      && MapRecordSet(hostname, parse, rset) == MapRecordSet(hostname, parse, rset.(data := rset.data[..1]))
      && var t := if rset.rtype == "CNAME" then "CNAME" else AnameType;
         MapRecordSet(hostname, parse, rset)
           == Ok(Record(hostname(rset.name), t, rset.ttl, Single(parse(t, rset.data[0]))))
  {
  }

  /** Every other supported type parses all texts, in order, under `values`:
      the values of a record set whose texts are split in two are the values
      of the two halves, one after the other. */
  lemma {:induction false} MultiValueTypes(hostname: string -> string, parse: Parser, rset: RecordSet, k: nat)
    requires rset.rtype in Handlers && rset.rtype !in {"CNAME", "ANAME"}
    requires k <= |rset.data|
    ensures MapRecordSet(hostname, parse, rset).Ok?
    ensures MapRecordSet(hostname, parse, rset).value.data == Multi(ParseAll(parse, rset.rtype, rset.data))
    ensures var r := MapRecordSet(hostname, parse, rset).value;
      && r.rtype == rset.rtype && r.ttl == rset.ttl && r.data.Multi?
      && r.data.values
         == MapRecordSet(hostname, parse, rset.(data := rset.data[..k])).value.data.values
          + MapRecordSet(hostname, parse, rset.(data := rset.data[k..])).value.data.values
  {
    MultiDecodes(hostname, parse, rset);
    MultiDecodes(hostname, parse, rset.(data := rset.data[..k]));
    MultiDecodes(hostname, parse, rset.(data := rset.data[k..]));
    ParseAllSplit(parse, rset.rtype, rset.data, k);
  }

  /** Parsing texts split in two parses each half. */
  lemma ParseAllSplit(parse: Parser, recordType: string, texts: seq<string>, k: nat)
    requires k <= |texts|
    ensures ParseAll(parse, recordType, texts)
      == ParseAll(parse, recordType, texts[..k]) + ParseAll(parse, recordType, texts[k..])
  {
  }

  /** The record a multi-value type decodes to. */
  lemma MultiDecodes(hostname: string -> string, parse: Parser, rset: RecordSet)
    requires rset.rtype in Handlers && rset.rtype !in {"CNAME", "ANAME"}
    ensures MapRecordSet(hostname, parse, rset)
      == Ok(Record(hostname(rset.name), rset.rtype, rset.ttl, Multi(ParseAll(parse, rset.rtype, rset.data))))
  {
    assert Handlers[rset.rtype] == MapMultiple(rset.rtype);
  }
}
