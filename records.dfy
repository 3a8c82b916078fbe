/** The canonical (octodns) side of the model: a record as octodns holds
    it, the changes of a plan, and the zone the sources populate. Record
    validation, `Record.new` and octodns' own checks in `add_record` belong
    to octodns and are not modelled: a record is the value the providers
    build. */
module Records {

  /** One typed value of a record: an address, target or text (`Plain`),
      or the structured values of MX (section 3.3.9 of RFC 1035), SRV
      (RFC 2782) and CAA (section 4.1 of RFC 8659). */
  datatype Value =
    | Plain(text: string)
    | MxValue(preference: int, exchange: string)
    | SrvValue(priority: int, weight: int, port: int, target: string)
    | CaaValue(flags: int, tag: string, value: string)

  /** The value part of a record's data: octodns keeps a single value under
      `value` and several (or none) under `values`. */
  datatype RecordData = Single(value: Value) | Multi(values: seq<Value>)

  /** A record relative to its zone ("" is the apex). */
  datatype Record = Record(name: string, rtype: string, ttl: int, data: RecordData)

  function ValuesOf(d: RecordData): (vs: seq<Value>)
    ensures d.Single? ==> vs == [d.value]
    ensures d.Multi? ==> vs == d.values
  {
    match d
    case Single(v) => [v]
    case Multi(vs) => vs
  }

  /** The data a decoder gives a list of values: `value` for exactly one
      value, `values` otherwise. */
  function DataOf(vs: seq<Value>): (d: RecordData)
    ensures ValuesOf(d) == vs
    ensures d.Single? <==> |vs| == 1
  {
    if |vs| == 1 then Single(vs[0]) else Multi(vs)
  }

  /** One element of an octodns plan: `existing` is what the provider has,
      `desired` what the configuration wants. */
  datatype Change =
    | Create(desired: Record)
    | Update(existing: Record, desired: Record)
    | Delete(existing: Record)

  /** The octodns zone a source populates; `add_record` appends. */
  class Zone {
    const name: string
    var records: seq<Record>

    constructor (name: string, records: seq<Record>)
      ensures this.name == name && this.records == records
    {
      this.name := name;
      this.records := records;
    }

    method AddRecord(r: Record)
      modifies this
      ensures records == old(records) + [r]
    {
      records := records + [r];
    }
  }
}
