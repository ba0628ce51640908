/**
 * The trust_dns types the core builds records from: names, record types,
 * classes, addresses, rdata and records, plus the four parsers the core
 * borrows from trust_dns and the Rust standard library. Those parsers are
 * not reimplemented: they are given as total functions to `Option`, `None`
 * standing for their `Err`.
 */
module Dns {
  import opened Wrappers
  import opened Text

  type u16 = x: int | 0 <= x < 0x1_0000

  /**
   * A domain name, standing for a trust_dns `Name` as a hash-map key: two
   * values are the same key exactly when they are equal here.
   */
  datatype Name = Name(text: string)

  /**
   * Record types. `Other(code)` is a type trust_dns knows by mnemonic
   * (MX, TXT, SOA, ...) that the parser gives no rule of its own;
   * `Unknown(code)` is trust_dns's own `RecordType::Unknown`.
   */
  datatype RecordType = A | AAAA | ANAME | CNAME | NS | NULL | PTR | Other(code: u16) | Unknown(code: u16)

  /** `u16::from(RecordType)`, the numeric type code of section 3.2.2 of RFC 1035. */
  function TypeCode(t: RecordType): u16
  {
    match t
    case A => 1
    case NS => 2
    case CNAME => 5
    case NULL => 10
    case PTR => 12
    case AAAA => 28
    case ANAME => 65305
    case Other(code) => code
    case Unknown(code) => code
  }

  datatype DnsClass = IN | CH | HS | NONE | ANY

  type Ipv4 = s: seq<byte> | |s| == 4 witness [0, 0, 0, 0]
  type Ipv6 = s: seq<u16> | |s| == 8 witness [0, 0, 0, 0, 0, 0, 0, 0]

  datatype IpAddr = V4(v4: Ipv4) | V6(v6: Ipv6)

  /** The rdata variants the parser can produce. */
  datatype RData =
    | A(address: Ipv4)
    | AAAA(address6: Ipv6)
    | ANAME(aname: Name)
    | CNAME(cname: Name)
    | NS(nsname: Name)
    | PTR(ptrname: Name)
    | Null(bytes: seq<byte>)
    | Unknown(code: u16, rdata: seq<byte>)

  /** `RData::to_record_type`. */
  function RDataType(d: RData): RecordType
  {
    match d
    case A(_) => RecordType.A
    case AAAA(_) => RecordType.AAAA
    case ANAME(_) => RecordType.ANAME
    case CNAME(_) => RecordType.CNAME
    case NS(_) => RecordType.NS
    case PTR(_) => RecordType.PTR
    case Null(_) => RecordType.NULL
    case Unknown(code, _) => RecordType.Unknown(code)
  }

  /** A resource record: owner name, type, class, TTL and rdata. */
  datatype Record = Record(name: Name, rrType: RecordType, dnsClass: DnsClass, ttl: u32, rdata: RData)

  /** `Record::from_rdata`: the type comes from the rdata and the class is IN. */
  function FromRData(name: Name, ttl: u32, rdata: RData): Record
  {
    Record(name, RDataType(rdata), IN, ttl, rdata)
  }

  /**
   * The parsers borrowed from trust_dns and std: `Name::from_str_relaxed`,
   * `Name::from_str` followed by `set_fqdn(true)`, `RecordType::from_str`
   * and `IpAddr::from_str`.
   */
  datatype Parsers = Parsers(
    nameRelaxed: string -> Option<Name>,
    nameFqdn: string -> Option<Name>,
    recordType: string -> Option<RecordType>,
    ipAddr: string -> Option<IpAddr>)

  /** A configured name server. */
  datatype NameServer = NameServer(name: string, host: string)
}
