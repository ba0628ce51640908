/**
 * `RecordWrapper`: a record used as a hash-map key whose equality and hash
 * leave the TTL out, so that observations of one record with different TTLs
 * land on one key.
 */
module RecordWrappers {
  import opened Text
  import opened Dns

  datatype RecordWrapper = RecordWrapper(record: Record)

  /** `RecordWrapper::new`. */
  function New(r: Record): RecordWrapper
  {
    RecordWrapper(r)
  }

  /** `RecordWrapper::unwrap`. */
  function Unwrap(w: RecordWrapper): Record
  {
    w.record
  }

  /** The part of a record that key comparison looks at: everything but the TTL. */
  datatype Identity = Identity(name: Name, rrType: RecordType, dnsClass: DnsClass, rdata: RData)

  function IdentityOf(w: RecordWrapper): Identity
  {
    Identity(w.record.name, w.record.rrType, w.record.dnsClass, w.record.rdata)
  }

  /** The key a record is counted under in the store. */
  function Key(r: Record): Identity
  {
    IdentityOf(New(r))
  }

  /** `PartialEq::eq`: name, type, class and rdata agree; the TTL is skipped. */
  predicate Eq(a: RecordWrapper, b: RecordWrapper): (r: bool)
    ensures r <==> IdentityOf(a) == IdentityOf(b)
    ensures r <==> Key(Unwrap(a)) == Key(Unwrap(b))
  {
    && a.record.name == b.record.name
    && a.record.rrType == b.record.rrType
    && a.record.dnsClass == b.record.dnsClass
    && a.record.rdata == b.record.rdata
  }

  /** What `Hash::hash` feeds the hasher: name, type, class and the wire bytes of the rdata. */
  datatype HashInput = HashInput(name: Name, rrType: RecordType, dnsClass: DnsClass, rdataBytes: seq<byte>)

  /** `emit` is trust_dns's wire encoder for rdata (`RData::emit`). */
  function HashFeed(emit: RData -> seq<byte>, w: RecordWrapper): HashInput
  {
    HashInput(w.record.name, w.record.rrType, w.record.dnsClass, emit(w.record.rdata))
  }

  /** Unwrapping a wrapper gives back the whole record, TTL included. */
  lemma UnwrapNew(r: Record)
    ensures Unwrap(New(r)) == r
  {
  }

  /** Records that differ only in TTL are equal keys and feed the hasher identical data. */
  lemma TtlIgnored(emit: RData -> seq<byte>, r: Record, ttl: u32)
    ensures Eq(New(r), New(r.(ttl := ttl)))
    ensures HashFeed(emit, New(r)) == HashFeed(emit, New(r.(ttl := ttl)))
  {
  }

  /** Key equality is an equivalence relation. */
  lemma EqIsEquivalence(a: RecordWrapper, b: RecordWrapper, c: RecordWrapper)
    ensures Eq(a, a)
    ensures Eq(a, b) ==> Eq(b, a)
    ensures Eq(a, b) && Eq(b, c) ==> Eq(a, c)
  {
  }

  /** Equal keys hash alike, whatever the rdata encoder, as long as it is a function of the rdata. */
  lemma HashConsistentWithEq(emit: RData -> seq<byte>, a: RecordWrapper, b: RecordWrapper)
    requires Eq(a, b)
    ensures HashFeed(emit, a) == HashFeed(emit, b)
  {
  }
}
