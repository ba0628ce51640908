/**
 * src/collect.rs: parsing `dig +answer` output line by line into records,
 * and `collect`, which repeats one query and counts every valid record in
 * the per-name, per-identity store `AllDomains`.
 */
module Collect {
  import opened Wrappers
  import opened Text
  import opened Dns
  import opened RecordWrappers

  // ---------------------------------------------------------------------
  // Errors (src/error.rs); the foreign error payloads are dropped.
  // ---------------------------------------------------------------------

  datatype RDataParseError = InvalidIpAddr | InvalidName(recordType: RecordType)

  datatype RecordParseError =
    | NotEnoughArguments
    | InvalidDomainName
    | InvalidTtl
    | InvalidRecord
    | InvalidRData(cause: RDataParseError)

  datatype QueryError = CommandError | StringConvertError | TrustDnsProtoError | RecordParse(cause: RecordParseError)

  /** How running `dig` can fail before any line is parsed. */
  datatype DigFailure = LaunchFailed | NotUtf8

  /** What one `dig` run yields: its standard output, or the failure. */
  type DigOutput = Result<string, DigFailure>

  // ---------------------------------------------------------------------
  // Parsing answer lines
  // ---------------------------------------------------------------------

  predicate IsAddressType(t: RecordType) {
    t == RecordType.A || t == RecordType.AAAA
  }

  predicate IsNameType(t: RecordType) {
    t == RecordType.ANAME || t == RecordType.CNAME || t == RecordType.NS || t == RecordType.PTR
  }

  /** The target of a name-valued rdata. */
  function Target(d: RData): Name
    requires d.ANAME? || d.CNAME? || d.NS? || d.PTR?
  {
    match d
    case ANAME(n) => n
    case CNAME(n) => n
    case NS(n) => n
    case PTR(n) => n
  }

  /** The payload of an opaque rdata. */
  function Payload(d: RData): seq<byte>
    requires d.Null? || d.Unknown?
  {
    if d.Null? then d.bytes else d.rdata
  }

  /** A name rdata of type `t`, or `InvalidName(t)`. */
  function NameRData(p: Parsers, text: string, t: RecordType): Result<RData, RDataParseError>
    requires IsNameType(t)
  {
    match p.nameRelaxed(text)
    case None => Failure(InvalidName(t))
    case Some(n) =>
      Success(
        if t == RecordType.ANAME then RData.ANAME(n)
        else if t == RecordType.CNAME then RData.CNAME(n)
        else if t == RecordType.NS then RData.NS(n)
        else RData.PTR(n))
  }

  /** `parse_record_data`: the rdata text read according to the record type. */
  function ParseRecordData(p: Parsers, text: string, t: RecordType): (r: Result<RData, RDataParseError>)
    // address types: the literal, not the requested type, picks A or AAAA
    ensures IsAddressType(t) ==>
      && (r.Success? <==> p.ipAddr(text).Some?)
      && (r.Failure? ==> r.error == InvalidIpAddr)
      && (r.Success? && p.ipAddr(text).value.V4? ==> r.value == RData.A(p.ipAddr(text).value.v4))
      && (r.Success? && p.ipAddr(text).value.V6? ==> r.value == RData.AAAA(p.ipAddr(text).value.v6))
    // name types fail only with InvalidName tagged with the type
    ensures IsNameType(t) ==>
      && (r.Success? <==> p.nameRelaxed(text).Some?)
      && (r.Failure? ==> r.error == InvalidName(t))
      && (r.Success? ==> RDataType(r.value) == t && Target(r.value) == p.nameRelaxed(text).value)
    // every other type keeps the raw bytes and never fails
    ensures !IsAddressType(t) && !IsNameType(t) ==>
      && r.Success?
      && (r.value.Null? <==> t == RecordType.NULL)
      && (r.value.Unknown? <==> t != RecordType.NULL)
      && Payload(r.value) == Utf8(text)
    // the numeric type is kept, except that address literals pick their own
    ensures r.Success? && !IsAddressType(t) ==> TypeCode(RDataType(r.value)) == TypeCode(t)
    ensures r.Success? && IsAddressType(t) ==> IsAddressType(RDataType(r.value))
  {
    match t
    case A | AAAA =>
      (match p.ipAddr(text)
       case None => Failure(InvalidIpAddr)
       case Some(ip) =>
         Success(match ip
                 case V4(a) => RData.A(a)
                 case V6(a) => RData.AAAA(a)))
    case ANAME | CNAME | NS | PTR => NameRData(p, text, t)
    case NULL => Success(RData.Null(Utf8(text)))
    case Unknown(code) => Success(RData.Unknown(code, Utf8(text)))
    case Other(_) => Success(RData.Unknown(TypeCode(t), Utf8(text)))
  }

  /** Whether the requested type is A or AAAA makes no difference: the literal decides. */
  lemma AddressTypesInterchangeable(p: Parsers, text: string)
    ensures ParseRecordData(p, text, RecordType.A) == ParseRecordData(p, text, RecordType.AAAA)
  {
  }

  /**
   * The mapping `query` applies to each output line: exactly five
   * whitespace-separated fields `name ttl class type rdata`; then the name,
   * the TTL, the type and the rdata are checked in that order and the first
   * failure is returned. The class field is never read.
   */
  function ParseAnswerLine(p: Parsers, line: string): (r: Result<Record, RecordParseError>)
    ensures var fs := SplitAsciiWhitespace(line);
      && (r == Failure(NotEnoughArguments) <==> |fs| != 5)
      && (r == Failure(InvalidDomainName) <==> |fs| == 5 && p.nameRelaxed(fs[0]).None?)
      && (r == Failure(InvalidTtl) <==>
            |fs| == 5 && p.nameRelaxed(fs[0]).Some? && ParseU32(fs[1]).None?)
      && (r == Failure(InvalidRecord) <==>
            |fs| == 5 && p.nameRelaxed(fs[0]).Some? && ParseU32(fs[1]).Some? && p.recordType(fs[3]).None?)
      && (r.Failure? && r.error.InvalidRData? <==>
            && |fs| == 5 && p.nameRelaxed(fs[0]).Some? && ParseU32(fs[1]).Some? && p.recordType(fs[3]).Some?
            && ParseRecordData(p, fs[4], p.recordType(fs[3]).value).Failure?)
      && (r.Success? ==>
            && r.value.name == p.nameRelaxed(fs[0]).value
            && r.value.ttl == ParseU32(fs[1]).value
            && r.value.dnsClass == IN
            && r.value.rdata == ParseRecordData(p, fs[4], p.recordType(fs[3]).value).value
            && r.value.rrType == RDataType(r.value.rdata))
  {
    var fs := SplitAsciiWhitespace(line);
    if |fs| != 5 then Failure(NotEnoughArguments)
    else
      match p.nameRelaxed(fs[0])
      case None => Failure(InvalidDomainName)
      case Some(name) =>
        match ParseU32(fs[1])
        case None => Failure(InvalidTtl)
        case Some(ttl) =>
          match p.recordType(fs[3])
          case None => Failure(InvalidRecord)
          case Some(t) =>
            match ParseRecordData(p, fs[4], t)
            case Failure(e) => Failure(InvalidRData(e))
            case Success(d) => Success(FromRData(name, ttl, d))
  }

  /**
   * A line of any other number of fields than five is rejected, whatever
   * the fields say and however they are spaced (tabs, several blanks).
   */
  lemma {:induction false} WrongFieldCountRejected(p: Parsers, gaps: seq<string>, fields: seq<string>)
    requires IsLayout(gaps, fields) && |fields| != 5
    ensures ParseAnswerLine(p, Spaced(gaps, fields)) == Failure(NotEnoughArguments)
  {
    SplitLayoutRoundTrip(gaps, fields);
  }

  /** An rdata written with whitespace inside splits into extra fields, so the line is rejected. */
  lemma {:induction false} SpacedRDataRejected(p: Parsers, gaps: seq<string>, head: seq<string>, rdataWords: seq<string>)
    requires |head| == 4 && |rdataWords| >= 2
    requires IsLayout(gaps, head + rdataWords)
    ensures ParseAnswerLine(p, Spaced(gaps, head + rdataWords)) == Failure(NotEnoughArguments)
  {
    WrongFieldCountRejected(p, gaps, head + rdataWords);
  }

  /** The class field (the third) does not influence the result, whatever the spacing. */
  lemma {:induction false} ClassFieldIgnored(p: Parsers, gaps: seq<string>, fields: seq<string>, dnsClass: string)
    requires IsLayout(gaps, fields) && |fields| == 5 && IsWord(dnsClass)
    ensures ParseAnswerLine(p, Spaced(gaps, fields)) == ParseAnswerLine(p, Spaced(gaps, fields[2 := dnsClass]))
  {
    var other := fields[2 := dnsClass];
    assert IsLayout(gaps, other);
    SplitLayoutRoundTrip(gaps, fields);
    SplitLayoutRoundTrip(gaps, other);
  }

  /** `result.lines().map(...)`: one result per output line, in line order. */
  function ParseAnswers(p: Parsers, text: string): (rs: seq<Result<Record, RecordParseError>>)
  {
    var ls := Lines(text);
    seq(|ls|, i requires 0 <= i < |ls| => ParseAnswerLine(p, ls[i]))
  }

  /**
   * A bad line costs only its own result: replacing one line of the output
   * changes the result at that position and nowhere else.
   */
  lemma {:induction false} ParseFaultIsolation(p: Parsers, ls: seq<string>, i: nat, other: string)
    requires forall j :: 0 <= j < |ls| ==> IsPlainLine(ls[j])
    requires i < |ls| && IsPlainLine(other)
    ensures var before := ParseAnswers(p, JoinLines(ls));
      var after := ParseAnswers(p, JoinLines(ls[i := other]));
      && |before| == |after| == |ls|
      && after[i] == ParseAnswerLine(p, other)
      && before[i] == ParseAnswerLine(p, ls[i])
      && forall j :: 0 <= j < |ls| && j != i ==> after[j] == before[j]
  {
    LinesJoinRoundTrip(ls);
    var ls' := ls[i := other];
    assert forall j :: 0 <= j < |ls'| ==> IsPlainLine(ls'[j]);
    LinesJoinRoundTrip(ls');
  }

  /** Whether every domain of the batch passes `Name::from_str_relaxed`. */
  predicate AllNamesEncode(p: Parsers, names: seq<string>) {
    forall i :: 0 <= i < |names| ==> p.nameRelaxed(names[i]).Some?
  }

  /**
   * `query`, with the `dig` run given by its outcome: the domains are
   * encoded first, then the run's failure is reported, and otherwise every
   * output line is parsed on its own.
   */
  function Query(p: Parsers, names: seq<string>, output: DigOutput): (r: Result<seq<Result<Record, RecordParseError>>, QueryError>)
    ensures r.Success? <==> AllNamesEncode(p, names) && output.Success?
    ensures r.Failure? ==> !r.error.RecordParse?
    ensures !AllNamesEncode(p, names) ==> r == Failure(TrustDnsProtoError)
    ensures r.Success? ==> r.value == ParseAnswers(p, output.value)
    ensures r.Success? ==> |r.value| == |Lines(output.value)|
  {
    if !AllNamesEncode(p, names) then Failure(TrustDnsProtoError)
    else
      match output
      case Failure(LaunchFailed) => Failure(CommandError)
      case Failure(NotUtf8) => Failure(StringConvertError)
      case Success(text) => Success(ParseAnswers(p, text))
  }

  // ---------------------------------------------------------------------
  // The store: AllDomains = name -> identity -> DomainStat
  // ---------------------------------------------------------------------

  /** How often one identity was seen, and with which TTLs. */
  datatype DomainStat = DomainStat(counts: nat, ttls: set<u32>)

  type Answers = map<Identity, DomainStat>

  type Store = map<Name, Answers>

  /** The inner map of a name, empty when the name has none. */
  function AnswersAt(m: Store, n: Name): Answers
  {
    if n in m then m[n] else map[]
  }

  /** The stat of an identity under a name, `DomainStat::default()` when absent. */
  function StatOf(m: Store, n: Name, id: Identity): DomainStat
  {
    var a := AnswersAt(m, n);
    if id in a then a[id] else DomainStat(0, {})
  }

  /**
   * The store invariant that `collect` keeps: no name has an empty inner map,
   * every stat was counted at least once, and no stat has more TTLs than counts.
   */
  ghost predicate WellFormed(m: Store) {
    forall n :: n in m ==>
      && m[n] != map[]
      && forall id :: id in m[n] ==> 1 <= |m[n][id].ttls| <= m[n][id].counts
  }

  /**
   * One valid record entered in the store: the name's inner map and the
   * identity's stat are created when absent, the count rises by one and the
   * TTL joins the TTL set; nothing else changes.
   */
  function Observe(m: Store, rec: Record): (m': Store)
    ensures m'.Keys == m.Keys + {rec.name}
    ensures m'[rec.name].Keys == AnswersAt(m, rec.name).Keys + {Key(rec)}
    ensures StatOf(m', rec.name, Key(rec)).counts == StatOf(m, rec.name, Key(rec)).counts + 1
    ensures StatOf(m', rec.name, Key(rec)).ttls == StatOf(m, rec.name, Key(rec)).ttls + {rec.ttl}
    ensures m'[rec.name] - {Key(rec)} == AnswersAt(m, rec.name) - {Key(rec)}
    ensures forall n :: n in m && n != rec.name ==> m'[n] == m[n]
  {
    var answers := AnswersAt(m, rec.name);
    var id := Key(rec);
    var stat := if id in answers then answers[id] else DomainStat(0, {});
    m[rec.name := answers[id := DomainStat(stat.counts + 1, stat.ttls + {rec.ttl})]]
  }

  /** The records entered one after the other, first to last. */
  function ObserveAll(m: Store, rs: seq<Record>): Store
  {
    if rs == [] then m else Observe(ObserveAll(m, rs[..|rs| - 1]), rs[|rs| - 1])
  }

  /** How many of `rs` are records of name `n` with identity `id`. */
  function Occurrences(rs: seq<Record>, n: Name, id: Identity): nat
  {
    if rs == [] then 0
    else Occurrences(rs[..|rs| - 1], n, id) + (if rs[|rs| - 1].name == n && Key(rs[|rs| - 1]) == id then 1 else 0)
  }

  /** The TTLs of the records of `rs` with name `n` and identity `id`. */
  function TtlsOf(rs: seq<Record>, n: Name, id: Identity): set<u32>
  {
    if rs == [] then {}
    else TtlsOf(rs[..|rs| - 1], n, id) + (if rs[|rs| - 1].name == n && Key(rs[|rs| - 1]) == id then {rs[|rs| - 1].ttl} else {})
  }

  lemma ObserveWellFormed(m: Store, rec: Record)
    requires WellFormed(m)
    ensures WellFormed(Observe(m, rec))
  {
    var m': Store := Observe(m, rec);
    forall n | n in m'
      ensures m'[n] != map[]
      ensures forall id: Identity :: id in m'[n] ==> 1 <= |m'[n][id].ttls| <= m'[n][id].counts
    {
      if n == rec.name {
        assert Key(rec) in m'[n];
        forall id: Identity | id in m'[n] ensures 1 <= |m'[n][id].ttls| <= m'[n][id].counts {
          if id == Key(rec) {
            var old_ := StatOf(m, rec.name, id);
            assert m'[n][id] == StatOf(m', rec.name, id);
            assert |old_.ttls + {rec.ttl}| <= |old_.ttls| + 1;
            assert old_.counts == 0 ==> old_.ttls == {};
          } else {
            assert m'[n][id] == (m'[n] - {Key(rec)})[id];
          }
        }
      }
    }
  }

  /** Every store built by observations keeps the store invariant. */
  lemma {:induction false} ObserveAllWellFormed(m: Store, rs: seq<Record>)
    requires WellFormed(m)
    ensures WellFormed(ObserveAll(m, rs))
  {
    if rs != [] {
      ObserveAllWellFormed(m, rs[..|rs| - 1]);
      ObserveWellFormed(ObserveAll(m, rs[..|rs| - 1]), rs[|rs| - 1]);
    }
  }

  lemma ObserveStat(m: Store, rec: Record, n: Name, id: Identity)
    ensures StatOf(Observe(m, rec), n, id) ==
      if n == rec.name && id == Key(rec)
      then DomainStat(StatOf(m, n, id).counts + 1, StatOf(m, n, id).ttls + {rec.ttl})
      else StatOf(m, n, id)
  {
    var m' := Observe(m, rec);
    if n == rec.name && id != Key(rec) {
      if id in m'[n] {
        assert m'[n][id] == (m'[n] - {Key(rec)})[id];
      } else {
        assert id !in (AnswersAt(m, n) - {Key(rec)});
      }
    }
  }

  /**
   * After observing `rs`, each stat counts exactly the observations of its
   * name and identity and holds exactly their TTLs (on top of what it had).
   */
  lemma {:induction false} ObserveAllStat(m: Store, rs: seq<Record>, n: Name, id: Identity)
    ensures StatOf(ObserveAll(m, rs), n, id) ==
      DomainStat(StatOf(m, n, id).counts + Occurrences(rs, n, id), StatOf(m, n, id).ttls + TtlsOf(rs, n, id))
  {
    if rs != [] {
      var init := rs[..|rs| - 1];
      ObserveAllStat(m, init, n, id);
      ObserveStat(ObserveAll(m, init), rs[|rs| - 1], n, id);
    }
  }

  /** The owner names of `rs`. */
  function NamesOf(rs: seq<Record>): (ns: set<Name>)
    ensures forall i :: 0 <= i < |rs| ==> rs[i].name in ns
    ensures forall n :: n in ns ==> exists i :: 0 <= i < |rs| && rs[i].name == n
  {
    if rs == [] then {} else NamesOf(rs[..|rs| - 1]) + {rs[|rs| - 1].name}
  }

  /** The store's names are the names it had plus the names of the observed records. */
  lemma {:induction false} ObserveAllNames(m: Store, rs: seq<Record>)
    ensures ObserveAll(m, rs).Keys == m.Keys + NamesOf(rs)
  {
    if rs != [] {
      ObserveAllNames(m, rs[..|rs| - 1]);
    }
  }

  /** Records that differ only in TTL share one stat: two of them count 2 and keep both TTLs. */
  lemma {:induction false} TtlVariantsCollapse(r: Record, ttl: u32)
    ensures var m := ObserveAll(map[], [r, r.(ttl := ttl)]);
      && m.Keys == {r.name}
      && m[r.name].Keys == {Key(r)}
      && m[r.name][Key(r)] == DomainStat(2, {r.ttl, ttl})
  {
    var r' := r.(ttl := ttl);
    assert Key(r') == Key(r);
    var m0: Store := map[];
    assert [r][..0] == [];
    assert ObserveAll(m0, []) == m0;
    var m1 := Observe(m0, r);
    assert ObserveAll(m0, [r]) == m1;
    assert [r, r'][..1] == [r];
    var m2 := Observe(m1, r');
    assert ObserveAll(m0, [r, r']) == m2;
  }

  // ---------------------------------------------------------------------
  // Totals
  // ---------------------------------------------------------------------

  ghost function SumValues<K>(m: map<K, nat>): nat
    decreases |m|
  {
    if m == map[] then 0
    else
      var k :| k in m;
      m[k] + SumValues(m - {k})
  }

  lemma {:induction false} SumValuesRemove<K>(m: map<K, nat>, k: K)
    requires k in m
    ensures SumValues(m) == m[k] + SumValues(m - {k})
    decreases |m|
  {
    var j :| j in m && SumValues(m) == m[j] + SumValues(m - {j});
    if j != k {
      var mj := m - {j};
      var mk := m - {k};
      assert k in mj && j in mk;
      assert |mj| < |m|;
      assert |mk| < |m|;
      SumValuesRemove(mj, k);
      SumValuesRemove(mk, j);
      assert mj - {k} == mk - {j};
    }
  }

  lemma SumValuesUpdate<K>(m: map<K, nat>, k: K, v: nat)
    ensures SumValues(m[k := v]) + (if k in m then m[k] else 0) == SumValues(m) + v
  {
    var m' := m[k := v];
    SumValuesRemove(m', k);
    if k in m {
      SumValuesRemove(m, k);
      assert m' - {k} == m - {k};
    } else {
      assert m' - {k} == m;
    }
  }

  /** The sum of the counts under one name. */
  ghost function AnswersTotal(a: Answers): nat
  {
    SumValues(map id | id in a :: a[id].counts)
  }

  /** The sum of all counts in the store. */
  ghost function Total(m: Store): nat
  {
    SumValues(map n | n in m :: AnswersTotal(m[n]))
  }

  lemma AnswersTotalUpdate(a: Answers, id: Identity, stat: DomainStat)
    ensures AnswersTotal(a[id := stat]) + (if id in a then a[id].counts else 0) == AnswersTotal(a) + stat.counts
  {
    var counts := map i | i in a :: a[i].counts;
    var a' := a[id := stat];
    assert (map i | i in a' :: a'[i].counts) == counts[id := stat.counts];
    SumValuesUpdate(counts, id, stat.counts);
  }

  lemma TotalUpdate(m: Store, n: Name, a: Answers)
    ensures Total(m[n := a]) + AnswersTotal(AnswersAt(m, n)) == Total(m) + AnswersTotal(a)
  {
    var outer := map k | k in m :: AnswersTotal(m[k]);
    var m' := m[n := a];
    assert (map k | k in m' :: AnswersTotal(m'[k])) == outer[n := AnswersTotal(a)];
    SumValuesUpdate(outer, n, AnswersTotal(a));
    if n !in m {
      var empty: Answers := map[];
      assert (map i | i in empty :: empty[i].counts) == map[];
    }
  }

  /** One observation adds exactly one to the store's total count. */
  lemma ObserveTotal(m: Store, rec: Record)
    ensures Total(Observe(m, rec)) == Total(m) + 1
  {
    var answers := AnswersAt(m, rec.name);
    var id := Key(rec);
    var stat := if id in answers then answers[id] else DomainStat(0, {});
    var stat' := DomainStat(stat.counts + 1, stat.ttls + {rec.ttl});
    var answers' := answers[id := stat'];
    assert Observe(m, rec) == m[rec.name := answers'];
    AnswersTotalUpdate(answers, id, stat');
    assert AnswersTotal(answers') == AnswersTotal(answers) + 1;
    TotalUpdate(m, rec.name, answers');
  }

  /** Observing `rs` adds exactly `|rs|` to the store's total count. */
  lemma {:induction false} ObserveAllTotal(m: Store, rs: seq<Record>)
    ensures Total(ObserveAll(m, rs)) == Total(m) + |rs|
  {
    if rs != [] {
      ObserveAllTotal(m, rs[..|rs| - 1]);
      ObserveTotal(ObserveAll(m, rs[..|rs| - 1]), rs[|rs| - 1]);
    }
  }

  // ---------------------------------------------------------------------
  // collect
  // ---------------------------------------------------------------------

  /** The results of one repeat: the parsed lines, or nothing when the query failed. */
  function Responses(p: Parsers, names: seq<string>, output: DigOutput): seq<Result<Record, RecordParseError>>
  {
    match Query(p, names, output)
    case Success(rs) => rs
    case Failure(_) => []
  }

  /** The records of the results that parsed, in order. */
  function ValidIn(results: seq<Result<Record, RecordParseError>>): (rs: seq<Record>)
    ensures |rs| <= |results|
  {
    if results == [] then []
    else
      var last := results[|results| - 1];
      ValidIn(results[..|results| - 1]) + (if last.Success? then [last.value] else [])
  }

  /** The parsed lines of every repeat, an empty list for a repeat whose query failed. */
  function Rounds(p: Parsers, names: seq<string>, outputs: seq<DigOutput>): (rounds: seq<seq<Result<Record, RecordParseError>>>)
    ensures |rounds| == |outputs|
    ensures forall r :: 0 <= r < |outputs| ==>
      && (Query(p, names, outputs[r]).Failure? ==> rounds[r] == [])
      && (Query(p, names, outputs[r]).Success? ==> rounds[r] == ParseAnswers(p, outputs[r].value))
  {
    seq(|outputs|, r requires 0 <= r < |outputs| => Responses(p, names, outputs[r]))
  }

  /** The valid records of all rounds, round by round. */
  function ValidOf(rounds: seq<seq<Result<Record, RecordParseError>>>): seq<Record>
  {
    if rounds == [] then [] else ValidOf(rounds[..|rounds| - 1]) + ValidIn(rounds[|rounds| - 1])
  }

  /** The number of answer lines of all rounds. */
  function LineCount(rounds: seq<seq<Result<Record, RecordParseError>>>): nat
  {
    if rounds == [] then 0 else LineCount(rounds[..|rounds| - 1]) + |rounds[|rounds| - 1]|
  }

  /** The store after `collect`: every valid record of every repeat observed once. */
  function CollectSpec(m: Store, p: Parsers, names: seq<string>, outputs: seq<DigOutput>): Store
  {
    ObserveAll(m, ValidOf(Rounds(p, names, outputs)))
  }

  /** Fewer records are valid than lines were answered. */
  lemma {:induction false} ValidAtMostLines(rounds: seq<seq<Result<Record, RecordParseError>>>)
    ensures |ValidOf(rounds)| <= LineCount(rounds)
  {
    if rounds != [] {
      ValidAtMostLines(rounds[..|rounds| - 1]);
    }
  }

  lemma {:induction false} RoundsAppend(a: seq<seq<Result<Record, RecordParseError>>>, b: seq<seq<Result<Record, RecordParseError>>>)
    ensures ValidOf(a + b) == ValidOf(a) + ValidOf(b)
    ensures LineCount(a + b) == LineCount(a) + LineCount(b)
    decreases |b|
  {
    if b == [] {
      assert a + b == a;
    } else {
      var b', last := b[..|b| - 1], b[|b| - 1];
      assert (a + b)[..|a + b| - 1] == a + b';
      assert (a + b)[|a + b| - 1] == last;
      RoundsAppend(a, b');
      assert ValidOf(a + b) == ValidOf(a + b') + ValidIn(last);
      assert ValidOf(b) == ValidOf(b') + ValidIn(last);
      assert ValidOf(a) + ValidOf(b') + ValidIn(last) == ValidOf(a) + (ValidOf(b') + ValidIn(last));
      assert LineCount(a + b) == LineCount(a + b') + |last|;
    }
  }

  lemma {:induction false} DropEmptyRound(rounds: seq<seq<Result<Record, RecordParseError>>>, i: nat)
    requires i < |rounds| && rounds[i] == []
    ensures ValidOf(rounds) == ValidOf(rounds[..i] + rounds[i + 1..])
    ensures LineCount(rounds) == LineCount(rounds[..i] + rounds[i + 1..])
  {
    assert rounds == rounds[..i] + [rounds[i]] + rounds[i + 1..];
    RoundsAppend(rounds[..i] + [rounds[i]], rounds[i + 1..]);
    RoundsAppend(rounds[..i], [rounds[i]]);
    RoundsAppend(rounds[..i], rounds[i + 1..]);
    assert [rounds[i]][..0] == [];
  }

  /** A repeat whose query failed contributes no response and no record. */
  lemma {:induction false} FailedRepeatAddsNothing(p: Parsers, names: seq<string>, outputs: seq<DigOutput>, i: nat)
    requires i < |outputs| && Query(p, names, outputs[i]).Failure?
    ensures var without := outputs[..i] + outputs[i + 1..];
      && ValidOf(Rounds(p, names, outputs)) == ValidOf(Rounds(p, names, without))
      && LineCount(Rounds(p, names, outputs)) == LineCount(Rounds(p, names, without))
  {
    var rounds := Rounds(p, names, outputs);
    var without := outputs[..i] + outputs[i + 1..];
    var rest := Rounds(p, names, without);
    assert |rest| == |rounds| - 1;
    forall j | 0 <= j < |rest| ensures rest[j] == (rounds[..i] + rounds[i + 1..])[j] {
      if j < i {
        assert without[j] == outputs[j];
      } else {
        assert without[j] == outputs[j + 1];
      }
    }
    assert rest == rounds[..i] + rounds[i + 1..];
    DropEmptyRound(rounds, i);
  }

  /** `AllDomains`, the store a worker fills in place. */
  class AllDomains {
    var entries: Store

    ghost predicate Valid()
      reads this
    {
      WellFormed(entries)
    }

    /** `AllDomains::new()`. */
    constructor ()
      ensures entries == map[] && Valid()
    {
      entries := map[];
    }
  }

  lemma {:induction false} ObserveAllAppend(m: Store, a: seq<Record>, b: seq<Record>)
    ensures ObserveAll(m, a + b) == ObserveAll(ObserveAll(m, a), b)
    decreases |b|
  {
    if b == [] {
      assert a + b == a;
    } else {
      assert (a + b)[..|a + b| - 1] == a + b[..|b| - 1];
      ObserveAllAppend(m, a, b[..|b| - 1]);
    }
  }

  /** The `for_each` of `collect`: every valid record of one response entered in the store. */
  method ObserveResponse(results: seq<Result<Record, RecordParseError>>, store: AllDomains) returns (added: nat)
    modifies store
    ensures store.entries == ObserveAll(old(store.entries), ValidIn(results))
    ensures added == |ValidIn(results)|
  {
    added := 0;
    assert results[..0] == [];
    for j := 0 to |results|
      invariant store.entries == ObserveAll(old(store.entries), ValidIn(results[..j]))
      invariant added == |ValidIn(results[..j])|
    {
      ghost var seen := ValidIn(results[..j]);
      ValidInStep(results, j);
      if results[j].Success? {
        var rec := results[j].value;
        ObserveAllSnoc(old(store.entries), seen, rec);
        store.entries := Observe(store.entries, rec);
        added := added + 1;
        assert ValidIn(results[..j + 1]) == seen + [rec];
      } else {
        assert ValidIn(results[..j + 1]) == seen + [];
        assert seen + [] == seen;
      }
    }
    assert results[..|results|] == results;
  }

  /** One more line adds its record, if it has one, to the valid records. */
  lemma ValidInStep(results: seq<Result<Record, RecordParseError>>, j: nat)
    requires j < |results|
    ensures ValidIn(results[..j + 1]) == ValidIn(results[..j]) + (if results[j].Success? then [results[j].value] else [])
  {
    assert results[..j + 1][..j] == results[..j];
  }

  /** Entering one more record is one more `Observe`. */
  lemma ObserveAllSnoc(m: Store, rs: seq<Record>, rec: Record)
    ensures ObserveAll(m, rs + [rec]) == Observe(ObserveAll(m, rs), rec)
  {
    assert (rs + [rec])[..|rs|] == rs;
  }

  /** One more repeat adds its valid records and its lines to the running totals. */
  lemma RoundsStep(rounds: seq<seq<Result<Record, RecordParseError>>>, r: nat)
    requires r < |rounds|
    ensures ValidOf(rounds[..r + 1]) == ValidOf(rounds[..r]) + ValidIn(rounds[r])
    ensures LineCount(rounds[..r + 1]) == LineCount(rounds[..r]) + |rounds[r]|
  {
    assert rounds[..r + 1][..r] == rounds[..r];
  }

  /** The number of queries `collect` reports: every domain of the batch, every repeat. */
  function QueryCount(batchSize: nat, repeat: nat): nat
  {
    batchSize * repeat
  }

  /**
   * `collect`: `repeat` queries for the same batch, `outputs[r]` being what
   * `dig` gave on the r-th. Every valid record updates the store in place;
   * the three counters are the ones the source reports.
   */
  method Collect(p: Parsers, names: seq<string>, repeat: nat, outputs: seq<DigOutput>, store: AllDomains)
    returns (queries: nat, responses: nat, valid: nat)
    requires |outputs| == repeat
    requires store.Valid()
    modifies store
    ensures store.Valid()
    ensures store.entries == CollectSpec(old(store.entries), p, names, outputs)
    ensures queries == |names| * repeat
    ensures responses == LineCount(Rounds(p, names, outputs))
    ensures valid == |ValidOf(Rounds(p, names, outputs))| && valid <= responses
    ensures Total(store.entries) == Total(old(store.entries)) + valid
  {
    ghost var m0 := store.entries;
    ghost var rounds := Rounds(p, names, outputs);
    responses, valid := 0, 0;
    for r := 0 to repeat
      invariant store.entries == ObserveAll(m0, ValidOf(rounds[..r]))
      invariant responses == LineCount(rounds[..r])
      invariant valid == |ValidOf(rounds[..r])|
    {
      ghost var done := ValidOf(rounds[..r]);
      RoundsStep(rounds, r);
      var response := Query(p, names, outputs[r]);
      if response.Success? {
        var results := response.value;
        assert results == rounds[r];
        responses := responses + |results|;
        var added := ObserveResponse(results, store);
        valid := valid + added;
        ObserveAllAppend(m0, done, ValidIn(results));
      } else {
        assert rounds[r] == [];
        assert done + ValidIn(rounds[r]) == done;
      }
    }
    assert rounds[..repeat] == rounds;
    queries := QueryCount(|names|, repeat);
    ValidAtMostLines(rounds);
    ObserveAllTotal(m0, ValidOf(rounds));
    ObserveAllWellFormed(m0, ValidOf(rounds));
  }
}
