/**
 * app/reader.rs: the analysis side. The snapshots in one server's directory
 * are merged into one store, the top domains are counted bin by bin
 * against every server's store, and the owner-name sets of the servers are
 * compared by union and by two- and three-way intersection.
 */
module Reader {
  import opened Wrappers
  import opened Text
  import opened Dns
  import opened RecordWrappers
  import opened Collect
  import opened Batching
  import opened Rows

  /** One entry of `all_ns`: a server's directory name and its merged store. */
  datatype ServerData = ServerData(name: string, domains: Store)

  // ---------------------------------------------------------------------
  // DnsAnswers
  // ---------------------------------------------------------------------

  /**
   * `DnsAnswers::eq`: two answer sets (sets of wrapped records, so TTLs
   * aside) count as equal when their intersection is not empty.
   */
  predicate AnswersEq(a: set<Identity>, b: set<Identity>)
  {
    |a * b| > 0
  }

  /** The relation holds exactly when the two sets share a record. */
  lemma AnswersEqShares(a: set<Identity>, b: set<Identity>)
    ensures AnswersEq(a, b) <==> exists id :: id in a && id in b
  {
    if AnswersEq(a, b) {
      var id :| id in a * b;
    }
    if exists id :: id in a && id in b {
      var id :| id in a && id in b;
      assert id in a * b;
    }
  }

  /** The relation is symmetric and never holds with an empty side. */
  lemma AnswersEqSymmetric(a: set<Identity>, b: set<Identity>)
    ensures AnswersEq(a, b) <==> AnswersEq(b, a)
    ensures !AnswersEq({}, b) && !AnswersEq(a, {})
  {
    assert a * b == b * a;
    assert {} * b == {};
    assert a * {} == {};
  }

  /** The relation is not transitive: {x} ~ {x, y} ~ {y}, yet {x} and {y} share nothing. */
  lemma AnswersEqNotTransitive(x: Identity, y: Identity)
    requires x != y
    ensures AnswersEq({x}, {x, y}) && AnswersEq({x, y}, {y})
    ensures !AnswersEq({x}, {y})
  {
    assert x in {x} * {x, y};
    assert y in {x, y} * {y};
    assert {x} * {y} == {};
  }

  /** On the answer sets of a well-formed store, the relation is reflexive. */
  lemma AnswersEqReflexive(m: Store, n: Name)
    requires WellFormed(m) && n in m
    ensures AnswersEq(m[n].Keys, m[n].Keys)
  {
    assert m[n] != map[];
    var id :| id in m[n];
    assert id in m[n].Keys * m[n].Keys;
  }

  // ---------------------------------------------------------------------
  // read_from_dir
  // ---------------------------------------------------------------------

  /**
   * `extend` with every snapshot, in directory order: a name's inner map
   * from a later snapshot replaces the one already there.
   */
  function MergeByExtend(snapshots: seq<Store>): Store
  {
    if snapshots == [] then map[]
    else MergeByExtend(snapshots[..|snapshots| - 1]) + snapshots[|snapshots| - 1]
  }

  /** The merged names are those of all snapshots together. */
  lemma {:induction false} MergeKeys(snapshots: seq<Store>, n: Name)
    ensures n in MergeByExtend(snapshots) <==> exists i :: 0 <= i < |snapshots| && n in snapshots[i]
  {
    if snapshots != [] {
      var front := snapshots[..|snapshots| - 1];
      MergeKeys(front, n);
      if exists i :: 0 <= i < |front| && n in front[i] {
        var i :| 0 <= i < |front| && n in front[i];
        assert snapshots[i] == front[i];
      }
      if exists i :: 0 <= i < |snapshots| && n in snapshots[i] {
        var i :| 0 <= i < |snapshots| && n in snapshots[i];
        if i < |front| {
          assert front[i] == snapshots[i];
        }
      }
    }
  }

  /** A name keeps the inner map of the last snapshot that has it; earlier ones are dropped whole. */
  lemma {:induction false} MergeLastWins(snapshots: seq<Store>, i: nat, n: Name)
    requires i < |snapshots| && n in snapshots[i]
    requires forall j :: i < j < |snapshots| ==> n !in snapshots[j]
    ensures n in MergeByExtend(snapshots) && MergeByExtend(snapshots)[n] == snapshots[i][n]
  {
    var front := snapshots[..|snapshots| - 1];
    if i < |front| {
      assert front[i] == snapshots[i];
      MergeLastWins(front, i, n);
    }
  }

  /** Merging well-formed snapshots gives a well-formed store. */
  lemma {:induction false} MergeWellFormed(snapshots: seq<Store>)
    requires forall i :: 0 <= i < |snapshots| ==> WellFormed(snapshots[i])
    ensures WellFormed(MergeByExtend(snapshots))
  {
    if snapshots != [] {
      var front := snapshots[..|snapshots| - 1];
      assert forall i :: 0 <= i < |front| ==> front[i] == snapshots[i];
      MergeWellFormed(front);
    }
  }

  /**
   * Counts are not summed across snapshots: when two snapshots saw the same
   * name with different records, the merged store has lost the first one.
   */
  lemma ExtendDropsEarlierCounts(n: Name, x: Identity, y: Identity, ttl: u32)
    requires x != y
    ensures var first: Store := map[n := map[x := DomainStat(1, {ttl})]];
      var second: Store := map[n := map[y := DomainStat(1, {ttl})]];
      var merged := MergeByExtend([first, second]);
      && StatOf(first, n, x).counts == 1
      && StatOf(merged, n, x).counts == 0
      && merged == second
  {
    var first: Store := map[n := map[x := DomainStat(1, {ttl})]];
    var second: Store := map[n := map[y := DomainStat(1, {ttl})]];
    assert [first, second][..1] == [first];
    assert [first][..0] == [];
    assert MergeByExtend([first]) == first;
    assert first + second == second;
  }

  /**
   * `read_from_dir`: the snapshots of one server's directory, in the order
   * `read_dir` lists them, merged into a new store.
   */
  method ReadFromDir(snapshots: seq<Store>) returns (all: AllDomains)
    ensures fresh(all)
    ensures all.entries == MergeByExtend(snapshots)
  {
    all := new AllDomains();
    for i := 0 to |snapshots|
      invariant all.entries == MergeByExtend(snapshots[..i])
    {
      assert snapshots[..i + 1][..i] == snapshots[..i];
      all.entries := all.entries + snapshots[i];
    }
    assert snapshots[..|snapshots|] == snapshots;
  }

  // ---------------------------------------------------------------------
  // print_dist
  // ---------------------------------------------------------------------

  /** How many top domains `print_dist` reads. */
  const TOP_K: nat := 100000

  /** The size of one bin of top domains. */
  const BIN_SIZE: nat := 100

  /** A domain whose fully qualified name is a key of the store. */
  predicate Present(p: Parsers, domain: string, store: Store)
  {
    p.nameFqdn(domain).Some? && p.nameFqdn(domain).value in store
  }

  /**
   * The `filter(...).count()` of one bin against one store; `None` is the
   * panic of `Name::from_str(..).unwrap()` on a domain that is not a name.
   */
  function BinCount(p: Parsers, bin: seq<string>, store: Store): (r: Option<nat>)
    ensures r.Some? ==> r.value <= |bin|
  {
    if bin == [] then Some(0)
    else if p.nameFqdn(bin[0]).None? then None
    else
      match BinCount(p, bin[1..], store)
      case None => None
      case Some(c) => Some(c + if Present(p, bin[0], store) then 1 else 0)
  }

  /**
   * The count panics exactly when some domain is not a name; otherwise it
   * is the whole bin exactly when every domain is present, and zero
   * exactly when none is.
   */
  lemma {:induction false} BinCountMeaning(p: Parsers, bin: seq<string>, store: Store)
    ensures BinCount(p, bin, store).Some? <==> forall i :: 0 <= i < |bin| ==> p.nameFqdn(bin[i]).Some?
    ensures BinCount(p, bin, store).Some? ==>
      (BinCount(p, bin, store).value == |bin| <==> forall i :: 0 <= i < |bin| ==> Present(p, bin[i], store))
    ensures BinCount(p, bin, store).Some? ==>
      (BinCount(p, bin, store).value == 0 <==> forall i :: 0 <= i < |bin| ==> !Present(p, bin[i], store))
  {
    if bin != [] {
      var rest := bin[1..];
      BinCountMeaning(p, rest, store);
      assert forall i :: 0 < i < |bin| ==> bin[i] == rest[i - 1];
      if p.nameFqdn(bin[0]).Some? && BinCount(p, rest, store).None? {
        var i :| 0 <= i < |rest| && p.nameFqdn(rest[i]).None?;
        assert bin[i + 1] == rest[i];
      }
      if BinCount(p, bin, store).Some? {
        if exists i :: 0 <= i < |rest| && !Present(p, rest[i], store) {
          var i :| 0 <= i < |rest| && !Present(p, rest[i], store);
          assert bin[i + 1] == rest[i];
        }
        if exists i :: 0 <= i < |rest| && Present(p, rest[i], store) {
          var i :| 0 <= i < |rest| && Present(p, rest[i], store);
          assert bin[i + 1] == rest[i];
        }
      }
    }
  }

  /** A bin of one domain counts one when the domain is present, zero when not, and panics when it is not a name. */
  lemma BinCountSingle(p: Parsers, domain: string, store: Store)
    ensures p.nameFqdn(domain).None? ==> BinCount(p, [domain], store).None?
    ensures p.nameFqdn(domain).Some? ==>
      BinCount(p, [domain], store) == Some(if Present(p, domain, store) then 1 else 0)
  {
    assert [domain][1..] == [];
  }

  /** Counting is additive over a bin cut in two, and a panic in either part is a panic of the whole. */
  lemma {:induction false} BinCountAppend(p: Parsers, a: seq<string>, b: seq<string>, store: Store)
    ensures BinCount(p, a + b, store) ==
      if BinCount(p, a, store).Some? && BinCount(p, b, store).Some?
      then Some(BinCount(p, a, store).value + BinCount(p, b, store).value)
      else None
  {
    if a == [] {
      assert a + b == b;
    } else {
      assert (a + b)[0] == a[0];
      assert (a + b)[1..] == a[1..] + b;
      if p.nameFqdn(a[0]).Some? {
        BinCountAppend(p, a[1..], b, store);
      }
    }
  }

  /** The positions of a bin whose domain is present in the store. */
  function PresentIndices(p: Parsers, bin: seq<string>, store: Store): set<nat>
  {
    set i: nat | i < |bin| && Present(p, bin[i], store)
  }

  /** When it does not panic, the count is the number of positions whose domain is present. */
  lemma {:induction false} BinCountValue(p: Parsers, bin: seq<string>, store: Store)
    ensures BinCount(p, bin, store).Some? ==> BinCount(p, bin, store).value == |PresentIndices(p, bin, store)|
    decreases |bin|
  {
    if bin == [] {
      assert PresentIndices(p, bin, store) == {};
    } else {
      var n := |bin| - 1;
      var front, last := bin[..n], bin[n];
      assert front + [last] == bin;
      BinCountAppend(p, front, [last], store);
      BinCountSingle(p, last, store);
      BinCountValue(p, front, store);
      var before := PresentIndices(p, front, store);
      if Present(p, last, store) {
        assert PresentIndices(p, bin, store) == before + {n};
        assert n !in before;
      } else {
        assert PresentIndices(p, bin, store) == before;
      }
    }
  }

  /** Whether a domain is counted does not depend on the store: the panic is the same for every server. */
  lemma {:induction false} BinCountPanicAnyStore(p: Parsers, bin: seq<string>, a: Store, b: Store)
    ensures BinCount(p, bin, a).None? <==> BinCount(p, bin, b).None?
  {
    if bin != [] && p.nameFqdn(bin[0]).Some? {
      BinCountPanicAnyStore(p, bin[1..], a, b);
    }
  }

  /**
   * One printed line of `print_dist`: the count of the bin against every
   * server's store, in server order; `None` when the bin panics.
   */
  function BinCounts(p: Parsers, bin: seq<string>, allNs: seq<ServerData>): (r: Option<seq<nat>>)
    ensures r.Some? ==> |r.value| == |allNs|
    ensures r.Some? ==> forall s :: 0 <= s < |allNs| ==> BinCount(p, bin, allNs[s].domains) == Some(r.value[s])
  {
    if allNs == [] then Some([])
    else
      match BinCount(p, bin, allNs[0].domains)
      case None => None
      case Some(c) =>
        match BinCounts(p, bin, allNs[1..])
        case None => None
        case Some(cs) => Some([c] + cs)
  }

  /** A line panics exactly when there is a server to count for and the bin holds a domain that is not a name. */
  lemma {:induction false} BinCountsPanic(p: Parsers, bin: seq<string>, allNs: seq<ServerData>)
    ensures BinCounts(p, bin, allNs).None? <==>
      allNs != [] && exists i :: 0 <= i < |bin| && p.nameFqdn(bin[i]).None?
  {
    if allNs != [] {
      BinCountMeaning(p, bin, allNs[0].domains);
      if BinCount(p, bin, allNs[0].domains).Some? {
        BinCountsPanic(p, bin, allNs[1..]);
        if allNs[1..] != [] {
          BinCountPanicAnyStore(p, bin, allNs[0].domains, allNs[1].domains);
          BinCountMeaning(p, bin, allNs[1].domains);
        }
      }
    }
  }

  /**
   * `print_dist`: the first `TOP_K` domains of the CSV rows, cut into bins
   * of `BIN_SIZE`, one line of counts per bin. `ok == false` is a panic:
   * in `take_n` (then no line is printed) or on a bin with a domain that is
   * not a name (then the lines before it were printed).
   */
  method PrintDist(p: Parsers, rows: seq<CsvRow>, allNs: seq<ServerData>) returns (table: seq<seq<nat>>, ok: bool)
    ensures var t := TakeSpec(rows, TOP_K);
      var bins := Chunks(t.names, BIN_SIZE);
      && (!t.ok ==> !ok && table == [])
      && (t.ok ==> |table| <= |bins|)
      && (t.ok ==> forall b :: 0 <= b < |table| ==> BinCounts(p, bins[b], allNs) == Some(table[b]))
      && (t.ok && !ok ==> |table| < |bins| && BinCounts(p, bins[|table|], allNs).None?)
      && (ok <==> t.ok && forall b :: 0 <= b < |bins| ==> BinCounts(p, bins[b], allNs).Some?)
    ensures ok ==> |table| == CeilDiv(|TakeSpec(rows, TOP_K).names|, BIN_SIZE)
    ensures forall b :: 0 <= b < |table| ==> |table[b]| == |allNs|
    ensures forall b, s :: 0 <= b < |table| && 0 <= s < |table[b]| ==> table[b][s] <= BIN_SIZE
  {
    var iter := new RecordIter(rows);
    var top, took := iter.TakeN(TOP_K);
    assert rows[0..] == rows;
    table := [];
    if !took {
      ok := false;
      return;
    }
    var bins := Chunks(top, BIN_SIZE);
    ChunksCount(top, BIN_SIZE);
    for b := 0 to |bins|
      invariant |table| == b
      invariant forall b' :: 0 <= b' < b ==> BinCounts(p, bins[b'], allNs) == Some(table[b'])
      invariant forall b', s :: 0 <= b' < b && 0 <= s < |table[b']| ==> table[b'][s] <= BIN_SIZE
    {
      var counts := BinCounts(p, bins[b], allNs);
      if counts.None? {
        ok := false;
        return;
      }
      table := table + [counts.value];
    }
    ok := true;
  }

  // ---------------------------------------------------------------------
  // print_overlaps
  // ---------------------------------------------------------------------

  /** `all_keys`: the owner names of every server's store. */
  function Owners(allNs: seq<ServerData>): seq<set<Name>>
  {
    seq(|allNs|, i requires 0 <= i < |allNs| => allNs[i].domains.Keys)
  }

  /** The union of the first `n` sets, joined one after the other. */
  function UnionUpTo(sets: seq<set<Name>>, n: nat): set<Name>
    requires n <= |sets|
  {
    if n == 0 then {} else UnionUpTo(sets, n - 1) + sets[n - 1]
  }

  /** `sets[i] ∩ sets[j]` for `i < j < e`, joined in the order of `j`. */
  function PairRow(sets: seq<set<Name>>, i: nat, e: nat): set<Name>
    requires i < |sets| && e <= |sets|
  {
    if e <= i + 1 then {} else PairRow(sets, i, e - 1) + sets[i] * sets[e - 1]
  }

  /** The rows of pairs whose first index is below `n`. */
  function PairsUpTo(sets: seq<set<Name>>, n: nat): set<Name>
    requires n <= |sets|
  {
    if n == 0 then {} else PairsUpTo(sets, n - 1) + PairRow(sets, n - 1, |sets|)
  }

  /** `sets[i] ∩ sets[j] ∩ sets[k]` for `j < k < e`. */
  function TripleCell(sets: seq<set<Name>>, i: nat, j: nat, e: nat): set<Name>
    requires i < |sets| && j < |sets| && e <= |sets|
  {
    if e <= j + 1 then {} else TripleCell(sets, i, j, e - 1) + sets[i] * sets[j] * sets[e - 1]
  }

  /** The cells of triples with first index `i` and middle index `i < j < e`. */
  function TripleRow(sets: seq<set<Name>>, i: nat, e: nat): set<Name>
    requires i < |sets| && e <= |sets|
  {
    if e <= i + 1 then {} else TripleRow(sets, i, e - 1) + TripleCell(sets, i, e - 1, |sets|)
  }

  /** The rows of triples whose first index is below `n`, middle index below `|sets| - 1`. */
  function TriplesUpTo(sets: seq<set<Name>>, n: nat): set<Name>
    requires n < |sets|
  {
    if n == 0 then {} else TriplesUpTo(sets, n - 1) + TripleRow(sets, n - 1, |sets| - 1)
  }

  /** `x` is in sets `i < j`. */
  predicate InPair(sets: seq<set<Name>>, x: Name, i: int, j: int)
  {
    0 <= i < j < |sets| && x in sets[i] && x in sets[j]
  }

  /** `x` is in sets `i < j < k`. */
  predicate InTriple(sets: seq<set<Name>>, x: Name, i: int, j: int, k: int)
  {
    0 <= i < j < k < |sets| && x in sets[i] && x in sets[j] && x in sets[k]
  }

  lemma {:induction false} UnionUpToMembers(sets: seq<set<Name>>, n: nat, x: Name)
    requires n <= |sets|
    ensures x in UnionUpTo(sets, n) <==> exists i :: 0 <= i < n && x in sets[i]
  {
    if n > 0 {
      UnionUpToMembers(sets, n - 1, x);
    }
  }

  lemma {:induction false} PairRowMembers(sets: seq<set<Name>>, i: nat, e: nat, x: Name)
    requires i < |sets| && e <= |sets|
    ensures x in PairRow(sets, i, e) <==> exists j :: j < e && InPair(sets, x, i, j)
  {
    if e > i + 1 {
      PairRowMembers(sets, i, e - 1, x);
      if x in sets[i] * sets[e - 1] {
        assert InPair(sets, x, i, e - 1);
      }
      if exists j :: j < e && InPair(sets, x, i, j) {
        var j :| j < e && InPair(sets, x, i, j);
        if j == e - 1 {
          assert x in sets[i] * sets[e - 1];
        }
      }
    }
  }

  lemma {:induction false} PairsUpToMembers(sets: seq<set<Name>>, n: nat, x: Name)
    requires n <= |sets|
    ensures x in PairsUpTo(sets, n) <==> exists i, j :: i < n && InPair(sets, x, i, j)
  {
    if n > 0 {
      PairsUpToMembers(sets, n - 1, x);
      PairRowMembers(sets, n - 1, |sets|, x);
      if x in PairRow(sets, n - 1, |sets|) {
        var j :| j < |sets| && InPair(sets, x, n - 1, j);
      }
      if exists i, j :: i < n && InPair(sets, x, i, j) {
        var i, j :| i < n && InPair(sets, x, i, j);
        if i == n - 1 {
          assert x in PairRow(sets, n - 1, |sets|);
        }
      }
    }
  }

  lemma {:induction false} TripleCellMembers(sets: seq<set<Name>>, i: nat, j: nat, e: nat, x: Name)
    requires i < j < |sets| && e <= |sets|
    ensures x in TripleCell(sets, i, j, e) <==> exists k :: k < e && InTriple(sets, x, i, j, k)
  {
    if e > j + 1 {
      TripleCellMembers(sets, i, j, e - 1, x);
      if x in sets[i] * sets[j] * sets[e - 1] {
        assert InTriple(sets, x, i, j, e - 1);
      }
      if exists k :: k < e && InTriple(sets, x, i, j, k) {
        var k :| k < e && InTriple(sets, x, i, j, k);
        if k == e - 1 {
          assert x in sets[i] * sets[j] * sets[e - 1];
        }
      }
    }
  }

  lemma {:induction false} TripleRowMembers(sets: seq<set<Name>>, i: nat, e: nat, x: Name)
    requires i < |sets| && e <= |sets|
    ensures x in TripleRow(sets, i, e) <==> exists j, k :: j < e && InTriple(sets, x, i, j, k)
  {
    if e > i + 1 {
      TripleRowMembers(sets, i, e - 1, x);
      TripleCellMembers(sets, i, e - 1, |sets|, x);
      if x in TripleCell(sets, i, e - 1, |sets|) {
        var k :| k < |sets| && InTriple(sets, x, i, e - 1, k);
      }
      if exists j, k :: j < e && InTriple(sets, x, i, j, k) {
        var j, k :| j < e && InTriple(sets, x, i, j, k);
        if j == e - 1 {
          assert x in TripleCell(sets, i, e - 1, |sets|);
        }
      }
    }
  }

  lemma {:induction false} TriplesUpToMembers(sets: seq<set<Name>>, n: nat, x: Name)
    requires n < |sets|
    ensures x in TriplesUpTo(sets, n) <==> exists i, j, k :: i < n && InTriple(sets, x, i, j, k)
  {
    if n > 0 {
      TriplesUpToMembers(sets, n - 1, x);
      TripleRowMembers(sets, n - 1, |sets| - 1, x);
      if x in TripleRow(sets, n - 1, |sets| - 1) {
        var j, k :| j < |sets| - 1 && InTriple(sets, x, n - 1, j, k);
      }
      if exists i, j, k :: i < n && InTriple(sets, x, i, j, k) {
        var i, j, k :| i < n && InTriple(sets, x, i, j, k);
        if i == n - 1 {
          assert x in TripleRow(sets, n - 1, |sets| - 1);
        }
      }
    }
  }

  /** A subset is no larger than its superset. */
  lemma SubsetCard<T>(a: set<T>, b: set<T>)
    requires a <= b
    ensures |a| <= |b|
  {
    assert b == a + (b - a);
    assert a * (b - a) == {};
  }

  /** The printed size of an intersection is at most the size of either side. */
  lemma IntersectionCard<T>(a: set<T>, b: set<T>)
    ensures |a * b| <= |a| && |a * b| <= |b|
  {
    SubsetCard(a * b, a);
    SubsetCard(a * b, b);
  }

  /**
   * `a - b` on `usize` in a debug build, as `print_overlaps` computes its
   * loop bounds `len() - 1` and `len() - 2`: `None` is the panic
   * "attempt to subtract with overflow".
   */
  function UsizeSub(a: nat, b: nat): Option<nat>
  {
    if b <= a then Some(a - b) else None
  }

  /** As written, the bounds of the pair loop and of the triple loop underflow below one and two servers. */
  lemma OverlapBoundsUnderflow(len: nat)
    ensures UsizeSub(len, 1).None? <==> len == 0
    ensures UsizeSub(len, 2).None? <==> len < 2
    ensures UsizeSub(0, 1) == None && UsizeSub(1, 2) == None
  {
  }

  /**
   * `print_overlaps`, with the loop bounds `len() - 1` and `len() - 2`
   * taken as 0 when they would underflow. Over the owner-name sets
   * `Owners(allNs)`, `union1` holds the names some server has, `union2`
   * those at least two servers share and `union3` those at least three
   * share.
   */
  method Overlaps(allNs: seq<ServerData>) returns (union1: set<Name>, union2: set<Name>, union3: set<Name>)
    ensures forall x :: x in union1 <==> exists i :: 0 <= i < |allNs| && x in Owners(allNs)[i]
    ensures forall x :: x in union2 <==> exists i, j :: InPair(Owners(allNs), x, i, j)
    ensures forall x :: x in union3 <==> exists i, j, k :: InTriple(Owners(allNs), x, i, j, k)
    ensures union3 <= union2 <= union1
    ensures forall i :: 0 <= i < |allNs| ==> |Owners(allNs)[i]| <= |union1|
  {
    var keys := Owners(allNs);
    var len := |keys|;
    union1 := UnionAll(keys);
    union2 := PairUnion(keys);
    union3 := TripleUnion(keys);
    forall x
      ensures x in union1 <==> exists i :: 0 <= i < len && x in keys[i]
      ensures x in union2 <==> exists i, j :: InPair(keys, x, i, j)
      ensures x in union3 <==> exists i, j, k :: InTriple(keys, x, i, j, k)
      ensures x in union3 ==> x in union2
      ensures x in union2 ==> x in union1
    {
      OverlapsAt(keys, x, union1, union2, union3);
    }
    forall i | 0 <= i < len
      ensures |keys[i]| <= |union1|
    {
      SubsetCard(keys[i], union1);
    }
  }

  /** The `union1` loop: every owner-name set joined in. */
  method UnionAll(keys: seq<set<Name>>) returns (union1: set<Name>)
    ensures union1 == UnionUpTo(keys, |keys|)
  {
    union1 := {};
    for i := 0 to |keys|
      invariant union1 == UnionUpTo(keys, i)
    {
      union1 := union1 + keys[i];
    }
  }

  /** The `union2` loops: `i` below `len - 1` (0 when that underflows), `i < j < len`. */
  method PairUnion(keys: seq<set<Name>>) returns (union2: set<Name>)
    ensures union2 == PairsUpTo(keys, if |keys| >= 1 then |keys| - 1 else 0)
  {
    var len := |keys|;
    union2 := {};
    for i := 0 to if len >= 1 then len - 1 else 0
      invariant union2 == PairsUpTo(keys, i)
    {
      for j := i + 1 to len
        invariant union2 == PairsUpTo(keys, i) + PairRow(keys, i, j)
      {
        union2 := union2 + keys[i] * keys[j];
      }
    }
  }

  /** The `union3` loops: `i` below `len - 2` (0 when that underflows), `i < j < len - 1`, `j < k < len`. */
  method TripleUnion(keys: seq<set<Name>>) returns (union3: set<Name>)
    ensures union3 == if |keys| >= 2 then TriplesUpTo(keys, |keys| - 2) else {}
  {
    var len := |keys|;
    union3 := {};
    if len >= 2 {
      for i := 0 to len - 2
        invariant union3 == TriplesUpTo(keys, i)
      {
        for j := i + 1 to len - 1
          invariant union3 == TriplesUpTo(keys, i) + TripleRow(keys, i, j)
        {
          for k := j + 1 to len
            invariant union3 == TriplesUpTo(keys, i) + TripleRow(keys, i, j) + TripleCell(keys, i, j, k)
          {
            union3 := union3 + keys[i] * keys[j] * keys[k];
          }
        }
      }
    }
  }

  /** What the three unions of `Overlaps` say about one name. */
  lemma OverlapsAt(sets: seq<set<Name>>, x: Name, union1: set<Name>, union2: set<Name>, union3: set<Name>)
    requires union1 == UnionUpTo(sets, |sets|)
    requires union2 == PairsUpTo(sets, if |sets| >= 1 then |sets| - 1 else 0)
    requires union3 == if |sets| >= 2 then TriplesUpTo(sets, |sets| - 2) else {}
    ensures x in union1 <==> exists i :: 0 <= i < |sets| && x in sets[i]
    ensures x in union2 <==> exists i, j :: InPair(sets, x, i, j)
    ensures x in union3 <==> exists i, j, k :: InTriple(sets, x, i, j, k)
    ensures x in union3 ==> x in union2
    ensures x in union2 ==> x in union1
  {
    UnionUpToMembers(sets, |sets|, x);
    PairsUpToMembers(sets, if |sets| >= 1 then |sets| - 1 else 0, x);
    if |sets| >= 2 {
      TriplesUpToMembers(sets, |sets| - 2, x);
    }
    if exists i, j, k :: InTriple(sets, x, i, j, k) {
      var i, j, k :| InTriple(sets, x, i, j, k);
      assert InPair(sets, x, i, j);
    }
    if exists i, j :: InPair(sets, x, i, j) {
      var i, j :| InPair(sets, x, i, j);
      assert x in sets[i];
    }
  }
}
