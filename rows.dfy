/**
 * The ranked-domain CSV as the two programs consume it: an iterator of rows,
 * each either a parsed record or a CSV error, and `take_n`, which pulls the
 * domain column (column 1) of up to `n` rows.
 */
module Rows {
  import opened Batching

  /** One item of `csv::Reader::into_records()`: a record's fields, or a CSV error. */
  datatype CsvRow = Row(fields: seq<string>) | Malformed

  /** `line.unwrap().get(1).unwrap()` succeeds exactly on records with a second field. */
  predicate HasDomain(row: CsvRow) {
    row.Row? && |row.fields| >= 2
  }

  function Domain(row: CsvRow): string
    requires HasDomain(row)
  {
    row.fields[1]
  }

  /**
   * What `take_n` does to the rest of the stream: the names it returns, how
   * many rows it pulled, and whether it returned (`ok`) or panicked on a row
   * without a domain (which it pulled too).
   */
  datatype Taken = Taken(names: seq<string>, consumed: nat, ok: bool)

  function TakeSpec(rows: seq<CsvRow>, n: nat): (t: Taken)
    ensures |t.names| <= n && |t.names| <= t.consumed <= |rows|
    ensures t.ok ==> t.consumed == |t.names| == Min(n, |rows|)
    ensures !t.ok ==> t.consumed == |t.names| + 1 && |t.names| < n
  {
    if n == 0 || rows == [] then Taken([], 0, true)
    else if !HasDomain(rows[0]) then Taken([], 1, false)
    else
      var t := TakeSpec(rows[1..], n - 1);
      Taken([Domain(rows[0])] + t.names, t.consumed + 1, t.ok)
  }

  /**
   * The names are the domain column of the rows pulled, in order; a panic
   * happens on the first row without a domain.
   */
  lemma {:induction false} TakeNames(rows: seq<CsvRow>, n: nat)
    ensures var t := TakeSpec(rows, n);
      forall i :: 0 <= i < |t.names| ==> HasDomain(rows[i]) && t.names[i] == Domain(rows[i])
    ensures var t := TakeSpec(rows, n);
      !t.ok ==> !HasDomain(rows[|t.names|])
  {
    if n > 0 && rows != [] && HasDomain(rows[0]) {
      TakeNames(rows[1..], n - 1);
    }
  }

  lemma TakeStep(rows: seq<CsvRow>, n: nat)
    requires n > 0 && rows != []
    ensures !HasDomain(rows[0]) ==> TakeSpec(rows, n) == Taken([], 1, false)
    ensures HasDomain(rows[0]) ==> var t := TakeSpec(rows[1..], n - 1);
      TakeSpec(rows, n) == Taken([Domain(rows[0])] + t.names, t.consumed + 1, t.ok)
  {
  }

  /** `take_n` returns normally exactly when every row in its window has a domain. */
  lemma {:induction false} TakeOkIff(rows: seq<CsvRow>, n: nat)
    ensures TakeSpec(rows, n).ok <==> forall i :: 0 <= i < Min(n, |rows|) ==> HasDomain(rows[i])
  {
    if n > 0 && rows != [] && HasDomain(rows[0]) {
      TakeOkIff(rows[1..], n - 1);
      var rest := rows[1..];
      if TakeSpec(rest, n - 1).ok {
        forall i | 0 <= i < Min(n, |rows|)
          ensures HasDomain(rows[i])
        {
          if i > 0 {
            assert rows[i] == rest[i - 1];
          }
        }
      } else {
        var j :| 0 <= j < Min(n - 1, |rest|) && !HasDomain(rest[j]);
        assert rows[j + 1] == rest[j];
      }
    }
  }

  /** Returning fewer than `n` names without a panic means the stream ran out. */
  lemma ShortTakeMeansExhausted(rows: seq<CsvRow>, n: nat)
    requires TakeSpec(rows, n).ok && |TakeSpec(rows, n).names| < n
    ensures TakeSpec(rows, n).consumed == |rows|
  {
  }

  /** All domains of a run of rows that all have one. */
  function Domains(rows: seq<CsvRow>): (ds: seq<string>)
    requires forall i :: 0 <= i < |rows| ==> HasDomain(rows[i])
    ensures |ds| == |rows|
    ensures forall i :: 0 <= i < |rows| ==> ds[i] == Domain(rows[i])
  {
    if rows == [] then [] else [Domain(rows[0])] + Domains(rows[1..])
  }

  /** On well-formed rows, `take_n` is a prefix of the domain column. */
  lemma {:induction false} TakeOfDomains(rows: seq<CsvRow>, n: nat)
    requires forall i :: 0 <= i < |rows| ==> HasDomain(rows[i])
    ensures TakeSpec(rows, n) == Taken(Domains(rows)[..Min(n, |rows|)], Min(n, |rows|), true)
  {
    if n > 0 && rows != [] {
      var rest := rows[1..];
      TakeOfDomains(rest, n - 1);
      assert Domains(rows) == [Domain(rows[0])] + Domains(rest);
      assert Domains(rows)[..Min(n, |rows|)] == [Domain(rows[0])] + Domains(rest)[..Min(n - 1, |rest|)];
    }
  }

  /** `t`, the rest of a `take_n` call, after `names` were already pulled. */
  function After(names: seq<string>, t: Taken): Taken {
    Taken(names + t.names, |names| + t.consumed, t.ok)
  }

  /** One row further into the stream, as the `take_n` loop sees it. */
  lemma TakeAdvance(rows: seq<CsvRow>, pos: nat, n: nat, i: nat, names: seq<string>, whole: Taken)
    requires pos < |rows| && i < n
    requires |names| == i
    requires whole == After(names, TakeSpec(rows[pos..], n - i))
    ensures !HasDomain(rows[pos]) ==> whole == Taken(names, i + 1, false)
    ensures HasDomain(rows[pos]) ==>
      whole == After(names + [Domain(rows[pos])], TakeSpec(rows[pos + 1..], n - i - 1))
  {
    TakeStep(rows[pos..], n - i);
    assert rows[pos..][1..] == rows[pos + 1..];
    if HasDomain(rows[pos]) {
      var t := TakeSpec(rows[pos + 1..], n - i - 1);
      assert names + ([Domain(rows[pos])] + t.names) == (names + [Domain(rows[pos])]) + t.names;
    }
  }

  /** `record_iter`: the stream of rows and how far it has been read. */
  class RecordIter {
    const rows: seq<CsvRow>
    var pos: nat

    ghost predicate Valid()
      reads this
    {
      pos <= |rows|
    }

    constructor (rows: seq<CsvRow>)
      ensures this.rows == rows && pos == 0 && Valid()
    {
      this.rows := rows;
      pos := 0;
    }

    /**
     * `take_n(n, record_iter)`. `ok == false` stands for the panic of an
     * `unwrap` on a row without a domain; the names pulled before it are
     * returned so that a caller can see how far the program got.
     */
    method TakeN(n: nat) returns (names: seq<string>, ok: bool)
      requires Valid()
      modifies this
      ensures Valid()
      ensures var t := TakeSpec(old(rows[pos..]), n);
        names == t.names && ok == t.ok && pos == old(pos) + t.consumed
    {
      var rs, start := rows, pos;
      ghost var whole := TakeSpec(rs[start..], n);
      names := [];
      ok := true;
      var i := 0;
      while i < n
        invariant 0 <= i <= n && start <= pos <= |rs| && pos - start == i == |names|
        invariant whole == After(names, TakeSpec(rs[pos..], n - i))
      {
        if pos == |rs| {
          assert rs[pos..] == [];
          break;
        }
        var row := rs[pos];
        TakeAdvance(rs, pos, n, i, names, whole);
        pos := pos + 1;
        if !HasDomain(row) {
          ok := false;
          return;
        }
        names := names + [Domain(row)];
        i := i + 1;
      }
      assert TakeSpec(rs[pos..], n - i) == Taken([], 0, true);
    }
  }
}
