/**
 * `slice::chunks`: cutting a list into consecutive pieces of a fixed size,
 * the last possibly shorter. The crawler cuts its domain list this way twice
 * (checkpoint chunks of 1000, query sub-batches of 100) and the reader cuts
 * the ranked list into bins of 100.
 */
module Batching {

  function CeilDiv(a: nat, b: nat): nat
    requires b > 0
  {
    (a + b - 1) / b
  }

  function Min(a: nat, b: nat): nat
  {
    if a <= b then a else b
  }

  /** `s.chunks(n)`: no chunk is empty or longer than `n`, and only the last is shorter. */
  function Chunks<T>(s: seq<T>, n: nat): (cs: seq<seq<T>>)
    requires n > 0
    ensures forall i :: 0 <= i < |cs| ==> 0 < |cs[i]| <= n
    ensures forall i :: 0 <= i < |cs| - 1 ==> |cs[i]| == n
    decreases |s|
  {
    if s == [] then []
    else if |s| <= n then [s]
    else [s[..n]] + Chunks(s[n..], n)
  }

  /** The pieces of a list of lists, put back together in order. */
  function Concat<T>(ss: seq<seq<T>>): seq<T>
  {
    if ss == [] then [] else ss[0] + Concat(ss[1..])
  }

  lemma {:induction false} ConcatAppend<T>(a: seq<seq<T>>, b: seq<seq<T>>)
    ensures Concat(a + b) == Concat(a) + Concat(b)
  {
    if a == [] {
      assert a + b == b;
    } else {
      assert (a + b)[1..] == a[1..] + b;
      ConcatAppend(a[1..], b);
    }
  }

  /** Putting the chunks together gives the list back: nothing lost, added or reordered. */
  lemma {:induction false} ChunksConcat<T>(s: seq<T>, n: nat)
    requires n > 0
    ensures Concat(Chunks(s, n)) == s
    decreases |s|
  {
    if |s| > n {
      ChunksConcat(s[n..], n);
      assert s == s[..n] + s[n..];
    } else if s != [] {
      assert Concat(Chunks(s, n)) == s + Concat<T>([]);
    }
  }

  /** Where chunk `i` starts: `n * i`, counted up chunk by chunk. */
  function ChunkStart(n: nat, i: nat): nat
  {
    if i == 0 then 0 else ChunkStart(n, i - 1) + n
  }

  lemma {:induction false} ChunkStartIsProduct(n: nat, i: nat)
    ensures ChunkStart(n, i) == n * i
  {
    if i > 0 {
      ChunkStartIsProduct(n, i - 1);
      MulStep(n, i);
    }
  }

  lemma MulStep(n: nat, i: nat)
    requires i > 0
    ensures n * i == n * (i - 1) + n
  {
  }

  lemma MulAtLeast(d: int, n: int)
    requires d >= 1 && n > 0
    ensures d * n >= n
  {
  }

  lemma DivUnique(a: int, n: int, q: int, r: int)
    requires n > 0 && 0 <= r < n && a == q * n + r
    ensures a / n == q
  {
    var q', r' := a / n, a % n;
    assert a == q' * n + r';
    assert (q - q') * n == q * n - q' * n;
    if q' < q {
      MulAtLeast(q - q', n);
    } else if q' > q {
      MulAtLeast(q' - q, n);
    }
  }

  lemma DivStep(x: nat, n: nat)
    requires n > 0
    ensures (x + n) / n == x / n + 1
  {
    var q, r := x / n, x % n;
    assert x + n == (q + 1) * n + r;
    DivUnique(x + n, n, q + 1, r);
  }

  /** One full chunk more is one more when rounding up. */
  lemma CeilDivStep(a: nat, n: nat)
    requires n > 0 && a > n
    ensures CeilDiv(a, n) == CeilDiv(a - n, n) + 1
  {
    DivStep(a - n + n - 1, n);
  }

  lemma CeilDivOne(a: nat, n: nat)
    requires 0 < a <= n
    ensures CeilDiv(a, n) == 1
  {
    DivStep(a - 1, n);
  }

  /** There are ceil(|s| / n) chunks. */
  lemma {:induction false} ChunksCount<T>(s: seq<T>, n: nat)
    requires n > 0
    ensures |Chunks(s, n)| == CeilDiv(|s|, n)
    decreases |s|
  {
    if |s| > n {
      ChunksCount(s[n..], n);
      CeilDivStep(|s|, n);
    } else if s != [] {
      CeilDivOne(|s|, n);
    }
  }

  /** Chunk `i` is the slice that starts at `n * i`. */
  lemma {:induction false} ChunkAt<T>(s: seq<T>, n: nat, i: nat)
    requires n > 0 && i < |Chunks(s, n)|
    ensures ChunkStart(n, i) < |s|
    ensures Chunks(s, n)[i] == s[ChunkStart(n, i) .. Min(ChunkStart(n, i) + n, |s|)]
    decreases |s|
  {
    if i > 0 {
      var rest := s[n..];
      assert |s| > n;
      assert Chunks(s, n) == [s[..n]] + Chunks(rest, n);
      assert Chunks(s, n)[i] == Chunks(rest, n)[i - 1];
      ChunkAt(rest, n, i - 1);
      ChunkStartFromSecond(n, i);
      var a := ChunkStart(n, i - 1);
      var e := Min(a + n, |rest|);
      SliceOfSuffix(s, n, a, e);
      assert Min(ChunkStart(n, i) + n, |s|) == n + e;
      assert Chunks(s, n)[i] == rest[a..e] == s[n + a..n + e];
    } else if |s| <= n {
      assert Chunks(s, n) == [s];
      assert s[0..|s|] == s;
    } else {
      assert Chunks(s, n) == [s[..n]] + Chunks(s[n..], n);
    }
  }

  lemma SliceOfSuffix<T>(s: seq<T>, n: nat, a: nat, e: nat)
    requires n <= |s| && a <= e <= |s| - n
    ensures s[n..][a..e] == s[n + a..n + e]
  {
  }

  /** Counting the chunk starts after the first chunk. */
  lemma {:induction false} ChunkStartFromSecond(n: nat, i: nat)
    requires i > 0
    ensures ChunkStart(n, i) == n + ChunkStart(n, i - 1)
  {
    if i > 1 {
      ChunkStartFromSecond(n, i - 1);
    }
  }

  /** The chunks before chunk `i` hold exactly the first `n * i` elements (all of them after the last). */
  lemma {:induction false} ChunksPrefix<T>(s: seq<T>, n: nat, i: nat)
    requires n > 0 && i <= |Chunks(s, n)|
    ensures Concat(Chunks(s, n)[..i]) == s[..Min(ChunkStart(n, i), |s|)]
    decreases |s|
  {
    var cs := Chunks(s, n);
    if i == 0 {
      assert cs[..0] == [];
    } else if |s| <= n {
      assert cs[..i] == [s];
      assert Concat(cs[..i]) == s + Concat<T>([]);
      ChunkStartFromSecond(n, i);
    } else {
      var rest := s[n..];
      var tail := Chunks(rest, n)[..i - 1];
      ChunksPrefix(rest, n, i - 1);
      assert cs[..i] == [s[..n]] + tail;
      assert cs[..i][0] == s[..n] && cs[..i][1..] == tail;
      assert Concat(cs[..i]) == s[..n] + Concat(tail);
      var j := Min(ChunkStart(n, i - 1), |rest|);
      ChunkStartFromSecond(n, i);
      assert Min(ChunkStart(n, i), |s|) == n + j;
      assert s[..n + j] == s[..n] + rest[..j];
    }
  }

  /** Cutting at a chunk boundary does not move any other chunk boundary. */
  lemma {:induction false} ChunksSplit<T>(s: seq<T>, n: nat, q: nat)
    requires n > 0 && ChunkStart(n, q) <= |s|
    ensures Chunks(s, n) == Chunks(s[..ChunkStart(n, q)], n) + Chunks(s[ChunkStart(n, q)..], n)
    decreases q
  {
    var k := ChunkStart(n, q);
    if q == 0 {
      assert s[..k] == [];
      assert s[k..] == s;
    } else {
      var k' := ChunkStart(n, q - 1);
      ChunkStartFromSecond(n, q);
      if |s| == n {
        assert k == n;
        assert s[..k] == s;
        assert s[k..] == [];
      } else {
        var rest := s[n..];
        ChunksSplit(rest, n, q - 1);
        assert rest[..k'] == s[..k][n..];
        assert rest[k'..] == s[k..];
        if k == n {
          assert Chunks(s[..k], n) == [s[..n]];
          assert rest[..0] == [];
        } else {
          assert s[..k][..n] == s[..n];
        }
      }
    }
  }

  /** Every chunk cut into sub-chunks, all sub-chunks in order. */
  function SubChunks<T>(cs: seq<seq<T>>, n: nat): seq<seq<T>>
    requires n > 0
  {
    if cs == [] then [] else Chunks(cs[0], n) + SubChunks(cs[1..], n)
  }

  /**
   * Chunks of `n * q` cut into sub-chunks of `n` are exactly the chunks of
   * `n` of the whole list: sub-batching never straddles a chunk boundary.
   */
  lemma {:induction false} NestedChunks<T>(s: seq<T>, n: nat, q: nat)
    requires n > 0 && q > 0
    ensures SubChunks(Chunks(s, ChunkStart(n, q)), n) == Chunks(s, n)
    decreases |s|
  {
    var m := ChunkStart(n, q);
    ChunkStartFromSecond(n, q);
    if s == [] {
    } else if |s| <= m {
      assert Chunks(s, m) == [s];
      assert SubChunks([s], n) == Chunks(s, n) + SubChunks<T>([], n);
    } else {
      NestedChunks(s[m..], n, q);
      ChunksSplit(s, n, q);
      assert Chunks(s, m)[1..] == Chunks(s[m..], m);
    }
  }

  lemma {:induction false} SubChunksAppend<T>(a: seq<seq<T>>, b: seq<seq<T>>, n: nat)
    requires n > 0
    ensures SubChunks(a + b, n) == SubChunks(a, n) + SubChunks(b, n)
  {
    if a == [] {
      assert a + b == b;
    } else {
      assert (a + b)[1..] == a[1..] + b;
      SubChunksAppend(a[1..], b, n);
    }
  }

  /** Rounding up is monotone: a shorter list never has more chunks. */
  lemma CeilDivMonotone(a: nat, b: nat, n: nat)
    requires n > 0 && a <= b
    ensures CeilDiv(a, n) <= CeilDiv(b, n)
  {
    var x, y := a + n - 1, b + n - 1;
    var qx, qy := x / n, y / n;
    assert qx * n <= x;
    assert y < qy * n + n;
    assert qy * n + n == (qy + 1) * n;
    MulCancelLess(qx, qy + 1, n);
  }

  lemma MulCancelLess(a: int, b: int, n: int)
    requires n > 0 && a * n < b * n
    ensures a < b
  {
  }

  /** Sub-chunk `i` of chunk `c` comes right after the sub-chunks of the chunks before `c`. */
  lemma SubChunkAt<T>(cs: seq<seq<T>>, n: nat, c: nat, i: nat)
    requires n > 0 && c < |cs| && i < |Chunks(cs[c], n)|
    ensures |SubChunks(cs[..c], n)| + i < |SubChunks(cs, n)|
    ensures SubChunks(cs, n)[|SubChunks(cs[..c], n)| + i] == Chunks(cs[c], n)[i]
  {
    assert cs == cs[..c] + ([cs[c]] + cs[c + 1..]);
    SubChunksAppend(cs[..c], [cs[c]] + cs[c + 1..], n);
    assert ([cs[c]] + cs[c + 1..])[1..] == cs[c + 1..];
  }
}
