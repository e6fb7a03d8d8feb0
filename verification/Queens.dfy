/**
 * Placements of N non-attacking queens, one a row: a placement is the sequence of the
 * queens' columns. This is the reference the server and its clients are proved against.
 */
module Queens {
  import Cardinality

  predicate Attacks(a: nat, ca: nat, b: nat, cb: nat) {
    ca == cb || ca - cb == b - a || cb - ca == b - a
  }

  function Distance(a: nat, b: nat): nat {
    if a < b then b - a else a - b
  }

  /** Queens of different rows attack along a column or along a diagonal, either way. */
  lemma AttackLines(a: nat, ca: nat, b: nat, cb: nat)
    requires a < b
    ensures Attacks(a, ca, b, cb) <==> Distance(ca, cb) == 0 || Distance(ca, cb) == Distance(a, b)
  {
  }

  /** No two queens attack each other. */
  ghost predicate Legal(q: seq<nat>) {
    forall a, b :: 0 <= a < b < |q| ==> !Attacks(a, q[a], b, q[b])
  }

  /** A queen in column `c` of the next row is attacked by none of the queens of `p`. */
  ghost predicate Placeable(p: seq<nat>, c: nat) {
    forall r :: 0 <= r < |p| ==> !Attacks(r, p[r], |p|, c)
  }

  lemma LegalAppend(p: seq<nat>, c: nat)
    ensures Legal(p + [c]) <==> Legal(p) && Placeable(p, c)
  {
    var q := p + [c];
    if Legal(q) {
      forall a, b | 0 <= a < b < |p| ensures !Attacks(a, p[a], b, p[b]) {
        assert q[a] == p[a] && q[b] == p[b];
      }
      forall r | 0 <= r < |p| ensures !Attacks(r, p[r], |p|, c) {
        assert q[r] == p[r] && q[|p|] == c;
      }
    }
  }

  lemma LegalPrefix(p: seq<nat>, q: seq<nat>)
    requires p <= q && Legal(q)
    ensures Legal(p)
  {
    forall a, b | 0 <= a < b < |p| ensures !Attacks(a, p[a], b, p[b]) {
      assert q[a] == p[a] && q[b] == p[b];
    }
  }

  /** Every queen of a row at or after `from` stands on the board. */
  ghost predicate OnBoard(N: nat, q: seq<nat>, from: nat) {
    forall r :: from <= r < |q| ==> q[r] < N
  }

  /** All the ways of filling the rows after `p` with one queen each. */
  ghost function Extensions(N: nat, p: seq<nat>): set<seq<nat>>
    requires |p| <= N
    decreases N - |p|
  {
    if |p| == N then {p} else set c: nat, q | 0 <= c < N && q in Extensions(N, p + [c]) :: q
  }

  lemma {:induction false} InExtensions(N: nat, p: seq<nat>, q: seq<nat>)
    requires |p| <= N
    ensures q in Extensions(N, p) <==> |q| == N && p <= q && OnBoard(N, q, |p|)
    decreases N - |p|
  {
    if |p| < N {
      if |q| == N && p <= q && OnBoard(N, q, |p|) {
        var c := q[|p|];
        InExtensions(N, p + [c], q);
        assert p + [c] <= q;
        assert c < N && q in Extensions(N, p + [c]);
      }
      forall c: nat | c < N && q in Extensions(N, p + [c])
        ensures |q| == N && p <= q && OnBoard(N, q, |p|)
      {
        InExtensions(N, p + [c], q);
        assert q[|p|] == (p + [c])[|p|];
        assert p <= p + [c] <= q;
      }
    } else if |q| == N && p <= q {
      assert q == p;
    }
  }

  /** The legal full boards that begin with the rows `p`. */
  ghost function Solutions(N: nat, p: seq<nat>): set<seq<nat>>
    requires |p| <= N
  {
    set q | q in Extensions(N, p) && Legal(q)
  }

  ghost function Count(N: nat, p: seq<nat>): nat
    requires |p| <= N
  {
    |Solutions(N, p)|
  }

  lemma InSolutions(N: nat, p: seq<nat>, q: seq<nat>)
    requires |p| <= N
    ensures q in Solutions(N, p) <==> |q| == N && p <= q && OnBoard(N, q, |p|) && Legal(q)
  {
    InExtensions(N, p, q);
  }

  // ---- Counting by the column of the next row ----------------------------------------

  /** The completions of `p` whose next queen stands in a column before `c`. */
  ghost function SumColumns(N: nat, p: seq<nat>, c: nat): nat
    requires |p| < N && c <= N
  {
    if c == 0 then 0 else SumColumns(N, p, c - 1) + Count(N, p + [c - 1])
  }

  lemma {:induction false} SolutionsBelow(N: nat, p: seq<nat>, c: nat)
    requires |p| < N && c <= N
    ensures |set q | q in Solutions(N, p) && |q| == N && q[|p|] < c| == SumColumns(N, p, c)
  {
    var below := set q | q in Solutions(N, p) && |q| == N && q[|p|] < c;
    if c == 0 {
      assert below == {};
    } else {
      SolutionsBelow(N, p, c - 1);
      var fewer := set q | q in Solutions(N, p) && |q| == N && q[|p|] < c - 1;
      var next := Solutions(N, p + [c - 1]);
      forall q ensures q in next <==> q in below && q !in fewer {
        NextColumnSolutions(N, p, c - 1, q);
      }
      DisjointSizes(below, fewer, next);
    }
  }

  lemma DisjointSizes<T>(all: set<T>, a: set<T>, b: set<T>)
    requires a <= all && forall x :: x in b <==> x in all && x !in a
    ensures |all| == |a| + |b|
  {
    assert all == a + b && a !! b;
  }

  /** The completions with one more queen are those with its column next. */
  lemma NextColumnSolutions(N: nat, p: seq<nat>, c: nat, q: seq<nat>)
    requires |p| < N && c < N
    ensures q in Solutions(N, p + [c]) <==> q in Solutions(N, p) && |q| == N && q[|p|] == c
  {
    InSolutions(N, p, q);
    InSolutions(N, p + [c], q);
    if q in Solutions(N, p + [c]) {
      assert p <= p + [c] <= q;
      assert q[|p|] == (p + [c])[|p|];
    }
    if q in Solutions(N, p) && |q| == N && q[|p|] == c {
      assert p + [c] == q[..|p| + 1] <= q;
    }
  }

  /** The completions of `p` are those of its one-queen extensions, each counted once. */
  lemma CountByColumn(N: nat, p: seq<nat>)
    requires |p| < N
    ensures Count(N, p) == SumColumns(N, p, N)
  {
    SolutionsBelow(N, p, N);
    forall q | q in Solutions(N, p) ensures |q| == N && q[|p|] < N {
      InSolutions(N, p, q);
    }
    assert (set q | q in Solutions(N, p) && |q| == N && q[|p|] < N) == Solutions(N, p);
  }

  /** An attacked queen cannot be completed. */
  lemma NoneIfIllegal(N: nat, p: seq<nat>)
    requires |p| <= N && !Legal(p)
    ensures Count(N, p) == 0
  {
    forall q | q in Solutions(N, p) ensures false {
      InSolutions(N, p, q);
      LegalPrefix(p, q);
    }
    assert Solutions(N, p) == {};
  }

  lemma {:induction false} SkipColumns(N: nat, p: seq<nat>, lo: nat, hi: nat)
    requires |p| < N && lo <= hi <= N
    requires forall c :: lo <= c < hi ==> !Placeable(p, c)
    ensures SumColumns(N, p, lo) == SumColumns(N, p, hi)
    decreases hi
  {
    if lo < hi {
      SkipColumns(N, p, lo, hi - 1);
      assert !Placeable(p, hi - 1);
      LegalAppend(p, hi - 1);
      NoneIfIllegal(N, p + [hi - 1]);
    }
  }

  /** A full legal board completes itself and nothing else. */
  lemma FullBoard(N: nat, p: seq<nat>)
    requires |p| == N && Legal(p)
    ensures Count(N, p) == 1
  {
    forall q ensures q in Solutions(N, p) <==> q == p {
      InSolutions(N, p, q);
    }
    assert Solutions(N, p) == {p};
  }

  // ---- Mirror symmetry ---------------------------------------------------------------

  function Mirror(N: nat, q: seq<nat>): (m: seq<nat>)
    ensures |m| == |q|
    ensures forall r :: 0 <= r < |q| && q[r] < N ==> m[r] == N - 1 - q[r]
  {
    seq(|q|, r requires 0 <= r < |q| => if q[r] < N then N - 1 - q[r] else q[r])
  }

  function MirrorOf(N: nat): seq<nat> -> seq<nat> {
    q => Mirror(N, q)
  }

  lemma MirrorTwice(N: nat, q: seq<nat>)
    requires OnBoard(N, q, 0)
    ensures OnBoard(N, Mirror(N, q), 0) && Mirror(N, Mirror(N, q)) == q
  {
  }

  lemma MirrorLegal(N: nat, q: seq<nat>)
    requires OnBoard(N, q, 0) && Legal(q)
    ensures Legal(Mirror(N, q))
  {
    var m := Mirror(N, q);
    forall a, b | 0 <= a < b < |m| ensures !Attacks(a, m[a], b, m[b]) {
      assert !Attacks(a, q[a], b, q[b]);
    }
  }

  lemma MirrorSolution(N: nat, c: nat, q: seq<nat>)
    requires c < N && q in Solutions(N, [c])
    ensures OnBoard(N, q, 0)
    ensures Mirror(N, q) in Solutions(N, [N - 1 - c])
  {
    InSolutions(N, [c], q);
    assert q[0] == [c][0];
    MirrorTwice(N, q);
    MirrorLegal(N, q);
    InSolutions(N, [N - 1 - c], Mirror(N, q));
  }

  /** Reflecting the board left to right carries first column `c` to `N - 1 - c`. */
  lemma MirrorCount(N: nat, c: nat)
    requires c < N
    ensures Count(N, [c]) == Count(N, [N - 1 - c])
  {
    var a, b := Solutions(N, [c]), Solutions(N, [N - 1 - c]);
    var f := MirrorOf(N);
    forall x, y | x in a && y in a && f(x) == f(y) ensures x == y {
      MirrorSolution(N, c, x);
      MirrorSolution(N, c, y);
      MirrorTwice(N, x);
      MirrorTwice(N, y);
    }
    forall x | x in a ensures f(x) in b {
      MirrorSolution(N, c, x);
    }
    forall y | y in b ensures exists x :: x in a && f(x) == y {
      MirrorSolution(N, N - 1 - c, y);
      MirrorTwice(N, y);
      assert f(Mirror(N, y)) == y;
    }
    Cardinality.SameSize(a, b, f);
  }

  /** The weight the clients give to first column `c`: a column and its mirror image, or itself. */
  function Weight(N: nat, c: nat): nat {
    if N % 2 == 1 && c == N / 2 then 1 else 2
  }

  function Half(N: nat): nat {
    (N + 1) / 2
  }

  ghost function WeightedSum(N: nat, c: nat): nat
    requires c <= Half(N)
  {
    if c == 0 then 0 else WeightedSum(N, c - 1) + Weight(N, c - 1) * Count(N, [c - 1])
  }

  /** The first `c` columns and the last `c`, counted twice over the first `c` only. */
  lemma {:induction false} MirroredHalves(N: nat, c: nat)
    requires 0 < N && c <= N / 2
    ensures WeightedSum(N, c) == SumColumns(N, [], c) + SumColumns(N, [], N) - SumColumns(N, [], N - c)
  {
    if c > 0 {
      MirroredHalves(N, c - 1);
      MirrorCount(N, c - 1);
      assert [] + [c - 1] == [c - 1] && [] + [N - c] == [N - c];
      assert SumColumns(N, [], N - c + 1) == SumColumns(N, [], N - c) + Count(N, [] + [N - c]);
    }
  }

  /** Half the columns, doubled except for the middle one of an odd board, give every placement. */
  lemma WeightedTotal(N: nat)
    requires 0 < N
    ensures WeightedSum(N, Half(N)) == Count(N, [])
  {
    MirroredHalves(N, N / 2);
    CountByColumn(N, []);
    if N % 2 == 1 {
      assert [] + [N / 2] == [N / 2];
      assert N - N / 2 == N / 2 + 1;
      assert SumColumns(N, [], N / 2 + 1) == SumColumns(N, [], N / 2) + Count(N, [] + [N / 2]);
    }
  }

  // ---- How many there can be ---------------------------------------------------------

  function Factorial(n: nat): (f: nat)
    ensures f >= 1
  {
    if n == 0 then 1 else n * Factorial(n - 1)
  }

  /** The columns before `c` that no queen of `p` stands in. */
  ghost function Open(p: seq<nat>, c: nat): nat {
    if c == 0 then 0 else Open(p, c - 1) + if c - 1 in p then 0 else 1
  }

  lemma {:induction false} OpenAfter(p: seq<nat>, k: nat, c: nat)
    requires k !in p
    ensures Open(p + [k], c) == Open(p, c) - if k < c then 1 else 0
  {
    if c > 0 {
      OpenAfter(p, k, c - 1);
      assert c - 1 in p + [k] <==> c - 1 in p || c - 1 == k;
    }
  }

  /** A partial board has at most as many completions as its open columns have orders. */
  lemma {:induction false} CountBound(N: nat, p: seq<nat>)
    requires |p| <= N
    ensures Count(N, p) <= Factorial(Open(p, N))
    decreases N - |p|, N + 1
  {
    if !Legal(p) {
      NoneIfIllegal(N, p);
    } else if |p| == N {
      FullBoard(N, p);
    } else {
      CountByColumn(N, p);
      SumBound(N, p, N);
    }
  }

  lemma {:induction false} SumBound(N: nat, p: seq<nat>, c: nat)
    requires |p| < N && c <= N
    ensures Open(p, c) <= Open(p, N)
    ensures SumColumns(N, p, c) <= Open(p, c) * (if Open(p, N) == 0 then 0 else Factorial(Open(p, N) - 1))
    decreases N - |p|, c
  {
    OpenMonotone(p, c, N);
    if c > 0 {
      SumBound(N, p, c - 1);
      OpenMonotone(p, c - 1, c);
      if c - 1 in p {
        var r :| 0 <= r < |p| && p[r] == c - 1;
        assert Attacks(r, p[r], |p|, c - 1);
        LegalAppend(p, c - 1);
        NoneIfIllegal(N, p + [c - 1]);
      } else {
        OpenAfter(p, c - 1, N);
        CountBound(N, p + [c - 1]);
        Distribute(Open(p, c - 1), Factorial(Open(p, N) - 1));
      }
    }
  }

  lemma Distribute(a: nat, b: nat)
    ensures (a + 1) * b == a * b + b
  {
  }

  lemma {:induction false} OpenMonotone(p: seq<nat>, c: nat, d: nat)
    requires c <= d
    ensures Open(p, c) <= Open(p, d) <= d
    decreases d
  {
    if c < d {
      OpenMonotone(p, c, d - 1);
    } else if d > 0 {
      OpenMonotone(p, c - 1, d - 1);
    }
  }

  lemma {:induction false} FactorialMonotone(a: nat, b: nat)
    requires a <= b
    ensures Factorial(a) <= Factorial(b)
    decreases b
  {
    if a < b {
      FactorialMonotone(a, b - 1);
      assert b * Factorial(b - 1) >= Factorial(b - 1);
    }
  }

  /** With at most 20 queens every count the program forms stays within int64. */
  lemma CountFitsInt64(N: nat, p: seq<nat>)
    requires |p| <= N <= 20
    ensures Count(N, p) < 0x8000_0000_0000_0000
  {
    CountBound(N, p);
    OpenMonotone(p, 0, N);
    FactorialMonotone(Open(p, N), 20);
    assert Factorial(10) == 3628800;
    assert Factorial(15) == 1307674368000;
    assert Factorial(20) == 2432902008176640000;
  }
}
