/**
 * The server's depth-first search (examples/nqueens/server.cc): three arrays of 32-bit masks,
 * one entry a row, overwritten in place as the search goes down.
 */
module QueensServer {
  import opened Words
  import opened Queens

  const MAX_QUEENS: nat := 20
  const WORD_BITS: nat := 32

  // ---- What the three masks of a row stand for ---------------------------------------

  ghost predicate OnColumn(p: seq<nat>, j: nat) {
    exists r :: 0 <= r < |p| && p[r] == j
  }

  /** A queen of `p` reaches column `j` of the next row going down to the left. */
  ghost predicate OnDiagonal(p: seq<nat>, j: nat) {
    exists r :: 0 <= r < |p| && p[r] == j + |p| - r
  }

  /** A queen of `p` reaches column `j` of the next row going down to the right. */
  ghost predicate OnAntidiagonal(p: seq<nat>, j: nat) {
    exists r :: 0 <= r < |p| && p[r] + |p| - r == j
  }

  /**
   * Every bit of the three masks is exact, at any word width, whatever has been shifted out.
   */
  ghost predicate Encodes(columns: Word, diagonal: Word, antidiagonal: Word, p: seq<nat>) {
    && |columns| == |diagonal| == |antidiagonal|
    && forall j :: 0 <= j < |columns| ==>
         && columns[j] == OnColumn(p, j)
         && diagonal[j] == OnDiagonal(p, j)
         && antidiagonal[j] == OnAntidiagonal(p, j)
  }

  lemma OnColumnAppend(p: seq<nat>, i: nat, j: nat)
    ensures OnColumn(p + [i], j) <==> OnColumn(p, j) || i == j
  {
    var q := p + [i];
    if OnColumn(q, j) && i != j {
      var r :| 0 <= r < |q| && q[r] == j;
      assert p[r] == j;
    }
    if OnColumn(p, j) {
      var r :| 0 <= r < |p| && p[r] == j;
      assert q[r] == j;
    }
    if i == j {
      assert q[|p|] == j;
    }
  }

  lemma OnDiagonalAppend(p: seq<nat>, i: nat, j: nat)
    ensures OnDiagonal(p + [i], j) <==> OnDiagonal(p, j + 1) || i == j + 1
  {
    var q := p + [i];
    if OnDiagonal(q, j) && i != j + 1 {
      var r :| 0 <= r < |q| && q[r] == j + |q| - r;
      assert p[r] == j + 1 + |p| - r;
    }
    if OnDiagonal(p, j + 1) {
      var r :| 0 <= r < |p| && p[r] == j + 1 + |p| - r;
      assert q[r] == j + |q| - r;
    }
    if i == j + 1 {
      assert q[|p|] == j + |q| - |p|;
    }
  }

  lemma OnAntidiagonalAppend(p: seq<nat>, i: nat, j: nat)
    ensures OnAntidiagonal(p + [i], j) <==> j > 0 && (OnAntidiagonal(p, j - 1) || i == j - 1)
  {
    var q := p + [i];
    if OnAntidiagonal(q, j) {
      var r :| 0 <= r < |q| && q[r] + |q| - r == j;
      if r < |p| {
        assert p[r] + |p| - r == j - 1;
      }
    }
    if j > 0 && OnAntidiagonal(p, j - 1) {
      var r :| 0 <= r < |p| && p[r] + |p| - r == j - 1;
      assert q[r] + |q| - r == j;
    }
    if j > 0 && i == j - 1 {
      assert q[|p|] + |q| - |p| == j;
    }
  }

  lemma NotOnDiagonal(p: seq<nat>, j: nat)
    requires OnBoard(j, p, 0)
    ensures !OnDiagonal(p, j)
  {
  }

  function Avail(columns: Word, diagonal: Word, antidiagonal: Word): Word
    requires |columns| == |diagonal| == |antidiagonal|
  {
    Not(Or(Or(columns, diagonal), antidiagonal))
  }

  lemma PlaceableByLines(p: seq<nat>, j: nat)
    ensures Placeable(p, j) <==> !OnColumn(p, j) && !OnDiagonal(p, j) && !OnAntidiagonal(p, j)
  {
    if !Placeable(p, j) {
      var r :| 0 <= r < |p| && Attacks(r, p[r], |p|, j);
      assert p[r] == j || p[r] == j + |p| - r || p[r] + |p| - r == j;
    }
    if OnColumn(p, j) {
      var r :| 0 <= r < |p| && p[r] == j;
      assert Attacks(r, p[r], |p|, j);
    } else if OnDiagonal(p, j) {
      var r :| 0 <= r < |p| && p[r] == j + |p| - r;
      assert Attacks(r, p[r], |p|, j);
    } else if OnAntidiagonal(p, j) {
      var r :| 0 <= r < |p| && p[r] + |p| - r == j;
      assert Attacks(r, p[r], |p|, j);
    }
  }

  /** The set bits of `avail` are exactly the columns no earlier queen attacks. */
  lemma AvailIsPlaceable(columns: Word, diagonal: Word, antidiagonal: Word, p: seq<nat>)
    requires Encodes(columns, diagonal, antidiagonal, p)
    ensures forall j :: 0 <= j < |columns| ==> Avail(columns, diagonal, antidiagonal)[j] == Placeable(p, j)
  {
    forall j | 0 <= j < |columns| ensures Avail(columns, diagonal, antidiagonal)[j] == Placeable(p, j) {
      PlaceableByLines(p, j);
    }
  }

  /** Placing a queen and going down a row: or in its bit, then shift the two diagonals. */
  lemma EncodesDown(columns: Word, diagonal: Word, antidiagonal: Word, p: seq<nat>, i: nat)
    requires i < |columns| && OnBoard(|columns|, p, 0)
    requires Encodes(columns, diagonal, antidiagonal, p)
    ensures var m := Mask(|columns|, i);
      Encodes(Or(columns, m), ShiftDown(Or(diagonal, m)), ShiftUp(Or(antidiagonal, m)), p + [i])
  {
    AppendedLines(|columns|, p, i);
    NotOnDiagonal(p, |columns|);
  }

  lemma AppendedLines(width: nat, p: seq<nat>, i: nat)
    ensures forall j: nat :: j < width ==> (OnColumn(p + [i], j) <==> OnColumn(p, j) || i == j)
    ensures forall j: nat :: j < width ==> (OnDiagonal(p + [i], j) <==> OnDiagonal(p, j + 1) || i == j + 1)
    ensures forall j: nat :: j < width ==>
      (OnAntidiagonal(p + [i], j) <==> j > 0 && (OnAntidiagonal(p, j - 1) || i == j - 1))
  {
    forall j: nat | j < width
      ensures OnColumn(p + [i], j) <==> OnColumn(p, j) || i == j
      ensures OnDiagonal(p + [i], j) <==> OnDiagonal(p, j + 1) || i == j + 1
      ensures OnAntidiagonal(p + [i], j) <==> j > 0 && (OnAntidiagonal(p, j - 1) || i == j - 1)
    {
      OnColumnAppend(p, i, j);
      OnDiagonalAppend(p, i, j);
      OnAntidiagonalAppend(p, i, j);
    }
  }

  /** `avail` holds exactly the placeable columns from `c` on. */
  ghost predicate Remaining(avail: Word, p: seq<nat>, c: nat) {
    |avail| == WORD_BITS && forall j :: 0 <= j < WORD_BITS ==> avail[j] == (c <= j && Placeable(p, j))
  }

  /** The lowest set bit is the next placeable column; clearing it moves past that column. */
  lemma NextColumn(N: nat, avail: Word, p: seq<nat>, c: nat)
    requires c <= N <= WORD_BITS && Remaining(avail, p, c) && Nonzero(avail)
    ensures c <= Ctz(avail) && Placeable(p, Ctz(avail))
    ensures Remaining(And(avail, Decrement(avail)), p, Ctz(avail) + 1)
    ensures |p| < N && Ctz(avail) < N ==> SumColumns(N, p, c) == SumColumns(N, p, Ctz(avail))
    ensures |p| < N && Ctz(avail) >= N ==> SumColumns(N, p, c) == Count(N, p)
  {
    ClearLowest(avail);
    if |p| < N {
      SkipColumns(N, p, c, if Ctz(avail) < N then Ctz(avail) else N);
      CountByColumn(N, p);
    }
  }

  lemma NoColumnLeft(N: nat, avail: Word, p: seq<nat>, c: nat)
    requires |p| < N && c <= N <= WORD_BITS && Remaining(avail, p, c) && !Nonzero(avail)
    ensures SumColumns(N, p, c) == Count(N, p)
  {
    forall j | c <= j < N ensures !Placeable(p, j) {
      assert !avail[j];
    }
    SkipColumns(N, p, c, N);
    CountByColumn(N, p);
  }

  // ---- The search --------------------------------------------------------------------

  class BackTracking {
    const N: nat
    var count: nat
    const columns: array<Word>
    const diagonal: array<Word>
    const antidiagonal: array<Word>

    ghost predicate Valid() {
      && 0 < N <= MAX_QUEENS
      && columns.Length == diagonal.Length == antidiagonal.Length == MAX_QUEENS
      && columns != diagonal && columns != antidiagonal && diagonal != antidiagonal
    }

    constructor (nqueens: nat)
      requires 0 < nqueens <= MAX_QUEENS
      ensures Valid() && N == nqueens && count == 0
      ensures fresh(columns) && fresh(diagonal) && fresh(antidiagonal)
      ensures forall k :: 0 <= k < MAX_QUEENS ==> columns[k] == diagonal[k] == antidiagonal[k] == Zero(WORD_BITS)
    {
      N, count := nqueens, 0;
      columns := new Word[MAX_QUEENS](_ => Zero(WORD_BITS));
      diagonal := new Word[MAX_QUEENS](_ => Zero(WORD_BITS));
      antidiagonal := new Word[MAX_QUEENS](_ => Zero(WORD_BITS));
    }

    ghost predicate EncodesRow(row: nat, p: seq<nat>)
      requires Valid() && row < MAX_QUEENS
      reads columns, diagonal, antidiagonal
    {
      |columns[row]| == WORD_BITS && Encodes(columns[row], diagonal[row], antidiagonal[row], p)
    }

    /** The masks of the rows up to `row` are those of the given arrays. */
    ghost predicate Kept(row: nat, c: seq<Word>, d: seq<Word>, a: seq<Word>)
      requires Valid() && row < MAX_QUEENS && |c| == |d| == |a| == MAX_QUEENS
      reads columns, diagonal, antidiagonal
    {
      forall k :: 0 <= k <= row ==> columns[k] == c[k] && diagonal[k] == d[k] && antidiagonal[k] == a[k]
    }

    /** Writes the masks of the row below `row` with a queen of `row` in column `i`. */
    method Place(row: nat, i: nat, ghost p: seq<nat>)
      requires Valid() && row + 1 < MAX_QUEENS && i < WORD_BITS && OnBoard(WORD_BITS, p, 0) && EncodesRow(row, p)
      modifies columns, diagonal, antidiagonal
      ensures EncodesRow(row + 1, p + [i])
      ensures Kept(row, old(columns[..]), old(diagonal[..]), old(antidiagonal[..]))
    {
      var mask := Mask(WORD_BITS, i);
      EncodesDown(columns[row], diagonal[row], antidiagonal[row], p, i);
      columns[row + 1] := Or(columns[row], mask);
      diagonal[row + 1] := ShiftDown(Or(diagonal[row], mask));
      antidiagonal[row + 1] := ShiftUp(Or(antidiagonal[row], mask));
    }

    /** How many rows the search can still go down. */
    ghost function Depth(row: nat, p: seq<nat>): nat {
      if row < N then N - row else Open(p, N)
    }

    /** Counts the placement that a queen in column `i` of the last row ends, or goes down a row. */
    method Descend(row: nat, i: nat, ghost p: seq<nat>)
      requires Valid() && |p| == row < MAX_QUEENS && i < N
      requires OnBoard(WORD_BITS, p, 0) && Legal(p) && Placeable(p, i) && EncodesRow(row, p)
      requires row >= N ==> row + Open(p, N) < MAX_QUEENS
      modifies this`count, columns, diagonal, antidiagonal
      ensures count == old(count) + if row < N then Count(N, p + [i]) else 0
      ensures Kept(row, old(columns[..]), old(diagonal[..]), old(antidiagonal[..]))
      decreases Depth(row, p), 0
    {
      LegalAppend(p, i);
      if row == N - 1 {
        FullBoard(N, p + [i]);
        count := count + 1;
      } else {
        TakesColumn(N, p, i);
        Place(row, i, p);
        Search(row + 1, p + [i]);
      }
    }

    /**
     * Adds to `count` the number of completions of the board `p` that the masks of `row`
     * encode, and leaves the masks of `row` and of the rows above it as they were. Below the
     * last row it counts nothing and ends when no column is open.
     */
    method Search(row: nat, ghost p: seq<nat>)
      requires Valid() && |p| == row < MAX_QUEENS
      requires OnBoard(WORD_BITS, p, 0) && Legal(p) && EncodesRow(row, p)
      requires row >= N ==> row + Open(p, N) < MAX_QUEENS
      modifies this`count, columns, diagonal, antidiagonal
      ensures count == old(count) + if row < N then Count(N, p) else 0
      ensures Kept(row, old(columns[..]), old(diagonal[..]), old(antidiagonal[..]))
      decreases Depth(row, p), 1
    {
      var avail := Or(Or(columns[row], diagonal[row]), antidiagonal[row]);
      avail := Not(avail);
      AvailIsPlaceable(columns[row], diagonal[row], antidiagonal[row], p);

      ghost var c := 0;
      ghost var done := false;
      while Nonzero(avail)
        invariant c <= N && Remaining(avail, p, c)
        invariant count == old(count) + if row < N then SumColumns(N, p, c) else 0
        invariant Kept(row, old(columns[..]), old(diagonal[..]), old(antidiagonal[..]))
        decreases N - c
      {
        var i := Ctz(avail);
        NextColumn(N, avail, p, c);
        if i >= N {
          done := true;
          break;
        }
        Descend(row, i, p);
        avail := And(avail, Decrement(avail));
        c := i + 1;
      }
      if row < N && !done {
        NoColumnLeft(N, avail, p, c);
      }
    }
  }

  /** `avail & m1` tests one bit. */
  lemma TestBit(avail: Word, i: nat)
    requires i < |avail|
    ensures Nonzero(And(avail, Mask(|avail|, i))) <==> avail[i]
  {
    assert And(avail, Mask(|avail|, i))[i] == avail[i];
  }

  lemma TwoRows(N: nat, f: nat, s: nat)
    requires N > 1
    ensures Legal([f, s]) <==> Placeable([f], s)
    ensures !Placeable([f], s) ==> Count(N, [f, s]) == 0
    ensures Placeable([f], s) && f < N && s < N ==> N > 2
  {
    LegalAppend([f], s);
    assert [f] + [s] == [f, s];
    assert Placeable([f], s) ==> !Attacks(0, [f][0], 1, s);
    if !Legal([f, s]) {
      NoneIfIllegal(N, [f, s]);
    }
  }

  /** A queen in a free column leaves one open column fewer. */
  lemma TakesColumn(N: nat, p: seq<nat>, i: nat)
    requires i < N && Placeable(p, i)
    ensures Open(p + [i], N) == Open(p, N) - 1
  {
    OpenAfter(p, i, N);
  }

  lemma EncodesFirst(firstRow: nat)
    requires firstRow < WORD_BITS
    ensures var m0 := Mask(WORD_BITS, firstRow); Encodes(m0, ShiftDown(m0), ShiftUp(m0), [firstRow])
  {
    var none, m0 := Zero(WORD_BITS), Mask(WORD_BITS, firstRow);
    EncodesDown(none, none, none, [], firstRow);
    assert [] + [firstRow] == [firstRow] && Or(none, m0) == m0;
  }

  /** The queens the request fixes: the second only if its column is not negative. */
  function Fixed(firstRow: nat, secondRow: int): seq<nat> {
    if secondRow < 0 then [firstRow] else [firstRow, secondRow]
  }

  /**
   * The count for a board whose first queen stands in column `firstRow` and, unless
   * `secondRow` is negative, whose second one stands in column `secondRow`; either may be
   * beside the board, as long as its bit is in the word. The search starts below the fixed
   * rows, so a board that has no further row counts 0.
   */
  method BacktrackingSub(N: nat, firstRow: nat, secondRow: int) returns (count: nat)
    requires 0 < N <= 20 && firstRow < 32 && secondRow < 32
    ensures var p := Fixed(firstRow, secondRow); count == if |p| < N then Count(N, p) else 0
  {
    var m0 := Mask(WORD_BITS, firstRow);
    var bt := new BackTracking(N);
    bt.columns[1] := m0;
    bt.diagonal[1] := ShiftDown(m0);
    bt.antidiagonal[1] := ShiftUp(m0);
    EncodesFirst(firstRow);

    if secondRow >= 0 {
      count := FixSecond(bt, firstRow, secondRow);
    } else {
      OpenMonotone([firstRow], N, N);
      bt.Search(1, [firstRow]);
      return bt.count;
    }
  }

  /** The branch for a second fixed row: nothing if the queens attack each other. */
  method FixSecond(bt: BackTracking, firstRow: nat, secondRow: nat) returns (count: nat)
    requires bt.Valid() && bt.count == 0 && firstRow < WORD_BITS && secondRow < WORD_BITS
    requires bt.EncodesRow(1, [firstRow])
    modifies bt, bt.columns, bt.diagonal, bt.antidiagonal
    ensures count == if 2 < bt.N then Count(bt.N, [firstRow, secondRow]) else 0
  {
    var row := 1;
    var m1 := Mask(WORD_BITS, secondRow);
    var avail := Or(Or(bt.columns[row], bt.diagonal[row]), bt.antidiagonal[row]);
    avail := Not(avail);
    AvailIsPlaceable(bt.columns[row], bt.diagonal[row], bt.antidiagonal[row], [firstRow]);
    TestBit(avail, secondRow);
    if bt.N > 1 {
      TwoRows(bt.N, firstRow, secondRow);
    }
    if Nonzero(And(avail, m1)) {
      OpenMonotone([firstRow, secondRow], bt.N, bt.N);
      bt.Place(row, secondRow, [firstRow]);
      LegalAppend([firstRow], secondRow);
      assert [firstRow] + [secondRow] == [firstRow, secondRow];
      bt.Search(row + 1, [firstRow, secondRow]);
      return bt.count;
    }
    return 0;
  }

  /** For columns on the board the answer is always the count, except for a single queen. */
  lemma OnBoardAnswer(N: nat, firstRow: nat, secondRow: int)
    requires N > 1 && firstRow < N && secondRow < N
    ensures |Fixed(firstRow, secondRow)| >= N ==> Count(N, Fixed(firstRow, secondRow)) == 0
  {
    if secondRow >= 0 {
      TwoRows(N, firstRow, secondRow);
    }
  }
}
