/** The 8 x 8 board as a value: a sequence of 64 cells in row-major order
    (cell (x, y) at index y * GridSize + x), with the placement and
    line-clearing rules stated as functions on it. */
module Board {
  import opened Shapes

  const GridSize: nat := 8
  const CellCount: nat := GridSize * GridSize

  /** A board value: exactly one flag per cell. */
  predicate IsBoard(g: seq<bool>) {
    |g| == CellCount
  }

  predicate InBounds(x: int, y: int) {
    0 <= x < GridSize && 0 <= y < GridSize
  }

  /** The storage slot of cell (x, y); every in-bounds cell has one below 64. */
  function Index(x: int, y: int): (i: nat)
    requires InBounds(x, y)
    ensures i < CellCount
  {
    y * GridSize + x
  }

  /** Row-major indexing is a bijection between the in-bounds cells and the
      slots 0 .. 63: no two cells share a slot and every slot is some cell. */
  lemma IndexBijective()
    ensures forall x, y, x', y' :: InBounds(x, y) && InBounds(x', y') && Index(x, y) == Index(x', y')
              ==> x == x' && y == y'
    ensures forall i :: 0 <= i < CellCount ==> InBounds(i % GridSize, i / GridSize) && Index(i % GridSize, i / GridSize) == i
  {
  }

  // ---------------------------------------------------------------------
  // Placement: where a shape lands and whether it fits
  // ---------------------------------------------------------------------

  /** Whether offset o, translated by the anchor (ax, ay), is on the board. */
  predicate Lands(o: Offset, ax: int, ay: int) {
    InBounds(ax + o.0, ay + o.1)
  }

  /** The slots of the translated offsets that are on the board, in offset
      order; offsets that fall off the board are skipped. */
  function Preview(offs: seq<Offset>, ax: int, ay: int): (r: seq<nat>)
    ensures |r| <= |offs|
    ensures forall c :: c in r ==> c < CellCount
  {
    if offs == [] then []
    else
      var o := offs[|offs| - 1];
      Preview(offs[..|offs| - 1], ax, ay) + (if Lands(o, ax, ay) then [Index(ax + o.0, ay + o.1)] else [])
  }

  /** Offset o, translated by the anchor, lands on slot c. */
  predicate LandsOn(o: Offset, ax: int, ay: int, c: nat) {
    Lands(o, ax, ay) && c == Index(ax + o.0, ay + o.1)
  }

  /** A slot is previewed exactly when some offset lands on it. */
  lemma {:induction false} PreviewMembers(offs: seq<Offset>, ax: int, ay: int, c: nat)
    ensures c in Preview(offs, ax, ay) <==> exists j :: 0 <= j < |offs| && LandsOn(offs[j], ax, ay, c)
  {
    if offs != [] {
      var n := |offs| - 1;
      var p := offs[..n];
      PreviewMembers(p, ax, ay, c);
      if c in Preview(offs, ax, ay) {
        if c in Preview(p, ax, ay) {
          var j :| 0 <= j < n && LandsOn(p[j], ax, ay, c);
          assert offs[j] == p[j];
        } else {
          assert LandsOn(offs[n], ax, ay, c);
        }
      }
      if exists j :: 0 <= j < |offs| && LandsOn(offs[j], ax, ay, c) {
        var j :| 0 <= j < |offs| && LandsOn(offs[j], ax, ay, c);
        if j < n {
          assert LandsOn(p[j], ax, ay, c);
        }
      }
    }
  }

  /** The previewed slots are exactly the slots some offset lands on. */
  lemma PreviewMembersAll(offs: seq<Offset>, ax: int, ay: int)
    ensures forall c :: c in Preview(offs, ax, ay) <==> exists j :: 0 <= j < |offs| && LandsOn(offs[j], ax, ay, c)
  {
    forall c: nat
      ensures c in Preview(offs, ax, ay) <==> exists j :: 0 <= j < |offs| && LandsOn(offs[j], ax, ay, c)
    {
      PreviewMembers(offs, ax, ay, c);
    }
  }

  /** The preview lists every offset exactly when every offset lands. */
  lemma {:induction false} PreviewComplete(offs: seq<Offset>, ax: int, ay: int)
    ensures |Preview(offs, ax, ay)| == |offs| <==> forall j :: 0 <= j < |offs| ==> Lands(offs[j], ax, ay)
  {
    if offs != [] {
      var n := |offs| - 1;
      PreviewComplete(offs[..n], ax, ay);
      assert forall j :: 0 <= j < n ==> offs[..n][j] == offs[j];
    }
  }

  /** The preview of two offset lists in a row is the preview of the first
      followed by that of the second: offsets are visited in order and each
      contributes its own slot or nothing. */
  lemma {:induction false} PreviewConcat(a: seq<Offset>, b: seq<Offset>, ax: int, ay: int)
    ensures Preview(a + b, ax, ay) == Preview(a, ax, ay) + Preview(b, ax, ay)
  {
    if b == [] {
      assert a + b == a;
    } else {
      var n := |b| - 1;
      var ab := a + b;
      var o := b[n];
      var tail := if Lands(o, ax, ay) then [Index(ax + o.0, ay + o.1)] else [];
      PreviewConcat(a, b[..n], ax, ay);
      assert ab[..|ab| - 1] == a + b[..n];
      assert ab[|ab| - 1] == o;
      assert Preview(ab, ax, ay) == Preview(a + b[..n], ax, ay) + tail;
      assert Preview(b, ax, ay) == Preview(b[..n], ax, ay) + tail;
    }
  }

  /** When every offset lands, the preview keeps them all and the j-th
      previewed slot is the slot of the j-th offset. */
  lemma {:induction false} PreviewInOrder(offs: seq<Offset>, ax: int, ay: int)
    ensures (forall j :: 0 <= j < |offs| ==> Lands(offs[j], ax, ay)) ==>
      |Preview(offs, ax, ay)| == |offs| &&
      forall j :: 0 <= j < |offs| ==> LandsOn(offs[j], ax, ay, Preview(offs, ax, ay)[j])
  {
    if offs != [] {
      var n := |offs| - 1;
      PreviewInOrder(offs[..n], ax, ay);
      assert forall j :: 0 <= j < n ==> offs[..n][j] == offs[j];
    }
  }

  /** Distinct offsets give distinct previewed slots. */
  lemma {:induction false} PreviewDistinct(offs: seq<Offset>, ax: int, ay: int)
    requires Distinct(offs)
    ensures forall j, k :: 0 <= j < k < |Preview(offs, ax, ay)| ==> Preview(offs, ax, ay)[j] != Preview(offs, ax, ay)[k]
  {
    if offs != [] {
      var n := |offs| - 1;
      var o := offs[n];
      var p := Preview(offs[..n], ax, ay);
      PreviewDistinct(offs[..n], ax, ay);
      if Lands(o, ax, ay) {
        var c := Index(ax + o.0, ay + o.1);
        if c in p {
          PreviewMembers(offs[..n], ax, ay, c);
          var j :| 0 <= j < n && LandsOn(offs[..n][j], ax, ay, c);
          IndexBijective();
          assert false;
        }
        assert Preview(offs, ax, ay) == p + [c];
      }
    }
  }

  /** With the anchor itself off the board (to the right or below), no
      offset of any shape lands, so the preview is empty. */
  lemma PreviewOffBoard(s: Shape, ax: int, ay: int)
    requires !InBounds(ax, ay) && ax >= 0 && ay >= 0
    ensures Preview(Anchors(s), ax, ay) == []
  {
    var offs := Anchors(s);
    PreviewMembersAll(offs, ax, ay);
    forall j | 0 <= j < |offs|
      ensures !Lands(offs[j], ax, ay)
    {
    }
    if Preview(offs, ax, ay) != [] {
      assert Preview(offs, ax, ay)[0] in Preview(offs, ax, ay);
    }
  }

  /** The first n offsets all land on empty cells of g. */
  predicate FitsPrefix(g: seq<bool>, offs: seq<Offset>, ax: int, ay: int, n: nat)
    requires IsBoard(g) && n <= |offs|
  {
    forall j :: 0 <= j < n ==> Lands(offs[j], ax, ay) && !g[Index(ax + offs[j].0, ay + offs[j].1)]
  }

  /** The whole shape lands on empty cells of g. */
  predicate Fits(g: seq<bool>, offs: seq<Offset>, ax: int, ay: int)
    requires IsBoard(g)
  {
    FitsPrefix(g, offs, ax, ay, |offs|)
  }

  /** A shape fits exactly when its preview is complete and every previewed
      cell is empty: the legality check and the preview agree. */
  lemma {:induction false} FitsIffPreviewFree(g: seq<bool>, offs: seq<Offset>, ax: int, ay: int)
    requires IsBoard(g)
    ensures Fits(g, offs, ax, ay) <==>
      |Preview(offs, ax, ay)| == |offs| && forall c :: c in Preview(offs, ax, ay) ==> !g[c]
  {
    PreviewComplete(offs, ax, ay);
    if Fits(g, offs, ax, ay) {
      forall c | c in Preview(offs, ax, ay)
        ensures !g[c]
      {
        PreviewMembers(offs, ax, ay, c);
      }
    }
    if |Preview(offs, ax, ay)| == |offs| && forall c :: c in Preview(offs, ax, ay) ==> !g[c] {
      forall j | 0 <= j < |offs|
        ensures Lands(offs[j], ax, ay) && !g[Index(ax + offs[j].0, ay + offs[j].1)]
      {
        PreviewMembers(offs, ax, ay, Index(ax + offs[j].0, ay + offs[j].1));
      }
    }
  }

  /** g with the listed slots set to filled, written in list order. */
  function Stamp(g: seq<bool>, cells: seq<nat>): (r: seq<bool>)
    requires forall c :: c in cells ==> c < |g|
    ensures |r| == |g|
  {
    if cells == [] then g
    else
      var n := |cells| - 1;
      assert forall c :: c in cells[..n] ==> c in cells;
      assert cells[n] in cells;
      Stamp(g, cells[..n])[cells[n] := true]
  }

  /** After stamping, a slot is filled exactly when it was filled before or
      is one of the stamped slots. */
  lemma {:induction false} StampEffect(g: seq<bool>, cells: seq<nat>)
    requires forall c :: c in cells ==> c < |g|
    ensures forall k :: 0 <= k < |g| ==> Stamp(g, cells)[k] == (g[k] || k in cells)
  {
    if cells != [] {
      var n := |cells| - 1;
      assert forall c :: c in cells[..n] ==> c in cells;
      StampEffect(g, cells[..n]);
      assert cells == cells[..n] + [cells[n]];
    }
  }

  /** Stamping one more slot is a single write after the others. */
  lemma StampSnoc(g: seq<bool>, cells: seq<nat>, c: nat)
    requires c < |g| && forall c' :: c' in cells ==> c' < |g|
    ensures Stamp(g, cells + [c]) == Stamp(g, cells)[c := true]
  {
    assert (cells + [c])[..|cells|] == cells;
  }

  // ---------------------------------------------------------------------
  // Line clearing: the row pass, then the column pass
  // ---------------------------------------------------------------------

  predicate RowFull(g: seq<bool>, y: nat)
    requires IsBoard(g) && y < GridSize
  {
    forall x :: 0 <= x < GridSize ==> g[Index(x, y)]
  }

  predicate ColFull(g: seq<bool>, x: nat)
    requires IsBoard(g) && x < GridSize
  {
    forall y :: 0 <= y < GridSize ==> g[Index(x, y)]
  }

  /** g with every cell of row y emptied. */
  function ClearRow(g: seq<bool>, y: nat): (r: seq<bool>)
    requires IsBoard(g) && y < GridSize
    ensures IsBoard(r)
  {
    seq(CellCount, k requires 0 <= k < CellCount => g[k] && k / GridSize != y)
  }

  /** g with every cell of column x emptied. */
  function ClearCol(g: seq<bool>, x: nat): (r: seq<bool>)
    requires IsBoard(g) && x < GridSize
    ensures IsBoard(r)
  {
    seq(CellCount, k requires 0 <= k < CellCount => g[k] && k % GridSize != x)
  }

  /** Clearing row y0 empties exactly the cells of row y0. */
  lemma ClearRowAt(g: seq<bool>, y0: nat)
    requires IsBoard(g) && y0 < GridSize
    ensures forall x, y :: InBounds(x, y) ==> ClearRow(g, y0)[Index(x, y)] == (g[Index(x, y)] && y != y0)
  {
    forall x, y | InBounds(x, y)
      ensures ClearRow(g, y0)[Index(x, y)] == (g[Index(x, y)] && y != y0)
    {
      assert Index(x, y) / GridSize == y;
    }
  }

  /** Clearing column x0 empties exactly the cells of column x0. */
  lemma ClearColAt(g: seq<bool>, x0: nat)
    requires IsBoard(g) && x0 < GridSize
    ensures forall x, y :: InBounds(x, y) ==> ClearCol(g, x0)[Index(x, y)] == (g[Index(x, y)] && x != x0)
  {
    forall x, y | InBounds(x, y)
      ensures ClearCol(g, x0)[Index(x, y)] == (g[Index(x, y)] && x != x0)
    {
      assert Index(x, y) % GridSize == x;
    }
  }

  /** A board after some sweeping, with the number of lines cleared so far. */
  datatype Sweep = Sweep(cells: seq<bool>, lines: nat)

  /** Rows 0 .. n-1 judged one after another, each on the board left by the
      rows before it, and cleared when full. */
  function SweepRows(g: seq<bool>, n: nat): (s: Sweep)
    requires IsBoard(g) && n <= GridSize
    ensures IsBoard(s.cells) && s.lines <= n
  {
    if n == 0 then Sweep(g, 0)
    else
      var s := SweepRows(g, n - 1);
      if RowFull(s.cells, n - 1) then Sweep(ClearRow(s.cells, n - 1), s.lines + 1) else s
  }

  /** Columns 0 .. n-1 judged one after another, each on the board left by
      the columns before it, and cleared when full. */
  function SweepCols(g: seq<bool>, n: nat): (s: Sweep)
    requires IsBoard(g) && n <= GridSize
    ensures IsBoard(s.cells) && s.lines <= n
  {
    if n == 0 then Sweep(g, 0)
    else
      var s := SweepCols(g, n - 1);
      if ColFull(s.cells, n - 1) then Sweep(ClearCol(s.cells, n - 1), s.lines + 1) else s
  }

  /** One full line-clearing call: all rows, then all columns on the board
      the row pass left; the line count covers both passes. */
  function ClearFullLines(g: seq<bool>): (s: Sweep)
    requires IsBoard(g)
    ensures IsBoard(s.cells)
  {
    var rows := SweepRows(g, GridSize);
    var cols := SweepCols(rows.cells, GridSize);
    Sweep(cols.cells, rows.lines + cols.lines)
  }

  /** The number of full rows among rows 0 .. n-1 of g. */
  function FullRows(g: seq<bool>, n: nat): (r: nat)
    requires IsBoard(g) && n <= GridSize
    ensures r <= n
  {
    if n == 0 then 0 else FullRows(g, n - 1) + (if RowFull(g, n - 1) then 1 else 0)
  }

  /** The number of full columns among columns 0 .. n-1 of g. */
  function FullCols(g: seq<bool>, n: nat): (r: nat)
    requires IsBoard(g) && n <= GridSize
    ensures r <= n
  {
    if n == 0 then 0 else FullCols(g, n - 1) + (if ColFull(g, n - 1) then 1 else 0)
  }

  /** Clearing one row never changes whether a later row is full, so the
      sequential row pass empties exactly the rows that were full in g and
      counts them. */
  lemma {:induction false} SweepRowsEffect(g: seq<bool>, n: nat)
    requires IsBoard(g) && n <= GridSize
    ensures forall x, y :: InBounds(x, y) ==>
      SweepRows(g, n).cells[Index(x, y)] == (g[Index(x, y)] && !(y < n && RowFull(g, y)))
    ensures SweepRows(g, n).lines == FullRows(g, n)
  {
    if n > 0 {
      SweepRowsEffect(g, n - 1);
      var s := SweepRows(g, n - 1);
      var y0 := n - 1;
      assert RowFull(s.cells, y0) == RowFull(g, y0) by {
        assert forall x :: 0 <= x < GridSize ==> s.cells[Index(x, y0)] == g[Index(x, y0)];
      }
      if RowFull(s.cells, y0) {
        ClearRowAt(s.cells, y0);
      }
    }
  }

  /** The column pass likewise empties exactly the columns full in its input. */
  lemma {:induction false} SweepColsEffect(g: seq<bool>, n: nat)
    requires IsBoard(g) && n <= GridSize
    ensures forall x, y :: InBounds(x, y) ==>
      SweepCols(g, n).cells[Index(x, y)] == (g[Index(x, y)] && !(x < n && ColFull(g, x)))
    ensures SweepCols(g, n).lines == FullCols(g, n)
  {
    if n > 0 {
      SweepColsEffect(g, n - 1);
      var s := SweepCols(g, n - 1);
      var x0 := n - 1;
      assert ColFull(s.cells, x0) == ColFull(g, x0) by {
        assert forall y :: 0 <= y < GridSize ==> s.cells[Index(x0, y)] == g[Index(x0, y)];
      }
      if ColFull(s.cells, x0) {
        ClearColAt(s.cells, x0);
      }
    }
  }

  /** What one clearing call leaves in each cell: a cell survives when it was
      filled, its row was not full, and its column was not full after the
      row pass. The line count is the full rows of g plus the full columns
      of the row-swept board. */
  lemma ClearFullLinesEffect(g: seq<bool>)
    requires IsBoard(g)
    ensures forall x, y :: InBounds(x, y) ==>
      ClearFullLines(g).cells[Index(x, y)] ==
        (g[Index(x, y)] && !RowFull(g, y) && !ColFull(SweepRows(g, GridSize).cells, x))
    ensures ClearFullLines(g).lines == FullRows(g, GridSize) + FullCols(SweepRows(g, GridSize).cells, GridSize)
  {
    SweepRowsEffect(g, GridSize);
    SweepColsEffect(SweepRows(g, GridSize).cells, GridSize);
  }

  /** Clearing only ever empties cells. */
  lemma ClearFullLinesOnlyEmpties(g: seq<bool>)
    requires IsBoard(g)
    ensures forall k :: 0 <= k < CellCount && ClearFullLines(g).cells[k] ==> g[k]
  {
    ClearFullLinesEffect(g);
    IndexBijective();
    forall k | 0 <= k < CellCount && ClearFullLines(g).cells[k]
      ensures g[k]
    {
      assert k == Index(k % GridSize, k / GridSize);
    }
  }

  /** No row below n is counted full exactly when none is full. */
  lemma {:induction false} FullRowsZero(g: seq<bool>, n: nat)
    requires IsBoard(g) && n <= GridSize
    ensures FullRows(g, n) == 0 <==> forall y :: 0 <= y < n ==> !RowFull(g, y)
  {
    if n > 0 {
      FullRowsZero(g, n - 1);
    }
  }

  /** No column below n is counted full exactly when none is full. */
  lemma {:induction false} FullColsZero(g: seq<bool>, n: nat)
    requires IsBoard(g) && n <= GridSize
    ensures FullCols(g, n) == 0 <==> forall x :: 0 <= x < n ==> !ColFull(g, x)
  {
    if n > 0 {
      FullColsZero(g, n - 1);
    }
  }

  /** When row y0 is the only full row, the rows below n count one full row
      exactly when y0 is among them. */
  lemma {:induction false} FullRowsSingle(g: seq<bool>, y0: nat, n: nat)
    requires IsBoard(g) && y0 < GridSize && n <= GridSize
    requires forall y :: 0 <= y < GridSize ==> (RowFull(g, y) <==> y == y0)
    ensures FullRows(g, n) == if y0 < n then 1 else 0
  {
    if n > 0 {
      FullRowsSingle(g, y0, n - 1);
    }
  }

  /** Some row below n is full when the count of full rows is positive. */
  function FullRowWitness(g: seq<bool>, n: nat): (y: nat)
    requires IsBoard(g) && n <= GridSize && FullRows(g, n) > 0
    ensures y < n && RowFull(g, y)
  {
    if RowFull(g, n - 1) then n - 1 else FullRowWitness(g, n - 1)
  }

  /** Rows are judged and cleared before any column is judged: once a row
      is cleared every column has an empty cell, so that call clears no
      column and leaves the board the row pass produced. */
  lemma RowsBlockColumns(g: seq<bool>)
    requires IsBoard(g) && FullRows(g, GridSize) > 0
    ensures FullCols(SweepRows(g, GridSize).cells, GridSize) == 0
    ensures ClearFullLines(g) == Sweep(SweepRows(g, GridSize).cells, FullRows(g, GridSize))
  {
    var y := FullRowWitness(g, GridSize);
    var r := SweepRows(g, GridSize).cells;
    SweepRowsEffect(g, GridSize);
    forall x | 0 <= x < GridSize
      ensures !ColFull(r, x)
    {
      assert !r[Index(x, y)];
    }
    FullColsZero(r, GridSize);
    SweepColsEffect(r, GridSize);
    IndexBijective();
    var c := ClearFullLines(g).cells;
    forall k | 0 <= k < CellCount
      ensures c[k] == r[k]
    {
      assert k == Index(k % GridSize, k / GridSize);
    }
  }

  /** When row y0 is the only full row, a clearing call empties exactly
      that row, clears no column, and counts one line. */
  lemma SingleRowCleared(g: seq<bool>, y0: nat)
    requires IsBoard(g) && y0 < GridSize
    requires forall y :: 0 <= y < GridSize ==> (RowFull(g, y) <==> y == y0)
    ensures ClearFullLines(g).lines == 1
    ensures forall x, y :: InBounds(x, y) ==> ClearFullLines(g).cells[Index(x, y)] == (g[Index(x, y)] && y != y0)
  {
    FullRowsSingle(g, y0, GridSize);
    RowsBlockColumns(g);
    SweepRowsEffect(g, GridSize);
  }

  /** After a clearing call no row and no column is full. */
  lemma NoFullLineAfter(g: seq<bool>)
    requires IsBoard(g)
    ensures forall y :: 0 <= y < GridSize ==> !RowFull(ClearFullLines(g).cells, y)
    ensures forall x :: 0 <= x < GridSize ==> !ColFull(ClearFullLines(g).cells, x)
  {
    var r := SweepRows(g, GridSize).cells;
    var c := ClearFullLines(g).cells;
    SweepRowsEffect(g, GridSize);
    ClearFullLinesEffect(g);
    forall y | 0 <= y < GridSize
      ensures !RowFull(c, y)
    {
      if RowFull(g, y) {
        assert !c[Index(0, y)];
      } else {
        var x :| 0 <= x < GridSize && !g[Index(x, y)];
        assert !c[Index(x, y)];
      }
    }
    forall x | 0 <= x < GridSize
      ensures !ColFull(c, x)
    {
      if ColFull(r, x) {
        assert !c[Index(x, 0)];
      } else {
        var y :| 0 <= y < GridSize && !r[Index(x, y)];
        assert !c[Index(x, y)];
      }
    }
  }

  /** One call clears at most eight lines, all rows or all columns: when
      some row is full the call is the row pass alone, and otherwise it is
      the column pass alone on the unchanged board. */
  lemma AtMostOneDirection(g: seq<bool>)
    requires IsBoard(g)
    ensures ClearFullLines(g).lines <= GridSize
    ensures ClearFullLines(g).lines == FullRows(g, GridSize) || ClearFullLines(g).lines == FullCols(g, GridSize)
    ensures ClearFullLines(g) == if FullRows(g, GridSize) > 0 then SweepRows(g, GridSize) else SweepCols(g, GridSize)
  {
    SweepRowsEffect(g, GridSize);
    if FullRows(g, GridSize) > 0 {
      RowsBlockColumns(g);
    } else {
      FullRowsZero(g, GridSize);
      UnchangedSweepRows(g, GridSize);
      SweepColsEffect(g, GridSize);
    }
  }

  /** Clearing twice is clearing once: the second call finds nothing. */
  lemma ClearFullLinesIdempotent(g: seq<bool>)
    requires IsBoard(g)
    ensures ClearFullLines(ClearFullLines(g).cells) == Sweep(ClearFullLines(g).cells, 0)
  {
    var c := ClearFullLines(g).cells;
    NoFullLineAfter(g);
    NoneFullSweepsNothing(c);
  }

  /** A board without a full row or column is left as it is, with no line. */
  lemma NoneFullSweepsNothing(c: seq<bool>)
    requires IsBoard(c)
    requires forall y :: 0 <= y < GridSize ==> !RowFull(c, y)
    requires forall x :: 0 <= x < GridSize ==> !ColFull(c, x)
    ensures ClearFullLines(c) == Sweep(c, 0)
  {
    UnchangedSweepRows(c, GridSize);
    UnchangedSweepCols(c, GridSize);
  }

  lemma {:induction false} UnchangedSweepRows(c: seq<bool>, n: nat)
    requires IsBoard(c) && n <= GridSize
    requires forall y :: 0 <= y < GridSize ==> !RowFull(c, y)
    ensures SweepRows(c, n) == Sweep(c, 0)
  {
    if n > 0 {
      UnchangedSweepRows(c, n - 1);
    }
  }

  lemma {:induction false} UnchangedSweepCols(c: seq<bool>, n: nat)
    requires IsBoard(c) && n <= GridSize
    requires forall x :: 0 <= x < GridSize ==> !ColFull(c, x)
    ensures SweepCols(c, n) == Sweep(c, 0)
  {
    if n > 0 {
      UnchangedSweepCols(c, n - 1);
    }
  }
}
