/** Worked scenarios on concrete boards: of placement legality, of filling
    a row one cell at a time, and of a row and a column completed together. */
module Scenarios {
  import opened Shapes
  import opened Board
  import opened Engine

  /** The empty board. */
  function Empty(): (g: seq<bool>)
    ensures IsBoard(g) && forall k :: 0 <= k < CellCount ==> !g[k]
  {
    seq(CellCount, _ => false)
  }

  /** A board whose filled cells all lie in row 0, left of column 7, has
      no full line, so a clearing call leaves it as it is. */
  lemma ShortRowClearsNothing(g: seq<bool>)
    requires IsBoard(g) && forall k :: 0 <= k < CellCount && g[k] ==> k < GridSize - 1
    ensures ClearFullLines(g) == Sweep(g, 0)
  {
    forall y | 0 <= y < GridSize
      ensures !RowFull(g, y)
    {
      assert !g[Index(GridSize - 1, y)];
    }
    forall x | 0 <= x < GridSize
      ensures !ColFull(g, x)
    {
      assert !g[Index(x, 1)];
    }
    NoneFullSweepsNothing(g);
  }

  /** Row 0 filled in its first k cells and nothing else. */
  function RowPrefix(k: nat): (g: seq<bool>)
    requires k <= GridSize
    ensures IsBoard(g)
    ensures forall x, y :: InBounds(x, y) ==> g[Index(x, y)] == (y == 0 && x < k)
  {
    seq(CellCount, i => i < k)
  }

  /** In slot terms: the first k slots are filled and no other. */
  lemma RowPrefixSlots(k: nat)
    requires k <= GridSize
    ensures forall i :: 0 <= i < CellCount ==> RowPrefix(k)[i] == (i < k)
  {
  }

  /** The 3-wide bar's offsets. */
  lemma ShortHeroOffsets()
    ensures Anchors(ShortHero) == [(0, 0), (1, 0), (2, 0)]
  {
  }

  /** The 3-wide bar at anchor (0, 0) lands on slots 0, 1 and 2. */
  lemma ShortHeroPreview()
    ensures Preview(Anchors(ShortHero), 0, 0) == [0, 1, 2]
  {
    ShortHeroOffsets();
    var offs := Anchors(ShortHero);
    assert offs[..2][..1] == [(0, 0)];
    assert offs[..2] == [(0, 0), (1, 0)];
  }

  /** At anchor (6, 0) the bar's third cell falls off the board; the
      preview keeps the two cells that land, slots 6 and 7. */
  lemma ShortHeroPartialPreview()
    ensures Preview(Anchors(ShortHero), 6, 0) == [6, 7]
  {
    ShortHeroOffsets();
    var offs := Anchors(ShortHero);
    assert offs[..2][..1] == [(0, 0)];
    assert offs[..2] == [(0, 0), (1, 0)];
    assert !Lands(offs[2], 6, 0);
  }

  /** On the empty board the 3-wide bar fits at anchor (0, 0). */
  lemma ShortHeroFits()
    ensures Placeable(Empty(), Piece(ShortHero, false), 0, 0)
  {
    ShortHeroOffsets();
  }

  /** Placing the 3-wide bar at anchor (0, 0) on the empty board fills
      exactly cells (0, 0), (1, 0) and (2, 0). */
  lemma ShortHeroPlaced()
    ensures Stamp(Empty(), Preview(Anchors(ShortHero), 0, 0)) == RowPrefix(3)
  {
    ShortHeroPreview();
    StampEffect(Empty(), [0, 1, 2]);
    RowPrefixSlots(3);
    assert Stamp(Empty(), [0, 1, 2]) == RowPrefix(3);
  }

  /** After that placement no line is full, so nothing is cleared and no
      points are scored. */
  lemma ShortHeroScenario()
    ensures var placed := Stamp(Empty(), Preview(Anchors(ShortHero), 0, 0));
      placed == RowPrefix(3) && ClearFullLines(placed) == Sweep(placed, 0)
  {
    ShortHeroPlaced();
    RowPrefixSlots(3);
    ShortRowClearsNothing(RowPrefix(3));
  }

  /** At anchor (6, 0) the 3-wide bar would need column 8, so it does not
      fit even on the empty board. */
  lemma ShortHeroOffBoard()
    ensures !Placeable(Empty(), Piece(ShortHero, false), 6, 0)
  {
    ShortHeroOffsets();
    assert Anchors(ShortHero)[2] == (2, 0);
    assert !Lands((2, 0), 6, 0);
  }

  /** Filling row 0 with single cells from the left: with cells 0 .. k-1
      already filled, the single at column k fits; the first seven such
      placements clear nothing, and the eighth completes row 0, which is
      cleared for one line (eight points), leaving the board empty. */
  lemma RowFillScenario(k: nat)
    requires k < GridSize
    ensures Placeable(RowPrefix(k), Piece(Single, false), k, 0)
    ensures var placed := Stamp(RowPrefix(k), Preview(Anchors(Single), k, 0));
      ClearFullLines(placed) ==
        if k == GridSize - 1 then Sweep(Empty(), 1) else Sweep(RowPrefix(k + 1), 0)
  {
    var g := RowPrefix(k);
    assert Preview(Anchors(Single), k, 0) == [k];
    var placed := Stamp(g, [k]);
    StampEffect(g, [k]);
    RowPrefixSlots(k);
    RowPrefixSlots(k + 1);
    assert placed == RowPrefix(k + 1);
    if k < GridSize - 1 {
      ShortRowClearsNothing(placed);
    } else {
      RowFillCompletes();
    }
  }

  /** The eighth single completes row 0; clearing it empties the board. */
  lemma RowFillCompletes()
    ensures ClearFullLines(RowPrefix(GridSize)) == Sweep(Empty(), 1)
  {
    var g := RowPrefix(GridSize);
    assert RowFull(g, 0);
    forall y | 1 <= y < GridSize
      ensures !RowFull(g, y)
    {
      assert !g[Index(0, y)];
    }
    SingleRowCleared(g, 0);
    var c := ClearFullLines(g).cells;
    IndexBijective();
    forall i | 0 <= i < CellCount
      ensures !c[i]
    {
      assert i == Index(i % GridSize, i / GridSize);
    }
    assert c == Empty();
  }

  /** The board whose row 0 and column 0 are filled and nothing else. */
  function Cross(): (g: seq<bool>)
    ensures IsBoard(g)
    ensures forall x, y :: InBounds(x, y) ==> g[Index(x, y)] == (x == 0 || y == 0)
  {
    seq(CellCount, k => k < GridSize || k % GridSize == 0)
  }

  /** Row 0 is the only full row of the cross. */
  lemma CrossFullRows()
    ensures forall y :: 0 <= y < GridSize ==> (RowFull(Cross(), y) <==> y == 0)
  {
    var g := Cross();
    assert RowFull(g, 0);
    forall y | 1 <= y < GridSize
      ensures !RowFull(g, y)
    {
      assert !g[Index(1, y)];
    }
  }

  /** Row 0 and column 0 full: the call clears row 0 only (one line, eight
      points), and column 0 keeps its seven lower cells because the cleared
      row already broke it. */
  lemma CrossScenario()
    ensures ClearFullLines(Cross()).lines == 1
    ensures !ClearFullLines(Cross()).cells[Index(0, 0)]
    ensures forall y :: 1 <= y < GridSize ==> ClearFullLines(Cross()).cells[Index(0, y)]
  {
    CrossFullRows();
    SingleRowCleared(Cross(), 0);
  }
}
