/** The game session: an 8 x 8 board stored as a flat array, a queue of
    three pieces, and the score. The random draws of a new piece are
    supplied by the caller as indices into the variant table. */
module Engine {
  import opened Shapes
  import opened Board

  /** One queue slot: a shape and whether it has been placed already. */
  datatype Piece = Piece(shape: Shape, used: bool)

  /** The table a fresh piece's shape is drawn from: every shape, once. */
  const Variants: seq<Shape> := [
    OrangeRicky, BlueRicky, ClevelandZ, RhodeIslandZ, Hero, Teewee, Smashboy,
    OrganeRickyUp, BlueRickyUp, ClevelandZUp, RhodeIslandZUp, HeroUp,
    LongHero, LongHeroUp, ShortHero, ShortHeroUp, Duce, DuceUp, Single,
    TeeweeDown, TeeweeRight, TeeweeLeft, LongSmashboy, LongSmashboyUp, Huge
  ]

  /** The position of each shape in the variant table. */
  function VariantIndex(s: Shape): (k: nat)
    ensures k < |Variants| && Variants[k] == s
  {
    match s
    case OrangeRicky => 0
    case BlueRicky => 1
    case ClevelandZ => 2
    case RhodeIslandZ => 3
    case Hero => 4
    case Teewee => 5
    case Smashboy => 6
    case OrganeRickyUp => 7
    case BlueRickyUp => 8
    case ClevelandZUp => 9
    case RhodeIslandZUp => 10
    case HeroUp => 11
    case LongHero => 12
    case LongHeroUp => 13
    case ShortHero => 14
    case ShortHeroUp => 15
    case Duce => 16
    case DuceUp => 17
    case Single => 18
    case TeeweeDown => 19
    case TeeweeRight => 20
    case TeeweeLeft => 21
    case LongSmashboy => 22
    case LongSmashboyUp => 23
    case Huge => 24
  }

  /** The variant table lists each of the 25 shapes exactly once, so every
      shape can be drawn and by exactly one index. */
  lemma VariantsComplete()
    ensures |Variants| == 25
    ensures forall s: Shape :: s in Variants
    ensures forall j, k :: 0 <= j < k < |Variants| ==> Variants[j] != Variants[k]
  {
    forall s: Shape
      ensures s in Variants
    {
      assert Variants[VariantIndex(s)] == s;
    }
    forall k | 0 <= k < |Variants|
      ensures VariantIndex(Variants[k]) == k
    {
    }
  }

  /** A fresh, unused piece whose shape is the variant at the drawn index. */
  function RandomPiece(idx: nat): (p: Piece)
    requires idx < |Variants|
    ensures !p.used && p.shape in Variants
  {
    Piece(Variants[idx], false)
  }

  /** Every shape is the outcome of some draw. */
  lemma EveryShapeDrawable(s: Shape)
    ensures exists idx :: 0 <= idx < |Variants| && RandomPiece(idx).shape == s
  {
    VariantsComplete();
    assert s in Variants;
    var idx :| 0 <= idx < |Variants| && Variants[idx] == s;
    assert RandomPiece(idx).shape == s;
  }

  /** Every slot of a queue has been placed. */
  predicate AllUsed(ps: seq<Piece>) {
    forall j :: 0 <= j < |ps| ==> ps[j].used
  }

  /** Whether piece p may be placed with its anchor at (ax, ay) on g: it is
      unused and each of its cells lands on an empty cell of the board. */
  predicate Placeable(g: seq<bool>, p: Piece, ax: int, ay: int)
    requires IsBoard(g)
  {
    !p.used && Fits(g, Anchors(p.shape), ax, ay)
  }

  /** Placing a legal piece, before any clearing, fills every cell under
      its offsets, and every cell it changes was empty and lies under one
      of them; all other cells keep their value. */
  lemma PlacementEffect(g: seq<bool>, p: Piece, ax: int, ay: int)
    requires IsBoard(g) && Placeable(g, p, ax, ay)
    ensures var offs := Anchors(p.shape);
      var placed := Stamp(g, Preview(offs, ax, ay));
      IsBoard(placed) &&
      (forall j :: 0 <= j < |offs| ==> placed[Index(ax + offs[j].0, ay + offs[j].1)]) &&
      (forall k :: 0 <= k < CellCount && placed[k] != g[k] ==>
        !g[k] && placed[k] && exists j :: 0 <= j < |offs| && LandsOn(offs[j], ax, ay, k))
  {
    var offs := Anchors(p.shape);
    PreviewMembersAll(offs, ax, ay);
    StampEffect(g, Preview(offs, ax, ay));
    forall j | 0 <= j < |offs|
      ensures Index(ax + offs[j].0, ay + offs[j].1) in Preview(offs, ax, ay)
    {
      assert LandsOn(offs[j], ax, ay, Index(ax + offs[j].0, ay + offs[j].1));
    }
  }

  class KoalaKombo {
    var board: array<bool>
    var pieces: seq<Piece>
    var score: nat

    /** The board has one flag per cell, the queue has three slots, and at
        least one slot is still unused between calls. */
    ghost predicate Valid()
      reads this
    {
      board.Length == CellCount && |pieces| == 3 && !AllUsed(pieces)
    }

    /** A new game: an empty board, three fresh pieces drawn at d0, d1 and
        d2, and a score of 0. */
    constructor (d0: nat, d1: nat, d2: nat)
      requires d0 < |Variants| && d1 < |Variants| && d2 < |Variants|
      ensures Valid() && fresh(board)
      ensures forall k :: 0 <= k < CellCount ==> !board[k]
      ensures pieces == [RandomPiece(d0), RandomPiece(d1), RandomPiece(d2)]
      ensures score == 0
    {
      board := new bool[CellCount](_ => false);
      pieces := [RandomPiece(d0), RandomPiece(d1), RandomPiece(d2)];
      score := 0;
      new;
      assert !pieces[0].used;
    }

    /** Whether cell (x, y) is filled, read from its row-major slot. */
    function CellFilled(x: nat, y: nat): (r: bool)
      requires Valid() && x < GridSize && y < GridSize
      reads this, board
      ensures r == board[..][Index(x, y)]
    {
      board[y * GridSize + x]
    }

    /** Decides whether slot i can be placed at anchor (ax, ay): the slot
        must be unused and its offsets must fit. */
    method CanPlace(i: nat, ax: nat, ay: nat) returns (ok: bool)
      requires Valid() && i < |pieces|
      ensures ok == Placeable(board[..], pieces[i], ax, ay)
    {
      var piece := pieces[i];
      if piece.used {
        return false;
      }
      ok := FitsAt(Anchors(piece.shape), ax, ay);
    }

    /** Visits the offsets in order and stops at the first one that falls off
        the board or onto a filled cell. */
    method FitsAt(offs: seq<Offset>, ax: nat, ay: nat) returns (ok: bool)
      requires board.Length == CellCount
      ensures ok == Fits(board[..], offs, ax, ay)
    {
      for k := 0 to |offs|
        invariant FitsPrefix(board[..], offs, ax, ay, k)
      {
        var x := ax + offs[k].0;
        var y := ay + offs[k].1;
        if x < 0 || y < 0 || x >= GridSize || y >= GridSize {
          return false;
        }
        if board[y * GridSize + x] {
          return false;
        }
      }
      return true;
    }

    /** The slots slot i would cover at anchor (ax, ay), in offset order,
        leaving out the offsets that fall off the board; occupancy and the
        used flag play no part. When every offset lands, the j-th slot is
        that of the j-th offset; when the anchor itself is off the board,
        nothing lands. A piece only partly on the board yields its on-board
        slots, not an empty list. */
    function PreviewCells(i: nat, ax: nat, ay: nat): (r: seq<nat>)
      requires Valid() && i < |pieces|
      reads this
      ensures forall c :: c in r ==> c < CellCount
      ensures |r| <= |Anchors(pieces[i].shape)|
      ensures |r| == |Anchors(pieces[i].shape)| <==>
        forall j :: 0 <= j < |Anchors(pieces[i].shape)| ==> Lands(Anchors(pieces[i].shape)[j], ax, ay)
      ensures forall c :: c in r <==>
        exists j :: 0 <= j < |Anchors(pieces[i].shape)| && LandsOn(Anchors(pieces[i].shape)[j], ax, ay, c)
      ensures forall j, k :: 0 <= j < k < |r| ==> r[j] != r[k]
      ensures (forall j :: 0 <= j < |Anchors(pieces[i].shape)| ==> Lands(Anchors(pieces[i].shape)[j], ax, ay)) ==>
        forall j :: 0 <= j < |r| ==> LandsOn(Anchors(pieces[i].shape)[j], ax, ay, r[j])
      ensures !InBounds(ax, ay) ==> r == []
      ensures r == Preview(Anchors(pieces[i].shape), ax, ay)
    {
      var offs := Anchors(pieces[i].shape);
      PreviewComplete(offs, ax, ay);
      PreviewMembersAll(offs, ax, ay);
      DistinctOffsets(pieces[i].shape);
      PreviewDistinct(offs, ax, ay);
      PreviewInOrder(offs, ax, ay);
      if !InBounds(ax, ay) then
        PreviewOffBoard(pieces[i].shape, ax, ay);
        []
      else
        Preview(offs, ax, ay)
    }

    /** Places slot i at anchor (ax, ay) when that is legal: fills its cells,
        marks it used, clears full lines and adds their points, and refills
        the queue from the draws d0, d1, d2 once all three slots are used.
        An illegal placement changes nothing. */
    method PlaceShape(i: nat, ax: nat, ay: nat, d0: nat, d1: nat, d2: nat) returns (ok: bool)
      requires Valid() && i < |pieces|
      requires d0 < |Variants| && d1 < |Variants| && d2 < |Variants|
      modifies this, board
      ensures Valid() && board == old(board)
      ensures ok == Placeable(old(board[..]), old(pieces[i]), ax, ay)
      ensures !ok ==> board[..] == old(board[..]) && pieces == old(pieces) && score == old(score)
      ensures ok ==>
        var placed := Stamp(old(board[..]), Preview(Anchors(old(pieces[i]).shape), ax, ay));
        board[..] == ClearFullLines(placed).cells && score == old(score) + GridSize * ClearFullLines(placed).lines
      ensures ok ==>
        var marked := old(pieces)[i := old(pieces[i]).(used := true)];
        pieces == if AllUsed(marked) then [RandomPiece(d0), RandomPiece(d1), RandomPiece(d2)] else marked
      ensures old(score) <= score <= old(score) + CellCount
    {
      ok := CanPlace(i, ax, ay);
      if !ok {
        return;
      }
      var shape := pieces[i].shape;
      FillCells(Anchors(shape), ax, ay);
      pieces := pieces[i := Piece(shape, true)];
      ghost var placed := board[..];
      var points := ClearLines();
      AtMostOneDirection(placed);
      score := score + points;
      if AllUsed(pieces) {
        pieces := [RandomPiece(d0), RandomPiece(d1), RandomPiece(d2)];
        assert !pieces[0].used;
      }
    }

    /** Writes filled into the cell under each offset, in offset order; the
        offsets must all land on the board. */
    method FillCells(offs: seq<Offset>, ax: nat, ay: nat)
      requires board.Length == CellCount && Fits(board[..], offs, ax, ay)
      modifies board
      ensures board[..] == Stamp(old(board[..]), Preview(offs, ax, ay))
    {
      ghost var g := board[..];
      for k := 0 to |offs|
        invariant board[..] == Stamp(g, Preview(offs[..k], ax, ay))
      {
        var x := ax + offs[k].0;
        var y := ay + offs[k].1;
        assert Lands(offs[k], ax, ay);
        ghost var p := Preview(offs[..k], ax, ay);
        ghost var q := offs[..k + 1];
        assert q[..k] == offs[..k] && q[k] == offs[k];
        assert Preview(q, ax, ay) == p + [Index(x, y)];
        StampSnoc(g, p, Index(x, y));
        board[y * GridSize + x] := true;
      }
      assert offs[..|offs|] == offs;
    }

    /** Empties full lines in place: first every full row, top to bottom,
        then every column that is full on the board the row pass left.
        Returns eight points per cleared line. */
    method ClearLines() returns (points: nat)
      requires board.Length == CellCount
      modifies board
      ensures board[..] == ClearFullLines(old(board[..])).cells
      ensures points == GridSize * ClearFullLines(old(board[..])).lines
    {
      ghost var g := board[..];
      points := 0;
      for y := 0 to GridSize
        invariant board[..] == SweepRows(g, y).cells
        invariant points == GridSize * SweepRows(g, y).lines
      {
        if RowFull(board[..], y) {
          EmptyRow(y);
          points := points + GridSize;
        }
      }
      ghost var r := board[..];
      ghost var rowPoints := points;
      for x := 0 to GridSize
        invariant board[..] == SweepCols(r, x).cells
        invariant points == rowPoints + GridSize * SweepCols(r, x).lines
      {
        if ColFull(board[..], x) {
          EmptyColumn(x);
          points := points + GridSize;
        }
      }
    }

    /** Writes empty into each cell of row y, left to right. */
    method EmptyRow(y: nat)
      requires board.Length == CellCount && y < GridSize
      modifies board
      ensures board[..] == ClearRow(old(board[..]), y)
    {
      for x := 0 to GridSize
        invariant forall k :: 0 <= k < CellCount ==>
          board[k] == (old(board[k]) && !(k / GridSize == y && k % GridSize < x))
      {
        board[y * GridSize + x] := false;
      }
    }

    /** Writes empty into each cell of column x, top to bottom. */
    method EmptyColumn(x: nat)
      requires board.Length == CellCount && x < GridSize
      modifies board
      ensures board[..] == ClearCol(old(board[..]), x)
    {
      for y := 0 to GridSize
        invariant forall k :: 0 <= k < CellCount ==>
          board[k] == (old(board[k]) && !(k % GridSize == x && k / GridSize < y))
      {
        board[y * GridSize + x] := false;
      }
    }
  }
}
