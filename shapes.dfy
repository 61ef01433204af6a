/** The closed catalog of polyomino shapes a piece can take, and the cell
    offsets each shape covers relative to its anchor. */
module Shapes {

  /** A cell offset (dx, dy) from a piece's anchor: dx counts columns to the
      right, dy counts rows downward. */
  type Offset = (int, int)

  /** The 25 shapes, in declaration order. The names (including the
      misspelled OrganeRickyUp) are the game's own. */
  datatype Shape =
    | OrangeRicky | BlueRicky | ClevelandZ | RhodeIslandZ | Hero | Teewee | Smashboy
    | OrganeRickyUp | BlueRickyUp | ClevelandZUp | RhodeIslandZUp | HeroUp
    | LongHero | LongHeroUp | ShortHero | ShortHeroUp | Duce | DuceUp | Single
    | TeeweeDown | TeeweeRight | TeeweeLeft | LongSmashboy | LongSmashboyUp | Huge

  /** No offset occurs twice in the list. */
  predicate Distinct(a: seq<Offset>) {
    forall j, k :: 0 <= j < k < |a| ==> a[j] != a[k]
  }

  /** The offsets of a shape, in the order the placement loops visit them.
      Every table entry is a list of 1 to 9 distinct cells inside a 5 x 5
      box with no negative offset. */
  function Anchors(s: Shape): (a: seq<Offset>)
    ensures 1 <= |a| <= 9
    ensures forall k :: 0 <= k < |a| ==> 0 <= a[k].0 < 5 && 0 <= a[k].1 < 5
  {
    match s
    case OrangeRicky => [(0, 1), (1, 1), (2, 0), (2, 1)]
    case BlueRicky => [(0, 0), (0, 1), (1, 1), (2, 1)]
    case ClevelandZ => [(0, 0), (1, 0), (1, 1), (2, 1)]
    case RhodeIslandZ => [(0, 1), (1, 0), (1, 1), (2, 0)]
    case Hero => [(0, 0), (1, 0), (2, 0), (3, 0)]
    case Teewee => [(0, 1), (1, 0), (1, 1), (2, 1)]
    case Smashboy => [(0, 0), (0, 1), (1, 0), (1, 1)]
    case OrganeRickyUp => [(0, 0), (0, 1), (0, 2), (1, 2)]
    case BlueRickyUp => [(0, 0), (0, 1), (0, 2), (1, 0)]
    case ClevelandZUp => [(1, 0), (1, 1), (0, 1), (0, 2)]
    case RhodeIslandZUp => [(0, 0), (0, 1), (1, 1), (1, 2)]
    case HeroUp => [(0, 0), (0, 1), (0, 2), (0, 3)]
    case LongHero => [(0, 0), (1, 0), (2, 0), (3, 0), (4, 0)]
    case LongHeroUp => [(0, 0), (0, 1), (0, 2), (0, 3), (0, 4)]
    case ShortHero => [(0, 0), (1, 0), (2, 0)]
    case ShortHeroUp => [(0, 0), (0, 1), (0, 2)]
    case Duce => [(0, 0), (1, 0)]
    case DuceUp => [(0, 0), (0, 1)]
    case Single => [(0, 0)]
    case TeeweeDown => [(0, 0), (1, 0), (1, 1), (2, 0)]
    case TeeweeRight => [(0, 0), (0, 1), (1, 1), (0, 2)]
    case TeeweeLeft => [(1, 0), (0, 1), (1, 1), (1, 2)]
    case LongSmashboy => [(0, 0), (0, 1), (1, 0), (1, 1), (2, 0), (2, 1)]
    case LongSmashboyUp => [(0, 0), (1, 0), (0, 1), (1, 1), (0, 2), (1, 2)]
    case Huge => [(0, 0), (0, 1), (0, 2), (1, 0), (1, 1), (1, 2), (2, 0), (2, 1), (2, 2)]
  }

  /** No shape lists the same cell twice. */
  lemma DistinctOffsets(s: Shape)
    ensures Distinct(Anchors(s))
  {
  }

  /** Every shape is normalized to its bounding box: some cell lies in
      column 0 and some cell lies in row 0, so (with no offset negative)
      the anchor is the box's top-left corner. */
  lemma Normalized(s: Shape)
    ensures exists k :: 0 <= k < |Anchors(s)| && Anchors(s)[k].0 == 0
    ensures exists k :: 0 <= k < |Anchors(s)| && Anchors(s)[k].1 == 0
  {
    var a := Anchors(s);
    match s
    case OrangeRicky => assert a[0].0 == 0 && a[2].1 == 0;
    case RhodeIslandZ => assert a[0].0 == 0 && a[1].1 == 0;
    case Teewee => assert a[0].0 == 0 && a[1].1 == 0;
    case ClevelandZUp => assert a[2].0 == 0 && a[0].1 == 0;
    case TeeweeLeft => assert a[1].0 == 0 && a[0].1 == 0;
    case _ => assert a[0] == (0, 0);
  }

  /** The smallest shape is the single cell and the largest is Huge, which
      lists the solid 3 x 3 block column by column. */
  lemma SizeExtremes()
    ensures |Anchors(Single)| == 1 && |Anchors(Huge)| == 9
    ensures forall s :: |Anchors(Single)| <= |Anchors(s)| <= |Anchors(Huge)|
    ensures forall k :: 0 <= k < 9 ==> Anchors(Huge)[k] == (k / 3, k % 3)
  {
  }
}
