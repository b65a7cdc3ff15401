/**
 * The nine-patch models of the two widget kinds: the panel is an explicit
 * table of patches (three rows, the top one with seven cells), the button
 * is built from four margins around one content zone.
 */
module Patches {
  import opened Wrappers
  import opened Ui

  /** How a cell grows along one axis; `Fixed` keeps its pixel size. */
  datatype Growth = Fixed | StretchRatio(weight: nat)

  /** One cell of the source image: its size in pixels, its growth per axis, its zone. */
  datatype Patch = Patch(width: nat, height: nat, xGrowth: Growth, yGrowth: Growth, content: Option<Zone>)

  /** A nine-patch model: an explicit table of rows, or the margins shorthand. */
  datatype NinePatch =
    | FromPatches(rows: seq<seq<Patch>>)
    | ByMargins(left: nat, top: nat, right: nat, bottom: nat, zone: Zone)

  /** Sum of the widths of the cells of one row. */
  function RowWidth(row: seq<Patch>): nat
  {
    if row == [] then 0 else row[0].width + RowWidth(row[1..])
  }

  /** Every cell of the row has height `h`. */
  predicate RowHeight(row: seq<Patch>, h: nat)
  {
    forall k | 0 <= k < |row| :: row[k].height == h
  }

  /** The patch table of the panel texture, row by row. */
  function PanelPatches(): (rows: seq<seq<Patch>>)
    ensures |rows| == 3 && |rows[0]| == 7 && |rows[1]| == 3 && |rows[2]| == 3
    // every row spans the full 68 pixels of the source image
    ensures forall r | 0 <= r < |rows| :: RowWidth(rows[r]) == 68
    // rows are 16, 1 and 16 pixels high: 33 in all
    ensures RowHeight(rows[0], 16) && RowHeight(rows[1], 1) && RowHeight(rows[2], 16)
    // the two lower rows share their column boundaries
    ensures forall k | 0 <= k < 3 :: rows[1][k].width == rows[2][k].width
  {
    [
      [
        Patch(16, 16, Fixed, Fixed, None),
        Patch(1, 16, StretchRatio(1), Fixed, None),
        Patch(16, 16, Fixed, Fixed, None),
        Patch(2, 16, StretchRatio(0), Fixed, Some(PanelTitle)),
        Patch(16, 16, Fixed, Fixed, None),
        Patch(1, 16, StretchRatio(1), Fixed, None),
        Patch(16, 16, Fixed, Fixed, None)
      ],
      [
        Patch(16, 1, Fixed, StretchRatio(1), None),
        Patch(36, 1, StretchRatio(1), StretchRatio(1), Some(PanelInner)),
        Patch(16, 1, Fixed, StretchRatio(1), None)
      ],
      [
        Patch(16, 16, Fixed, Fixed, None),
        Patch(36, 16, StretchRatio(1), Fixed, None),
        Patch(16, 16, Fixed, Fixed, None)
      ]
    ]
  }

  function PanelModel(): NinePatch
  {
    FromPatches(PanelPatches())
  }

  function ButtonModel(): NinePatch
  {
    ByMargins(10, 10, 10, 10, ButtonInner)
  }

  /** The content zones of one row, left to right. */
  function RowZones(row: seq<Patch>): seq<Zone>
  {
    if row == [] then []
    else (if row[0].content.Some? then [row[0].content.value] else []) + RowZones(row[1..])
  }

  /** The content zones of a table, in row-major order. */
  function GridZones(rows: seq<seq<Patch>>): seq<Zone>
  {
    if rows == [] then [] else RowZones(rows[0]) + GridZones(rows[1..])
  }

  /** The content zones a widget of this model exposes, in the order its slots are created. */
  function Zones(m: NinePatch): seq<Zone>
  {
    match m
    case FromPatches(rows) => GridZones(rows)
    case ByMargins(_, _, _, _, zone) => [zone]
  }

  /** The panel carries its title zone and its inner zone, once each, title first. */
  lemma PanelZones()
    ensures Zones(PanelModel()) == [PanelTitle, PanelInner]
  {
  }
}
