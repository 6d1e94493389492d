/**
 * The level catalog: three fixed 8x8 layouts of cell codes, and the
 * row-major scan that turns a layout into the positions of the player,
 * the boxes and the targets.
 */
module Levels {
  import opened Wrappers
  import opened Grid

  /** Cell codes of a level layout. */
  const EmptyCell: int := 0
  const PlayerCell: int := 1
  const BoxCell: int := 2
  const TargetCell: int := 3

  type Layout = seq<seq<int>>

  datatype Level = Level(name: string, grid: Layout)

  /** The layouts of the three levels, row by row. */
  const GettingStarted: Layout := [
    [0, 0, 0, 0, 0, 0, 0, 0],
    [0, 0, 0, 0, 0, 0, 0, 0],
    [0, 0, 1, 0, 0, 0, 0, 0],
    [0, 0, 0, 0, 0, 3, 0, 0],
    [0, 0, 0, 2, 0, 0, 0, 0],
    [0, 0, 0, 0, 0, 0, 0, 0],
    [0, 0, 0, 0, 0, 0, 0, 0],
    [0, 0, 0, 0, 0, 0, 0, 0]
  ]

  const DoubleTrouble: Layout := [
    [0, 0, 0, 0, 0, 0, 0, 0],
    [0, 1, 0, 0, 0, 0, 0, 0],
    [0, 0, 2, 0, 0, 3, 0, 0],
    [0, 0, 0, 0, 0, 0, 0, 0],
    [0, 0, 0, 2, 0, 0, 0, 0],
    [0, 0, 0, 0, 0, 3, 0, 0],
    [0, 0, 0, 0, 0, 0, 0, 0],
    [0, 0, 0, 0, 0, 0, 0, 0]
  ]

  const ThePuzzle: Layout := [
    [0, 0, 0, 0, 0, 0, 0, 0],
    [0, 0, 1, 0, 0, 0, 0, 0],
    [0, 0, 2, 0, 0, 0, 0, 0],
    [0, 0, 0, 0, 2, 0, 0, 0],
    [0, 0, 0, 0, 0, 2, 0, 0],
    [0, 3, 0, 0, 0, 0, 0, 0],
    [0, 0, 3, 0, 0, 0, 3, 0],
    [0, 0, 0, 0, 0, 0, 0, 0]
  ]

  /** The levels in play order (`getLevels`). */
  function GetLevels(): (levels: seq<Level>)
    ensures |levels| == 3
    ensures forall i :: 0 <= i < |levels| ==> IsLayout(levels[i].grid)
  {
    [
      Level("Getting Started", GettingStarted),
      Level("Double Trouble", DoubleTrouble),
      Level("The Puzzle", ThePuzzle)
    ]
  }

  /** A layout the scan can read: GridSize rows of GridSize cells. */
  predicate IsLayout(grid: Layout) {
    |grid| == GridSize && forall r :: 0 <= r < |grid| ==> |grid[r]| == GridSize
  }

  /** Positions in row r, columns 0 .. k-1, whose cell holds `code`, left to right. */
  function RowScan(grid: Layout, code: int, r: int, k: int): seq<Pos>
    requires IsLayout(grid) && 0 <= r < GridSize && 0 <= k <= GridSize
  {
    if k == 0 then []
    else RowScan(grid, code, r, k - 1) + (if grid[r][k - 1] == code then [Pos(r, k - 1)] else [])
  }

  /** Positions in rows 0 .. r-1 whose cell holds `code`, in row-major order. */
  function GridScan(grid: Layout, code: int, r: int): seq<Pos>
    requires IsLayout(grid) && 0 <= r <= GridSize
  {
    if r == 0 then [] else GridScan(grid, code, r - 1) + RowScan(grid, code, r - 1, GridSize)
  }

  /** Every position of the layout holding `code`, in the order the nested loops visit them. */
  function CellsWith(grid: Layout, code: int): seq<Pos>
    requires IsLayout(grid)
  {
    GridScan(grid, code, GridSize)
  }

  /** One more column of row r, appended to the scan of the rows above it. */
  lemma ScanOneCell(grid: Layout, code: int, r: int, k: int)
    requires IsLayout(grid) && 0 <= r < GridSize && 0 <= k < GridSize
    ensures grid[r][k] == code ==>
      GridScan(grid, code, r) + RowScan(grid, code, r, k + 1) == GridScan(grid, code, r) + RowScan(grid, code, r, k) + [Pos(r, k)]
    ensures grid[r][k] != code ==>
      GridScan(grid, code, r) + RowScan(grid, code, r, k + 1) == GridScan(grid, code, r) + RowScan(grid, code, r, k)
  {
    assert RowScan(grid, code, r, k) + [] == RowScan(grid, code, r, k);
  }

  /** A finished row closes the scan of the rows up to and including it. */
  lemma ScanOneRow(grid: Layout, code: int, r: int)
    requires IsLayout(grid) && 0 <= r < GridSize
    ensures GridScan(grid, code, r) + RowScan(grid, code, r, GridSize) == GridScan(grid, code, r + 1)
  {
  }

  /**
   * The player after a scan: the last player cell in row-major order (each
   * later one replaces the earlier), or the previous player when the layout
   * has none.
   */
  function LastOr(cells: seq<Pos>, previous: Option<Pos>): Option<Pos> {
    if cells == [] then previous else Some(cells[|cells| - 1])
  }

  function PlayerStart(grid: Layout, previous: Option<Pos>): Option<Pos>
    requires IsLayout(grid)
  {
    LastOr(CellsWith(grid, PlayerCell), previous)
  }

  /** Level data as the engine expects it: readable and with exactly one player cell. */
  predicate WellFormedLevel(grid: Layout) {
    IsLayout(grid) && |CellsWith(grid, PlayerCell)| == 1
  }

  /** a comes strictly before b in row-major order. */
  predicate RowMajorBefore(a: Pos, b: Pos) {
    a.row < b.row || (a.row == b.row && a.col < b.col)
  }

  predicate RowMajorSorted(s: seq<Pos>) {
    forall i, j :: 0 <= i < j < |s| ==> RowMajorBefore(s[i], s[j])
  }

  lemma {:induction false} RowScanExact(grid: Layout, code: int, r: int, k: int)
    requires IsLayout(grid) && 0 <= r < GridSize && 0 <= k <= GridSize
    ensures forall p :: p in RowScan(grid, code, r, k) <==>
      p.row == r && 0 <= p.col < k && grid[r][p.col] == code
    ensures RowMajorSorted(RowScan(grid, code, r, k))
  {
    if k > 0 {
      RowScanExact(grid, code, r, k - 1);
    }
  }

  lemma {:induction false} GridScanExact(grid: Layout, code: int, r: int)
    requires IsLayout(grid) && 0 <= r <= GridSize
    ensures forall p :: p in GridScan(grid, code, r) <==>
      0 <= p.row < r && 0 <= p.col < GridSize && grid[p.row][p.col] == code
    ensures RowMajorSorted(GridScan(grid, code, r))
  {
    if r > 0 {
      GridScanExact(grid, code, r - 1);
      RowScanExact(grid, code, r - 1, GridSize);
      var a, b := GridScan(grid, code, r - 1), RowScan(grid, code, r - 1, GridSize);
      forall i, j | 0 <= i < j < |a + b| ensures RowMajorBefore((a + b)[i], (a + b)[j]) {
        if j < |a| {
        } else if i >= |a| {
          assert (a + b)[i] == b[i - |a|] && (a + b)[j] == b[j - |a|];
        } else {
          assert (a + b)[i] == a[i] && a[i] in a;
          assert (a + b)[j] == b[j - |a|] && b[j - |a|] in b;
        }
      }
    }
  }

  /**
   * The scan of a layout lists exactly the cells holding `code`, each once,
   * in row-major order: the order in which the boxes and targets of a level
   * are created.
   */
  lemma CellsWithExact(grid: Layout, code: int)
    requires IsLayout(grid)
    ensures forall p :: p in CellsWith(grid, code) <==> InBounds(p) && grid[p.row][p.col] == code
    ensures RowMajorSorted(CellsWith(grid, code))
  {
    GridScanExact(grid, code, GridSize);
  }

  /** The scan of a layout, assembled from the scans of its eight rows. */
  lemma ScanByRows(grid: Layout, code: int, rows: seq<seq<Pos>>)
    requires IsLayout(grid) && |rows| == GridSize
    requires RowScan(grid, code, 0, GridSize) == rows[0]
    requires RowScan(grid, code, 1, GridSize) == rows[1]
    requires RowScan(grid, code, 2, GridSize) == rows[2]
    requires RowScan(grid, code, 3, GridSize) == rows[3]
    requires RowScan(grid, code, 4, GridSize) == rows[4]
    requires RowScan(grid, code, 5, GridSize) == rows[5]
    requires RowScan(grid, code, 6, GridSize) == rows[6]
    requires RowScan(grid, code, 7, GridSize) == rows[7]
    ensures CellsWith(grid, code)
      == rows[0] + rows[1] + rows[2] + rows[3] + rows[4] + rows[5] + rows[6] + rows[7]
  {
    assert GridScan(grid, code, 1) == rows[0] by {
      assert GridScan(grid, code, 1) == [] + rows[0];
    }
    assert GridScan(grid, code, 2) == GridScan(grid, code, 1) + rows[1];
    assert GridScan(grid, code, 3) == GridScan(grid, code, 2) + rows[2];
    assert GridScan(grid, code, 4) == GridScan(grid, code, 3) + rows[3];
    assert GridScan(grid, code, 5) == GridScan(grid, code, 4) + rows[4];
    assert GridScan(grid, code, 6) == GridScan(grid, code, 5) + rows[5];
    assert GridScan(grid, code, 7) == GridScan(grid, code, 6) + rows[6];
    assert GridScan(grid, code, 8) == GridScan(grid, code, 7) + rows[7];
  }

  lemma GettingStartedIsLayout()
    ensures IsLayout(GettingStarted)
  {
  }

  /** The player cells of "Getting Started". */
  lemma GettingStartedPlayers()
    ensures IsLayout(GettingStarted)
    ensures CellsWith(GettingStarted, PlayerCell) == [Pos(2, 2)]
  {
    GettingStartedIsLayout();
    ScanByRows(GettingStarted, PlayerCell, [[], [], [Pos(2, 2)], [], [], [], [], []]);
  }

  /** The box cells of "Getting Started". */
  lemma GettingStartedBoxes()
    ensures IsLayout(GettingStarted)
    ensures CellsWith(GettingStarted, BoxCell) == [Pos(4, 3)]
  {
    GettingStartedIsLayout();
    ScanByRows(GettingStarted, BoxCell, [[], [], [], [], [Pos(4, 3)], [], [], []]);
  }

  /** The target cells of "Getting Started". */
  lemma GettingStartedTargets()
    ensures IsLayout(GettingStarted)
    ensures CellsWith(GettingStarted, TargetCell) == [Pos(3, 5)]
  {
    GettingStartedIsLayout();
    ScanByRows(GettingStarted, TargetCell, [[], [], [], [Pos(3, 5)], [], [], [], []]);
  }

  lemma DoubleTroubleIsLayout()
    ensures IsLayout(DoubleTrouble)
  {
  }

  /** The player cells of "Double Trouble". */
  lemma DoubleTroublePlayers()
    ensures IsLayout(DoubleTrouble)
    ensures CellsWith(DoubleTrouble, PlayerCell) == [Pos(1, 1)]
  {
    DoubleTroubleIsLayout();
    ScanByRows(DoubleTrouble, PlayerCell, [[], [Pos(1, 1)], [], [], [], [], [], []]);
  }

  /** The box cells of "Double Trouble". */
  lemma DoubleTroubleBoxes()
    ensures IsLayout(DoubleTrouble)
    ensures CellsWith(DoubleTrouble, BoxCell) == [Pos(2, 2), Pos(4, 3)]
  {
    DoubleTroubleIsLayout();
    ScanByRows(DoubleTrouble, BoxCell, [[], [], [Pos(2, 2)], [], [Pos(4, 3)], [], [], []]);
  }

  /** The target cells of "Double Trouble". */
  lemma DoubleTroubleTargets()
    ensures IsLayout(DoubleTrouble)
    ensures CellsWith(DoubleTrouble, TargetCell) == [Pos(2, 5), Pos(5, 5)]
  {
    DoubleTroubleIsLayout();
    ScanByRows(DoubleTrouble, TargetCell, [[], [], [Pos(2, 5)], [], [], [Pos(5, 5)], [], []]);
  }

  lemma ThePuzzleIsLayout()
    ensures IsLayout(ThePuzzle)
  {
  }

  /** The player cells of "The Puzzle". */
  lemma ThePuzzlePlayers()
    ensures IsLayout(ThePuzzle)
    ensures CellsWith(ThePuzzle, PlayerCell) == [Pos(1, 2)]
  {
    ThePuzzleIsLayout();
    ScanByRows(ThePuzzle, PlayerCell, [[], [Pos(1, 2)], [], [], [], [], [], []]);
  }

  /** The box cells of "The Puzzle". */
  lemma ThePuzzleBoxes()
    ensures IsLayout(ThePuzzle)
    ensures CellsWith(ThePuzzle, BoxCell) == [Pos(2, 2), Pos(3, 4), Pos(4, 5)]
  {
    ThePuzzleIsLayout();
    ScanByRows(ThePuzzle, BoxCell, [[], [], [Pos(2, 2)], [Pos(3, 4)], [Pos(4, 5)], [], [], []]);
  }

  /** The target cells of "The Puzzle". */
  lemma ThePuzzleTargets()
    ensures IsLayout(ThePuzzle)
    ensures CellsWith(ThePuzzle, TargetCell) == [Pos(5, 1), Pos(6, 2), Pos(6, 6)]
  {
    ThePuzzleIsLayout();
    ScanByRows(ThePuzzle, TargetCell, [[], [], [], [], [], [Pos(5, 1)], [Pos(6, 2), Pos(6, 6)], []]);
  }

  lemma GettingStartedWellFormed()
    ensures WellFormedLevel(GettingStarted)
  {
    GettingStartedPlayers();
  }

  lemma DoubleTroubleWellFormed()
    ensures WellFormedLevel(DoubleTrouble)
  {
    DoubleTroublePlayers();
  }

  lemma ThePuzzleWellFormed()
    ensures WellFormedLevel(ThePuzzle)
  {
    ThePuzzlePlayers();
  }

  /**
   * Every catalog level is readable and has exactly one player cell: the
   * level data meets the engine's expectation, which the scene itself never
   * checks.
   */
  lemma CatalogWellFormed(i: nat)
    requires i < |GetLevels()|
    ensures WellFormedLevel(GetLevels()[i].grid)
  {
    if i == 0 {
      GettingStartedWellFormed();
      assert GetLevels()[0].grid == GettingStarted;
    } else if i == 1 {
      DoubleTroubleWellFormed();
      assert GetLevels()[1].grid == DoubleTrouble;
    } else {
      ThePuzzleWellFormed();
      assert GetLevels()[2].grid == ThePuzzle;
    }
  }
}
