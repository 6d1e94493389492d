/**
 * The puzzle state machine of the game scene, on values: the player, the
 * boxes with their on-target flags, the targets, the move counter and the
 * level index, and what each scene operation makes of them.  The scene
 * class (module Scene) performs these transitions in place and is proved
 * to agree with the functions here; the properties of play are lemmas
 * about these functions.
 */
module Engine {
  import opened Wrappers
  import opened Grid
  import opened Levels
  import opened Commands

  /** A box: its cell and its cached on-target flag. */
  datatype Box = Box(pos: Pos, onTarget: bool)

  /** The part of the scene that play reads and changes. */
  datatype Game = Game(
    player: Option<Pos>,          // None until a level with a player cell is loaded
    boxes: seq<Box>,
    targets: seq<Pos>,
    moveCount: nat,
    currentLevel: nat,
    voiceAssistanceEnabled: bool)

  /** The scene as constructed, before its first level. */
  function InitialGame(): Game {
    Game(None, [], [], 0, 0, true)
  }

  predicate HasBoxAt(boxes: seq<Box>, p: Pos) {
    exists i :: 0 <= i < |boxes| && boxes[i].pos == p
  }

  /** The first box standing on p, as the array `find` returns it. */
  function FindBox(boxes: seq<Box>, p: Pos): (r: Option<nat>)
    ensures r.None? <==> !HasBoxAt(boxes, p)
    ensures r.Some? ==> r.value < |boxes| && boxes[r.value].pos == p
    ensures r.Some? ==> forall j :: 0 <= j < r.value ==> boxes[j].pos != p
  {
    if boxes == [] then None
    else if boxes[0].pos == p then Some(0)
    else
      match FindBox(boxes[1..], p)
      case None =>
        assert forall i :: 1 <= i < |boxes| ==> boxes[i] == boxes[1..][i - 1];
        None
      case Some(i) => Some(i + 1)
  }

  /** Every box is flagged (`checkWinCondition`). */
  predicate AllOnTarget(boxes: seq<Box>)
    ensures AllOnTarget(boxes) <==> forall b :: b in boxes ==> b.onTarget
  {
    forall i :: 0 <= i < |boxes| ==> boxes[i].onTarget
  }

  /** Number of flagged boxes (`getBoxesOnTarget`). */
  function CountOnTarget(boxes: seq<Box>): (n: nat)
    ensures n <= |boxes|
    ensures n == |boxes| <==> AllOnTarget(boxes)
  {
    if boxes == [] then 0
    else
      var rest := CountOnTarget(boxes[1..]);
      assert AllOnTarget(boxes) <==> boxes[0].onTarget && AllOnTarget(boxes[1..]) by {
        assert forall i :: 1 <= i < |boxes| ==> boxes[i] == boxes[1..][i - 1];
      }
      (if boxes[0].onTarget then 1 else 0) + rest
  }

  predicate BoxesDistinct(boxes: seq<Box>) {
    forall i, j :: 0 <= i < j < |boxes| ==> boxes[i].pos != boxes[j].pos
  }

  /** Each box's flag says whether some target lies under it. */
  predicate FlagsAccurate(boxes: seq<Box>, targets: seq<Pos>) {
    forall i :: 0 <= i < |boxes| ==> boxes[i].onTarget == (boxes[i].pos in targets)
  }

  /**
   * The invariant of play: a valid level index, the player on the board and
   * not on a box, every box on the board, no two boxes on one cell, and
   * every flag accurate.
   */
  predicate Consistent(g: Game) {
    && g.currentLevel < |GetLevels()|
    && (g.player.Some? ==> InBounds(g.player.value) && !HasBoxAt(g.boxes, g.player.value))
    && (forall i :: 0 <= i < |g.boxes| ==> InBounds(g.boxes[i].pos))
    && BoxesDistinct(g.boxes)
    && FlagsAccurate(g.boxes, g.targets)
  }

  lemma InitialGameConsistent()
    ensures Consistent(InitialGame())
  {
  }

  // ---------------------------------------------------------------------
  // Moves

  /**
   * What `updateBoxStatus` reports: a box arrived on a target (with the
   * progress count and, when every box is now flagged, the move count that
   * `winLevel` announces), a box left a target, or nothing changed.
   */
  datatype BoxStatus =
    | BoxPlaced(boxesOnTarget: nat, totalBoxes: nat, win: Option<nat>)
    | BoxRemoved
    | Unchanged

  datatype MoveOutcome =
    | NoPlayer                                      // no level loaded yet
    | EdgeOfGrid                                    // the player's next cell is off the board
    | BoxBlocked                                    // the box cannot go further
    | Walked(to: Pos)
    | PushedBox(box: nat, boxTo: Pos, status: BoxStatus)

  predicate Succeeded(o: MoveOutcome) {
    o.Walked? || o.PushedBox?
  }

  /** The move count `winLevel` announced during this move, if the move won the level. */
  function WinReport(o: MoveOutcome): Option<nat> {
    if o.PushedBox? && o.status.BoxPlaced? then o.status.win else None
  }

  /** `updateBoxStatus` on box i, after the box has been moved. */
  function StatusStep(g: Game, i: nat): (r: (Game, BoxStatus))
    requires i < |g.boxes|
    ensures r.0 == g.(boxes := g.boxes[i := g.boxes[i].(onTarget := g.boxes[i].pos in g.targets)])
    ensures r.1.BoxPlaced? <==> g.boxes[i].pos in g.targets && !g.boxes[i].onTarget
    ensures r.1.BoxRemoved? <==> g.boxes[i].pos !in g.targets && g.boxes[i].onTarget
  {
    var box := g.boxes[i];
    var onTarget := box.pos in g.targets;
    if onTarget && !box.onTarget then
      var boxes := g.boxes[i := box.(onTarget := true)];
      var win := if AllOnTarget(boxes) then Some(g.moveCount) else None;
      (g.(boxes := boxes), BoxPlaced(CountOnTarget(boxes), |boxes|, win))
    else if !onTarget && box.onTarget then
      (g.(boxes := g.boxes[i := box.(onTarget := false)]), BoxRemoved)
    else
      assert g.boxes[i := box.(onTarget := onTarget)] == g.boxes;
      (g, Unchanged)
  }

  datatype PushResult = Blocked | Pushed(game: Game, status: BoxStatus)

  /** `pushBox`: box i goes one cell further in direction d unless that cell is off the board or holds a box. */
  function PushStep(g: Game, i: nat, d: Direction): (r: PushResult)
    requires i < |g.boxes|
    ensures var dest := Neighbour(g.boxes[i].pos, d);
      && (r.Blocked? <==> !InBounds(dest) || HasBoxAt(g.boxes, dest))
      && (r.Pushed? ==>
            && |r.game.boxes| == |g.boxes| && r.game.boxes[i].pos == dest
            && r.game.player == g.player && r.game.moveCount == g.moveCount
            && r.game.targets == g.targets)
  {
    var dest := Neighbour(g.boxes[i].pos, d);
    if !InBounds(dest) || FindBox(g.boxes, dest).Some? then Blocked
    else
      var (g', status) := StatusStep(g.(boxes := g.boxes[i := g.boxes[i].(pos := dest)]), i);
      Pushed(g', status)
  }

  /** `executeMove`: the player steps onto p and the move is counted. */
  function WalkStep(g: Game, p: Pos): (r: Game)
    ensures r.player == Some(p) && r.moveCount == g.moveCount + 1
    ensures r.(player := g.player, moveCount := g.moveCount) == g
  {
    g.(player := Some(p), moveCount := g.moveCount + 1)
  }

  /** `movePlayer`: the whole resolution of one directional command. */
  function MoveStep(g: Game, d: Direction): (r: (Game, MoveOutcome))
    ensures r.1 == NoPlayer <==> g.player.None?
    ensures !Succeeded(r.1) ==> r.0 == g
    ensures Succeeded(r.1) ==>
      r.0.player == Some(Neighbour(g.player.value, d)) && r.0.moveCount == g.moveCount + 1
  {
    if g.player.None? then (g, NoPlayer)
    else
      var target := Neighbour(g.player.value, d);
      if !InBounds(target) then (g, EdgeOfGrid)
      else
        match FindBox(g.boxes, target)
        case None => (WalkStep(g, target), Walked(target))
        case Some(i) =>
          match PushStep(g, i, d)
          case Blocked => (g, BoxBlocked)
          case Pushed(g', status) => (WalkStep(g', target), PushedBox(i, Neighbour(target, d), status))
  }

  /**
   * A move either changes nothing at all or moves the player exactly one
   * cell and counts exactly one move; targets, level and voice setting are
   * never touched and no box appears or disappears.
   */
  lemma MoveIsAllOrNothing(g: Game, d: Direction)
    ensures var (g', o) := MoveStep(g, d);
      && (!Succeeded(o) <==> g' == g)
      && (Succeeded(o) ==> g.player.Some? && g'.player == Some(Neighbour(g.player.value, d))
                           && g'.moveCount == g.moveCount + 1)
      && g'.targets == g.targets && g'.currentLevel == g.currentLevel
      && g'.voiceAssistanceEnabled == g.voiceAssistanceEnabled
      && |g'.boxes| == |g.boxes|
  {
  }

  /** A move whose next cell is off the board is refused and changes nothing. */
  lemma EdgeMoveChangesNothing(g: Game, d: Direction)
    requires g.player.Some?
    ensures MoveStep(g, d).1 == EdgeOfGrid <==> !InBounds(Neighbour(g.player.value, d))
    ensures MoveStep(g, d).1 == EdgeOfGrid ==> MoveStep(g, d).0 == g
  {
  }

  /** A move onto a free cell of the board moves only the player and counts one move. */
  lemma WalkMovesOnlyPlayer(g: Game, d: Direction)
    requires g.player.Some?
    requires InBounds(Neighbour(g.player.value, d))
    requires !HasBoxAt(g.boxes, Neighbour(g.player.value, d))
    ensures var (g', o) := MoveStep(g, d);
      && o == Walked(Neighbour(g.player.value, d))
      && Distance(g.player.value, g'.player.value) == 1
      && g'.boxes == g.boxes && g'.moveCount == g.moveCount + 1
  {
  }

  /**
   * Pushing the box on the player's next cell: refused, changing nothing,
   * exactly when the cell beyond is off the board or holds a box; otherwise
   * that box and the player each move one cell, the box's flag becomes
   * "a target lies under it", no other box changes, and one move is counted.
   */
  lemma PushResolution(g: Game, d: Direction, i: nat)
    requires BoxesDistinct(g.boxes)
    requires g.player.Some? && InBounds(Neighbour(g.player.value, d))
    requires i < |g.boxes| && g.boxes[i].pos == Neighbour(g.player.value, d)
    ensures var (g', o) := MoveStep(g, d);
      var target := Neighbour(g.player.value, d);
      var dest := Neighbour(target, d);
      && (o == BoxBlocked <==> !InBounds(dest) || HasBoxAt(g.boxes, dest))
      && (o == BoxBlocked ==> g' == g)
      && (o != BoxBlocked ==>
            && o.PushedBox? && o.box == i && o.boxTo == dest
            && g'.player == Some(target) && g'.moveCount == g.moveCount + 1
            && |g'.boxes| == |g.boxes|
            && g'.boxes[i] == Box(dest, dest in g.targets)
            && (forall j :: 0 <= j < |g.boxes| && j != i ==> g'.boxes[j] == g.boxes[j])
            && g'.targets == g.targets)
  {
    var target := Neighbour(g.player.value, d);
    var r := FindBox(g.boxes, target);
    assert r == Some(i);
  }

  /** Every move keeps the invariant of play. */
  lemma MovePreservesConsistent(g: Game, d: Direction)
    requires Consistent(g)
    ensures Consistent(MoveStep(g, d).0)
  {
    var (g', o) := MoveStep(g, d);
    if o.PushedBox? {
      var target := Neighbour(g.player.value, d);
      var i := o.box;
      PushResolution(g, d, i);
      var dest := Neighbour(target, d);
      assert !HasBoxAt(g.boxes, dest);
      forall j, k | 0 <= j < k < |g'.boxes| ensures g'.boxes[j].pos != g'.boxes[k].pos {
        if j == i {
          assert g.boxes[k].pos != dest;
        } else if k == i {
          assert g.boxes[j].pos != dest;
        }
      }
      forall j | 0 <= j < |g'.boxes| ensures g'.boxes[j].pos != target {
        if j != i {
          assert g.boxes[j].pos != g.boxes[i].pos;
        }
      }
    }
  }

  /**
   * A box is placed (its flag goes from false to true) or removed (true to
   * false) only by a push of that box; the progress count then rises or
   * falls by exactly one and the reported total is the number of boxes.
   */
  lemma PlacementChangesCountByOne(g: Game, d: Direction)
    ensures var (g', o) := MoveStep(g, d);
      && (o.PushedBox? && o.status.BoxPlaced? ==>
            && !g.boxes[o.box].onTarget && g'.boxes[o.box].onTarget
            && o.status.boxesOnTarget == CountOnTarget(g'.boxes) == CountOnTarget(g.boxes) + 1
            && o.status.totalBoxes == |g.boxes|)
      && (o.PushedBox? && o.status.BoxRemoved? ==>
            && g.boxes[o.box].onTarget && !g'.boxes[o.box].onTarget
            && CountOnTarget(g'.boxes) + 1 == CountOnTarget(g.boxes))
      && (!(o.PushedBox? && (o.status.BoxPlaced? || o.status.BoxRemoved?)) ==>
            CountOnTarget(g'.boxes) == CountOnTarget(g.boxes))
  {
    var (g', o) := MoveStep(g, d);
    if o.PushedBox? {
      var i := o.box;
      var moved := g.(boxes := g.boxes[i := g.boxes[i].(pos := o.boxTo)]);
      CountAfterUpdate(g.boxes, i, moved.boxes[i]);
      StatusStepCounts(moved, i);
    }
  }

  /** `updateBoxStatus` changes box i's flag alone, and the count by the change of that flag. */
  lemma StatusStepCounts(g: Game, i: nat)
    requires i < |g.boxes|
    ensures var (g', st) := StatusStep(g, i);
      && g' == g.(boxes := g.boxes[i := g.boxes[i].(onTarget := g.boxes[i].pos in g.targets)])
      && |g'.boxes| == |g.boxes|
      && (st.BoxPlaced? ==>
            && !g.boxes[i].onTarget && g'.boxes[i].onTarget
            && st.boxesOnTarget == CountOnTarget(g'.boxes) == CountOnTarget(g.boxes) + 1
            && st.totalBoxes == |g.boxes|)
      && (st.BoxRemoved? ==>
            && g.boxes[i].onTarget && !g'.boxes[i].onTarget
            && CountOnTarget(g'.boxes) + 1 == CountOnTarget(g.boxes))
      && (st.Unchanged? ==> g' == g)
  {
    CountAfterUpdate(g.boxes, i, g.boxes[i].(onTarget := !g.boxes[i].onTarget));
  }

  /** Changing one box changes the count only by the change of that box's flag. */
  lemma {:induction false} CountAfterUpdate(boxes: seq<Box>, i: nat, b: Box)
    requires i < |boxes|
    ensures CountOnTarget(boxes[i := b]) + (if boxes[i].onTarget then 1 else 0)
         == CountOnTarget(boxes) + (if b.onTarget then 1 else 0)
  {
    if i > 0 {
      CountAfterUpdate(boxes[1..], i - 1, b);
      assert boxes[i := b][1..] == boxes[1..][i - 1 := b];
    } else {
      assert boxes[i := b][1..] == boxes[1..];
    }
  }

  /**
   * The level is announced as won only during a push that placed a box and
   * left every box flagged, and always then; the announced move count is
   * the count before that winning push, one less than the count after it.
   */
  lemma WinOnlyOnPlacement(g: Game, d: Direction)
    ensures var (g', o) := MoveStep(g, d);
      && (WinReport(o).Some? <==> o.PushedBox? && o.status.BoxPlaced? && AllOnTarget(g'.boxes))
      && (WinReport(o).Some? ==> WinReport(o).value == g.moveCount && WinReport(o).value + 1 == g'.moveCount)
  {
  }

  // ---------------------------------------------------------------------
  // Loading levels

  /** New boxes on the given cells, none flagged (`createBox`). */
  function NewBoxes(cells: seq<Pos>): (boxes: seq<Box>)
    ensures |boxes| == |cells|
    ensures forall b :: b in boxes ==> !b.onTarget && b.pos in cells
    ensures forall k :: 0 <= k < |cells| ==> boxes[k] == Box(cells[k], false)
  {
    seq(|cells|, k requires 0 <= k < |cells| => Box(cells[k], false))
  }

  /** A box cell scanned later adds one unflagged box at the end. */
  lemma NewBoxesSnoc(cells: seq<Pos>, c: Pos)
    ensures NewBoxes(cells + [c]) == NewBoxes(cells) + [Box(c, false)]
  {
  }

  datatype LoadOutcome =
    | Victory(totalLevels: nat)                               // past the last level
    | LevelLoaded(index: nat, name: string, boxCount: nat)

  /**
   * The state `loadLevel` builds from a layout: the player where the scan
   * last met a player cell, one unflagged box per box cell and one target
   * per target cell in row-major order, move count 0, the level current.
   */
  function ResetTo(g: Game, grid: Layout, index: nat): (r: Game)
    requires IsLayout(grid)
    ensures r.moveCount == 0 && r.currentLevel == index
    ensures |r.boxes| == |CellsWith(grid, BoxCell)|
    ensures forall b :: b in r.boxes ==> !b.onTarget && b.pos in CellsWith(grid, BoxCell)
    ensures forall k :: 0 <= k < |CellsWith(grid, BoxCell)| ==>
      r.boxes[k] == Box(CellsWith(grid, BoxCell)[k], false)
  {
    g.(player := PlayerStart(grid, g.player),
       boxes := NewBoxes(CellsWith(grid, BoxCell)),
       targets := CellsWith(grid, TargetCell),
       moveCount := 0,
       currentLevel := index)
  }

  /**
   * `loadLevel(index)`: past the last level only victory is announced;
   * otherwise the level's layout replaces player, boxes and targets.
   */
  function LoadStep(g: Game, index: nat): (r: (Game, LoadOutcome))
    ensures r.1.Victory? <==> index >= |GetLevels()|
    ensures r.1.Victory? ==> r.0 == g
    ensures r.1.LevelLoaded? ==>
      r.0.currentLevel == index && r.0.moveCount == 0 && r.1.boxCount == |r.0.boxes|
  {
    var levels := GetLevels();
    if index >= |levels| then (g, Victory(|levels|))
    else
      CatalogWellFormed(index);
      var g' := ResetTo(g, levels[index].grid, index);
      (g', LevelLoaded(index, levels[index].name, |g'.boxes|))
  }

  /**
   * A layout with exactly one player cell resets the game to that layout
   * alone: the player on its player cell, the boxes on its box cells in
   * row-major order and unflagged, on the board, pairwise apart, none
   * under the player, and every flag accurate.
   */
  lemma ResetBuildsLayout(g: Game, grid: Layout, index: nat)
    requires WellFormedLevel(grid)
    ensures var g' := ResetTo(g, grid, index);
      && g'.player == Some(CellsWith(grid, PlayerCell)[0])
      && |g'.boxes| == |CellsWith(grid, BoxCell)|
      && (forall k :: 0 <= k < |g'.boxes| ==> g'.boxes[k] == Box(CellsWith(grid, BoxCell)[k], false))
      && g'.targets == CellsWith(grid, TargetCell)
      && g'.moveCount == 0 && g'.currentLevel == index
      && g'.voiceAssistanceEnabled == g.voiceAssistanceEnabled
      && InBounds(g'.player.value) && !HasBoxAt(g'.boxes, g'.player.value)
      && (forall k :: 0 <= k < |g'.boxes| ==> InBounds(g'.boxes[k].pos))
      && BoxesDistinct(g'.boxes)
      && FlagsAccurate(g'.boxes, g'.targets)
  {
    var g' := ResetTo(g, grid, index);
    CellsWithExact(grid, PlayerCell);
    CellsWithExact(grid, BoxCell);
    CellsWithExact(grid, TargetCell);
    var cells := CellsWith(grid, BoxCell);
    var player := CellsWith(grid, PlayerCell)[0];
    assert player in CellsWith(grid, PlayerCell);
    forall j, k | 0 <= j < k < |g'.boxes| ensures g'.boxes[j].pos != g'.boxes[k].pos {
      assert RowMajorBefore(cells[j], cells[k]);
    }
    forall k | 0 <= k < |g'.boxes|
      ensures InBounds(g'.boxes[k].pos) && g'.boxes[k].pos != player
      ensures g'.boxes[k].onTarget == (g'.boxes[k].pos in g'.targets)
    {
      assert cells[k] in cells;
    }
  }

  /** Loading an index past the last level announces victory and changes nothing. */
  lemma LoadPastLastLevel(g: Game, index: nat)
    requires index >= |GetLevels()|
    ensures LoadStep(g, index) == (g, Victory(|GetLevels()|))
  {
  }

  /**
   * Loading a level builds the layout from the catalog alone, reports the
   * level's name and box count, and yields a state satisfying the
   * invariant of play whatever came before.
   */
  lemma LoadBuildsLayout(g: Game, index: nat)
    requires index < |GetLevels()|
    ensures var (g', o) := LoadStep(g, index);
      && WellFormedLevel(GetLevels()[index].grid)
      && g' == ResetTo(g, GetLevels()[index].grid, index)
      && o == LevelLoaded(index, GetLevels()[index].name, |CellsWith(GetLevels()[index].grid, BoxCell)|)
      && Consistent(g')
  {
    CatalogWellFormed(index);
    ResetBuildsLayout(g, GetLevels()[index].grid, index);
  }

  /**
   * Restart reproduces the initial layout: loading a level gives the same
   * state whatever was played before, apart from the voice setting, which a
   * load leaves alone.
   */
  lemma RestartReproducesLayout(g1: Game, g2: Game, index: nat)
    requires g1.voiceAssistanceEnabled == g2.voiceAssistanceEnabled
    requires index < |GetLevels()|
    ensures LoadStep(g1, index) == LoadStep(g2, index)
  {
    CatalogWellFormed(index);
  }

  /** Restarting from any state of play reloads its level and never announces victory. */
  lemma RestartReloadsCurrentLevel(g: Game)
    requires Consistent(g)
    ensures LoadStep(g, g.currentLevel).1.LevelLoaded?
    ensures LoadStep(g, g.currentLevel).0.currentLevel == g.currentLevel
  {
  }

  // ---------------------------------------------------------------------
  // Commands

  /**
   * What a dispatched command does to the game: moves resolve as above,
   * restart reloads the current level, the voice toggle flips the setting;
   * help, status and the instruction panel only speak or draw.
   */
  function CommandStep(g: Game, c: Command): (r: Game)
    ensures r.currentLevel == g.currentLevel
    ensures r.voiceAssistanceEnabled == (g.voiceAssistanceEnabled != (c == ToggleVoice))
    ensures c.Help? || c.Status? || c.ToggleInstructionPanel? || c.Unrecognized? ==> r == g
  {
    match c
    case Move(d) => MoveStep(g, d).0
    case Restart => LoadStep(g, g.currentLevel).0
    case ToggleVoice => g.(voiceAssistanceEnabled := !g.voiceAssistanceEnabled)
    case Help => g
    case Status => g
    case ToggleInstructionPanel => g
    case Unrecognized => g
  }

  /** Every input, spoken or typed, keeps the invariant of play. */
  lemma CommandPreservesConsistent(g: Game, c: Command)
    requires Consistent(g)
    ensures Consistent(CommandStep(g, c))
  {
    match c
    case Move(d) => MovePreservesConsistent(g, d);
    case Restart => LoadBuildsLayout(g, g.currentLevel);
    case _ =>
  }

  /** A transcript that contains no keyword of any group leaves the game as it was. */
  lemma UnmatchedTranscriptChangesNothing(g: Game, command: string)
    requires forall k :: 0 <= k < |VoiceGroups| ==> !MatchesAny(command, VoiceGroups[k].0)
    ensures CommandStep(g, VoiceCommand(command)) == g
  {
    VoiceCommandIsFirstMatch(command);
    FirstMatchIsLowestMatch(VoiceGroups, command);
  }

  // ---------------------------------------------------------------------
  // A played level

  /** "Getting Started" as the scene holds it once loaded. */
  const GettingStartedGame := Game(Some(Pos(2, 2)), [Box(Pos(4, 3), false)], [Pos(3, 5)], 0, 0, true)

  /** Loading the first level into the initial scene. */
  lemma GettingStartedLoads()
    ensures LoadStep(InitialGame(), 0).0 == GettingStartedGame
  {
    assert GetLevels()[0].grid == GettingStarted;
    LoadBuildsLayout(InitialGame(), 0);
    GettingStartedReset();
  }

  /** The first layout, built into the initial scene. */
  lemma GettingStartedReset()
    ensures IsLayout(GettingStarted)
    ensures ResetTo(InitialGame(), GettingStarted, 0) == GettingStartedGame
  {
    GettingStartedPlayers();
    GettingStartedBoxes();
    GettingStartedTargets();
    assert NewBoxes([Pos(4, 3)]) == [Box(Pos(4, 3), false)];
  }

  /** Three steps down and one right bring the player below the box. */
  lemma GettingStartedFirstMoves()
    ensures MoveStep(MoveStep(MoveStep(MoveStep(GettingStartedGame, Down).0, Down).0, Down).0, Right).0
         == GettingStartedGame.(player := Some(Pos(5, 3)), moveCount := 4)
  {
    var g := GettingStartedGame;
    assert MoveStep(g, Down).0 == g.(player := Some(Pos(3, 2)), moveCount := 1);
    assert MoveStep(g.(player := Some(Pos(3, 2)), moveCount := 1), Down).0 == g.(player := Some(Pos(4, 2)), moveCount := 2);
    assert MoveStep(g.(player := Some(Pos(4, 2)), moveCount := 2), Down).0 == g.(player := Some(Pos(5, 2)), moveCount := 3);
  }

  /** A push up, left and up bring the player beside the box, now in the target's row. */
  lemma GettingStartedMiddleMoves()
    ensures var g4 := GettingStartedGame.(player := Some(Pos(5, 3)), moveCount := 4);
      MoveStep(MoveStep(MoveStep(g4, Up).0, Left).0, Up).0
        == GettingStartedGame.(player := Some(Pos(3, 2)), boxes := [Box(Pos(3, 3), false)], moveCount := 7)
  {
    var g := GettingStartedGame;
    var g5 := g.(player := Some(Pos(4, 3)), boxes := [Box(Pos(3, 3), false)], moveCount := 5);
    assert MoveStep(g.(player := Some(Pos(5, 3)), moveCount := 4), Up).0 == g5;
    assert MoveStep(g5, Left).0 == g5.(player := Some(Pos(4, 2)), moveCount := 6);
  }

  /** Two pushes right place the box, and the second wins with eight moves announced. */
  lemma GettingStartedLastMoves()
    ensures var g7 := GettingStartedGame.(player := Some(Pos(3, 2)), boxes := [Box(Pos(3, 3), false)], moveCount := 7);
      var (g9, o) := MoveStep(MoveStep(g7, Right).0, Right);
      && WinReport(o) == Some(8)
      && g9.moveCount == 9
      && g9.boxes == [Box(Pos(3, 5), true)]
  {
    var g := GettingStartedGame;
    assert MoveStep(g.(player := Some(Pos(3, 2)), boxes := [Box(Pos(3, 3), false)], moveCount := 7), Right).0
        == g.(player := Some(Pos(3, 3)), boxes := [Box(Pos(3, 4), false)], moveCount := 8);
  }
}
