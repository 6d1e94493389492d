/**
 * The game scene as the object it is: fields updated in place by the move,
 * push, status and load methods, each proved to perform exactly the
 * transition the Engine functions describe, so that every property proved
 * there holds of the scene.
 */
module Scene {
  import opened Wrappers
  import opened Grid
  import opened Levels
  import opened Commands
  import opened Engine

  class GameScene {
    var player: Option<Pos>
    var boxes: seq<Box>
    var targets: seq<Pos>
    var moveCount: nat
    var currentLevel: nat
    var voiceAssistanceEnabled: bool

    /** The fields as one value of the Engine model. */
    function State(): Game
      reads this
    {
      Game(player, boxes, targets, moveCount, currentLevel, voiceAssistanceEnabled)
    }

    /** The invariant of play holds of the fields. */
    predicate Valid()
      reads this
    {
      Consistent(State())
    }

    /** No player, no boxes, no targets, level 0, voice assistance on. */
    constructor()
      ensures State() == InitialGame()
      ensures Valid()
    {
      player := None;
      boxes := [];
      targets := [];
      currentLevel := 0;
      moveCount := 0;
      voiceAssistanceEnabled := true;
    }

    /** Scene start-up: the first level is loaded. */
    method Create() returns (outcome: LoadOutcome)
      modifies this
      ensures (State(), outcome) == LoadStep(old(State()), 0)
      ensures Valid()
    {
      outcome := LoadLevel(0);
    }

    /**
     * Loads level `index`, or, past the last level, only announces victory.
     * The announcement is the returned outcome.
     */
    method LoadLevel(index: nat) returns (outcome: LoadOutcome)
      modifies this
      ensures (State(), outcome) == LoadStep(old(State()), index)
      ensures index < |GetLevels()| ==> Valid()
      ensures index >= |GetLevels()| ==> unchanged(this)
    {
      var levels := GetLevels();
      if index >= |levels| {
        outcome := Victory(|levels|);
        return;
      }
      currentLevel := index;
      var level := levels[index];
      moveCount := 0;
      boxes := [];
      targets := [];
      CatalogWellFormed(index);
      CreateGrid(level.grid);
      outcome := LevelLoaded(index, level.name, |boxes|);
      assert State() == ResetTo(old(State()), level.grid, index);
      LoadBuildsLayout(old(State()), index);
    }

    /**
     * Scans the layout row by row twice: first adding a target for every
     * target cell, then a box for every box cell and placing the player on
     * every player cell, so the last one scanned stays.
     */
    method CreateGrid(grid: Layout)
      requires IsLayout(grid)
      modifies this
      ensures player == PlayerStart(grid, old(player))
      ensures boxes == old(boxes) + NewBoxes(CellsWith(grid, BoxCell))
      ensures targets == old(targets) + CellsWith(grid, TargetCell)
      ensures moveCount == old(moveCount) && currentLevel == old(currentLevel)
      ensures voiceAssistanceEnabled == old(voiceAssistanceEnabled)
    {
      PlaceTargets(grid);
      PlacePieces(grid);
    }

    /** The first pass of the scan: the targets, in row-major order. */
    method PlaceTargets(grid: Layout)
      requires IsLayout(grid)
      modifies this
      ensures targets == old(targets) + CellsWith(grid, TargetCell)
      ensures player == old(player) && boxes == old(boxes)
      ensures moveCount == old(moveCount) && currentLevel == old(currentLevel)
      ensures voiceAssistanceEnabled == old(voiceAssistanceEnabled)
    {
      for row := 0 to GridSize
        invariant targets == old(targets) + GridScan(grid, TargetCell, row)
        invariant player == old(player) && boxes == old(boxes)
        invariant moveCount == old(moveCount) && currentLevel == old(currentLevel)
        invariant voiceAssistanceEnabled == old(voiceAssistanceEnabled)
      {
        for col := 0 to GridSize
          invariant targets == old(targets) + GridScan(grid, TargetCell, row) + RowScan(grid, TargetCell, row, col)
          invariant player == old(player) && boxes == old(boxes)
          invariant moveCount == old(moveCount) && currentLevel == old(currentLevel)
          invariant voiceAssistanceEnabled == old(voiceAssistanceEnabled)
        {
          ScanOneCell(grid, TargetCell, row, col);
          if grid[row][col] == TargetCell {
            targets := targets + [Pos(row, col)];
          }
        }
        ScanOneRow(grid, TargetCell, row);
      }
    }

    /** The second pass of the scan: the boxes in row-major order, and the player. */
    method PlacePieces(grid: Layout)
      requires IsLayout(grid)
      modifies this
      ensures player == PlayerStart(grid, old(player))
      ensures boxes == old(boxes) + NewBoxes(CellsWith(grid, BoxCell))
      ensures targets == old(targets)
      ensures moveCount == old(moveCount) && currentLevel == old(currentLevel)
      ensures voiceAssistanceEnabled == old(voiceAssistanceEnabled)
    {
      ghost var cells: seq<Pos> := [];    // the box cells scanned so far
      ghost var starts: seq<Pos> := [];   // the player cells scanned so far
      for row := 0 to GridSize
        invariant cells == GridScan(grid, BoxCell, row) && starts == GridScan(grid, PlayerCell, row)
        invariant boxes == old(boxes) + NewBoxes(cells)
        invariant player == LastOr(starts, old(player))
        invariant targets == old(targets)
        invariant moveCount == old(moveCount) && currentLevel == old(currentLevel)
        invariant voiceAssistanceEnabled == old(voiceAssistanceEnabled)
      {
        assert cells + RowScan(grid, BoxCell, row, 0) == cells;
        assert starts + RowScan(grid, PlayerCell, row, 0) == starts;
        for col := 0 to GridSize
          invariant cells == GridScan(grid, BoxCell, row) + RowScan(grid, BoxCell, row, col)
          invariant starts == GridScan(grid, PlayerCell, row) + RowScan(grid, PlayerCell, row, col)
          invariant boxes == old(boxes) + NewBoxes(cells)
          invariant player == LastOr(starts, old(player))
          invariant targets == old(targets)
          invariant moveCount == old(moveCount) && currentLevel == old(currentLevel)
          invariant voiceAssistanceEnabled == old(voiceAssistanceEnabled)
        {
          ScanOneCell(grid, BoxCell, row, col);
          ScanOneCell(grid, PlayerCell, row, col);
          if grid[row][col] == BoxCell {
            NewBoxesSnoc(cells, Pos(row, col));
            boxes := boxes + [Box(Pos(row, col), false)];
            cells := cells + [Pos(row, col)];
          } else if grid[row][col] == PlayerCell {
            player := Some(Pos(row, col));
            starts := starts + [Pos(row, col)];
          }
        }
        ScanOneRow(grid, BoxCell, row);
        ScanOneRow(grid, PlayerCell, row);
      }
    }

    /**
     * One directional command: refused at the edge of the grid or when the
     * box in the way cannot move; otherwise the player steps (pushing the
     * box first if there is one) and the move is counted.
     */
    method MovePlayer(d: Direction) returns (outcome: MoveOutcome)
      modifies this
      ensures (State(), outcome) == MoveStep(old(State()), d)
      ensures old(Valid()) ==> Valid()
    {
      MoveConsistent(d);
      if player.None? {
        return NoPlayer;
      }
      var target := Neighbour(player.value, d);
      if !InBounds(target) {
        return EdgeOfGrid;
      }
      match FindBox(boxes, target)
      case None =>
        ExecuteMove(target);
        outcome := Walked(target);
      case Some(i) =>
        var pushed, status := PushBox(i, d);
        if pushed {
          ExecuteMove(target);
          outcome := PushedBox(i, Neighbour(target, d), status);
        } else {
          outcome := BoxBlocked;
        }
    }

    /** The invariant of play survives any move from this state. */
    lemma MoveConsistent(d: Direction)
      ensures Valid() ==> Consistent(MoveStep(State(), d).0)
    {
      if Valid() {
        MovePreservesConsistent(State(), d);
      }
    }

    /** The player steps onto p and the move is counted. */
    method ExecuteMove(p: Pos)
      requires player.Some?
      modifies this
      ensures State() == WalkStep(old(State()), p)
    {
      player := Some(p);
      moveCount := moveCount + 1;
    }

    /**
     * Box i moves one cell in direction d unless that cell is off the grid
     * or holds a box; a moved box then has its status brought up to date.
     */
    method PushBox(i: nat, d: Direction) returns (pushed: bool, status: BoxStatus)
      requires i < |boxes|
      modifies this
      ensures pushed <==> PushStep(old(State()), i, d).Pushed?
      ensures pushed ==> PushStep(old(State()), i, d) == Pushed(State(), status)
      ensures !pushed ==> unchanged(this) && status == Unchanged
    {
      var dest := Neighbour(boxes[i].pos, d);
      if !InBounds(dest) {
        return false, Unchanged;
      }
      if FindBox(boxes, dest).Some? {
        return false, Unchanged;
      }
      boxes := boxes[i := boxes[i].(pos := dest)];
      status := UpdateBoxStatus(i);
      pushed := true;
    }

    /**
     * Brings box i's flag up to date with the targets; reports a newly
     * placed box with the progress count and, when every box is now placed,
     * the win with the current move count.
     */
    method UpdateBoxStatus(i: nat) returns (status: BoxStatus)
      requires i < |boxes|
      modifies this
      ensures (State(), status) == StatusStep(old(State()), i)
      ensures boxes[i].onTarget == (boxes[i].pos in targets)
      ensures old(Valid()) ==> Valid()
    {
      var onTarget := boxes[i].pos in targets;
      if onTarget && !boxes[i].onTarget {
        boxes := boxes[i := boxes[i].(onTarget := true)];
        var boxesOnTarget := CountOnTarget(boxes);
        var totalBoxes := |boxes|;
        var win := if AllOnTarget(boxes) then Some(moveCount) else None;
        status := BoxPlaced(boxesOnTarget, totalBoxes, win);
      } else if !onTarget && boxes[i].onTarget {
        boxes := boxes[i := boxes[i].(onTarget := false)];
        status := BoxRemoved;
      } else {
        status := Unchanged;
      }
    }

    /** The delayed call after a win: the next level, or victory after the last one. */
    method AdvanceAfterWin() returns (outcome: LoadOutcome)
      modifies this
      ensures (State(), outcome) == LoadStep(old(State()), old(currentLevel) + 1)
      ensures old(Valid()) ==> Valid()
    {
      outcome := LoadLevel(currentLevel + 1);
    }

    /** The delayed call after victory: play starts again from the first level. */
    method RestartAfterVictory() returns (outcome: LoadOutcome)
      modifies this
      ensures (State(), outcome) == LoadStep(old(State()), 0)
      ensures Valid()
    {
      outcome := LoadLevel(0);
    }

    /**
     * Carries out a dispatched command; speech, help and panels leave the game
     * alone. A move hands back its outcome, so that the caller learns of a win
     * and can schedule `AdvanceAfterWin`; a restart hands back the reload's
     * announcement.
     */
    method Perform(c: Command) returns (moved: Option<MoveOutcome>, reloaded: Option<LoadOutcome>)
      modifies this
      ensures State() == CommandStep(old(State()), c)
      ensures c.Move? ==> moved == Some(MoveStep(old(State()), c.direction).1)
      ensures !c.Move? ==> moved == None
      ensures c.Restart? ==> reloaded == Some(LoadStep(old(State()), old(currentLevel)).1)
      ensures !c.Restart? ==> reloaded == None
      ensures old(Valid()) ==> Valid()
    {
      if old(Valid()) {
        CommandPreservesConsistent(State(), c);
      }
      moved, reloaded := None, None;
      match c
      case Move(d) =>
        var o := MovePlayer(d);
        moved := Some(o);
      case Restart =>
        var o := LoadLevel(currentLevel);
        reloaded := Some(o);
      case ToggleVoice =>
        voiceAssistanceEnabled := !voiceAssistanceEnabled;
      case _ =>
    }

    /** A recognized transcript, dispatched by the first keyword group it contains. */
    method HandleVoiceCommand(command: string) returns (moved: Option<MoveOutcome>, reloaded: Option<LoadOutcome>)
      modifies this
      ensures State() == CommandStep(old(State()), VoiceCommand(command))
      ensures VoiceCommand(command).Move? ==>
        moved == Some(MoveStep(old(State()), VoiceCommand(command).direction).1)
      ensures !VoiceCommand(command).Move? ==> moved == None
      ensures VoiceCommand(command).Restart? ==>
        reloaded == Some(LoadStep(old(State()), old(currentLevel)).1)
      ensures !VoiceCommand(command).Restart? ==> reloaded == None
      ensures old(Valid()) ==> Valid()
    {
      moved, reloaded := Perform(VoiceCommand(command));
    }

    /** A key press. */
    method HandleKey(key: Key) returns (moved: Option<MoveOutcome>, reloaded: Option<LoadOutcome>)
      modifies this
      ensures State() == CommandStep(old(State()), KeyCommand(key))
      ensures KeyCommand(key).Move? ==>
        moved == Some(MoveStep(old(State()), KeyCommand(key).direction).1)
      ensures !KeyCommand(key).Move? ==> moved == None
      ensures KeyCommand(key).Restart? ==>
        reloaded == Some(LoadStep(old(State()), old(currentLevel)).1)
      ensures !KeyCommand(key).Restart? ==> reloaded == None
      ensures old(Valid()) ==> Valid()
    {
      moved, reloaded := Perform(KeyCommand(key));
    }
  }
}
