# Adaptive Game puzzle engine in Dafny

This project models the puzzle core of the game scene in an accessible,
Sokoban-style browser game (`src/scenes/GameScene.js`). The player pushes
boxes onto targets on an 8×8 grid. The scene can be driven by arrow keys,
WASD or spoken commands. The model covers these parts:

- the three-level catalog;
- level loading: a two-pass, row-major scan of a layout;
- movement and box pushing, with their edge and blocking rules;
- the per-box on-target flag, the progress count and the win test;
- the advance to the next level and the victory announcement;
- the keyboard bindings and the priority-ordered substring matcher for voice transcripts.

Modules:

- `Wrappers`: `Option`.
- `Grid`: grid size, positions, directions, the one-cell neighbour in a direction.
- `Levels`: the catalog, the row-major scan that finds every cell with a given code, and facts about the three shipped layouts.
- `Commands`: the scene's commands, `String.prototype.includes`, the voice dispatcher, a first-match reference table it is proved equal to, and the key bindings.
- `Engine`: the game state as a value (`Game`). It defines the transitions of each scene operation as functions: `MoveStep`, `PushStep`, `StatusStep`, `WalkStep`, `LoadStep`, `CommandStep`. It also holds the lemmas about play, including the invariant `Consistent`: every piece is in bounds, no two boxes share a cell, the player is never on a box, and every on-target flag is accurate.
- `Scene`: class `GameScene`. Its fields are the ones the scene updates in place. Its methods do what the scene's methods do: the two nested scanning loops, the in-place box updates, and the move counter. Each method is proved to perform exactly the matching `Engine` transition. The methods a player or a timer triggers also keep `Valid()`: `Create`, `LoadLevel` (for a catalog level), `MovePlayer`, `UpdateBoxStatus`, `AdvanceAfterWin`, `RestartAfterVictory`, `Perform`, `HandleVoiceCommand` and `HandleKey`. The helper steps `ExecuteMove`, `PushBox`, `CreateGrid`, `PlaceTargets` and `PlacePieces` are stated only as exact transitions. Each runs in the middle of a move or a load, where the invariant is restored only once the whole operation is done.

Behaviour follows the code:

- `loadLevel` with an index past the last level only announces victory. The state stays as it was and play continues.
- Nothing checks level data. The model proves that each shipped layout has exactly one player cell (`Levels.CatalogWellFormed`). When a layout has several player cells, the last one in row-major order wins. When it has none, the previous player stays.
- The win is announced from inside the push, before `executeMove` counts that push. The reported count is therefore one less than the counter after the winning move (`Engine.WinOnlyOnPlacement`, `Engine.GettingStartedLastMoves`).
- A level with no boxes can never be announced as won, because the win test runs only when a box has just been placed.
- The delayed calls after a win (load the next level) and after victory (load level 0) are methods the caller invokes: `AdvanceAfterWin` and `RestartAfterVictory`.

## Model

| member | source | states |
|---|---|---|
| Grid.Neighbour | src/scenes/GameScene.js:452-465 | the cell one step in a direction is at distance 1; left/right keep the row, up/down keep the column; left/up decrease and right/down increase the coordinate |
| Levels.CellsWithExact | src/scenes/GameScene.js:291-321 | the row-major scan lists exactly the in-bounds cells holding the code, strictly in row-major order (so without repeats) |
| Levels.ScanOneCell | src/scenes/GameScene.js:292-304 | scanning one more cell of a row appends that cell exactly when it holds the code |
| Levels.ScanOneRow | src/scenes/GameScene.js:292-306 | a finished row extends the scan by exactly that row |
| Levels.GettingStartedPlayers | src/scenes/GameScene.js:209-220 | "Getting Started" has one player cell, (2,2) |
| Levels.GettingStartedBoxes | src/scenes/GameScene.js:209-220 | "Getting Started" has one box cell, (4,3) |
| Levels.GettingStartedTargets | src/scenes/GameScene.js:209-220 | "Getting Started" has one target cell, (3,5) |
| Levels.DoubleTroublePlayers | src/scenes/GameScene.js:222-233 | "Double Trouble" has one player cell, (1,1) |
| Levels.DoubleTroubleBoxes | src/scenes/GameScene.js:222-233 | "Double Trouble" has box cells (2,2) and (4,3) |
| Levels.DoubleTroubleTargets | src/scenes/GameScene.js:222-233 | "Double Trouble" has target cells (2,5) and (5,5) |
| Levels.ThePuzzlePlayers | src/scenes/GameScene.js:235-246 | "The Puzzle" has one player cell, (1,2) |
| Levels.ThePuzzleBoxes | src/scenes/GameScene.js:235-246 | "The Puzzle" has box cells (2,2), (3,4), (4,5) |
| Levels.ThePuzzleTargets | src/scenes/GameScene.js:235-246 | "The Puzzle" has target cells (5,1), (6,2), (6,6) |
| Levels.GetLevels | src/scenes/GameScene.js:207-249 | the catalog holds three levels, each an 8×8 layout |
| Levels.CatalogWellFormed | src/scenes/GameScene.js:207-249 | every catalog level is an 8×8 layout with exactly one player cell |
| Commands.Includes | src/scenes/GameScene.js:746 | a word can be found only in a transcript at least as long as it; the empty word is found in every transcript |
| Commands.MatchesFromSpec | src/scenes/GameScene.js:746 | the character-by-character comparison agrees with slice equality |
| Commands.IncludesFromSpec | src/scenes/GameScene.js:746 | the search from an index finds the word exactly when it occurs at or after that index |
| Commands.IncludesSpec | src/scenes/GameScene.js:746 | `includes` holds exactly when the word occurs somewhere in the transcript |
| Commands.VoiceCommand | src/scenes/GameScene.js:746-781 | a transcript moves up exactly when it contains "up" or "top"; a transcript shorter than two characters is never recognized |
| Commands.FirstMatchFromIsLowest | src/scenes/GameScene.js:746-781 | scanning the groups from an index yields the command of the lowest matching group, or "unrecognized" when none from there matches |
| Commands.FirstMatchIsLowestMatch | src/scenes/GameScene.js:746-781 | the first-match table gives the lowest matching group's command, and "unrecognized" when no group matches |
| Commands.VoiceCommandIsFirstMatch | src/scenes/GameScene.js:746-781 | the if-chain equals first-match over the groups up/top, down/bottom, left, right/write/bright, restart/reset, help/instruction, status/where/position, toggle voice/voice off/voice on, in that order |
| Commands.BrightContainsRight | src/scenes/GameScene.js:758 | every transcript containing "bright" contains "right" |
| Commands.DirectionWords | src/scenes/GameScene.js:746-761 | "up", "down", "left" and "right" reach the four moves |
| Commands.PriorityExamples | src/scenes/GameScene.js:746-757 | "left up" moves up, because the up group is tested first; "stop" moves up, because it contains "top" |
| Commands.RestartWord | src/scenes/GameScene.js:762-765 | "restart" reloads the level |
| Commands.HelpWord | src/scenes/GameScene.js:766-769 | "help" asks for the instructions; it does not fall into the up group |
| Commands.StatusWord | src/scenes/GameScene.js:770-773 | "status" asks for the game state |
| Commands.NoiseWord | src/scenes/GameScene.js:779-781 | "hello" matches no group and is not recognized |
| Commands.KeyCommand | src/scenes/GameScene.js:416-443 | a key moves the player exactly when it is an arrow or a WASD key; every bound key has an effect, and none of them asks for the status |
| Commands.KeyboardAndVoiceAgree | src/scenes/GameScene.js:435-443 | each direction's arrow key, WASD key and spoken word give the same move |
| Engine.FindBox | src/scenes/GameScene.js:474 | the lookup finds a box exactly when some box stands on the cell, and then the first such box |
| Engine.AllOnTarget | src/scenes/GameScene.js:652-654 | the win test holds exactly when every box in the list is flagged |
| Engine.CountOnTarget | src/scenes/GameScene.js:648-654 | the count of flagged boxes is at most the number of boxes, and equals it exactly when every box is flagged |
| Engine.InitialGameConsistent | src/scenes/GameScene.js:4-30 | the freshly constructed scene satisfies the invariant of play |
| Engine.MoveStep | src/scenes/GameScene.js:446-487 | a move reports "no player" exactly when none is loaded; a move that neither walks nor pushes leaves the game as it was; one that does puts the player on the neighbouring cell and counts one move |
| Engine.WalkStep | src/scenes/GameScene.js:489-527 | the player is on the new cell, the counter is one higher, and nothing else changes |
| Engine.PushStep | src/scenes/GameScene.js:544-604 | a push is blocked exactly when the cell beyond is off the grid or holds a box; a push that goes through puts the box on that cell and keeps the box count, the player, the counter and the targets |
| Engine.StatusStep | src/scenes/GameScene.js:606-646 | afterwards, the box's flag says whether a target lies under it, and nothing else changes; a placement is reported exactly when the box arrived on a target unflagged, and a removal exactly when a flagged box left one |
| Engine.MoveIsAllOrNothing | src/scenes/GameScene.js:446-487 | a move that neither walks nor pushes changes nothing; a move that does puts the player on the neighbouring cell and raises the counter by exactly one; targets, level and voice setting never change, and no box appears or disappears |
| Engine.EdgeMoveChangesNothing | src/scenes/GameScene.js:467-472 | a move is refused at the edge exactly when the next cell is off the grid, and then changes nothing |
| Engine.WalkMovesOnlyPlayer | src/scenes/GameScene.js:484-491 | a move to a free in-bounds cell walks there, one cell away; boxes stay the same and the counter rises by one |
| Engine.PushResolution | src/scenes/GameScene.js:474-486 | a push is blocked exactly when the cell beyond is off the grid or holds a box, and then nothing changes; otherwise that box and the player each move one cell, the box's flag says whether a target is under it, no other box changes, and one move is counted |
| Engine.MovePreservesConsistent | src/scenes/GameScene.js:446-604 | every move keeps all pieces in bounds, boxes on distinct cells, the player off every box, and every flag accurate |
| Engine.StatusStepCounts | src/scenes/GameScene.js:606-643 | a status update changes only the box's flag, which becomes "a target lies under it": a placement raises the count by one and reports the new count and the box total; a removal lowers it by one; otherwise nothing changes |
| Engine.CountAfterUpdate | src/scenes/GameScene.js:648-650 | replacing one box changes the count only by the change in that box's flag |
| Engine.PlacementChangesCountByOne | src/scenes/GameScene.js:606-643 | across a move, a box goes onto a target only by being pushed onto it, which raises the count by one; leaving a target lowers the count by one; every other move leaves the count unchanged |
| Engine.WinOnlyOnPlacement | src/scenes/GameScene.js:635-637 | a win is reported exactly when a push places a box and every box is then flagged; the reported count is the counter before the winning push, one less than after it |
| Engine.NewBoxes | src/scenes/GameScene.js:355-368 | one box is created per cell, in the order of the cells: the k-th box stands on the k-th cell, unflagged |
| Engine.NewBoxesSnoc | src/scenes/GameScene.js:355-368 | creating a box for one more scanned cell appends one unflagged box at the end |
| Engine.ResetTo | src/scenes/GameScene.js:259-321 | a rebuilt level has the counter at 0 and the given level current, and one unflagged box per box cell of the layout, the k-th box on the k-th box cell in row-major order |
| Engine.ResetBuildsLayout | src/scenes/GameScene.js:280-283 | from a layout with one player cell, a load puts the player on that cell and one unflagged box on each box cell in row-major order, takes the targets from the target cells, and sets the counter to 0; the result has boxes in bounds and apart, the player off every box, and accurate flags |
| Engine.LoadStep | src/scenes/GameScene.js:251-321 | victory is announced exactly when the index is past the last level, and then the game is unchanged; a loaded level is current, its counter is 0, and the announced box count is the number of boxes |
| Engine.LoadPastLastLevel | src/scenes/GameScene.js:251-257 | loading an index past the last level reports victory with the level total and changes nothing |
| Engine.LoadBuildsLayout | src/scenes/GameScene.js:251-289 | loading a catalog level rebuilds the state from the catalog, announces the level's index, name and box count, and satisfies the invariant of play |
| Engine.RestartReproducesLayout | src/scenes/GameScene.js:418 | loading a level gives the same state and announcement whatever was played before, the voice setting aside |
| Engine.RestartReloadsCurrentLevel | src/scenes/GameScene.js:764 | restarting in a consistent state reloads the current level and never announces victory |
| Engine.CommandStep | src/scenes/GameScene.js:416-443 | no command changes the current level; only the voice toggle flips the voice setting; help, status, the instruction panel and an unrecognized transcript leave the game as it was |
| Engine.CommandPreservesConsistent | src/scenes/GameScene.js:746-781 | every dispatched command keeps the invariant of play |
| Engine.UnmatchedTranscriptChangesNothing | src/scenes/GameScene.js:779-781 | a transcript matching no group leaves the game unchanged |
| Engine.GettingStartedLoads | src/scenes/GameScene.js:36-46 | loading the first level into the new scene puts the player at (2,2), one unflagged box at (4,3) and the target at (3,5), with counter 0 |
| Engine.GettingStartedFirstMoves | src/scenes/GameScene.js:446-542 | three steps down and one right walk the player to (5,3) in four moves |
| Engine.GettingStartedMiddleMoves | src/scenes/GameScene.js:446-604 | a push up moves the box to (3,3), then left and up bring the player to (3,2) after seven moves |
| Engine.GettingStartedLastMoves | src/scenes/GameScene.js:656-658 | two pushes right put the box on the target and win the level; the win is announced with 8 moves while the counter reads 9 |
| Scene.GameScene.constructor | src/scenes/GameScene.js:4-30 | no player, no boxes, no targets, level 0, counter 0, voice assistance on; the invariant holds |
| Scene.GameScene.Create | src/scenes/GameScene.js:36-46 | start-up performs the load of level 0 and leaves a valid state |
| Scene.GameScene.LoadLevel | src/scenes/GameScene.js:251-289 | the fields change exactly as the load transition says; a catalog level leaves a valid state; an index past the end leaves the object unchanged |
| Scene.GameScene.CreateGrid | src/scenes/GameScene.js:291-321 | targets and boxes are appended in row-major scan order; the player ends on the last player cell scanned, or stays put when there is none |
| Scene.GameScene.PlaceTargets | src/scenes/GameScene.js:292-305 | the first pass appends exactly the target cells in row-major order and changes nothing else |
| Scene.GameScene.PlacePieces | src/scenes/GameScene.js:308-320 | the second pass appends one unflagged box per box cell in row-major order and places the player on the last player cell |
| Scene.GameScene.MovePlayer | src/scenes/GameScene.js:446-487 | the fields and the outcome are exactly the move transition's, and the invariant is kept |
| Scene.GameScene.ExecuteMove | src/scenes/GameScene.js:489-542 | the player moves to the given cell and the counter rises by one |
| Scene.GameScene.PushBox | src/scenes/GameScene.js:544-604 | returns true exactly when the push transition succeeds, with its state and status; otherwise nothing changes |
| Scene.GameScene.UpdateBoxStatus | src/scenes/GameScene.js:606-646 | the flag update and the report are exactly the status transition's; the box's flag then says whether a target lies under it, and the invariant is kept |
| Scene.GameScene.AdvanceAfterWin | src/scenes/GameScene.js:676-678 | after a win, the next level is loaded, or victory is announced after the last one; the invariant is kept |
| Scene.GameScene.RestartAfterVictory | src/scenes/GameScene.js:935-937 | after victory, level 0 is loaded and the state is valid |
| Scene.GameScene.Perform | src/scenes/GameScene.js:762-781 | a command changes the fields exactly as the command transition says, and keeps the invariant; a move hands back its outcome (including a win, which the caller answers with `AdvanceAfterWin`) and a restart its load announcement |
| Scene.GameScene.HandleVoiceCommand | src/scenes/GameScene.js:743-782 | a transcript acts as the command its first matching group names, and hands back the outcome of the move or reload it causes |
| Scene.GameScene.HandleKey | src/scenes/GameScene.js:416-443 | a key press acts as its bound command, and hands back the outcome of the move or reload it causes |

## Left out

- Rendering and animation are not modelled: tweens, glows, sparkles, particles, confetti, camera shake and pixel coordinates. They are presentation only, and some of them use floating point.
- Audio synthesis (`initAudio`, `playSound`, `playMelody`) is not modelled. It consists of Web Audio calls.
- Speech is not modelled. Recognition (`setupVoiceControls`, `startVoiceRecognition`) is browser I/O; its transcript is the string parameter of `HandleVoiceCommand`. Synthesis (`speakText`) and the screen-reader element are output only; the announcements of moves, pushes and loads appear only as the returned outcomes (`MoveOutcome`, `BoxStatus`, `LoadOutcome`), which `Perform`, `HandleKey` and `HandleVoiceCommand` pass on to their caller. The help, status and panel texts are not modelled: those commands leave the game unchanged.
- UI widgets are not modelled: `createUI`, `updateUI`, the instruction panel, `showInstructions` and `announceGameState`. The help, status and instruction-panel commands are therefore no-ops on the game state.
- Timers are not modelled. The delayed loads after a win and after victory are the caller-invoked methods `AdvanceAfterWin` and `RestartAfterVictory`. When to call them is left to the caller. In the scene, play goes on during the 3-second delay, and the callback reads `currentLevel` only when it fires. A second win inside the delay therefore schedules a second advance, which skips a level; a restart does not cancel a pending advance. In the model these cases are `AdvanceAfterWin` called twice, or called after `LoadLevel`. The delayed start of voice recognition and the welcome message are left out.
- `src/main.js` is not part of this model; it configures the game framework and holds no logic.
- Scene.GameScene.CreateGrid: the two scanning passes of `createGrid` are split into the methods `PlaceTargets` and `PlacePieces`, to keep each proof small. Their loops are the source's loops.
- Scene.GameScene.HandleVoiceCommand: the transcript is matched as given. Lower-casing and trimming by the recognition handler happen before the call and are not modelled.
- Engine.CountOnTarget: the count is defined by recursion over the boxes rather than through `filter(...).length`. Both count the flagged boxes.
