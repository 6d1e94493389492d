/**
 * Input dispatch: the keyboard bindings and the voice-transcript matcher
 * both turn an input into one scene command.
 */
module Commands {
  import opened Grid

  /** What an input asks the scene to do. */
  datatype Command =
    | Move(direction: Direction)
    | Restart                 // reload the current level
    | Help                    // speak the instructions
    | Status                  // speak the game state
    | ToggleVoice             // flip spoken feedback on or off
    | ToggleInstructionPanel  // show or hide the on-screen panel
    | Unrecognized            // nothing happens

  /** `sub` occurs in `s` starting at index i. */
  predicate OccursAt(s: string, sub: string, i: int) {
    0 <= i && i + |sub| <= |s| && s[i..i + |sub|] == sub
  }

  /** The characters of `sub` from index j on match `s` from index i + j on. */
  predicate MatchesFrom(s: string, sub: string, i: nat, j: nat)
    requires i + |sub| <= |s| && j <= |sub|
    decreases |sub| - j
  {
    j == |sub| || (s[i + j] == sub[j] && MatchesFrom(s, sub, i, j + 1))
  }

  /** Some occurrence of `sub` in `s` starts at index i or later. */
  predicate IncludesFrom(s: string, sub: string, i: nat)
    decreases |s| - i
  {
    i + |sub| <= |s| && (MatchesFrom(s, sub, i, 0) || IncludesFrom(s, sub, i + 1))
  }

  /** String `includes`, scanning start positions left to right. */
  predicate Includes(s: string, sub: string)
    ensures Includes(s, sub) ==> |sub| <= |s|
    ensures sub == [] ==> Includes(s, sub)
  {
    IncludesFrom(s, sub, 0)
  }

  lemma {:induction false} MatchesFromSpec(s: string, sub: string, i: nat, j: nat)
    requires i + |sub| <= |s| && j <= |sub|
    ensures MatchesFrom(s, sub, i, j) <==> s[i + j..i + |sub|] == sub[j..]
    decreases |sub| - j
  {
    if j < |sub| {
      MatchesFromSpec(s, sub, i, j + 1);
      assert s[i + j..i + |sub|] == [s[i + j]] + s[i + j + 1..i + |sub|];
      assert sub[j..] == [sub[j]] + sub[j + 1..];
    }
  }

  lemma {:induction false} IncludesFromSpec(s: string, sub: string, i: nat)
    ensures IncludesFrom(s, sub, i) <==> exists k :: i <= k && OccursAt(s, sub, k)
    decreases |s| - i
  {
    if i + |sub| <= |s| {
      MatchesFromSpec(s, sub, i, 0);
      IncludesFromSpec(s, sub, i + 1);
      assert sub[0..] == sub;
      assert MatchesFrom(s, sub, i, 0) <==> OccursAt(s, sub, i);
      if exists k :: i <= k && OccursAt(s, sub, k) {
        var k :| i <= k && OccursAt(s, sub, k);
        assert k == i || (i + 1 <= k && OccursAt(s, sub, k));
      }
    }
  }

  /** The scan agrees with the plain meaning of `includes`: some occurrence exists. */
  lemma IncludesSpec(s: string, sub: string)
    ensures Includes(s, sub) <==> exists i :: OccursAt(s, sub, i)
  {
    IncludesFromSpec(s, sub, 0);
  }

  /** Some word of the group occurs in the transcript. */
  predicate MatchesAny(command: string, words: seq<string>) {
    exists k :: 0 <= k < |words| && Includes(command, words[k])
  }

  /**
   * The voice dispatch of the scene: the first group of keywords, in a
   * fixed order, that occurs anywhere in the transcript decides the command.
   */
  function VoiceCommand(command: string): (r: Command)
    ensures r == Move(Up) <==> Includes(command, "up") || Includes(command, "top")
    ensures r != Unrecognized ==> |command| >= 2
  {
    if Includes(command, "up") || Includes(command, "top") then Move(Up)
    else if Includes(command, "down") || Includes(command, "bottom") then Move(Down)
    else if Includes(command, "left") then Move(Left)
    else if Includes(command, "right") || Includes(command, "write") || Includes(command, "bright") then Move(Right)
    else if Includes(command, "restart") || Includes(command, "reset") then Restart
    else if Includes(command, "help") || Includes(command, "instruction") then Help
    else if Includes(command, "status") || Includes(command, "where") || Includes(command, "position") then Status
    else if Includes(command, "toggle voice") || Includes(command, "voice off") || Includes(command, "voice on") then ToggleVoice
    else Unrecognized
  }

  /** The keyword groups of the voice dispatch, highest priority first, as a table. */
  const VoiceGroups: seq<(seq<string>, Command)> := [
    (["up", "top"], Move(Up)),
    (["down", "bottom"], Move(Down)),
    (["left"], Move(Left)),
    (["right", "write", "bright"], Move(Right)),
    (["restart", "reset"], Restart),
    (["help", "instruction"], Help),
    (["status", "where", "position"], Status),
    (["toggle voice", "voice off", "voice on"], ToggleVoice)
  ]

  /** Reference dispatch: the command of the first group, from index k on, that matches. */
  function FirstMatchFrom(groups: seq<(seq<string>, Command)>, command: string, k: nat): Command
    decreases |groups| - k
  {
    if k >= |groups| then Unrecognized
    else if MatchesAny(command, groups[k].0) then groups[k].1
    else FirstMatchFrom(groups, command, k + 1)
  }

  function FirstMatch(groups: seq<(seq<string>, Command)>, command: string): Command {
    FirstMatchFrom(groups, command, 0)
  }

  /** Group k matches and no group from `from` up to k does. */
  predicate LowestMatchFrom(groups: seq<(seq<string>, Command)>, command: string, from: int, k: int) {
    && 0 <= from <= k < |groups|
    && MatchesAny(command, groups[k].0)
    && forall j :: from <= j < k ==> !MatchesAny(command, groups[j].0)
  }

  lemma {:induction false} FirstMatchFromIsLowest(groups: seq<(seq<string>, Command)>, command: string, from: nat)
    ensures (forall k :: from <= k < |groups| ==> !MatchesAny(command, groups[k].0))
      ==> FirstMatchFrom(groups, command, from) == Unrecognized
    ensures forall k :: LowestMatchFrom(groups, command, from, k) ==> FirstMatchFrom(groups, command, from) == groups[k].1
    decreases |groups| - from
  {
    if from < |groups| {
      FirstMatchFromIsLowest(groups, command, from + 1);
      forall k | LowestMatchFrom(groups, command, from, k)
        ensures FirstMatchFrom(groups, command, from) == groups[k].1
      {
        if k > from {
          assert LowestMatchFrom(groups, command, from + 1, k);
        }
      }
    }
  }

  /**
   * The first-match rule: the result is the command of the lowest-indexed
   * matching group, or Unrecognized when no group matches.
   */
  lemma FirstMatchIsLowestMatch(groups: seq<(seq<string>, Command)>, command: string)
    ensures (forall k :: 0 <= k < |groups| ==> !MatchesAny(command, groups[k].0))
      ==> FirstMatch(groups, command) == Unrecognized
    ensures forall k :: LowestMatchFrom(groups, command, 0, k) ==> FirstMatch(groups, command) == groups[k].1
  {
    FirstMatchFromIsLowest(groups, command, 0);
  }

  lemma MatchesOneOf1(command: string, a: string)
    ensures MatchesAny(command, [a]) <==> Includes(command, a)
  {
    assert [a][0] == a;
  }

  lemma MatchesOneOf2(command: string, a: string, b: string)
    ensures MatchesAny(command, [a, b]) <==> Includes(command, a) || Includes(command, b)
  {
    assert [a, b][0] == a && [a, b][1] == b;
  }

  lemma MatchesOneOf3(command: string, a: string, b: string, c: string)
    ensures MatchesAny(command, [a, b, c]) <==> Includes(command, a) || Includes(command, b) || Includes(command, c)
  {
    assert [a, b, c][0] == a && [a, b, c][1] == b && [a, b, c][2] == c;
  }

  /** The scene's if-chain is exactly the first-match rule over the keyword table. */
  lemma VoiceCommandIsFirstMatch(command: string)
    ensures VoiceCommand(command) == FirstMatch(VoiceGroups, command)
  {
    var g := VoiceGroups;
    MatchesOneOf3(command, "toggle voice", "voice off", "voice on");
    assert FirstMatchFrom(g, command, 7) == if MatchesAny(command, g[7].0) then ToggleVoice else Unrecognized;
    MatchesOneOf3(command, "status", "where", "position");
    assert FirstMatchFrom(g, command, 6) == if MatchesAny(command, g[6].0) then Status else FirstMatchFrom(g, command, 7);
    MatchesOneOf2(command, "help", "instruction");
    assert FirstMatchFrom(g, command, 5) == if MatchesAny(command, g[5].0) then Help else FirstMatchFrom(g, command, 6);
    MatchesOneOf2(command, "restart", "reset");
    assert FirstMatchFrom(g, command, 4) == if MatchesAny(command, g[4].0) then Restart else FirstMatchFrom(g, command, 5);
    MatchesOneOf3(command, "right", "write", "bright");
    assert FirstMatchFrom(g, command, 3) == if MatchesAny(command, g[3].0) then Move(Right) else FirstMatchFrom(g, command, 4);
    MatchesOneOf1(command, "left");
    assert FirstMatchFrom(g, command, 2) == if MatchesAny(command, g[2].0) then Move(Left) else FirstMatchFrom(g, command, 3);
    MatchesOneOf2(command, "down", "bottom");
    assert FirstMatchFrom(g, command, 1) == if MatchesAny(command, g[1].0) then Move(Down) else FirstMatchFrom(g, command, 2);
    MatchesOneOf2(command, "up", "top");
    assert FirstMatchFrom(g, command, 0) == if MatchesAny(command, g[0].0) then Move(Up) else FirstMatchFrom(g, command, 1);
  }

  /** "bright" can never decide anything: every transcript holding it holds "right". */
  lemma {:induction false} BrightContainsRight(command: string)
    ensures Includes(command, "bright") ==> Includes(command, "right")
  {
    IncludesSpec(command, "bright");
    IncludesSpec(command, "right");
    if Includes(command, "bright") {
      var i :| OccursAt(command, "bright", i);
      assert command[i + 1..i + 6] == command[i..i + 6][1..];
      assert OccursAt(command, "right", i + 1);
    }
  }

  /** The spoken direction words reach the four moves. */
  lemma DirectionWords()
    ensures VoiceCommand("up") == Move(Up)
    ensures VoiceCommand("down") == Move(Down)
    ensures VoiceCommand("left") == Move(Left)
    ensures VoiceCommand("right") == Move(Right)
  {
  }

  /**
   * Priority and substring matching in action: a transcript naming two
   * directions moves by the earlier group, and a word that merely contains
   * "top" moves up.
   */
  lemma PriorityExamples()
    ensures VoiceCommand("left up") == Move(Up)
    ensures VoiceCommand("stop") == Move(Up)
  {
  }

  /** Keys the scene binds. */
  datatype Key = ArrowLeft | ArrowRight | ArrowUp | ArrowDown | KeyW | KeyA | KeyS | KeyD
               | KeyR | KeyH | KeyV | KeyI

  /** The keyboard bindings: arrows and WASD move, R restarts, H helps, V toggles voice, I the panel. */
  function KeyCommand(key: Key): (r: Command)
    ensures r.Move? <==> key !in {KeyR, KeyH, KeyV, KeyI}
    ensures r != Unrecognized && r != Status
  {
    match key
    case ArrowLeft => Move(Left)
    case ArrowRight => Move(Right)
    case ArrowUp => Move(Up)
    case ArrowDown => Move(Down)
    case KeyA => Move(Left)
    case KeyD => Move(Right)
    case KeyW => Move(Up)
    case KeyS => Move(Down)
    case KeyR => Restart
    case KeyH => Help
    case KeyV => ToggleVoice
    case KeyI => ToggleInstructionPanel
  }

  /** Each direction is reachable by its arrow, by its WASD letter and by its spoken word alike. */
  lemma KeyboardAndVoiceAgree()
    ensures KeyCommand(ArrowUp) == KeyCommand(KeyW) == VoiceCommand("up")
    ensures KeyCommand(ArrowDown) == KeyCommand(KeyS) == VoiceCommand("down")
    ensures KeyCommand(ArrowLeft) == KeyCommand(KeyA) == VoiceCommand("left")
    ensures KeyCommand(ArrowRight) == KeyCommand(KeyD) == VoiceCommand("right")
  {
    DirectionWords();
  }

  /** "restart" is not captured by any direction group. */
  lemma RestartWord()
    ensures VoiceCommand("restart") == Restart
  {
  }

  /** "help" is not captured by any earlier group ("help" holds no "up"). */
  lemma HelpWord()
    ensures VoiceCommand("help") == Help
  {
  }

  /** "status" reaches the status group. */
  lemma StatusWord()
    ensures VoiceCommand("status") == Status
  {
  }

  /** A transcript with no keyword is not recognized. */
  lemma NoiseWord()
    ensures VoiceCommand("hello") == Unrecognized
  {
  }
}
