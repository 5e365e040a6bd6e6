/** The application of src/main.rs: a list of the three modes whose front is the active
    one, the dispatch of each terminal event to the front mode, and the event loop that
    collects actions and ticks the game.

    The modes' own states are held beside the list: the list holds only their tags. The
    menu's key handler is not part of this model, so what it answers to an event is an
    input. Drawing, the input thread and the clock are left out: an iteration of the loop
    receives its batch of events and whether the tick interval has elapsed. */
module App {
  import opened Wrappers
  import opened Numbers
  import Input
  import Game
  import Leaderboard

  datatype Mode = MenuMode | GameMode | LeaderboardMode

  /** What the menu answers to a key event. */
  datatype MenuAction = SwitchToExit | SwitchToGame | SwitchToLeaderboard | MenuDoNothing

  datatype Action = DoNothing | CloseApp | UpdateGameState(gameAction: Game.GameAction)

  // ---------------------------------------------------------------------------------------
  // The mode list

  /** The three modes, each once: three places holding three different modes. */
  predicate IsArrangement(s: seq<Mode>) {
    |s| == 3 && s[0] != s[1] && s[0] != s[2] && s[1] != s[2]
  }

  /** An arrangement is a permutation of the three modes, and every permutation of them is
      an arrangement. */
  lemma ArrangementIsPermutation(s: seq<Mode>)
    ensures IsArrangement(s) <==> multiset(s) == multiset{MenuMode, GameMode, LeaderboardMode}
  {
    if IsArrangement(s) {
      assert s == [s[0], s[1], s[2]];
      assert s[0] != s[1] && s[0] != s[2] && s[1] != s[2];
    }
    if multiset(s) == multiset{MenuMode, GameMode, LeaderboardMode} {
      assert |s| == |multiset(s)| == 3;
      assert MenuMode in multiset(s) && GameMode in multiset(s) && LeaderboardMode in multiset(s);
    }
  }

  /** The position of the first `m` in `s`. */
  function IndexOf(s: seq<Mode>, m: Mode): (i: nat)
    requires m in s
    ensures i < |s| && s[i] == m && m !in s[..i]
  {
    if s[0] == m then 0
    else
      var j := IndexOf(s[1..], m);
      assert s[..j + 1] == [s[0]] + s[1..][..j];
      j + 1
  }

  /** `extract_if(..).next()` on the list: the first `m` is taken out and the other modes
      keep their order. */
  function Extract(s: seq<Mode>, m: Mode): (r: seq<Mode>)
    requires m in s
    ensures r == s[..IndexOf(s, m)] + s[IndexOf(s, m) + 1..]
    ensures |r| == |s| - 1
    ensures m != MenuMode ==> (MenuMode in r <==> MenuMode in s)
    ensures m != GameMode ==> (GameMode in r <==> GameMode in s)
    ensures m != LeaderboardMode ==> (LeaderboardMode in r <==> LeaderboardMode in s)
  {
    if s[0] == m then s[1..]
    else
      var j := IndexOf(s[1..], m);
      assert s[..j + 1] == [s[0]] + s[1..][..j];
      assert s[j + 2..] == s[1..][j + 1..];
      [s[0]] + Extract(s[1..], m)
  }

  /** Extract, then `push_front`. */
  function MoveToFront(s: seq<Mode>, m: Mode): (r: seq<Mode>)
    requires m in s
    ensures IsArrangement(s) ==> IsArrangement(r)
  {
    [m] + Extract(s, m)
  }

  /** The game-over transition: Menu and Leaderboard are extracted, Menu is pushed to the
      front and Leaderboard to the back. */
  function ReturnFromGame(s: seq<Mode>): (r: seq<Mode>)
    requires IsArrangement(s)
    ensures IsArrangement(r)
  {
    var t := Extract(s, MenuMode);
    assert LeaderboardMode in t && GameMode in t;
    var u := Extract(t, LeaderboardMode);
    assert GameMode in u && |u| == 1;
    [MenuMode] + u + [LeaderboardMode]
  }

  /** The six arrangements, one by one. */
  lemma ArrangementCases(s: seq<Mode>)
    ensures IsArrangement(s) <==> s in [[MenuMode, GameMode, LeaderboardMode],
                                       [MenuMode, LeaderboardMode, GameMode],
                                       [GameMode, MenuMode, LeaderboardMode],
                                       [GameMode, LeaderboardMode, MenuMode],
                                       [LeaderboardMode, MenuMode, GameMode],
                                       [LeaderboardMode, GameMode, MenuMode]]
  {
    if IsArrangement(s) {
      assert s == [s[0], s[1], s[2]];
    }
  }

  /** Moving a mode to the front keeps the other two in the order they had. */
  lemma MoveToFrontKeepsOrder(s: seq<Mode>, m: Mode)
    requires IsArrangement(s)
    ensures var r := MoveToFront(s, m);
      r[0] == m && [r[1], r[2]] == s[..IndexOf(s, m)] + s[IndexOf(s, m) + 1..]
  {
    var e := Extract(s, m);
    assert [e[0], e[1]] == e;
  }

  /** Whatever order the modes were in, the game-over transition leaves Menu, Game,
      Leaderboard. */
  lemma ReturnFromGameLayout(s: seq<Mode>)
    requires IsArrangement(s)
    ensures ReturnFromGame(s) == [MenuMode, GameMode, LeaderboardMode]
  {
    var t := Extract(s, MenuMode);
    assert GameMode in t && LeaderboardMode in t;
    var u := Extract(t, LeaderboardMode);
    assert GameMode in u && |u| == 1;
    assert u == [GameMode];
  }

  // ---------------------------------------------------------------------------------------
  // What handle_event does to the mode list

  /** The menu closes the application: it is at the front and answers SwitchToExit to a key. */
  predicate Closes(s: seq<Mode>, ev: Input.Event, answer: MenuAction)
    requires IsArrangement(s)
  {
    s[0] == MenuMode && ev.Key? && answer == SwitchToExit
  }

  /** The menu block: a key to the menu can bring Game or Leaderboard to the front. */
  function MenuStep(s: seq<Mode>, ev: Input.Event, answer: MenuAction): (r: seq<Mode>)
    requires IsArrangement(s)
    ensures IsArrangement(r)
    ensures s[0] != MenuMode || !ev.Key? ==> r == s
    ensures s[0] == MenuMode && ev.Key? && answer == SwitchToGame ==> r[0] == GameMode
    ensures s[0] == MenuMode && ev.Key? && answer == SwitchToLeaderboard ==> r[0] == LeaderboardMode
    ensures answer == SwitchToExit || answer == MenuDoNothing ==> r == s
  {
    if s[0] == MenuMode && ev.Key? then
      match answer
      case SwitchToGame => MoveToFront(s, GameMode)
      case SwitchToLeaderboard => MoveToFront(s, LeaderboardMode)
      case _ => s
    else s
  }

  /** The game answers ReturnToMenu: it is lost and Enter is pressed. */
  predicate GameFinishes(ev: Input.Event, lost: bool) {
    lost && ev.Key? && ev.key.kind == Input.Press && ev.key.code == Input.Enter
  }

  /** The leaderboard answers ReturnToMenu. */
  predicate LeaderboardLeaves(ev: Input.Event) {
    ev.Key? && Leaderboard.HandleKeyPress(ev.key) == Leaderboard.ReturnToMenu
  }

  /** The mode list after one event, given whether the game is lost. The three blocks see
      the list the previous one left, so a key that switches the menu to another mode is
      handled by that mode as well. */
  function NextModes(s: seq<Mode>, ev: Input.Event, answer: MenuAction, lost: bool): (r: seq<Mode>)
    requires IsArrangement(s)
    ensures IsArrangement(r)
  {
    if Closes(s, ev, answer) then s
    else
      var s1 := MenuStep(s, ev, answer);
      if s1[0] == GameMode then
        if GameFinishes(ev, lost) then ReturnFromGame(s1) else s1
      else if s1[0] == LeaderboardMode && LeaderboardLeaves(ev) then MoveToFront(s1, MenuMode)
      else s1
  }

  /** Once the game is at the front, only the game-over transition takes it away, and that
      transition always ends in Menu, Game, Leaderboard. */
  lemma GameStaysInFront(s: seq<Mode>, ev: Input.Event, answer: MenuAction, lost: bool)
    requires IsArrangement(s) && s[0] == GameMode
    ensures var r := NextModes(s, ev, answer, lost);
      && (!GameFinishes(ev, lost) ==> r == s)
      && (GameFinishes(ev, lost) ==> r == [MenuMode, GameMode, LeaderboardMode])
  {
    if GameFinishes(ev, lost) {
      ReturnFromGameLayout(s);
    }
  }

  /** Moving the second mode to the front swaps the first two. */
  lemma MoveSecondToFront(s: seq<Mode>)
    requires IsArrangement(s)
    ensures MoveToFront(s, s[1]) == [s[1], s[0], s[2]]
  {
    assert IndexOf(s, s[1]) == 1;
    MoveToFrontKeepsOrder(s, s[1]);
    var r := MoveToFront(s, s[1]);
    assert s[..1] + s[2..] == [s[0], s[2]];
    assert r == [r[0], r[1], r[2]];
  }

  /** A key that makes the menu switch to the leaderboard puts Leaderboard, Menu, Game
      in front, whatever the order of the other two was. */
  lemma SwitchToLeaderboardLayout(s: seq<Mode>, ev: Input.Event)
    requires IsArrangement(s) && s[0] == MenuMode && ev.Key?
    ensures MenuStep(s, ev, SwitchToLeaderboard) == [LeaderboardMode, MenuMode, GameMode]
  {
    if s[1] == LeaderboardMode {
      MoveSecondToFront(s);
    } else {
      assert IndexOf(s, LeaderboardMode) == 2;
      MoveToFrontKeepsOrder(s, LeaderboardMode);
      assert s[..2] + s[3..] == [MenuMode, GameMode];
      var s1 := MoveToFront(s, LeaderboardMode);
      assert s1 == [s1[0], s1[1], s1[2]];
    }
  }

  /** When the menu's block leaves the leaderboard in front and the key is one it leaves
      on, the menu is moved back to the front in the same call. */
  lemma LeaderboardHandsBack(s: seq<Mode>, ev: Input.Event, answer: MenuAction, lost: bool)
    requires IsArrangement(s) && !Closes(s, ev, answer)
    requires MenuStep(s, ev, answer)[0] == LeaderboardMode && LeaderboardLeaves(ev)
    ensures NextModes(s, ev, answer, lost) == MoveToFront(MenuStep(s, ev, answer), MenuMode)
  {
  }

  /** A key that makes the menu switch to the leaderboard reaches the leaderboard in the
      same call; when it is one the leaderboard leaves on (a press of 'q'), the leaderboard
      hands the front straight back to the menu, so the list ends as Menu, Leaderboard,
      Game whatever the order of the other two was. */
  lemma SwitchedKeyIsDispatchedAgain(s: seq<Mode>, ev: Input.Event, lost: bool)
    requires IsArrangement(s) && s[0] == MenuMode && LeaderboardLeaves(ev)
    ensures MenuStep(s, ev, SwitchToLeaderboard) == [LeaderboardMode, MenuMode, GameMode]
    ensures NextModes(s, ev, SwitchToLeaderboard, lost) == [MenuMode, LeaderboardMode, GameMode]
  {
    SwitchToLeaderboardLayout(s, ev);
    LeaderboardHandsBack(s, ev, SwitchToLeaderboard, lost);
    MoveSecondToFront([LeaderboardMode, MenuMode, GameMode]);
  }

  // ---------------------------------------------------------------------------------------
  // The actions handed to on_tick

  /** The game action an action contributes to on_tick's list: its UpdateGameState
      payload, unless that is DoNothing. */
  function Contribution(a: Action): (r: seq<Game.GameAction>)
    ensures |r| <= 1
    ensures r != [] <==> a.UpdateGameState? && a.gameAction != Game.DoNothing
    ensures r != [] ==> r[0] == a.gameAction
  {
    if a.UpdateGameState? && a.gameAction != Game.DoNothing then [a.gameAction] else []
  }

  /** The list run hands to on_tick, built from every action collected so far. */
  function GameActions(actions: seq<Action>): seq<Game.GameAction> {
    if actions == [] then []
    else GameActions(actions[..|actions| - 1]) + Contribution(actions[|actions| - 1])
  }

  /** Collecting more actions extends the list at its end, keeping what was there. */
  lemma {:induction false} GameActionsConcat(a: seq<Action>, b: seq<Action>)
    ensures GameActions(a + b) == GameActions(a) + GameActions(b)
    decreases |b|
  {
    if b == [] {
      assert a + b == a;
    } else {
      var b', last := b[..|b| - 1], b[|b| - 1];
      assert (a + b)[..|a + b| - 1] == a + b' && (a + b)[|a + b| - 1] == last;
      GameActionsConcat(a, b');
      assert GameActions(a + b) == GameActions(a + b') + Contribution(last);
      assert GameActions(b) == GameActions(b') + Contribution(last);
    }
  }

  /** The list holds exactly the collected game actions other than DoNothing. */
  lemma {:induction false} GameActionsMembers(actions: seq<Action>, g: Game.GameAction)
    ensures g in GameActions(actions) <==> g != Game.DoNothing && UpdateGameState(g) in actions
  {
    if actions != [] {
      var front := actions[..|actions| - 1];
      GameActionsMembers(front, g);
      assert actions == front + [actions[|actions| - 1]];
    }
  }

  /** Because the collected actions are never cleared, a tick after a batch with no new
      game action applies the same action as the tick before it: the last turn ever made
      is applied again. */
  lemma StaleActionRepeats(actions: seq<Action>, later: seq<Action>)
    requires forall i :: 0 <= i < |later| ==> Contribution(later[i]) == []
    ensures Game.LastAction(GameActions(actions + later)) == Game.LastAction(GameActions(actions))
  {
    GameActionsConcat(actions, later);
    NoContributionNoActions(later);
  }

  lemma {:induction false} NoContributionNoActions(later: seq<Action>)
    requires forall i :: 0 <= i < |later| ==> Contribution(later[i]) == []
    ensures GameActions(later) == []
  {
    if later != [] {
      NoContributionNoActions(later[..|later| - 1]);
    }
  }

  // ---------------------------------------------------------------------------------------
  // The event loop's input

  /** One event, with what the menu answers to it when it is asked. */
  datatype Arrival = Arrival(ev: Input.Event, menuAnswer: MenuAction)

  /** One iteration of run's loop: the events that arrived, whether the tick interval has
      elapsed when the world is updated, and the random draw food placement would use. */
  datatype Round = Round(arrivals: seq<Arrival>, elapsed: bool, randomU32: U32)

  /** How run ends: closed by the menu, by a panic, or (in the model only) because the
      given input is used up. */
  datatype Outcome = Closed | Aborted | InputEnded

  /** Every event in arrival order: the batch of each round, round after round. */
  function Arrivals(rounds: seq<Round>): seq<Arrival> {
    if rounds == [] then []
    else Arrivals(rounds[..|rounds| - 1]) + rounds[|rounds| - 1].arrivals
  }

  /** How many events have arrived up to and including round `j`. */
  function EventsThrough(rounds: seq<Round>, j: nat): nat
    requires j < |rounds|
  {
    |Arrivals(rounds[..j + 1])|
  }

  /** The events of the first rounds come first among all events. */
  lemma {:induction false} ArrivalsPrefix(rounds: seq<Round>, n: nat)
    requires n <= |rounds|
    ensures Arrivals(rounds[..n]) <= Arrivals(rounds)
    decreases |rounds| - n
  {
    if n < |rounds| {
      ArrivalsPrefix(rounds, n + 1);
      assert rounds[..n + 1][..n] == rounds[..n];
      var a, b := Arrivals(rounds[..n]), Arrivals(rounds[..n + 1]);
      assert b == a + rounds[n].arrivals;
      assert Arrivals(rounds)[..|a|] == b[..|a|] == a;
    } else {
      assert rounds[..n] == rounds;
    }
  }

  /** Which action handle_event returns for an arrival, by the mode list it meets:
      CloseApp exactly when the menu closes the application, a game action exactly when
      the menu's block leaves the game at the front, DoNothing otherwise. */
  predicate Classified(s: seq<Mode>, a: Arrival, action: Action)
    requires IsArrangement(s)
  {
    && (action == CloseApp <==> Closes(s, a.ev, a.menuAnswer))
    && (action.UpdateGameState? <==>
          !Closes(s, a.ev, a.menuAnswer) && MenuStep(s, a.ev, a.menuAnswer)[0] == GameMode)
  }

  /** A record of handled events: `actions[i]` is the answer to `arrivals[i]`, which met
      the mode list `modes[i]` and a game that was lost or not as `lost[i]` says; the first
      list is `start` and each later one is what the event before it left. */
  ghost predicate Dispatched(start: seq<Mode>, modes: seq<seq<Mode>>, lost: seq<bool>,
                             actions: seq<Action>, arrivals: seq<Arrival>)
  {
    && |modes| == |lost| == |actions| <= |arrivals|
    && (|actions| > 0 ==> modes[0] == start)
    && forall i :: 0 <= i < |actions| ==>
         && IsArrangement(modes[i])
         && Classified(modes[i], arrivals[i], actions[i])
         && (i + 1 < |actions| ==>
               modes[i + 1] == NextModes(modes[i], arrivals[i].ev, arrivals[i].menuAnswer, lost[i]))
  }

  /** The mode list the recorded events leave. */
  ghost function Reached(start: seq<Mode>, modes: seq<seq<Mode>>, lost: seq<bool>,
                         actions: seq<Action>, arrivals: seq<Arrival>): (r: seq<Mode>)
    requires IsArrangement(start) && Dispatched(start, modes, lost, actions, arrivals)
    ensures IsArrangement(r)
    ensures actions == [] ==> r == start
  {
    if actions == [] then start
    else
      var n := |actions| - 1;
      NextModes(modes[n], arrivals[n].ev, arrivals[n].menuAnswer, lost[n])
  }

  /** Two records, the second starting where the first left the list, make one. */
  lemma DispatchedConcat(start: seq<Mode>,
                         m1: seq<seq<Mode>>, l1: seq<bool>, a1: seq<Action>, e1: seq<Arrival>,
                         m2: seq<seq<Mode>>, l2: seq<bool>, a2: seq<Action>, e2: seq<Arrival>)
    requires IsArrangement(start)
    requires Dispatched(start, m1, l1, a1, e1) && |a1| == |e1|
    requires Dispatched(Reached(start, m1, l1, a1, e1), m2, l2, a2, e2)
    ensures Dispatched(start, m1 + m2, l1 + l2, a1 + a2, e1 + e2)
    ensures Reached(start, m1 + m2, l1 + l2, a1 + a2, e1 + e2)
         == Reached(Reached(start, m1, l1, a1, e1), m2, l2, a2, e2)
  {
    var m, l, a, e := m1 + m2, l1 + l2, a1 + a2, e1 + e2;
    var mid := Reached(start, m1, l1, a1, e1);
    forall i | 0 <= i < |a|
      ensures && IsArrangement(m[i])
              && Classified(m[i], e[i], a[i])
              && (i + 1 < |a| ==> m[i + 1] == NextModes(m[i], e[i].ev, e[i].menuAnswer, l[i]))
    {
      if i < |a1| {
        assert (m[i], l[i], a[i], e[i]) == (m1[i], l1[i], a1[i], e1[i]);
        if i + 1 == |a1| && i + 1 < |a| {
          assert m[i + 1] == m2[0] == mid;
        } else if i + 1 < |a1| {
          assert m[i + 1] == m1[i + 1];
        }
      } else {
        var k := i - |a1|;
        assert (m[i], l[i], a[i], e[i]) == (m2[k], l2[k], a2[k], e2[k]);
        if i + 1 < |a| {
          assert m[i + 1] == m2[k + 1];
        }
      }
    }
    if a1 == [] {
      assert m1 == [] && l1 == [] && e1 == [];
      assert m == m2 && l == l2 && a == a2 && e == e2;
    } else if a2 != [] {
      assert m[0] == m1[0];
      var n := |a| - 1;
      assert (m[n], l[n], a[n], e[n]) == (m2[n - |a1|], l2[n - |a1|], a2[n - |a1|], e2[n - |a1|]);
    } else {
      assert m2 == [] && l2 == [];
      assert m == m1 && l == l1 && a == a1;
      var n := |a| - 1;
      assert e[n] == e1[n];
    }
  }

  /** One more handled event extends a record: it met the list the record leaves. */
  lemma DispatchedSnoc(start: seq<Mode>, modes: seq<seq<Mode>>, lost: seq<bool>,
                       actions: seq<Action>, arrivals: seq<Arrival>, l: bool, action: Action)
    requires IsArrangement(start) && Dispatched(start, modes, lost, actions, arrivals)
    requires |actions| < |arrivals|
    requires Classified(Reached(start, modes, lost, actions, arrivals), arrivals[|actions|], action)
    ensures var s, a := Reached(start, modes, lost, actions, arrivals), arrivals[|actions|];
      && Dispatched(start, modes + [s], lost + [l], actions + [action], arrivals)
      && Reached(start, modes + [s], lost + [l], actions + [action], arrivals)
         == NextModes(s, a.ev, a.menuAnswer, l)
  {
    var s := Reached(start, modes, lost, actions, arrivals);
    var m, ls, acts := modes + [s], lost + [l], actions + [action];
    forall i | 0 <= i < |acts|
      ensures && IsArrangement(m[i])
              && Classified(m[i], arrivals[i], acts[i])
              && (i + 1 < |acts| ==>
                    m[i + 1] == NextModes(m[i], arrivals[i].ev, arrivals[i].menuAnswer, ls[i]))
    {
      if i < |actions| {
        assert (m[i], ls[i], acts[i]) == (modes[i], lost[i], actions[i]);
        if i + 1 < |actions| {
          assert m[i + 1] == modes[i + 1];
        }
      }
    }
  }

  /** Which arrivals come after the recorded events does not matter: a record is one
      against any list that begins with the same arrivals, and leaves the same mode list. */
  lemma DispatchedPrefix(start: seq<Mode>, modes: seq<seq<Mode>>, lost: seq<bool>,
                         actions: seq<Action>, arrivals: seq<Arrival>, all: seq<Arrival>)
    requires arrivals <= all && |actions| <= |arrivals|
    ensures Dispatched(start, modes, lost, actions, arrivals)
        <==> Dispatched(start, modes, lost, actions, all)
    ensures IsArrangement(start) && Dispatched(start, modes, lost, actions, arrivals) ==>
      Reached(start, modes, lost, actions, arrivals) == Reached(start, modes, lost, actions, all)
  {
    forall i | 0 <= i < |arrivals| ensures all[i] == arrivals[i] {
      assert all[..|arrivals|][i] == arrivals[i];
    }
  }

  /** The record after round `r`'s batch: the batch's record, which starts from the list
      the earlier events left, joins theirs; and no update record is lost. */
  lemma RoundRecorded(start: seq<Mode>, rounds: seq<Round>, r: nat,
                      modes: seq<seq<Mode>>, lost: seq<bool>, actions: seq<Action>,
                      batchModes: seq<seq<Mode>>, batchLost: seq<bool>, results: seq<Action>,
                      collected: seq<seq<Action>>, handed: seq<seq<Game.GameAction>>)
    requires r < |rounds| && IsArrangement(start)
    requires |actions| == |Arrivals(rounds[..r])|
    requires Dispatched(start, modes, lost, actions, Arrivals(rounds))
    requires Dispatched(Reached(start, modes, lost, actions, Arrivals(rounds)),
                        batchModes, batchLost, results, rounds[r].arrivals)
    requires UpdatesRecorded(rounds, actions, collected, handed)
    ensures var m, l, a := modes + batchModes, lost + batchLost, actions + results;
      && Dispatched(start, m, l, a, Arrivals(rounds))
      && Reached(start, m, l, a, Arrivals(rounds))
         == Reached(Reached(start, modes, lost, actions, Arrivals(rounds)),
                    batchModes, batchLost, results, rounds[r].arrivals)
      && (|results| == |rounds[r].arrivals| ==>
            |a| == |Arrivals(rounds[..r + 1])| == EventsThrough(rounds, r))
      && UpdatesRecorded(rounds, a, collected, handed)
  {
    assert rounds[..r + 1][..r] == rounds[..r];
    ArrivalsPrefix(rounds, r);
    ArrivalsPrefix(rounds, r + 1);
    var done, batch, all := Arrivals(rounds[..r]), rounds[r].arrivals, Arrivals(rounds);
    assert Arrivals(rounds[..r + 1]) == done + batch;
    DispatchedPrefix(start, modes, lost, actions, done, all);
    DispatchedConcat(start, modes, lost, actions, done, batchModes, batchLost, results, batch);
    DispatchedPrefix(start, modes + batchModes, lost + batchLost, actions + results, done + batch, all);
    UpdatesRecordedGrow(rounds, actions, results, collected, handed);
  }

  /** What run handed to each world update so far: update `j` came after round `j`'s
      batch, with the whole list collected up to there (no CloseApp in it), and filtered
      the game actions out of it. */
  ghost predicate UpdatesRecorded(rounds: seq<Round>, actions: seq<Action>,
                                  collected: seq<seq<Action>>, handed: seq<seq<Game.GameAction>>)
  {
    && |collected| == |handed| <= |rounds|
    && (forall j :: 0 <= j < |collected| ==>
          && EventsThrough(rounds, j) <= |actions| && collected[j] == actions[..EventsThrough(rounds, j)]
          && CloseApp !in collected[j])
    && (forall j :: 0 <= j < |collected| ==> handed[j] == GameActions(collected[j]))
  }

  /** Appending actions keeps the record of earlier updates. */
  lemma UpdatesRecordedGrow(rounds: seq<Round>, actions: seq<Action>, more: seq<Action>,
                            collected: seq<seq<Action>>, handed: seq<seq<Game.GameAction>>)
    requires UpdatesRecorded(rounds, actions, collected, handed)
    ensures UpdatesRecorded(rounds, actions + more, collected, handed)
  {
    forall j | 0 <= j < |collected|
      ensures collected[j] == (actions + more)[..EventsThrough(rounds, j)]
    {
      assert (actions + more)[..EventsThrough(rounds, j)] == actions[..EventsThrough(rounds, j)];
    }
  }

  /** A world update with the whole list after the next round's batch extends the record. */
  lemma UpdatesRecordedAppend(rounds: seq<Round>, actions: seq<Action>,
                              collected: seq<seq<Action>>, handed: seq<seq<Game.GameAction>>)
    requires UpdatesRecorded(rounds, actions, collected, handed) && |collected| < |rounds|
    requires |actions| == EventsThrough(rounds, |collected|) && CloseApp !in actions
    ensures UpdatesRecorded(rounds, actions, collected + [actions], handed + [GameActions(actions)])
  {
    var c, h := collected + [actions], handed + [GameActions(actions)];
    forall j | 0 <= j < |c|
      ensures EventsThrough(rounds, j) <= |actions| && c[j] == actions[..EventsThrough(rounds, j)] && CloseApp !in c[j]
    {
      if j < |collected| {
        assert c[j] == collected[j];
      } else {
        assert c[j] == actions == actions[..|actions|];
      }
    }
    forall j | 0 <= j < |c| ensures h[j] == GameActions(c[j]) {
      if j < |collected| {
        assert (c[j], h[j]) == (collected[j], handed[j]);
      }
    }
  }

  /** One pass of run's loop kept in the records: the batch's events join the dispatch
      record, and a world update that ran records the list it was given. */
  lemma RoundStep(start: seq<Mode>, rounds: seq<Round>, r: nat,
                  modes: seq<seq<Mode>>, lost: seq<bool>, actions: seq<Action>,
                  collected: seq<seq<Action>>, handed: seq<seq<Game.GameAction>>,
                  batchModes: seq<seq<Mode>>, batchLost: seq<bool>, results: seq<Action>,
                  updated: bool, h: seq<Game.GameAction>)
    requires r < |rounds| && IsArrangement(start) && |collected| == r
    requires |actions| == |Arrivals(rounds[..r])|
    requires Dispatched(start, modes, lost, actions, Arrivals(rounds))
    requires Dispatched(Reached(start, modes, lost, actions, Arrivals(rounds)),
                        batchModes, batchLost, results, rounds[r].arrivals)
    requires UpdatesRecorded(rounds, actions, collected, handed)
    requires updated ==>
      |results| == |rounds[r].arrivals| && CloseApp !in actions + results
      && h == GameActions(actions + results)
    ensures var m, l, a := modes + batchModes, lost + batchLost, actions + results;
      && Dispatched(start, m, l, a, Arrivals(rounds))
      && Reached(start, m, l, a, Arrivals(rounds))
         == Reached(Reached(start, modes, lost, actions, Arrivals(rounds)),
                    batchModes, batchLost, results, rounds[r].arrivals)
      && (|results| == |rounds[r].arrivals| ==>
            |a| == |Arrivals(rounds[..r + 1])| == EventsThrough(rounds, r))
      && UpdatesRecorded(rounds, a, collected, handed)
      && (updated ==> UpdatesRecorded(rounds, a, collected + [a], handed + [h]))
  {
    RoundRecorded(start, rounds, r, modes, lost, actions, batchModes, batchLost, results,
                  collected, handed);
    if updated {
      UpdatesRecordedAppend(rounds, actions + results, collected, handed);
    }
  }

  /** What run's loop keeps after its first `r` rounds: no CloseApp was collected, the
      actions answer exactly the events of those rounds, and both records hold. */
  ghost predicate Progress(start: seq<Mode>, rounds: seq<Round>, r: nat, actions: seq<Action>,
                           modes: seq<seq<Mode>>, lost: seq<bool>,
                           collected: seq<seq<Action>>, handed: seq<seq<Game.GameAction>>)
  {
    && r <= |rounds| && IsArrangement(start)
    && CloseApp !in actions && |actions| == |Arrivals(rounds[..r])| && |collected| == r
    && Dispatched(start, modes, lost, actions, Arrivals(rounds))
    && UpdatesRecorded(rounds, actions, collected, handed)
  }

  /** A ReturnToMenu whose nickname is longer than its 16-char slot. update_board panics
      on it only if its score also qualifies, which PanicsOn adds. */
  predicate Aborting(action: Action) {
    && action.UpdateGameState? && action.gameAction.ReturnToMenu?
    && |action.gameAction.name| > Leaderboard.NameWidth
  }

  /** An action update_board panics on against `table`: the nickname is too long for its
      slot and the score qualifies. */
  predicate PanicsOn(action: Action, table: seq<Leaderboard.Entry>) {
    Aborting(action) && Leaderboard.InsertionPoint(table, ToU16(action.gameAction.score)).Some?
  }

  /** The last collected action is a ReturnToMenu with an over-long nickname (Aborting),
      without the score's qualification. */
  predicate LastAborting(actions: seq<Action>) {
    actions != [] && Aborting(actions[|actions| - 1])
  }

  /** A record whose first entry, if any, is `b`. */
  predicate StartsWith(lost: seq<bool>, b: bool) {
    |lost| > 0 ==> lost[0] == b
  }

  /** Why run can stop with a panic: the last collected action is one update_board panics
      on, or the world update of the last recorded round ticked the game (the game in front
      of `front`, the interval elapsed) on the list collected through that round. */
  predicate AbortCause(rounds: seq<Round>, actions: seq<Action>, collected: seq<seq<Action>>,
                       front: seq<Mode>)
  {
    || LastAborting(actions)
    || (&& 0 < |collected| <= |rounds| && |actions| == EventsThrough(rounds, |collected| - 1)
        && rounds[|collected| - 1].elapsed && front != [] && front[0] == GameMode)
  }

  /** Only the nickname may have changed. */
  twostate predicate OnlyNicknameChanged(g: Game.SnakeGame)
    reads g
  {
    && g.segments == old(g.segments) && g.totalLength == old(g.totalLength)
    && g.consumedFood == old(g.consumedFood) && g.newFood == old(g.newFood)
    && g.playground == old(g.playground) && g.lostFlag == old(g.lostFlag)
    && g.bordersKill == old(g.bordersKill)
  }

  /** App, with the three modes' states beside the list of their tags. */
  class App {
    var states: seq<Mode>
    const game: Game.SnakeGame
    const board: Leaderboard.Board

    ghost predicate Valid()
      reads this, game, board, board.entries
    {
      IsArrangement(states) && game.Valid() && board.Valid()
    }

    /** App::new: Game, then Leaderboard, then Menu pushed to the front. */
    constructor (loaded: seq<Leaderboard.Entry>)
      requires |loaded| == Leaderboard.Capacity && Leaderboard.WellFormed(loaded)
      ensures Valid() && states == [MenuMode, LeaderboardMode, GameMode]
      ensures game.IsInitial() && board.entries[..] == loaded
      ensures fresh(game) && fresh(board) && fresh(board.entries)
    {
      game := new Game.SnakeGame();
      board := new Leaderboard.Board(loaded);
      var s: seq<Mode> := [];
      s := [GameMode] + s;
      s := [LeaderboardMode] + s;
      s := [MenuMode] + s;
      states := s;
    }

    /** handle_event. `aborted` reports the panic of update_board on a nickname longer than
        16 chars with a qualifying score; the state is then no longer described. What the
        game's block does to the game and the table is stated by HandleGameEvent, which
        handles the event with the list the menu's block left. */
    method HandleEvent(ev: Input.Event, menuAnswer: MenuAction) returns (action: Action, aborted: bool)
      requires Valid()
      modifies this`states, game, board.entries
      ensures !aborted ==> Valid() && states == NextModes(old(states), ev, menuAnswer, old(game.lostFlag))
      ensures aborted ==> PanicsOn(action, old(board.entries[..]))
      ensures Closes(old(states), ev, menuAnswer) ==>
        action == CloseApp && !aborted && unchanged(game) && unchanged(board.entries)
      ensures var s1 := MenuStep(old(states), ev, menuAnswer);
        !Closes(old(states), ev, menuAnswer) && s1[0] != GameMode ==>
          action == DoNothing && !aborted && unchanged(game) && unchanged(board.entries)
      ensures var s1 := MenuStep(old(states), ev, menuAnswer);
        !Closes(old(states), ev, menuAnswer) && s1[0] == GameMode ==>
          action == UpdateGameState(
            if ev.Key? then
              Game.KeyAction(ev.key, old(game.lostFlag), old(game.username), old(game.totalLength),
                             old(game.segments[0].dir))
            else Game.DoNothing)
    {
      var closed := MenuBlock(ev, menuAnswer);
      if closed {
        return CloseApp, false;
      }
      // The game's block.
      if states[0] == GameMode {
        action, aborted := HandleGameEvent(ev);
        return;
      }
      LeaderboardBlock(ev);
      return DoNothing, false;
    }

    /** The menu's block of handle_event: with the menu in front, a key is answered by
        the menu; SwitchToExit closes the application (the list stays as it is), the two
        switches bring their mode to the front. */
    method MenuBlock(ev: Input.Event, menuAnswer: MenuAction) returns (closed: bool)
      requires IsArrangement(states)
      modifies this`states
      ensures closed == Closes(old(states), ev, menuAnswer)
      ensures !closed ==> states == MenuStep(old(states), ev, menuAnswer)
      ensures closed ==> states == old(states)
    {
      closed := false;
      if states[0] == MenuMode && ev.Key? {
        match menuAnswer {
          case SwitchToExit =>
            return true;
          case SwitchToGame =>
            states := MoveToFront(states, GameMode);
          case SwitchToLeaderboard =>
            states := MoveToFront(states, LeaderboardMode);
          case MenuDoNothing =>
        }
      }
    }

    /** The leaderboard's block of handle_event: with the leaderboard in front, a key it
        answers ReturnToMenu to brings the menu back to the front. */
    method LeaderboardBlock(ev: Input.Event)
      requires IsArrangement(states)
      modifies this`states
      ensures states ==
        if old(states)[0] == LeaderboardMode && LeaderboardLeaves(ev)
        then MoveToFront(old(states), MenuMode) else old(states)
    {
      if states[0] == LeaderboardMode {
        var boardAction := Leaderboard.DoNothing;
        if ev.Key? {
          boardAction := Leaderboard.HandleKeyPress(ev.key);
        }
        if boardAction == Leaderboard.ReturnToMenu {
          states := MoveToFront(states, MenuMode);
        }
      }
    }

    /** The game's block of handle_event, with the game at the front: the game resolves a
        key; on ReturnToMenu it is replaced by a fresh game, the leaderboard is updated with
        the nickname and score, and the list becomes Menu, Game, Leaderboard. */
    method HandleGameEvent(ev: Input.Event) returns (action: Action, aborted: bool)
      requires Valid() && states[0] == GameMode
      modifies this`states, game, board.entries
      ensures !aborted ==> Valid()
      ensures aborted ==> PanicsOn(action, old(board.entries[..]))
      ensures action == UpdateGameState(
        if ev.Key? then
          Game.KeyAction(ev.key, old(game.lostFlag), old(game.username), old(game.totalLength),
                         old(game.segments[0].dir))
        else Game.DoNothing)
      ensures !GameFinishes(ev, old(game.lostFlag)) ==>
        && !aborted && states == old(states) && unchanged(board.entries) && OnlyNicknameChanged(game)
        && (game.username, game.characterIndex)
           == (if ev.Key? && ev.key.kind == Input.Press && old(game.lostFlag)
               then Game.Edited(old(game.username), old(game.characterIndex), ev.key.code)
               else (old(game.username), old(game.characterIndex)))
      ensures var name := old(game.username);
        var k := Leaderboard.InsertionPoint(old(board.entries[..]), ToU16(old(game.totalLength)));
        GameFinishes(ev, old(game.lostFlag)) ==>
          && game.IsInitial()
          && aborted == (k.Some? && |name| > Leaderboard.NameWidth)
          && (!aborted ==> states == ReturnFromGame(old(states)))
          && (!aborted ==>
                board.entries[..]
                == if |name| <= Leaderboard.NameWidth
                   then Leaderboard.Inserted(old(board.entries[..]), name, old(game.totalLength))
                   else old(board.entries[..]))
    {
      var gameAction := Game.DoNothing;
      if ev.Key? {
        gameAction := game.HandleKeyPress(ev.key);
      }
      if gameAction.ReturnToMenu? {
        assert gameAction == Game.ReturnToMenu(old(game.username), old(game.totalLength));
        aborted := FinishGame(gameAction.name, gameAction.score);
        return UpdateGameState(gameAction), aborted;
      }
      return UpdateGameState(gameAction), false;
    }

    /** The Enter at game over: the game is replaced by a fresh one, update_board runs with
        the nickname and score, and without a panic there the list becomes the game-over
        transition. */
    method FinishGame(name: string, score: nat) returns (aborted: bool)
      requires Valid()
      modifies this`states, game, board.entries
      ensures game.IsInitial()
      ensures var k := Leaderboard.InsertionPoint(old(board.entries[..]), ToU16(score));
        aborted == (k.Some? && |name| > Leaderboard.NameWidth)
      ensures !aborted ==>
        && Valid() && states == ReturnFromGame(old(states))
        && board.entries[..]
           == if |name| <= Leaderboard.NameWidth
              then Leaderboard.Inserted(old(board.entries[..]), name, score)
              else old(board.entries[..])
    {
      game.Reset();
      aborted := board.UpdateBoard(name, score);
      if !aborted {
        states := ReturnFromGame(states);
      }
    }

    /** The world update at the end of run's loop: the game actions are filtered from all
        actions collected so far, and the game ticks only when it is at the front and the
        interval has elapsed. Clearing the filtered list afterwards clears a local copy.
        `handed` is the filtered list, the one on_tick is given when it is called. */
    method UpdateWorld(actions: seq<Action>, elapsed: bool, randomU32: U32)
      returns (panicked: bool, ghost handed: seq<Game.GameAction>)
      requires Valid()
      modifies game`segments, game`consumedFood, game`newFood, game`totalLength, game`lostFlag
      ensures handed == GameActions(actions)
      ensures !(states[0] == GameMode && elapsed) ==> !panicked && unchanged(game)
      ensures states[0] == GameMode && elapsed ==> game.Ticked(handed, randomU32, panicked)
      ensures !panicked ==> Valid()
    {
      var gameActions: seq<Game.GameAction> := [];
      for i := 0 to |actions|
        invariant gameActions == GameActions(actions[..i])
      {
        assert actions[..i + 1][..i] == actions[..i];
        if actions[i].UpdateGameState? {
          if actions[i].gameAction == Game.DoNothing {
            continue;
          }
          gameActions := gameActions + [actions[i].gameAction];
        }
      }
      assert actions[..|actions|] == actions;
      handed := gameActions;
      panicked := false;
      if states[0] == GameMode && elapsed {
        panicked := game.OnTick(gameActions, randomU32);
        gameActions := [];
      }
    }

    /** The inner loop of run over one batch of events, each handed to handle_event in
        turn; the record says what each event met and what it answered. An abort stops the
        batch after the event that caused it. */
    method HandleBatch(batch: seq<Arrival>)
      returns (results: seq<Action>, aborted: bool, ghost modes: seq<seq<Mode>>, ghost lost: seq<bool>)
      requires Valid()
      modifies this`states, game, board.entries
      ensures Dispatched(old(states), modes, lost, results, batch)
      ensures StartsWith(lost, old(game.lostFlag))
      ensures aborted ==> LastAborting(results)
      ensures !aborted ==>
        Valid() && |results| == |batch| && states == Reached(old(states), modes, lost, results, batch)
    {
      results, aborted, modes, lost := [], false, [], [];
      for e := 0 to |batch|
        invariant Valid()
        invariant |results| == e
        invariant e == 0 ==> game.lostFlag == old(game.lostFlag)
        invariant StartsWith(lost, old(game.lostFlag))
        invariant Dispatched(old(states), modes, lost, results, batch)
        invariant states == Reached(old(states), modes, lost, results, batch)
      {
        ghost var s, l := states, game.lostFlag;
        var action, abortedHere := HandleEvent(batch[e].ev, batch[e].menuAnswer);
        DispatchedSnoc(old(states), modes, lost, results, batch, l, action);
        modes, lost := modes + [s], lost + [l];
        results := results + [action];
        if abortedHere {
          assert LastAborting(results);
          return results, true, modes, lost;
        }
      }
    }

    /** One pass of run's loop after the first `actions` were collected: the batch of
        events is handled and its actions appended; a CloseApp anywhere in the list then
        stops the loop; otherwise the world is updated with the whole list. `stop` is the
        outcome when the loop stops here; `updated` says whether the world update ran and
        `handed` is the game actions it filtered from the list. */
    method Pass(round: Round, actions: seq<Action>)
      returns (results: seq<Action>, stop: Option<Outcome>,
               ghost modes: seq<seq<Mode>>, ghost lost: seq<bool>,
               ghost updated: bool, ghost handed: seq<Game.GameAction>)
      requires Valid()
      modifies this`states, game, board.entries
      ensures Dispatched(old(states), modes, lost, results, round.arrivals)
      ensures StartsWith(lost, old(game.lostFlag))
      ensures stop != Some(InputEnded)
      ensures stop == Some(Aborted) ==>
        || LastAborting(results)
        || (updated && |results| == |round.arrivals| && round.elapsed && states != [] && states[0] == GameMode)
      ensures stop == Some(Closed) ==>
        !updated && |results| == |round.arrivals| && CloseApp in actions + results
      ensures updated ==>
        && |results| == |round.arrivals| && CloseApp !in actions + results
        && handed == GameActions(actions + results)
      ensures stop == None ==>
        updated && Valid() && states == Reached(old(states), modes, lost, results, round.arrivals)
    {
      var aborted;
      results, aborted, modes, lost := HandleBatch(round.arrivals);
      updated, handed := false, [];
      if aborted {
        return results, Some(Aborted), modes, lost, updated, handed;
      }
      if CloseApp in actions + results {
        return results, Some(Closed), modes, lost, updated, handed;
      }
      var panicked;
      panicked, handed := UpdateWorld(actions + results, round.elapsed, round.randomU32);
      updated := true;
      stop := if panicked then Some(Aborted) else None;
    }

    /** Round `r` of run's loop, with the records of the rounds before it: the pass's
        events join the dispatch record and a world update that ran is recorded. */
    method Advance(rounds: seq<Round>, r: nat, actions: seq<Action>,
                   ghost start: seq<Mode>, ghost modes: seq<seq<Mode>>, ghost lost: seq<bool>,
                   ghost collected: seq<seq<Action>>, ghost handed: seq<seq<Game.GameAction>>)
      returns (actions': seq<Action>, stop: Option<Outcome>,
               ghost modes': seq<seq<Mode>>, ghost lost': seq<bool>,
               ghost collected': seq<seq<Action>>, ghost handed': seq<seq<Game.GameAction>>)
      requires Valid() && r < |rounds|
      requires Progress(start, rounds, r, actions, modes, lost, collected, handed)
      requires states == Reached(start, modes, lost, actions, Arrivals(rounds))
      modifies this`states, game, board.entries
      ensures Dispatched(start, modes', lost', actions', Arrivals(rounds))
      ensures UpdatesRecorded(rounds, actions', collected', handed')
      ensures |lost'| > |lost| ==> lost'[|lost|] == old(game.lostFlag)
      ensures stop != Some(InputEnded)
      ensures stop == Some(Aborted) ==> AbortCause(rounds, actions', collected', states)
      ensures stop == Some(Closed) ==>
        && |collected'| < |rounds| && |actions'| == EventsThrough(rounds, |collected'|)
        && CloseApp in actions'
      ensures stop == None ==>
        && Valid() && Progress(start, rounds, r + 1, actions', modes', lost', collected', handed')
        && states == Reached(start, modes', lost', actions', Arrivals(rounds))
    {
      var results;
      ghost var passModes, passLost, updated, h;
      results, stop, passModes, passLost, updated, h := Pass(rounds[r], actions);
      RoundStep(start, rounds, r, modes, lost, actions, collected, handed,
                passModes, passLost, results, updated, h);
      actions', modes', lost' := actions + results, modes + passModes, lost + passLost;
      collected', handed' := collected, handed;
      if updated {
        collected', handed' := collected + [actions'], handed + [h];
      }
      if LastAborting(results) {
        assert actions'[|actions'| - 1] == results[|results| - 1];
      }
      if |lost'| > |lost| {
        assert lost'[|lost|] == passLost[0];
      }
    }

    /** run's loop over the given rounds of input. Every event's action is appended to
        the list, which is never cleared; after a batch, a CloseApp anywhere in the list
        ends the loop; otherwise the world is updated with the whole list. `modes` and
        `lost` record what each event met; `collected` records the list at each world
        update and `handed` the game actions filtered from it there. */
    method Run(rounds: seq<Round>)
      returns (actions: seq<Action>, outcome: Outcome,
               ghost modes: seq<seq<Mode>>, ghost lost: seq<bool>,
               ghost collected: seq<seq<Action>>, ghost handed: seq<seq<Game.GameAction>>)
      requires Valid()
      modifies this`states, game, board.entries
      ensures Dispatched(old(states), modes, lost, actions, Arrivals(rounds))
      ensures UpdatesRecorded(rounds, actions, collected, handed)
      ensures outcome == Closed ==>
        && |collected| < |rounds| && |actions| == EventsThrough(rounds, |collected|)
        && CloseApp in actions
      ensures outcome == Aborted ==> AbortCause(rounds, actions, collected, states)
      ensures outcome == InputEnded ==>
        && Valid() && |collected| == |rounds| && |actions| == |Arrivals(rounds)| && CloseApp !in actions
        && states == Reached(old(states), modes, lost, actions, Arrivals(rounds))
    {
      ghost var start := states;
      actions, modes, lost, collected, handed := [], [], [], [], [];
      var r := 0;
      while r < |rounds|
        invariant Valid()
        invariant Progress(start, rounds, r, actions, modes, lost, collected, handed)
        invariant states == Reached(start, modes, lost, actions, Arrivals(rounds))
      {
        var stop;
        actions, stop, modes, lost, collected, handed :=
          Advance(rounds, r, actions, start, modes, lost, collected, handed);
        if stop.Some? {
          return actions, stop.value, modes, lost, collected, handed;
        }
        r := r + 1;
      }
      assert rounds[..r] == rounds;
      outcome := InputEnded;
    }
  }
}
