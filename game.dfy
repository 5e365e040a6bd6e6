/** The snake simulation of src/game.rs: the tick steps, the key resolver and nickname entry.

    Each tick step is a method of SnakeGame that changes the fields the source changes,
    specified by a function of the old field values; the lemmas below those functions give
    what a step does to the shape and length of the snake. */
module Game {
  import opened Wrappers
  import opened Numbers
  import opened Geometry
  import Input

  datatype GameAction =
    | DoNothing
    | TurnLeft
    | TurnRight
    | TurnUp
    | TurnDown
    | Pause
    | ReturnToMenu(name: string, score: nat)

  predicate IsTurn(a: GameAction) {
    a.TurnLeft? || a.TurnRight? || a.TurnUp? || a.TurnDown?
  }

  function TurnDirection(a: GameAction): Direction
    requires IsTurn(a)
  {
    match a
    case TurnLeft => Left
    case TurnRight => Right
    case TurnUp => Up
    case TurnDown => Down
  }

  /** The direction an arrow key names, if it is one. */
  function ArrowDirection(code: Input.KeyCode): Option<Direction> {
    match code
    case Up => Some(Direction.Up)
    case Down => Some(Direction.Down)
    case Left => Some(Direction.Left)
    case Right => Some(Direction.Right)
    case _ => None
  }

  /** handle_key_press while the game runs: an arrow key gives a turn only when it is
      across the head's axis, so a resolved turn never reverses the head nor repeats its
      direction; every other key gives DoNothing. */
  function DirectionKeyAction(code: Input.KeyCode, head: Direction): (r: GameAction)
    ensures r == DoNothing || IsTurn(r)
    ensures IsTurn(r) <==>
      ArrowDirection(code).Some? && IsHorizontal(ArrowDirection(code).value) != IsHorizontal(head)
    ensures IsTurn(r) ==> TurnDirection(r) == ArrowDirection(code).value
    ensures IsTurn(r) ==> TurnDirection(r) != head && TurnDirection(r) != Opposite(head)
  {
    match code
    case Up => if head == Up || head == Down then DoNothing else TurnUp
    case Down => if head == Up || head == Down then DoNothing else TurnDown
    case Left => if head == Left || head == Right then DoNothing else TurnLeft
    case Right => if head == Left || head == Right then DoNothing else TurnRight
    case _ => DoNothing
  }

  /** The action handle_key_press answers: nothing for a release or a repeat; the
      direction resolution while the game runs; once it is lost, ReturnToMenu with the
      nickname and the score on Enter and nothing for any other key. */
  function KeyAction(key: Input.KeyEvent, lost: bool, name: string, score: nat, head: Direction)
    : (r: GameAction)
    ensures r.ReturnToMenu? <==> key.kind == Input.Press && lost && key.code == Input.Enter
    ensures r.ReturnToMenu? ==> r == ReturnToMenu(name, score)
    ensures IsTurn(r) ==> !lost && key.kind == Input.Press && r == DirectionKeyAction(key.code, head)
    ensures r == DoNothing || r.ReturnToMenu? || IsTurn(r)
    ensures key.kind != Input.Press ==> r == DoNothing
    ensures key.kind == Input.Press && !lost ==> r == DirectionKeyAction(key.code, head)
  {
    if key.kind != Input.Press then DoNothing
    else if lost then (if key.code == Input.Enter then ReturnToMenu(name, score) else DoNothing)
    else DirectionKeyAction(key.code, head)
  }

  /** on_tick acts on the last action of its list, or on DoNothing when it is empty. */
  function LastAction(actions: seq<GameAction>): (r: GameAction)
    ensures r in actions || (actions == [] && r == DoNothing)
    ensures actions != [] ==> r == actions[|actions| - 1]
  {
    if actions == [] then DoNothing else actions[|actions| - 1]
  }

  /** Only the later list counts, unless it is empty. */
  lemma LastActionConcat(earlier: seq<GameAction>, later: seq<GameAction>)
    ensures LastAction(earlier + later) == if later == [] then LastAction(earlier) else LastAction(later)
  {
    if later == [] {
      assert earlier + later == earlier;
    }
  }

  // ---------------------------------------------------------------------------------------
  // The steps of a tick, as functions of the snake's fields

  /** process_user_input: a turn prepends a zero-length segment at the head's end, in the
      new direction; any other action leaves the chain as it is. */
  function Turned(segs: seq<Segment>, a: GameAction): (r: seq<Segment>)
    requires |segs| >= 1
  {
    if IsTurn(a) then
      [Segment(segs[0].x2, segs[0].y2, segs[0].x2, segs[0].y2, TurnDirection(a))] + segs
    else
      segs
  }

  /** move_snake_head: the head end of the first segment takes one step. */
  function HeadMoved(segs: seq<Segment>): (r: seq<Segment>)
    requires |segs| >= 1
  {
    segs[0 := MoveEnd(segs[0])]
  }

  /** The tail pauses when its tail end is on the oldest consumed food. */
  predicate TailPauses(segs: seq<Segment>, food: seq<Point>)
    requires |segs| >= 1
  {
    |food| > 0 && segs[|segs| - 1].Start() == food[0]
  }

  /** Without a pause, the tail segment is dropped when it is zero-length before its step
      or after it. */
  predicate TailDropped(t: Segment) {
    t.Start() == t.End() || MoveStart(t).Start() == MoveStart(t).End()
  }

  /** move_snake_tail: the new chain and the new queue of consumed food. */
  function TailStepped(segs: seq<Segment>, food: seq<Point>): (r: (seq<Segment>, seq<Point>))
    requires |segs| >= 1
  {
    var n := |segs| - 1;
    if TailPauses(segs, food) then (segs, food[1..])
    else if TailDropped(segs[n]) then (segs[..n], food)
    else (segs[n := MoveStart(segs[n])], food)
  }

  /** The head has passed the playground edge it is moving toward. */
  predicate Crossed(h: Segment, rect: Rect) {
    match h.dir
    case Left => h.x2 < 2 * rect.Left()
    case Up => h.y2 > 2 * rect.Bottom()
    case Right => h.x2 > 2 * rect.Right()
    case Down => h.y2 < 2 * rect.Top()
  }

  /** The zero-length segment a wrap starts on the opposite edge, keeping the other
      coordinate and the direction. */
  function WrapSegment(h: Segment, rect: Rect): Segment {
    match h.dir
    case Left => Segment(2 * rect.Right(), h.y2, 2 * rect.Right(), h.y2, Left)
    case Up => Segment(h.x2, 2 * rect.Top(), h.x2, 2 * rect.Top(), Up)
    case Right => Segment(2 * rect.Left(), h.y2, 2 * rect.Left(), h.y2, Right)
    case Down => Segment(h.x2, 2 * rect.Bottom(), h.x2, 2 * rect.Bottom(), Down)
  }

  /** teleport_snake as written: when the borders do not kill and the head has crossed,
      start a new head segment on the opposite edge, then take one extra tail step. */
  function Teleported(segs: seq<Segment>, food: seq<Point>, rect: Rect, kill: bool)
    : (r: (seq<Segment>, seq<Point>))
    requires |segs| >= 1
    ensures |r.0| >= 1
  {
    if !kill && Crossed(segs[0], rect) then
      TailStepped([WrapSegment(segs[0], rect)] + segs, food)
    else
      (segs, food)
  }

  /** The wrap without the extra tail step; see WrapConservesBody. */
  function TeleportedConserving(segs: seq<Segment>, rect: Rect, kill: bool): (r: seq<Segment>)
    requires |segs| >= 1
  {
    if !kill && Crossed(segs[0], rect) then [WrapSegment(segs[0], rect)] + segs else segs
  }

  predicate AtOrBeyondEdge(p: Point, rect: Rect) {
    || p.x >= 2 * rect.Right()
    || p.x <= 2 * rect.Left()
    || p.y >= 2 * rect.Bottom()
    || p.y <= 2 * rect.Top()
  }

  /** Some non-head segment passes the collision test as written against the head's end. */
  predicate SelfHit(segs: seq<Segment>)
    requires |segs| >= 1
  {
    exists i :: 1 <= i < |segs| && HitAsWritten(segs[i], segs[0].End())
  }

  /** check_lose_conditions: the condition under which it sets the loss flag. */
  predicate Loses(segs: seq<Segment>, rect: Rect, kill: bool)
    requires |segs| >= 1
  {
    (kill && AtOrBeyondEdge(segs[0].End(), rect)) || SelfHit(segs)
  }

  /** A grid cell of the playground, in half-units: whole coordinates in
      [left, left + width) x [top, top + height). */
  predicate InPlayground(p: Point, rect: Rect) {
    && p.x % 2 == 0 && p.y % 2 == 0
    && 2 * rect.x <= p.x < 2 * (rect.x + rect.width)
    && 2 * rect.y <= p.y < 2 * (rect.y + rect.height)
  }

  /** The food cell picked by one random u32: the draw reduced modulo the width gives the
      column, the draw shifted right by 16 and reduced modulo the height the row. */
  function FoodCell(draw: U32, rect: Rect): (p: Point)
    requires rect.width > 0 && rect.height > 0
    ensures InPlayground(p, rect)
  {
    Point(2 * (rect.x + draw % rect.width), 2 * (rect.y + (draw / 0x1_0000) % rect.height))
  }

  datatype Feeding = Feeding(newFood: Option<Point>, consumed: seq<Point>, totalLength: nat)

  /** generate_and_process_food: place food when there is none, then eat it when the head's
      end is on it. */
  function Fed(head: Point, food: Option<Point>, consumed: seq<Point>, total: nat,
               rect: Rect, draw: U32): (r: Feeding)
    requires rect.width > 0 && rect.height > 0
  {
    var f := if food.None? then FoodCell(draw, rect) else food.value;
    if head == f then Feeding(None, consumed + [f], total + 1) else Feeding(Some(f), consumed, total)
  }

  // ---------------------------------------------------------------------------------------
  // What the steps do to the chain

  /** A turn keeps every segment oriented, adds no length, and the new head is a
      zero-length segment at the old head's end in the requested direction. */
  lemma TurnedShape(segs: seq<Segment>, a: GameAction)
    requires |segs| >= 1 && AllOriented(segs)
    ensures var r := Turned(segs, a);
      && AllOriented(r) && Drawn(r) == Drawn(segs)
      && (IsTurn(a) ==> |r| == |segs| + 1 && r[1..] == segs && r[0].dir == TurnDirection(a)
                        && r[0].Start() == r[0].End() == segs[0].End())
      && (!IsTurn(a) ==> r == segs)
  {
    var r := Turned(segs, a);
    if IsTurn(a) {
      assert r[1..] == segs;
    }
  }

  /** The head step changes only the head's end, by one step along its direction, and
      lengthens the drawn snake by one half-unit. */
  lemma HeadMovedShape(segs: seq<Segment>)
    requires |segs| >= 1 && AllOriented(segs)
    ensures var r := HeadMoved(segs);
      && |r| == |segs| && r[1..] == segs[1..]
      && r[0].Start() == segs[0].Start() && r[0].dir == segs[0].dir
      && r[0].End() == Step(segs[0].End(), segs[0].dir)
      && AllOriented(r) && Drawn(r) == Drawn(segs) + 1
  {
    DrawnUpdate(segs, 0, MoveEnd(segs[0]));
  }

  /** An oriented tail segment (when it does not pause) is dropped exactly when it is at
      most one half-unit long. */
  lemma TailDroppedIff(t: Segment)
    requires Oriented(t)
    ensures TailDropped(t) <==> Length(t) <= 1
  {
  }

  /** The tail step keeps every segment oriented. A pause pops the oldest consumed food and
      leaves the chain alone; otherwise the tail end moves one step, or the tail segment is
      dropped, and the drawn length falls by one half-unit unless the tail was zero-length. */
  lemma TailSteppedShape(segs: seq<Segment>, food: seq<Point>)
    requires |segs| >= 1 && AllOriented(segs)
    ensures var r := TailStepped(segs, food);
      var t := segs[|segs| - 1];
      && AllOriented(r.0)
      && (TailPauses(segs, food) ==> r.0 == segs && r.1 == food[1..] && Drawn(r.0) == Drawn(segs))
      && (!TailPauses(segs, food) ==>
            && r.1 == food
            && r.0[..|segs| - 1] == segs[..|segs| - 1]
            && (|r.0| == |segs| - 1 <==> Length(t) <= 1)
            && (|r.0| == |segs| ==> r.0[|segs| - 1] == MoveStart(t))
            && Drawn(r.0) == Drawn(segs) - (if Length(t) == 0 then 0 else 1))
  {
    var n := |segs| - 1;
    var t := segs[n];
    if !TailPauses(segs, food) {
      TailDroppedIff(t);
      if TailDropped(t) {
        DrawnDropLast(segs);
      } else {
        DrawnUpdate(segs, n, MoveStart(t));
        var r := segs[n := MoveStart(t)];
        assert AllOriented(r) by {
          forall i | 0 <= i < |r| ensures Oriented(r[i]) {
            if i != n { assert r[i] == segs[i]; }
          }
        }
      }
    }
  }

  /** Turn, head step and tail step of one tick together: the drawn snake grows by one
      half-unit when the tail pauses on eaten food (or the tail was zero-length), and keeps
      its length otherwise. So eating, which adds one to the score, adds only one half-unit
      to the drawn snake. */
  lemma TickDrawnLength(segs: seq<Segment>, a: GameAction, food: seq<Point>)
    requires |segs| >= 1 && AllOriented(segs)
    ensures var moved := HeadMoved(Turned(segs, a));
      var tail := TailStepped(moved, food);
      Drawn(tail.0)
      == Drawn(segs) + (if TailPauses(moved, food) || Length(moved[|moved| - 1]) == 0 then 1 else 0)
  {
    TurnedShape(segs, a);
    var turned := Turned(segs, a);
    HeadMovedShape(turned);
    TailSteppedShape(HeadMoved(turned), food);
  }

  /** As written, a wrap takes one step off the tail: the drawn snake becomes one half-unit
      shorter than before the wrap, unless the tail pauses or is zero-length. */
  lemma WrapShortensBody(segs: seq<Segment>, food: seq<Point>, rect: Rect)
    requires |segs| >= 1 && AllOriented(segs) && Crossed(segs[0], rect)
    ensures var chain := [WrapSegment(segs[0], rect)] + segs;
      var r := Teleported(segs, food, rect, false);
      && AllOriented(r.0) && r.0[0] == WrapSegment(segs[0], rect)
      && Drawn(r.0) == Drawn(segs) - (if TailPauses(chain, food) || Length(segs[|segs| - 1]) == 0 then 0 else 1)
  {
    var w := WrapSegment(segs[0], rect);
    var chain := [w] + segs;
    assert chain[1..] == segs;
    assert chain[|chain| - 1] == segs[|segs| - 1];
    TailSteppedShape(chain, food);
  }

  /** The first wrap of the initial snake: it moves right from x = 25 with length 8, and
      after 55 ticks its head end is at x = 60.5, past the right edge at 60. The wrap
      leaves a drawn length of 7.5. */
  lemma WrapOfInitialSnakeLosesHalfUnit()
    ensures var segs := [Segment(105, 50, 121, 50, Right)];
      Drawn(segs) == 16 && Drawn(Teleported(segs, [], InitialPlayground, false).0) == 15
  {
    var segs := [Segment(105, 50, 121, 50, Right)];
    var r := Teleported(segs, [], InitialPlayground, false);
    assert r.0 == [Segment(20, 50, 20, 50, Right), Segment(106, 50, 121, 50, Right)];
    assert r.0[1..][1..] == [];
  }

  /** The wrap without the extra tail step keeps the snake's drawn length, and the new
      head segment is a zero-length segment on the opposite edge. */
  lemma WrapConservesBody(segs: seq<Segment>, rect: Rect, kill: bool)
    requires |segs| >= 1 && AllOriented(segs)
    ensures var r := TeleportedConserving(segs, rect, kill);
      && AllOriented(r) && Drawn(r) == Drawn(segs)
      && (!kill && Crossed(segs[0], rect) ==> r[1..] == segs && r[0] == WrapSegment(segs[0], rect))
      && (kill || !Crossed(segs[0], rect) ==> r == segs)
  {
    var r := TeleportedConserving(segs, rect, kill);
    if !kill && Crossed(segs[0], rect) {
      assert r[1..] == segs;
    }
  }

  /** The wrap as written keeps every segment oriented and changes nothing when the borders
      kill or the head has not crossed. */
  lemma TeleportedShape(segs: seq<Segment>, food: seq<Point>, rect: Rect, kill: bool)
    requires |segs| >= 1 && AllOriented(segs)
    ensures var r := Teleported(segs, food, rect, kill);
      && AllOriented(r.0)
      && (kill || !Crossed(segs[0], rect) ==> r == (segs, food))
      && (!kill && Crossed(segs[0], rect) ==> r == TailStepped([WrapSegment(segs[0], rect)] + segs, food))
  {
    if !kill && Crossed(segs[0], rect) {
      TailSteppedShape([WrapSegment(segs[0], rect)] + segs, food);
    }
  }

  /** With killing borders the loss flag follows the head alone once it is on an edge;
      otherwise it is the self-collision test. */
  lemma LosesCases(segs: seq<Segment>, rect: Rect, kill: bool)
    requires |segs| >= 1
    ensures kill && AtOrBeyondEdge(segs[0].End(), rect) ==> Loses(segs, rect, kill)
    ensures kill && !AtOrBeyondEdge(segs[0].End(), rect) ==> (Loses(segs, rect, kill) <==>
      exists i :: 1 <= i < |segs| && HitAsWritten(segs[i], segs[0].End()))
    ensures !kill ==> (Loses(segs, rect, kill) <==>
      exists i :: 1 <= i < |segs| && HitAsWritten(segs[i], segs[0].End()))
    ensures |segs| == 1 ==> (Loses(segs, rect, kill) <==> kill && AtOrBeyondEdge(segs[0].End(), rect))
  {
  }

  /** Food is eaten exactly when the head's end is on it: the cell joins the back of the
      consumed queue, the score grows by one and there is no food left; otherwise the
      (possibly new) food stays and nothing else changes. Food is always in the playground. */
  lemma FedCases(head: Point, food: Option<Point>, consumed: seq<Point>, total: nat, rect: Rect, draw: U32)
    requires rect.width > 0 && rect.height > 0
    requires food.Some? ==> InPlayground(food.value, rect)
    ensures var f := if food.None? then FoodCell(draw, rect) else food.value;
      var r := Fed(head, food, consumed, total, rect, draw);
      && InPlayground(f, rect)
      && (head == f ==> r.newFood == None && r.consumed == consumed + [f] && r.totalLength == total + 1)
      && (head != f ==> r.newFood == Some(f) && r.consumed == consumed && r.totalLength == total)
      && (r.newFood.Some? ==> InPlayground(r.newFood.value, rect))
  {
  }

  // ---------------------------------------------------------------------------------------
  // Nickname entry, on a name held as a sequence of chars

  /** clamp_cursor: the cursor position kept within [0, length of the name]. */
  function ClampCursor(pos: nat, len: nat): (r: nat)
    ensures r <= len
    ensures pos <= len ==> r == pos
    ensures pos > len ==> r == len
  {
    if pos > len then len else pos
  }

  /** byte_index, counted in chars: the cursor position, or the end of the name when the
      cursor is past the last char. */
  function CharPosition(name: string, cursor: nat): (i: nat)
    ensures i <= |name|
    ensures cursor <= |name| ==> i == cursor
    ensures cursor > |name| ==> i == |name|
  {
    if cursor < |name| then cursor else |name|
  }

  /** `String::insert` at char position i. */
  function InsertAt(name: string, i: nat, c: char): (r: string)
    requires i <= |name|
    ensures |r| == |name| + 1 && r[i] == c
    ensures r[..i] == name[..i] && r[i + 1..] == name[i..]
  {
    name[..i] + [c] + name[i..]
  }

  /** The chars before the cursor's left neighbour, then those from the cursor on. */
  function RemoveBefore(name: string, cursor: nat): (r: string)
    requires 1 <= cursor <= |name|
    ensures |r| == |name| - 1
    ensures r[..cursor - 1] == name[..cursor - 1] && r[cursor - 1..] == name[cursor..]
  {
    name[..cursor - 1] + name[cursor..]
  }

  /** Typing a char and then Backspace gives back the name and the cursor. */
  lemma {:induction false} RemoveUndoesInsert(name: string, i: nat, c: char)
    requires i <= |name|
    ensures RemoveBefore(InsertAt(name, i, c), i + 1) == name
  {
    var r := InsertAt(name, i, c);
    assert r[..i] == name[..i];
    assert r[i + 1..] == name[i..];
    assert name == name[..i] + name[i..];
  }

  /** What a pressed key does to the nickname and cursor after the game is lost. */
  function Edited(name: string, cursor: nat, code: Input.KeyCode): (string, nat)
    requires cursor <= |name|
  {
    match code
    case Backspace =>
      if cursor == 0 then (name, cursor) else (RemoveBefore(name, cursor), cursor - 1)
    case Char(c) => (InsertAt(name, cursor, c), cursor + 1)
    case Left => (name, if cursor == 0 then 0 else cursor - 1)
    case Right => (name, ClampCursor(cursor + 1, |name|))
    case _ => (name, cursor)
  }

  /** Every edit keeps the cursor within the name. */
  lemma EditedKeepsCursor(name: string, cursor: nat, code: Input.KeyCode)
    requires cursor <= |name|
    ensures Edited(name, cursor, code).1 <= |Edited(name, cursor, code).0|
  {
  }

  // ---------------------------------------------------------------------------------------
  // The game state

  const InitialPlayground := Rect(10, 10, 50, 50)

  /** The starting snake: one segment of length 8, moving right, from
      (width / 2, height / 2). */
  function InitialSegment(rect: Rect): Segment {
    Segment(2 * (rect.width / 2), 2 * (rect.height / 2),
            2 * (rect.width / 2 + 8), 2 * (rect.height / 2), Right)
  }

  /** AppGameState. The snake's own fields (SnakeState: segments from head to tail, the
      score total_length, the queue of consumed food) are held here directly. */
  class SnakeGame {
    var segments: seq<Segment>
    var totalLength: nat
    var consumedFood: seq<Point>
    var newFood: Option<Point>
    var playground: Rect
    var username: string
    var characterIndex: nat
    var lostFlag: bool
    var bordersKill: bool

    /** The snake and playground invariants, without the presence of a head segment. */
    ghost predicate Shape()
      reads this
    {
      && AllOriented(segments)
      && playground.width > 0 && playground.height > 0
      && (newFood.Some? ==> InPlayground(newFood.value, playground))
    }

    /** Everything but the presence of a head segment. */
    ghost predicate Consistent()
      reads this
    {
      Shape() && characterIndex <= |username|
    }

    /** Everything but the cursor bound. */
    ghost predicate ValidExceptCursor()
      reads this
    {
      |segments| >= 1 && Shape()
    }

    ghost predicate Valid()
      reads this
    {
      |segments| >= 1 && Consistent()
    }

    /** The state AppGameState::new builds. */
    ghost predicate IsInitial()
      reads this
    {
      && playground == InitialPlayground
      && segments == [InitialSegment(InitialPlayground)]
      && totalLength == 8
      && consumedFood == []
      && newFood == None
      && username == ""
      && characterIndex == 0
      && !lostFlag
      && !bordersKill
    }

    constructor ()
      ensures Valid() && IsInitial()
    {
      playground := InitialPlayground;
      segments := [InitialSegment(InitialPlayground)];
      totalLength := 8;
      consumedFood := [];
      newFood := None;
      username := "";
      characterIndex := 0;
      lostFlag := false;
      bordersKill := false;
    }

    /** `*state = AppGameState::new()`: the game is overwritten in place by a fresh one. */
    method Reset()
      modifies this
      ensures Valid() && IsInitial()
    {
      playground := InitialPlayground;
      segments := [InitialSegment(InitialPlayground)];
      totalLength := 8;
      consumedFood := [];
      newFood := None;
      username := "";
      characterIndex := 0;
      lostFlag := false;
      bordersKill := false;
    }

    method ProcessUserInput(action: GameAction)
      requires Valid()
      modifies this`segments
      ensures Valid() && segments == Turned(old(segments), action)
    {
      TurnedShape(segments, action);
      var x := segments[0].x2;
      var y := segments[0].y2;
      match action {
        case TurnLeft => segments := [Segment(x, y, x, y, Left)] + segments;
        case TurnRight => segments := [Segment(x, y, x, y, Right)] + segments;
        case TurnUp => segments := [Segment(x, y, x, y, Up)] + segments;
        case TurnDown => segments := [Segment(x, y, x, y, Down)] + segments;
        case _ =>
      }
    }

    method MoveSnakeHead()
      requires Valid()
      modifies this`segments
      ensures Valid() && segments == HeadMoved(old(segments))
    {
      HeadMovedShape(segments);
      var h := segments[0];
      match h.dir {
        case Left => segments := segments[0 := h.(x2 := h.x2 - 1)];
        case Up => segments := segments[0 := h.(y2 := h.y2 + 1)];
        case Right => segments := segments[0 := h.(x2 := h.x2 + 1)];
        case Down => segments := segments[0 := h.(y2 := h.y2 - 1)];
      }
    }

    /** May drop the only segment; every caller in the source then panics on `expect`. */
    method MoveSnakeTail()
      requires Valid()
      modifies this`segments, this`consumedFood
      ensures Consistent()
      ensures (segments, consumedFood) == TailStepped(old(segments), old(consumedFood))
    {
      TailSteppedShape(segments, consumedFood);
      var n := |segments| - 1;
      var t := segments[n];
      if |consumedFood| > 0 && t.x1 == consumedFood[0].x && t.y1 == consumedFood[0].y {
        consumedFood := consumedFood[1..];
        return;
      }
      var deleteLast := false;
      if t.x1 == t.x2 && t.y1 == t.y2 {
        deleteLast := true;
      }
      match t.dir {
        case Left => t := t.(x1 := t.x1 - 1);
        case Up => t := t.(y1 := t.y1 + 1);
        case Right => t := t.(x1 := t.x1 + 1);
        case Down => t := t.(y1 := t.y1 - 1);
      }
      if t.x1 == t.x2 && t.y1 == t.y2 {
        deleteLast := true;
      }
      if deleteLast {
        segments := segments[..n];
      } else {
        segments := segments[n := t];
      }
    }

    method TeleportSnake()
      requires Valid()
      modifies this`segments, this`consumedFood
      ensures Valid()
      ensures (segments, consumedFood) == Teleported(old(segments), old(consumedFood), playground, bordersKill)
    {
      TeleportedShape(segments, consumedFood, playground, bordersKill);
      var h := segments[0];
      if !bordersKill {
        match h.dir {
          case Left =>
            if h.x2 < 2 * playground.Left() {
              var x := 2 * playground.Right();
              var y := h.y2;
              segments := [Segment(x, y, x, y, Left)] + segments;
              MoveSnakeTail();
            }
          case Up =>
            if h.y2 > 2 * playground.Bottom() {
              var y := 2 * playground.Top();
              var x := h.x2;
              segments := [Segment(x, y, x, y, Up)] + segments;
              MoveSnakeTail();
            }
          case Right =>
            if h.x2 > 2 * playground.Right() {
              var x := 2 * playground.Left();
              var y := h.y2;
              segments := [Segment(x, y, x, y, Right)] + segments;
              MoveSnakeTail();
            }
          case Down =>
            if h.y2 < 2 * playground.Top() {
              var y := 2 * playground.Bottom();
              var x := h.x2;
              segments := [Segment(x, y, x, y, Down)] + segments;
              MoveSnakeTail();
            }
        }
      }
    }

    method CheckLoseConditions()
      requires Valid()
      modifies this`lostFlag
      ensures lostFlag == (old(lostFlag) || Loses(segments, playground, bordersKill))
    {
      var hl := segments[0].End();
      if bordersKill {
        if || hl.x >= 2 * playground.Right()
           || hl.x <= 2 * playground.Left()
           || hl.y >= 2 * playground.Bottom()
           || hl.y <= 2 * playground.Top()
        {
          lostFlag := true;
          return;
        }
      }
      var i := 1;
      while i < |segments|
        invariant 1 <= i <= |segments|
        invariant forall j :: 1 <= j < i ==> !HitAsWritten(segments[j], hl)
      {
        if HitAsWritten(segments[i], hl) {
          lostFlag := true;
          return;
        }
        i := i + 1;
      }
    }

    /** `random_u32` is the value the source draws from OsRng when there is no food. */
    method GenerateAndProcessFood(randomU32: U32)
      requires Valid()
      modifies this`newFood, this`consumedFood, this`totalLength
      ensures Valid()
      ensures var f := Fed(old(segments)[0].End(), old(newFood), old(consumedFood), old(totalLength),
                           playground, randomU32);
        newFood == f.newFood && consumedFood == f.consumed && totalLength == f.totalLength
    {
      FedCases(segments[0].End(), newFood, consumedFood, totalLength, playground, randomU32);
      var hx := segments[0].x2;
      var hy := segments[0].y2;
      if newFood.None? {
        var newX := playground.x + randomU32 % playground.width;
        var newY := playground.y + (randomU32 / 0x1_0000) % playground.height;
        newFood := Some(Point(2 * newX, 2 * newY));
      }
      if newFood.Some? {
        var coords := newFood.value;
        if hx == coords.x && hy == coords.y {
          consumedFood := consumedFood + [coords];
          totalLength := totalLength + 1;
          newFood := None;
        }
      }
    }

    /** What one tick does: nothing once the game is lost; otherwise feeding, the last
        action's turn, the head step and the tail step on the old state, then the wrap and
        the lose check on their result. `panicked` holds exactly when the tail step left no
        segment. */
    twostate predicate Ticked(actions: seq<GameAction>, randomU32: U32, panicked: bool)
      requires old(Valid())
      reads this
    {
      && (old(lostFlag) ==> !panicked && unchanged(this))
      && (!old(lostFlag) ==>
            var fed := Fed(old(segments)[0].End(), old(newFood), old(consumedFood), old(totalLength),
                           old(playground), randomU32);
            var moved := HeadMoved(Turned(old(segments), LastAction(actions)));
            var tail := TailStepped(moved, fed.consumed);
            && playground == old(playground) && bordersKill == old(bordersKill)
            && username == old(username) && characterIndex == old(characterIndex)
            && newFood == fed.newFood && totalLength == fed.totalLength
            && panicked == (tail.0 == [])
            && (!panicked ==>
                  var wrapped := Teleported(tail.0, tail.1, old(playground), old(bordersKill));
                  && Valid()
                  && segments == wrapped.0 && consumedFood == wrapped.1
                  && lostFlag == Loses(wrapped.0, old(playground), old(bordersKill))))
    }

    /** One tick. `randomU32` is the random draw food placement uses. `panicked` reports
        that the tail step dropped the last segment: the source then panics in
        teleport_snake, and the game state is no longer valid. */
    method OnTick(actions: seq<GameAction>, randomU32: U32) returns (panicked: bool)
      requires Valid()
      modifies this`segments, this`consumedFood, this`newFood, this`totalLength, this`lostFlag
      ensures Ticked(actions, randomU32, panicked)
    {
      var action := LastAction(actions);
      panicked := false;
      if !lostFlag {
        GenerateAndProcessFood(randomU32);
        ProcessUserInput(action);
        MoveSnakeHead();
        MoveSnakeTail();
        if segments == [] {
          panicked := true;
          return;
        }
        TeleportSnake();
        CheckLoseConditions();
      }
    }

    method MoveCursorLeft()
      requires ValidExceptCursor()
      modifies this`characterIndex
      ensures Valid()
      ensures characterIndex == ClampCursor(if old(characterIndex) == 0 then 0 else old(characterIndex) - 1, |username|)
    {
      var cursorMovedLeft := if characterIndex == 0 then 0 else characterIndex - 1;
      characterIndex := ClampCursor(cursorMovedLeft, |username|);
    }

    method MoveCursorRight()
      requires ValidExceptCursor()
      modifies this`characterIndex
      ensures Valid()
      ensures characterIndex == ClampCursor(old(characterIndex) + 1, |username|)
    {
      characterIndex := ClampCursor(characterIndex + 1, |username|);
    }

    method EnterChar(newChar: char)
      requires Valid()
      modifies this`username, this`characterIndex
      ensures Valid()
      ensures username == InsertAt(old(username), old(characterIndex), newChar)
      ensures characterIndex == old(characterIndex) + 1
    {
      var index := CharPosition(username, characterIndex);
      username := username[..index] + [newChar] + username[index..];
      MoveCursorRight();
    }

    method DeleteChar()
      requires Valid()
      modifies this`username, this`characterIndex
      ensures Valid()
      ensures old(characterIndex) == 0 ==> username == old(username) && characterIndex == 0
      ensures old(characterIndex) != 0 ==>
        username == RemoveBefore(old(username), old(characterIndex))
        && characterIndex == old(characterIndex) - 1
    {
      if characterIndex != 0 {
        var currentIndex := characterIndex;
        var fromLeftToCurrentIndex := currentIndex - 1;
        username := username[..fromLeftToCurrentIndex] + username[currentIndex..];
        MoveCursorLeft();
      }
    }

    /** handle_key_press. Once the game is lost keys edit the nickname and Enter confirms
        it; before that only the arrow keys matter. */
    method HandleKeyPress(key: Input.KeyEvent) returns (action: GameAction)
      requires Valid()
      modifies this`username, this`characterIndex
      ensures Valid()
      ensures action == KeyAction(key, lostFlag, old(username), totalLength, segments[0].dir)
      ensures key.kind != Input.Press ==>
        action == DoNothing && username == old(username) && characterIndex == old(characterIndex)
      ensures key.kind == Input.Press && !lostFlag ==>
        && action == DirectionKeyAction(key.code, segments[0].dir)
        && username == old(username) && characterIndex == old(characterIndex)
      ensures key.kind == Input.Press && lostFlag ==>
        && action == (if key.code == Input.Enter then ReturnToMenu(old(username), totalLength) else DoNothing)
        && (username, characterIndex) == Edited(old(username), old(characterIndex), key.code)
    {
      if key.kind != Input.Press {
        return DoNothing;
      }
      if lostFlag {
        match key.code {
          case Enter =>
            return ReturnToMenu(username, totalLength);
          case Backspace =>
            DeleteChar();
            return DoNothing;
          case Char(toInsert) =>
            EnterChar(toInsert);
            return DoNothing;
          case Left =>
            MoveCursorLeft();
            return DoNothing;
          case Right =>
            MoveCursorRight();
            return DoNothing;
          case _ =>
            return DoNothing;
        }
      }
      action := DirectionKeyAction(key.code, segments[0].dir);
    }
  }
}
