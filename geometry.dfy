/** The snake's geometry: axis-aligned segments on a grid of half-units.

    The source keeps coordinates in f64, but they start on whole numbers, move only in
    steps of 0.5 and are compared with whole-number edges, so every value is a multiple
    of 0.5. Here a coordinate `c` stands for the source's value `c / 2`: one step is 1,
    an edge at `e` is `2 * e`, and `relative_eq!` is plain equality. */
module Geometry {
  import opened Numbers

  datatype Direction = Up | Down | Left | Right

  predicate IsHorizontal(d: Direction) {
    d == Left || d == Right
  }

  function Opposite(d: Direction): Direction {
    match d
    case Up => Down
    case Down => Up
    case Left => Right
    case Right => Left
  }

  /** A point, in half-units. */
  datatype Point = Point(x: int, y: int)

  /** A piece of the snake: a line from (x1, y1), its tail end, to (x2, y2), its head end,
      moving in `dir`. The source's Line also carries a colour, which only drawing uses. */
  datatype Segment = Segment(x1: int, y1: int, x2: int, y2: int, dir: Direction) {
    function Start(): Point { Point(x1, y1) }
    function End(): Point { Point(x2, y2) }
  }

  /** ratatui's Rect: top-left corner and size, all u16. */
  datatype Rect = Rect(x: U16, y: U16, width: U16, height: U16) {
    function Left(): int { x }
    /** `Rect::right` adds with saturation at the top of the u16 range. */
    function Right(): int { if x + width > 0xFFFF then 0xFFFF else x + width }
    function Top(): int { y }
    function Bottom(): int { if y + height > 0xFFFF then 0xFFFF else y + height }
  }

  function Abs(n: int): nat {
    if n < 0 then -n else n
  }

  /** Distance between the two ends, in half-units. */
  function Length(s: Segment): nat {
    Abs(s.x2 - s.x1) + Abs(s.y2 - s.y1)
  }

  /** The data-model invariant of a segment: its ends differ only along the axis of its
      direction, and the head end is not behind the tail end. */
  predicate Oriented(s: Segment) {
    match s.dir
    case Right => s.y1 == s.y2 && s.x1 <= s.x2
    case Left => s.y1 == s.y2 && s.x2 <= s.x1
    case Up => s.x1 == s.x2 && s.y1 <= s.y2
    case Down => s.x1 == s.x2 && s.y2 <= s.y1
  }

  predicate AllOriented(segs: seq<Segment>) {
    forall i :: 0 <= i < |segs| ==> Oriented(segs[i])
  }

  /** The point one half-unit from `p` in direction `d` (a step of 0.5 in the source;
      Up increases y). */
  function Step(p: Point, d: Direction): (r: Point)
    ensures Oriented(Segment(p.x, p.y, r.x, r.y, d))
    ensures Length(Segment(p.x, p.y, r.x, r.y, d)) == 1
  {
    match d
    case Left => Point(p.x - 1, p.y)
    case Up => Point(p.x, p.y + 1)
    case Right => Point(p.x + 1, p.y)
    case Down => Point(p.x, p.y - 1)
  }

  /** The head end of a segment taken one step further along its direction. */
  function MoveEnd(s: Segment): (r: Segment)
    ensures r.Start() == s.Start() && r.dir == s.dir
    ensures Oriented(s) ==> Oriented(r) && Length(r) == Length(s) + 1
  {
    var e := Step(s.End(), s.dir);
    s.(x2 := e.x, y2 := e.y)
  }

  /** The tail end of a segment taken one step along its direction. On an oriented segment
      of length 0 this puts the tail end past the head end. */
  function MoveStart(s: Segment): (r: Segment)
    ensures r.End() == s.End() && r.dir == s.dir
    ensures Oriented(s) && Length(s) >= 1 ==> Oriented(r) && Length(r) == Length(s) - 1
    ensures Oriented(s) ==> (r.Start() == r.End() <==> Length(s) == 1)
  {
    var b := Step(s.Start(), s.dir);
    s.(x1 := b.x, y1 := b.y)
  }

  /** The total drawn length of a chain of segments, in half-units. */
  function Drawn(segs: seq<Segment>): nat {
    if segs == [] then 0 else Length(segs[0]) + Drawn(segs[1..])
  }

  lemma {:induction false} DrawnConcat(a: seq<Segment>, b: seq<Segment>)
    ensures Drawn(a + b) == Drawn(a) + Drawn(b)
  {
    if a == [] {
      assert a + b == b;
    } else {
      assert (a + b)[1..] == a[1..] + b;
      DrawnConcat(a[1..], b);
    }
  }

  /** Replacing one segment changes the drawn length by the difference of the two lengths. */
  lemma DrawnUpdate(segs: seq<Segment>, i: nat, s: Segment)
    requires i < |segs|
    ensures Drawn(segs[i := s]) == Drawn(segs) - Length(segs[i]) + Length(s)
  {
    assert segs == segs[..i] + [segs[i]] + segs[i+1..];
    assert segs[i := s] == segs[..i] + [s] + segs[i+1..];
    DrawnConcat(segs[..i] + [segs[i]], segs[i+1..]);
    DrawnConcat(segs[..i], [segs[i]]);
    DrawnConcat(segs[..i] + [s], segs[i+1..]);
    DrawnConcat(segs[..i], [s]);
  }

  /** Dropping the last segment removes exactly its length. */
  lemma DrawnDropLast(segs: seq<Segment>)
    requires |segs| >= 1
    ensures Drawn(segs[..|segs| - 1]) == Drawn(segs) - Length(segs[|segs| - 1])
  {
    assert segs == segs[..|segs| - 1] + [segs[|segs| - 1]];
    DrawnConcat(segs[..|segs| - 1], [segs[|segs| - 1]]);
  }

  /** Reference meaning of a collision: `p` lies on the segment between its two ends. */
  predicate OnSegment(s: Segment, p: Point) {
    match s.dir
    case Right => p.y == s.y1 && s.x1 <= p.x <= s.x2
    case Left => p.y == s.y1 && s.x2 <= p.x <= s.x1
    case Up => p.x == s.x1 && s.y1 <= p.y <= s.y2
    case Down => p.x == s.x1 && s.y2 <= p.y <= s.y1
  }

  /** The self-collision test of check_lose_conditions exactly as the source writes it: in
      the second disjunct the head's x is compared with the segment's x1 on both sides. */
  predicate HitAsWritten(s: Segment, p: Point) {
    || (s.x1 <= p.x && p.x <= s.x2 && s.y1 <= p.y && p.y <= s.y2)
    || (s.x1 >= p.x && p.x >= s.x1 && s.y1 >= p.y && p.y >= s.y2)
  }

  /** The evidently intended test: an inclusive bounding box, in either coordinate sense. */
  predicate Hit(s: Segment, p: Point) {
    || (s.x1 <= p.x && p.x <= s.x2 && s.y1 <= p.y && p.y <= s.y2)
    || (s.x1 >= p.x && p.x >= s.x2 && s.y1 >= p.y && p.y >= s.y2)
  }

  /** The corrected test detects exactly the points on an oriented segment. */
  lemma HitIsOnSegment(s: Segment, p: Point)
    requires Oriented(s)
    ensures Hit(s, p) <==> OnSegment(s, p)
  {
  }

  /** The test as written agrees with the reference on every direction but Left, where it
      only detects the tail end of the segment. */
  lemma HitAsWrittenCharacterized(s: Segment, p: Point)
    requires Oriented(s)
    ensures HitAsWritten(s, p) <==> OnSegment(s, p) && (s.dir == Left ==> p == s.Start())
  {
  }

  /** A head in the middle of a left-moving segment is on it, yet the test as written
      misses it. */
  lemma HitAsWrittenMissesLeftInterior()
    ensures var s := Segment(20, 10, 12, 10, Left);
            var p := Point(16, 10);
            Oriented(s) && OnSegment(s, p) && Hit(s, p) && !HitAsWritten(s, p)
  {
  }
}
