/**
 * Stick shapes: unit segments on the integer lattice, the four quarter-turn orientations, and a
 * stick instance made from a definition turned to an orientation.
 */
module Sticks {
  import opened Geometry

  /** One unit piece of a stick, from `start` to `end` in the stick's own coordinates. */
  datatype Segment = Segment(start: Pos, end: Pos)

  /** `StickOrientation`: the enum's integer value is the rotation angle in degrees. */
  datatype Orientation = Normal | Right | Bottom | Left

  function Angle(o: Orientation): (r: int)
    ensures r == 0 || r == 90 || r == 180 || r == 270
  {
    match o
    case Normal => 0
    case Right => 90
    case Bottom => 180
    case Left => 270
  }

  /** Distinct orientations have distinct angles. */
  lemma AngleInjective(a: Orientation, b: Orientation)
    requires Angle(a) == Angle(b)
    ensures a == b
  {
  }

  /** cos(-angle) for the four angles: exact, so the source's float rounding does not show. */
  function CosNeg(o: Orientation): int {
    match o
    case Normal => 1
    case Right => 0
    case Bottom => -1
    case Left => 0
  }

  /** sin(-angle) for the four angles. */
  function SinNeg(o: Orientation): int {
    match o
    case Normal => 0
    case Right => -1
    case Bottom => 0
    case Left => 1
  }

  /**
   * The source's rotation of a point by -angle: (x cos - y sin, x sin + y cos). Clockwise quarter
   * turns in the lattice: Right sends (x, y) to (y, -x), Bottom to (-x, -y) and Left to (-y, x).
   */
  function RotatePoint(p: Pos, o: Orientation): (r: Pos)
    ensures o == Normal ==> r == p
    ensures o == Right ==> r == Pos(p.y, -p.x)
    ensures o == Bottom ==> r == Pos(-p.x, -p.y)
    ensures o == Left ==> r == Pos(-p.y, p.x)
  {
    Pos(p.x * CosNeg(o) - p.y * SinNeg(o), p.x * SinNeg(o) + p.y * CosNeg(o))
  }

  /** The orientation that undoes o. */
  function Inverse(o: Orientation): Orientation {
    match o
    case Normal => Normal
    case Right => Left
    case Bottom => Bottom
    case Left => Right
  }

  /** Composition of two turns: the angles add modulo 360. */
  function Compose(a: Orientation, b: Orientation): (r: Orientation)
    ensures Angle(r) == (Angle(a) + Angle(b)) % 360
  {
    match (Angle(a) + Angle(b)) % 360
    case 0 => Normal
    case 90 => Right
    case 180 => Bottom
    case _ => Left
  }

  /** Turning by a and then by b is turning by their composition. */
  lemma RotatePointCompose(p: Pos, a: Orientation, b: Orientation)
    ensures RotatePoint(RotatePoint(p, a), b) == RotatePoint(p, Compose(a, b))
  {
  }

  /** Turning back by the inverse recovers the point, so rotation is a bijection of the lattice. */
  lemma RotatePointInverse(p: Pos, o: Orientation)
    ensures RotatePoint(RotatePoint(p, o), Inverse(o)) == p
    ensures Compose(o, Inverse(o)) == Normal
  {
  }

  /** Rotation commutes with translation: differences of points rotate like points. */
  lemma RotatePointLinear(p: Pos, q: Pos, o: Orientation)
    ensures RotatePoint(p, o).Minus(RotatePoint(q, o)) == RotatePoint(p.Minus(q), o)
  {
  }

  /** `StickSegment.Rotate`: the same map applied to both ends. */
  function Rotate(s: Segment, o: Orientation): (r: Segment)
    ensures UnitAdjacent(s.start, s.end) <==> UnitAdjacent(r.start, r.end)
  {
    RotatePointLinear(s.start, s.end, o);
    Segment(RotatePoint(s.start, o), RotatePoint(s.end, o))
  }

  /** A stick shape: a name and its segments in the shape's own coordinates. */
  datatype StickDefinition = StickDefinition(stickName: string, segments: seq<Segment>)

  /** Every segment joins two lattice-adjacent points. */
  predicate UnitSegments(segs: seq<Segment>) {
    forall i :: 0 <= i < |segs| ==> UnitAdjacent(segs[i].start, segs[i].end)
  }

  /** `GetRotatedSegments`: a new sequence, the i-th element the i-th segment turned by o. */
  function GetRotatedSegments(segs: seq<Segment>, o: Orientation): (r: seq<Segment>)
    ensures |r| == |segs|
    ensures forall i :: 0 <= i < |segs| ==> r[i] == Rotate(segs[i], o)
    ensures UnitSegments(segs) <==> UnitSegments(r)
  {
    var r := seq(|segs|, i requires 0 <= i < |segs| => Rotate(segs[i], o));
    assert forall i :: 0 <= i < |segs| ==> r[i] == Rotate(segs[i], o);
    r
  }

  /** Rotating back by the inverse orientation gives the definition's segments again. */
  lemma GetRotatedSegmentsInverse(segs: seq<Segment>, o: Orientation)
    ensures GetRotatedSegments(GetRotatedSegments(segs, o), Inverse(o)) == segs
  {
    var r := GetRotatedSegments(GetRotatedSegments(segs, o), Inverse(o));
    forall i | 0 <= i < |segs| ensures r[i] == segs[i] {
      RotatePointInverse(segs[i].start, o);
      RotatePointInverse(segs[i].end, o);
    }
  }

  /** A stick in play: its definition, its orientation and the segments turned accordingly. */
  datatype StickData = StickData(definition: StickDefinition, orientation: Orientation, segments: seq<Segment>)

  /**
   * `StickData.Create`: keeps the definition and orientation, and its segments are the
   * definition's turned by that orientation, one for one.
   */
  function Create(d: StickDefinition, o: Orientation): (r: StickData)
    ensures r.definition == d && r.orientation == o
    ensures |r.segments| == |d.segments|
    ensures GetRotatedSegments(r.segments, Inverse(o)) == d.segments
    ensures UnitSegments(d.segments) ==> UnitSegments(r.segments)
  {
    GetRotatedSegmentsInverse(d.segments, o);
    StickData(d, o, GetRotatedSegments(d.segments, o))
  }
}
