/** The page script's own logic: the orbit trails kept as sliding windows of
    recent positions, the sphere palette, and the frame counter of `tick` that
    decides on which frames a trail point is recorded. */
module GravityPage {
  import opened Vectors
  import opened Wrappers
  import Color

  /** The number of points kept in each orbit trail. */
  const MaxPointCount: nat := 100

  /** A trail point is recorded on every fourth frame. */
  const DrawPointInterval: nat := 4

  // ---------------------------------------------------------------------------
  // Orbit trails
  // ---------------------------------------------------------------------------

  /** Point slot q of a flat buffer of xyz coordinates. */
  function Slot(buf: seq<real>, q: nat): (p: Vector)
    requires 3 * q + 3 <= |buf|
    ensures |p| == 3 && forall k :: 0 <= k < 3 ==> p[k] == buf[3 * q + k]
  {
    buf[3 * q .. 3 * q + 3]
  }

  function Min(a: int, b: int): int {
    if a <= b then a else b
  }

  /** The last min(|points|, MaxPointCount) slots of `buf` hold the most recent
      points, oldest first. */
  ghost predicate HoldsTrail(buf: seq<real>, points: seq<Vector>)
    requires |buf| == 3 * MaxPointCount
  {
    forall q :: MaxPointCount - |points| <= q < MaxPointCount && 0 <= q ==>
      Slot(buf, q) == points[|points| - MaxPointCount + q]
  }

  /** Shifting the buffer left by one point and appending `p` moves every slot
      down by one and puts `p` in the last slot. */
  lemma ShiftedSlots(buf: seq<real>, p: Vector)
    requires |buf| == 3 * MaxPointCount && |p| == 3
    ensures forall q :: 0 <= q < MaxPointCount - 1 ==> Slot(buf[3..] + p, q) == Slot(buf, q + 1)
    ensures Slot(buf[3..] + p, MaxPointCount - 1) == p
  {
    var buf' := buf[3..] + p;
    forall q | 0 <= q < MaxPointCount - 1
      ensures Slot(buf', q) == Slot(buf, q + 1)
    {
      assert buf'[3 * q .. 3 * q + 3] == buf[3 * q + 3 .. 3 * q + 6];
    }
    assert buf'[3 * MaxPointCount - 3 ..] == p;
  }

  /** Appending a point keeps the trail: the window slides by one. */
  lemma ShiftKeepsTrail(buf: seq<real>, points: seq<Vector>, p: Vector)
    requires |buf| == 3 * MaxPointCount && |p| == 3
    requires HoldsTrail(buf, points)
    ensures HoldsTrail(buf[3..] + p, points + [p])
  {
    ShiftedSlots(buf, p);
    var buf', points' := buf[3..] + p, points + [p];
    forall q | MaxPointCount - |points'| <= q < MaxPointCount && 0 <= q
      ensures Slot(buf', q) == points'[|points'| - MaxPointCount + q]
    {
      if q < MaxPointCount - 1 {
        assert Slot(buf', q) == Slot(buf, q + 1);
      }
    }
  }

  /** One `THREE.Line` of an orbit: its position buffer and its draw range.
      `points` records every point added so far. */
  class OrbitLine {
    const positions: array<real>
    var drawStart: int
    var drawCount: int
    ghost var points: seq<Vector>

    ghost predicate Valid()
      reads this, positions
    {
      positions.Length == 3 * MaxPointCount && HoldsTrail(positions[..], points)
    }

    /** `MAX_POINT_COUNT` zero points, with nothing drawn. */
    constructor ()
      ensures Valid() && fresh(positions)
      ensures points == [] && drawStart == 0 && drawCount == 0
      ensures forall i :: 0 <= i < positions.Length ==> positions[i] == 0.0
    {
      positions := new real[3 * MaxPointCount]((i) => 0.0);
      drawStart, drawCount := 0, 0;
      points := [];
    }

    /** `addOrbitPoint`: shifts every point one slot towards the front, writes
        the new point into the last slot and, while `index` is below
        `MAX_POINT_COUNT`, draws the last `index + 1` points. */
    method AddOrbitPoint(point: Vector, index: int)
      requires Valid() && |point| == 3
      modifies this, positions
      ensures Valid()
      ensures positions[..] == old(positions[..])[3..] + point
      ensures points == old(points) + [point]
      ensures index < MaxPointCount ==> drawStart == MaxPointCount - index - 1 && drawCount == index + 1
      ensures index >= MaxPointCount ==> drawStart == old(drawStart) && drawCount == old(drawCount)
    {
      ghost var buf := positions[..];
      for i := 0 to MaxPointCount - 1
        invariant forall j :: 0 <= j < 3 * i ==> positions[j] == buf[j + 3]
        invariant forall j :: 3 * i <= j < 3 * MaxPointCount ==> positions[j] == buf[j]
        invariant unchanged(this)
      {
        positions[i * 3 + 0] := positions[(i + 1) * 3 + 0];
        positions[i * 3 + 1] := positions[(i + 1) * 3 + 1];
        positions[i * 3 + 2] := positions[(i + 1) * 3 + 2];
      }
      positions[(MaxPointCount - 1) * 3 + 0] := point[0];
      positions[(MaxPointCount - 1) * 3 + 1] := point[1];
      positions[(MaxPointCount - 1) * 3 + 2] := point[2];
      assert positions[..] == buf[3..] + point;
      if index < MaxPointCount {
        drawStart, drawCount := MaxPointCount - index - 1, index + 1;
      }
      ShiftKeepsTrail(buf, points, point);
      points := points + [point];
    }
  }

  /** The points a draw range shows: its slots, in order. */
  function Drawn(buf: seq<real>, start: nat, count: nat): (r: seq<Vector>)
    requires |buf| == 3 * MaxPointCount && start + count <= MaxPointCount
    ensures |r| == count && forall m :: 0 <= m < count ==> r[m] == Slot(buf, start + m)
  {
    seq(count, m requires 0 <= m < count => Slot(buf, start + m))
  }

  /** The draw range that shows the whole trail: the last min(n, MAX) slots
      (an empty range, wherever it starts, before the first point). */
  predicate ShowsTrail(drawStart: int, drawCount: int, n: nat) {
    && drawCount == Min(n, MaxPointCount)
    && 0 <= drawStart <= MaxPointCount - drawCount
    && (n > 0 ==> drawStart == MaxPointCount - drawCount)
  }

  /** When the indices passed are 0, 1, 2, ..., the drawn points are exactly
      the most recent min(n, MAX) points added, in the order they came. */
  lemma DrawnIsTrail(line: OrbitLine)
    requires line.Valid()
    requires ShowsTrail(line.drawStart, line.drawCount, |line.points|)
    ensures var n := |line.points|; var m := Min(n, MaxPointCount);
            Drawn(line.positions[..], line.drawStart, line.drawCount) == line.points[n - m ..]
  {
  }

  /** Adding point number `|points|` with that number as its index keeps the
      whole trail on screen. */
  lemma AddKeepsShowingTrail(start: int, count: int, n: nat, index: int, start': int, count': int)
    requires ShowsTrail(start, count, n) && index == n
    requires index < MaxPointCount ==> start' == MaxPointCount - index - 1 && count' == index + 1
    requires index >= MaxPointCount ==> start' == start && count' == count
    ensures ShowsTrail(start', count', n + 1)
  {
  }

  // ---------------------------------------------------------------------------
  // The sphere palette
  // ---------------------------------------------------------------------------

  /** The CSS colour `hsl(h, s%, l%)` handed to `THREE.Color`, unparsed. */
  datatype Hsl = Hsl(h: real, s: real, l: real)

  /** The `HSL_palette` generator: the same walk of the hue as the HSV palette. */
  class HslPalette {
    const initH: real
    const s: real
    const l: real
    var started: bool
    var count: nat
    var h: real

    ghost predicate Valid()
      reads this
    {
      h == Color.PaletteHue(initH, count) && (!started ==> count == 0)
    }

    constructor (initH: real, s: real, l: real)
      ensures Valid() && !started
      ensures this.initH == initH && this.s == s && this.l == l
    {
      this.initH := initH;
      this.s := s;
      this.l := l;
      started := false;
      count := 0;
      h := initH;
    }

    /** One `next()`: the first call yields the initial hue; every later call
        steps the hue and yields the new colour. */
    method Next() returns (c: Hsl)
      requires Valid()
      modifies this
      ensures Valid() && started
      ensures c == Hsl(Color.PaletteHue(initH, count), s, l)
      ensures Color.Wrap(c.h) == Color.Wrap(initH + Color.Increments(count))
      ensures !old(started) ==> count == 0
      ensures old(started) ==> count == old(count) + 1
    {
      if !started {
        started := true;
      } else {
        var d1 := 120.0;
        var d2 := 30.0;
        count := count + 1;
        if count % 3 == 0 {
          d1 := 180.0;
        }
        if count % 6 == 0 {
          d1 := 180.0 - d2;
          d2 := d2 / 2.0;
        }
        h := Color.Rem360(h + d1);
      }
      c := Hsl(h, s, l);
      Color.PaletteHueIsSum(initH, count);
    }
  }

  /** `HSL_palette(40, 100, 60)` gives the first four spheres the hues 40, 160,
      280 and 100. */
  lemma SphereHues()
    ensures Color.PaletteHue(40.0, 0) == 40.0
    ensures Color.PaletteHue(40.0, 1) == 160.0
    ensures Color.PaletteHue(40.0, 2) == 280.0
    ensures Color.PaletteHue(40.0, 3) == 100.0
  {
    assert Color.PaletteHue(40.0, 1) == Color.Rem360(160.0);
    assert Color.Trunc(160.0 / 360.0) == 0;
    assert Color.PaletteHue(40.0, 2) == Color.Rem360(280.0);
    assert Color.Trunc(280.0 / 360.0) == 0;
    assert Color.PaletteHue(40.0, 3) == Color.Rem360(460.0);
    assert Color.Trunc(460.0 / 360.0) == 1;
  }

  // ---------------------------------------------------------------------------
  // The frame counter of `tick`
  // ---------------------------------------------------------------------------

  /** JavaScript's `Math.round`: halves round up. */
  function JsRound(x: real): int {
    (x + 0.5).Floor
  }

  /** The number of frames among 0 .. count - 1 on which a point is recorded. */
  function Samples(count: nat): nat {
    if count == 0 then 0 else Samples(count - 1) + (if (count - 1) % DrawPointInterval == 0 then 1 else 0)
  }

  /** The index `Math.round(count / 4)` handed to `addOrbitPoint` on a recording
      frame, or None on the frames in between. */
  function SampleIndex(count: nat): Option<int> {
    if count % DrawPointInterval == 0 then Some(JsRound(count as real / DrawPointInterval as real)) else None
  }

  /** On a recording frame the index is exactly the number of points recorded
      before it, so the trails receive the indices 0, 1, 2, ... in turn. */
  lemma {:induction false} SampleIndexCountsSamples(count: nat)
    ensures Samples(count) == (count + 3) / 4
    ensures SampleIndex(count).Some? <==> count % 4 == 0
    ensures SampleIndex(count).Some? ==> SampleIndex(count).value == count / 4 == Samples(count)
  {
    if count > 0 {
      SampleIndexCountsSamples(count - 1);
    }
    if count % 4 == 0 {
      var q := count / 4;
      assert count as real / 4.0 == q as real;
      assert (q as real + 0.5).Floor == q;
    }
  }

  // ---------------------------------------------------------------------------
  // One frame
  // ---------------------------------------------------------------------------

  /** The page's animation state: one orbit line per body, and the
      module-level `t` and `count` of `tick`. */
  class Page {
    const orbits: seq<OrbitLine>
    var t: real
    var count: nat

    /** The page set-up: one empty orbit line per body, `t` and `count` zero. */
    constructor (bodies: nat)
      ensures Valid() && |orbits| == bodies && t == 0.0 && count == 0
      ensures forall i :: 0 <= i < |orbits| ==> fresh(orbits[i]) && fresh(orbits[i].positions)
      ensures forall i :: 0 <= i < |orbits| ==> orbits[i].points == []
    {
      var lines: seq<OrbitLine> := [];
      for i := 0 to bodies
        invariant |lines| == i
        invariant forall j :: 0 <= j < i ==> fresh(lines[j]) && fresh(lines[j].positions)
        invariant forall j :: 0 <= j < i ==> lines[j].Valid() && lines[j].points == []
        invariant forall j :: 0 <= j < i ==> lines[j].drawStart == 0 && lines[j].drawCount == 0
        invariant forall j, k :: 0 <= j < k < i ==> lines[j] != lines[k] && lines[j].positions != lines[k].positions
      {
        var line := new OrbitLine();
        lines := lines + [line];
      }
      orbits := lines;
      t := 0.0;
      count := 0;
    }

    ghost predicate Valid()
      reads this, set o | o in orbits, set o | o in orbits :: o.positions
    {
      Distinct() && TrailsShow(Samples(count))
    }

    /** The orbit lines share no object. */
    ghost predicate Distinct() {
      forall i, j :: 0 <= i < j < |orbits| ==> orbits[i] != orbits[j] && orbits[i].positions != orbits[j].positions
    }

    /** Every orbit line holds and shows its trail of n points. */
    ghost predicate TrailsShow(n: nat)
      reads set o | o in orbits, set o | o in orbits :: o.positions
    {
      && (forall i :: 0 <= i < |orbits| ==> orbits[i].Valid())
      && (forall i :: 0 <= i < |orbits| ==> |orbits[i].points| == n)
      && (forall i :: 0 <= i < |orbits| ==> ShowsTrail(orbits[i].drawStart, orbits[i].drawCount, n))
    }

    /** The `addOrbitPoint` loop of `tick`: point i goes to orbit i, with the
        number of points already in the trails as the index. */
    method AddTrailPoints(points: seq<Vector>, n: nat)
      requires |points| == |orbits| && forall i :: 0 <= i < |points| ==> |points[i]| == 3
      requires Distinct() && TrailsShow(n)
      modifies set o | o in orbits, set o | o in orbits :: o.positions
      ensures TrailsShow(n + 1)
      ensures forall i :: 0 <= i < |orbits| ==> orbits[i].points == old(orbits[i].points) + [points[i]]
    {
      for i := 0 to |orbits|
        invariant forall j :: 0 <= j < |orbits| ==> orbits[j].Valid()
        invariant forall j :: 0 <= j < i ==> orbits[j].points == old(orbits[j].points) + [points[j]]
        invariant forall j :: 0 <= j < i ==> ShowsTrail(orbits[j].drawStart, orbits[j].drawCount, n + 1)
        invariant forall j :: i <= j < |orbits| ==> unchanged(orbits[j], orbits[j].positions)
      {
        orbits[i].AddOrbitPoint(points[i], n);
        AddKeepsShowingTrail(old(orbits[i].drawStart), old(orbits[i].drawCount), n, n,
                             orbits[i].drawStart, orbits[i].drawCount);
      }
    }

    /** `tick` without the rendering, given the time and positions its
        `calc_positions` call returned: on every fourth frame each orbit
        receives its body's position with index `Math.round(count / 4)`; then
        `count` moves on. */
    method Tick(time: real, positions: seq<Vector>)
      requires Valid()
      requires |positions| == |orbits| && forall i :: 0 <= i < |positions| ==> |positions[i]| == 3
      modifies this, set o | o in orbits, set o | o in orbits :: o.positions
      ensures Valid()
      ensures t == time && count == old(count) + 1
      ensures old(count) % DrawPointInterval == 0 ==>
        forall i :: 0 <= i < |orbits| ==> orbits[i].points == old(orbits[i].points) + [positions[i]]
      ensures old(count) % DrawPointInterval != 0 ==>
        forall i :: 0 <= i < |orbits| ==> orbits[i].points == old(orbits[i].points)
    {
      t := time;
      SampleIndexCountsSamples(count);
      ghost var n := Samples(count);
      ghost var sampled := count % DrawPointInterval == 0;
      if count % DrawPointInterval == 0 {
        var index := JsRound(count as real / DrawPointInterval as real);
        AddTrailPoints(positions, index);
      }
      count := count + 1;
      assert Samples(count) == if sampled then n + 1 else n;
    }
  }
}
