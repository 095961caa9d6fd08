/** The value-level model of one particle of the field: how it is spawned from
    six random draws and how one frame advances it. The class in Field updates
    its fields in place and is proved to follow these functions. */
module Motion {
  import opened Arith

  /** Depth a particle respawns at, and the numerator of the perspective factor. */
  const FarDepth: real := 1000.0

  /** Position (x, y), depth z and velocity (vx, vy, vz) of a particle. */
  datatype PState = PState(x: real, y: real, z: real, vx: real, vy: real, vz: real)

  /** Six outputs of the host's uniform random source, in the order the constructor draws them. */
  datatype Draws = Draws(rx: real, ry: real, rz: real, rvx: real, rvy: real, rvz: real)

  predicate Unit(r: real) { 0.0 <= r < 1.0 }

  /** Every draw lies in [0, 1), as the host's random source promises. */
  predicate ValidDraws(d: Draws) {
    Unit(d.rx) && Unit(d.ry) && Unit(d.rz) && Unit(d.rvx) && Unit(d.rvy) && Unit(d.rvz)
  }

  /** Depth and depth velocity that keep the depth at most FarDepth from frame to frame. */
  predicate DepthOk(p: PState) { p.z <= FarDepth && p.vz <= 0.0 }

  /** A draw scaled to [0, bound): the source's `Math.random() * bound`. */
  function Scaled(r: real, bound: real): (s: real)
    requires Unit(r) && 0.0 <= bound
    ensures 0.0 <= s <= bound
    ensures 0.0 < bound ==> s < bound
  {
    MulNonneg(r, bound);
    MulNonneg(1.0 - r, bound);
    assert bound - r * bound == (1.0 - r) * bound;
    r * bound
  }

  /** A new particle on a w-by-h surface: position uniform on the surface,
      depth uniform in [0, 1000), planar velocity in [-0.15, 0.15), depth velocity in (-2, 0]. */
  function Spawn(w: real, h: real, d: Draws): (p: PState)
    requires 0.0 <= w && 0.0 <= h && ValidDraws(d)
    ensures 0.0 <= p.x <= w && (0.0 < w ==> p.x < w)
    ensures 0.0 <= p.y <= h && (0.0 < h ==> p.y < h)
    ensures 0.0 <= p.z < FarDepth
    ensures -0.15 <= p.vx < 0.15 && -0.15 <= p.vy < 0.15
    ensures -2.0 < p.vz <= 0.0
    ensures DepthOk(p)
  {
    PState(Scaled(d.rx, w), Scaled(d.ry, h), Scaled(d.rz, 1000.0), (d.rvx - 0.5) * 0.3, (d.rvy - 0.5) * 0.3, -d.rvz * 2.0)
  }

  /** The depth after one frame: move by vz, and respawn far away when it falls below 1. */
  function NextDepth(z: real, vz: real): (z': real)
    ensures 1.0 <= z'
    ensures z <= FarDepth && vz <= 0.0 ==> z' <= FarDepth
  {
    if z + vz < 1.0 then FarDepth else z + vz
  }

  /** Velocity reflection at a surface edge: the sign flips when the position is outside [0, bound]. */
  function Reflect(v: real, pos: real, bound: real): real {
    if pos < 0.0 || pos > bound then -v else v
  }

  /** One frame of a particle on a w-by-h surface, in the source's order: depth step,
      respawn, position step scaled by the new depth, edge reflection. */
  function Advance(p: PState, w: real, h: real): (q: PState)
    ensures 1.0 <= q.z
    ensures DepthOk(p) ==> DepthOk(q)
    ensures q.vz == p.vz
  {
    var z := NextDepth(p.z, p.vz);
    var x := p.x + p.vx * (FarDepth / z);
    var y := p.y + p.vy * (FarDepth / z);
    PState(x, y, z, Reflect(p.vx, x, w), Reflect(p.vy, y, h), p.vz)
  }

  /** The state after a run of frames, one surface size per frame (the surface may be resized between frames). */
  function Run(p: PState, sizes: seq<(real, real)>): PState
    decreases |sizes|
  {
    if sizes == [] then p else Run(Advance(p, sizes[0].0, sizes[0].1), sizes[1..])
  }

  function Abs(r: real): real { if r < 0.0 then -r else r }

  /** A particle that starts with depth at most 1000 and non-positive vz keeps its depth
      in [1, 1000] after one frame, so the perspective divisor is never 0. */
  lemma DepthBounded(p: PState, w: real, h: real)
    requires p.z <= FarDepth && p.vz <= 0.0
    ensures 1.0 <= Advance(p, w, h).z <= FarDepth
  {
  }

  /** The respawn rule: the new depth is exactly 1000 when z + vz drops below 1, and z + vz otherwise. */
  lemma RespawnRule(p: PState, w: real, h: real)
    ensures p.z + p.vz < 1.0 ==> Advance(p, w, h).z == FarDepth
    ensures p.z + p.vz >= 1.0 ==> Advance(p, w, h).z == p.z + p.vz
  {
  }

  /** The position step divides by the post-respawn depth; on a respawning frame the factor is 1. */
  lemma PositionUsesNewDepth(p: PState, w: real, h: real)
    ensures var q := Advance(p, w, h);
      q.x == p.x + p.vx * (FarDepth / q.z) && q.y == p.y + p.vy * (FarDepth / q.z)
    ensures p.z + p.vz < 1.0 ==> Advance(p, w, h).x == p.x + p.vx && Advance(p, w, h).y == p.y + p.vy
  {
  }

  lemma ScaledByInverseDepth(v: real, z: real)
    requires 1.0 <= z
    ensures Abs(v * (FarDepth / z)) <= FarDepth * Abs(v)
  {
    var k := FarDepth / z;
    assert 0.0 < k <= FarDepth by {
      assert k * z == FarDepth;
    }
    if v >= 0.0 {
      assert v * k <= v * FarDepth;
    } else {
      assert (-v) * k <= (-v) * FarDepth;
    }
  }

  /** A frame moves a particle by at most 1000 times its planar speed along each axis. */
  lemma DisplacementBound(p: PState, w: real, h: real)
    ensures Abs(Advance(p, w, h).x - p.x) <= FarDepth * Abs(p.vx)
    ensures Abs(Advance(p, w, h).y - p.y) <= FarDepth * Abs(p.vy)
  {
    var z := NextDepth(p.z, p.vz);
    ScaledByInverseDepth(p.vx, z);
    ScaledByInverseDepth(p.vy, z);
  }

  /** Reflection negates vx exactly when the new x lies outside [0, w] (likewise vy, y, h),
      keeps the speed, does not clamp the position and never touches vz. */
  lemma ReflectionRule(p: PState, w: real, h: real)
    ensures var q := Advance(p, w, h);
      (q.vx == -p.vx <== (q.x < 0.0 || q.x > w)) &&
      (q.vx == p.vx <== (0.0 <= q.x <= w)) &&
      (q.vy == -p.vy <== (q.y < 0.0 || q.y > h)) &&
      (q.vy == p.vy <== (0.0 <= q.y <= h))
    ensures var q := Advance(p, w, h);
      Abs(q.vx) == Abs(p.vx) && Abs(q.vy) == Abs(p.vy) && q.vz == p.vz
  {
  }

  /** Over any number of frames and any resizes, depth stays in [1, 1000] once a frame has run. */
  lemma {:induction false} RunKeepsDepth(p: PState, sizes: seq<(real, real)>)
    requires DepthOk(p)
    ensures DepthOk(Run(p, sizes))
    ensures sizes != [] ==> 1.0 <= Run(p, sizes).z
    decreases |sizes|
  {
    if sizes != [] {
      var q := Advance(p, sizes[0].0, sizes[0].1);
      RunKeepsDepth(q, sizes[1..]);
      if sizes[1..] == [] {
        assert Run(p, sizes) == q;
      }
    }
  }

  /** A run of frames composes: running sizes a then b is running a + b. */
  lemma {:induction false} RunAppend(p: PState, a: seq<(real, real)>, b: seq<(real, real)>)
    ensures Run(Run(p, a), b) == Run(p, a + b)
    decreases |a|
  {
    if a == [] {
      assert a + b == b;
    } else {
      assert (a + b)[0] == a[0];
      assert (a + b)[1..] == a[1..] + b;
      RunAppend(Advance(p, a[0].0, a[0].1), a[1..], b);
    }
  }
}
