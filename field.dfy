/** The particle field as the components run it: a canvas the host resizes in place,
    particle objects whose fields one frame updates in place, and a pool that is filled
    once and then advanced and scanned for proximity lines every frame. */
module Field {
  import opened Motion
  import opened Connections

  /** The drawing surface; its pixel size is changed in place on a resize. */
  class Canvas {
    var width: nat
    var height: nat

    constructor (width: nat, height: nat)
      ensures this.width == width && this.height == height
    {
      this.width := width;
      this.height := height;
    }
  }

  class Particle {
    var x: real
    var y: real
    var z: real
    var vx: real
    var vy: real
    var vz: real

    /** The particle's fields as a value. */
    function State(): PState
      reads this
    {
      PState(x, y, z, vx, vy, vz)
    }

    /** A particle placed from six random draws on the canvas's current size. */
    constructor (canvas: Canvas, d: Draws)
      requires ValidDraws(d)
      ensures State() == Spawn(canvas.width as real, canvas.height as real, d)
    {
      x := d.rx * canvas.width as real;
      y := d.ry * canvas.height as real;
      z := d.rz * 1000.0;
      vx := (d.rvx - 0.5) * 0.3;
      vy := (d.rvy - 0.5) * 0.3;
      vz := -d.rvz * 2.0;
    }

    /** One frame: depth step and respawn, position step by the new depth, edge reflection.
        Only this particle changes; the canvas is only read. */
    method Update(canvas: Canvas)
      modifies this
      ensures State() == Advance(old(State()), canvas.width as real, canvas.height as real)
    {
      ghost var p := State();
      z := z + vz;
      if z < 1.0 { z := 1000.0; }
      assert z == NextDepth(p.z, p.vz);

      x := x + vx * (1000.0 / z);
      y := y + vy * (1000.0 / z);

      if x < 0.0 || x > canvas.width as real { vx := -vx; }
      if y < 0.0 || y > canvas.height as real { vy := -vy; }
      assert vx == Reflect(p.vx, x, canvas.width as real);
      assert vy == Reflect(p.vy, y, canvas.height as real);
    }
  }

  /** The values of a sequence of particles. */
  function StatesOf(ps: seq<Particle>): (r: seq<PState>)
    reads set p | p in ps
    ensures |r| == |ps|
    ensures forall k :: 0 <= k < |ps| ==> r[k] == ps[k].State()
  {
    if ps == [] then [] else [ps[0].State()] + StatesOf(ps[1..])
  }

  /** Pairwise different objects: updating one particle never changes another. */
  ghost predicate Distinct(ps: seq<Particle>) {
    forall i, j :: 0 <= i < j < |ps| ==> ps[i] != ps[j]
  }

  class ParticleField {
    const canvas: Canvas
    /** Alpha of a line between two coincident particles. */
    const baseAlpha: real
    var particles: seq<Particle>

    ghost predicate Valid()
      reads this, set p | p in particles
    {
      Distinct(particles) &&
      forall k :: 0 <= k < |particles| ==> DepthOk(particles[k].State())
    }

    function States(): seq<PState>
      reads this, set p | p in particles
    {
      StatesOf(particles)
    }

    /** Component setup: size the canvas to the window, then fill the pool with `count`
        new particles spawned from `draws`, in order. */
    constructor (canvas: Canvas, innerWidth: nat, innerHeight: nat, count: nat, baseAlpha: real, draws: seq<Draws>)
      requires |draws| == count && forall k :: 0 <= k < count ==> ValidDraws(draws[k])
      modifies canvas
      ensures this.canvas == canvas && this.baseAlpha == baseAlpha
      ensures canvas.width == innerWidth && canvas.height == innerHeight
      ensures Valid() && |particles| == count
      ensures forall k :: 0 <= k < count ==>
        fresh(particles[k]) && particles[k].State() == Spawn(innerWidth as real, innerHeight as real, draws[k])
    {
      this.canvas := canvas;
      this.baseAlpha := baseAlpha;
      particles := [];
      new;
      SetCanvasSize(innerWidth, innerHeight);
      for i := 0 to count
        invariant |particles| == i
        invariant canvas.width == innerWidth && canvas.height == innerHeight
        invariant Distinct(particles)
        invariant forall k :: 0 <= k < i ==>
          fresh(particles[k]) && particles[k].State() == Spawn(innerWidth as real, innerHeight as real, draws[k])
      {
        var p := new Particle(canvas, draws[i]);
        particles := particles + [p];
      }
    }

    /** The resize listener: only the canvas size changes; no particle moves. */
    method SetCanvasSize(innerWidth: nat, innerHeight: nat)
      requires Valid()
      modifies canvas
      ensures canvas.width == innerWidth && canvas.height == innerHeight
      ensures Valid() && particles == old(particles)
      ensures forall k :: 0 <= k < |particles| ==> particles[k].State() == old(particles[k].State())
    {
      canvas.width := innerWidth;
      canvas.height := innerHeight;
    }

    /** Advance every particle once, against the canvas's current size. */
    method UpdateAll()
      requires Valid()
      modifies set p | p in particles
      ensures Valid()
      ensures forall k :: 0 <= k < |particles| ==>
        particles[k].State() == Advance(old(particles[k].State()), canvas.width as real, canvas.height as real)
    {
      var i := 0;
      while i < |particles|
        invariant 0 <= i <= |particles|
        invariant forall k :: 0 <= k < i ==>
          particles[k].State() == Advance(old(particles[k].State()), canvas.width as real, canvas.height as real)
        invariant forall k :: i <= k < |particles| ==> particles[k].State() == old(particles[k].State())
      {
        particles[i].Update(canvas);
        i := i + 1;
      }
    }

    /** The body of the inner scan for the pair (i, j): a line when the two particles are
        closer than 120, with width min(1, (120 - distance) / 120) and alpha baseAlpha times that. */
    method ConnectPair(i: nat, j: nat, root: real -> real) returns (drawn: seq<Line>)
      requires i < j < |particles|
      ensures drawn == LineFor(States(), i, j, baseAlpha, root)
    {
      ghost var ps := States();
      var p1, p2 := particles[i], particles[j];
      var dx := p1.x - p2.x;
      var dy := p1.y - p2.y;
      assert dx * dx + dy * dy == DistSq(ps[i], ps[j]);
      var distance := root(dx * dx + dy * dy);
      if distance < 120.0 {
        var scale := Min(1.0, (120.0 - distance) / 120.0);
        drawn := [Segment(i, j, baseAlpha, scale)];
      } else {
        drawn := [];
      }
    }

    /** The inner scan over the partners j = i+1 .. n-1 of particle i, in order. */
    method ScanRow(i: nat, root: real -> real) returns (row: seq<Line>)
      requires i < |particles|
      ensures row == Row(States(), i, |particles|, baseAlpha, root)
    {
      ghost var ps := States();
      row := [];
      var j := i + 1;
      while j < |particles|
        invariant i + 1 <= j <= |particles| == |ps|
        invariant row == Row(ps, i, j, baseAlpha, root)
      {
        var drawn := ConnectPair(i, j, root);
        row := row + drawn;
        j := j + 1;
      }
    }

    /** The nested pair scan: for every i and every j > i, in that order, the line of the pair if any. */
    method DrawConnections(root: real -> real) returns (lines: seq<Line>)
      ensures lines == Lines(States(), baseAlpha, root)
    {
      ghost var ps := States();
      lines := [];
      var i := 0;
      while i < |particles|
        invariant 0 <= i <= |particles| == |ps|
        invariant lines == Upto(ps, i, baseAlpha, root)
      {
        var row := ScanRow(i, root);
        lines := lines + row;
        i := i + 1;
      }
    }

    /** One animation frame: every particle is advanced first, then the lines are computed
        on the advanced positions. The pool itself is neither replaced nor resized. */
    method Animate(root: real -> real) returns (lines: seq<Line>)
      requires Valid()
      modifies set p | p in particles
      ensures Valid() && particles == old(particles)
      ensures forall k :: 0 <= k < |particles| ==>
        particles[k].State() == Advance(old(particles[k].State()), canvas.width as real, canvas.height as real)
      ensures forall k :: 0 <= k < |particles| ==> 1.0 <= particles[k].z <= 1000.0
      ensures lines == Lines(States(), baseAlpha, root)
    {
      UpdateAll();
      lines := DrawConnections(root);
    }
  }

  /** Component mount: when the canvas element or its 2D context is missing nothing starts;
      otherwise the canvas is sized to the window, the pool of `count` particles is filled
      and the first frame is run at once. */
  method Start(canvas: Canvas?, hasContext: bool, innerWidth: nat, innerHeight: nat,
               count: nat, baseAlpha: real, draws: seq<Draws>, root: real -> real)
    returns (field: ParticleField?, lines: seq<Line>)
    requires |draws| == count && forall k :: 0 <= k < count ==> ValidDraws(draws[k])
    modifies canvas
    ensures field == null <==> canvas == null || !hasContext
    ensures field == null ==> lines == [] && (canvas != null ==> unchanged(canvas))
    ensures field != null ==>
      fresh(field) && field.Valid() && field.canvas == canvas && field.baseAlpha == baseAlpha &&
      canvas.width == innerWidth && canvas.height == innerHeight && |field.particles| == count
    ensures field != null ==> forall k :: 0 <= k < count ==>
      fresh(field.particles[k]) &&
      field.particles[k].State() == Advance(Spawn(innerWidth as real, innerHeight as real, draws[k]), innerWidth as real, innerHeight as real)
    ensures field != null ==> lines == Lines(field.States(), baseAlpha, root)
  {
    if canvas == null || !hasContext {
      return null, [];
    }
    field := new ParticleField(canvas, innerWidth, innerHeight, count, baseAlpha, draws);
    lines := field.Animate(root);
  }
}
