/** The three page sections that run a particle field, each with its own pool size and
    line weight over the shared engine in Field. */
module Hero {
  import opened Motion
  import opened Connections
  import Field

  const ParticleCount: nat := 250
  const LineAlpha: real := 0.2

  /** The hero section's canvas effect: 250 particles, lines at alpha 0.2 * scale. */
  method Start(canvas: Field.Canvas?, hasContext: bool, innerWidth: nat, innerHeight: nat,
               draws: seq<Draws>, root: real -> real)
    returns (field: Field.ParticleField?, lines: seq<Line>)
    requires |draws| == ParticleCount && forall k :: 0 <= k < |draws| ==> ValidDraws(draws[k])
    modifies canvas
    ensures field == null <==> canvas == null || !hasContext
    ensures field == null ==> lines == [] && (canvas != null ==> unchanged(canvas))
    ensures field != null ==>
      fresh(field) && field.Valid() && field.canvas == canvas && |field.particles| == 250 &&
      canvas.width == innerWidth && canvas.height == innerHeight &&
      field.baseAlpha == 0.2 && lines == Lines(field.States(), 0.2, root)
    ensures field != null ==> forall k :: 0 <= k < 250 ==>
      fresh(field.particles[k]) && field.particles[k].State() == Advance(Spawn(innerWidth as real, innerHeight as real, draws[k]), innerWidth as real, innerHeight as real)
  {
    field, lines := Field.Start(canvas, hasContext, innerWidth, innerHeight, ParticleCount, LineAlpha, draws, root);
  }
}

module Achievements {
  import opened Motion
  import opened Connections
  import Field

  const ParticleCount: nat := 150
  const LineAlpha: real := 0.1

  /** The achievements section's canvas effect: 150 particles, lines at alpha 0.1 * scale. */
  method Start(canvas: Field.Canvas?, hasContext: bool, innerWidth: nat, innerHeight: nat,
               draws: seq<Draws>, root: real -> real)
    returns (field: Field.ParticleField?, lines: seq<Line>)
    requires |draws| == ParticleCount && forall k :: 0 <= k < |draws| ==> ValidDraws(draws[k])
    modifies canvas
    ensures field == null <==> canvas == null || !hasContext
    ensures field == null ==> lines == [] && (canvas != null ==> unchanged(canvas))
    ensures field != null ==>
      fresh(field) && field.Valid() && field.canvas == canvas && |field.particles| == 150 &&
      canvas.width == innerWidth && canvas.height == innerHeight &&
      field.baseAlpha == 0.1 && lines == Lines(field.States(), 0.1, root)
    ensures field != null ==> forall k :: 0 <= k < 150 ==>
      fresh(field.particles[k]) && field.particles[k].State() == Advance(Spawn(innerWidth as real, innerHeight as real, draws[k]), innerWidth as real, innerHeight as real)
  {
    field, lines := Field.Start(canvas, hasContext, innerWidth, innerHeight, ParticleCount, LineAlpha, draws, root);
  }
}

module About {
  import opened Motion
  import opened Connections
  import Field

  const ParticleCount: nat := 150
  const LineAlpha: real := 0.1

  /** The about section's canvas effect: 150 particles, lines at alpha 0.1 * scale. */
  method Start(canvas: Field.Canvas?, hasContext: bool, innerWidth: nat, innerHeight: nat,
               draws: seq<Draws>, root: real -> real)
    returns (field: Field.ParticleField?, lines: seq<Line>)
    requires |draws| == ParticleCount && forall k :: 0 <= k < |draws| ==> ValidDraws(draws[k])
    modifies canvas
    ensures field == null <==> canvas == null || !hasContext
    ensures field == null ==> lines == [] && (canvas != null ==> unchanged(canvas))
    ensures field != null ==>
      fresh(field) && field.Valid() && field.canvas == canvas && |field.particles| == 150 &&
      canvas.width == innerWidth && canvas.height == innerHeight &&
      field.baseAlpha == 0.1 && lines == Lines(field.States(), 0.1, root)
    ensures field != null ==> forall k :: 0 <= k < 150 ==>
      fresh(field.particles[k]) && field.particles[k].State() == Advance(Spawn(innerWidth as real, innerHeight as real, draws[k]), innerWidth as real, innerHeight as real)
  {
    field, lines := Field.Start(canvas, hasContext, innerWidth, innerHeight, ParticleCount, LineAlpha, draws, root);
  }
}
