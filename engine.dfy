/** The particle store and its per-frame operations (`ParticleSystem` in
    src/lib.rs): the constructor's defaults, the bounce-policy `update`, the
    setters, `resize`, and the three flat-buffer accessors. */
module Engine {
  import opened Numeric
  import opened Motion
  import opened Connectivity

  /** `std::f64::consts::PI * 2.0`, the upper end of the orbit-angle draw. */
  const TwoPi: real := 6.283185307179586

  /** The ranges `new` draws each particle's fields from; the velocity
      starts equal to the base velocity and no particle is orbiting. */
  ghost predicate Seeded(p: Particle, width: real, height: real)
  {
    0.0 <= p.x < width && 0.0 <= p.y < height &&
    -0.4 <= p.baseVx < 0.4 && -0.4 <= p.baseVy < 0.4 &&
    p.vx == p.baseVx && p.vy == p.baseVy &&
    1.0 <= p.size < 3.0 &&
    0.0 <= p.orbitAngle < TwoPi &&
    0.002 <= p.orbitSpeed < 0.008 &&
    5.0 <= p.orbitRadius < 60.0 &&
    !p.isOrbiting
  }

  /** The body of `update`'s loop for the particle at `index`: the velocity
      from the base velocity and the pointer pull, then integration and the
      reflecting border. Returns the moved particle and the link it records. */
  method MoveParticle(particle: Particle, index: nat, mouseActive: bool, c: Params, sqrt: real -> real)
    returns (moved: Particle, link: seq<MouseLink>)
    requires mouseActive == MouseActive(c)
    ensures moved == StepParticle(particle, c, sqrt)
    ensures link == LinkAt(index, particle, c, sqrt)
  {
    var vx, vy;
    vx, vy, link := ApplyPull(particle, index, mouseActive, c, sqrt);
    moved := ApplyBorder(particle, vx, vy, c);
  }

  /** The first half of `update`'s loop body: start from the base velocity
      and, when the pointer is on the canvas and near, record the link and
      pull the velocity toward the pointer. */
  method ApplyPull(particle: Particle, index: nat, mouseActive: bool, c: Params, sqrt: real -> real)
    returns (vx: real, vy: real, link: seq<MouseLink>)
    requires mouseActive == MouseActive(c)
    ensures (vx, vy) == Velocity(particle, c, sqrt)
    ensures link == LinkAt(index, particle, c, sqrt)
  {
    vx, vy := particle.baseVx, particle.baseVy;
    link := [];
    if mouseActive {
      var dx := particle.x - c.mouseX;
      var dy := particle.y - c.mouseY;
      var distanceSq := dx * dx + dy * dy;
      assert distanceSq == DistanceSq(particle, c);
      if distanceSq < c.mouseRadius * c.mouseRadius {
        var distance := sqrt(distanceSq);
        var edgeFactor := 1.0 - distance / c.mouseRadius;
        var attractionStrength := edgeFactor * edgeFactor * c.mouseForce;
        link := [MouseLink(index, attractionStrength)];
        assert attractionStrength == Strength(particle, c, sqrt);
        // the engine divides by a zero distance here; the model adds no pull
        if distance != 0.0 {
          var force := attractionStrength * c.maxAttractionForce / distance;
          assert force == PullFactor(particle, c, sqrt);
          assert Velocity(particle, c, sqrt) == Pulled(particle, dx, dy, force);
          vx, vy := vx - dx * force, vy - dy * force;
          assert vx == Pulled(particle, dx, dy, force).0;
          assert vy == Pulled(particle, dx, dy, force).1;
        } else {
          assert PullFactor(particle, c, sqrt) == 0.0;
        }
      } else {
        assert PullFactor(particle, c, sqrt) == 0.0;
      }
    } else {
      assert PullFactor(particle, c, sqrt) == 0.0;
    }
  }

  /** The second half of `update`'s loop body: integrate the position, clamp
      it into the box reflecting the base velocity, and store the velocity. */
  method ApplyBorder(particle: Particle, vx: real, vy: real, c: Params) returns (moved: Particle)
    ensures moved == Integrate(particle, vx, vy, c)
  {
    var x, y := particle.x + vx, particle.y + vy;
    var baseVx, baseVy := particle.baseVx, particle.baseVy;
    if x < 0.0 {
      x := 0.0;
      baseVx := Abs(baseVx) * c.borderRestitution;
    } else if x > c.width {
      x := c.width;
      baseVx := -Abs(baseVx) * c.borderRestitution;
    }
    if y < 0.0 {
      y := 0.0;
      baseVy := Abs(baseVy) * c.borderRestitution;
    } else if y > c.height {
      y := c.height;
      baseVy := -Abs(baseVy) * c.borderRestitution;
    }
    moved := particle.(x := x, y := y, baseVx := baseVx, baseVy := baseVy, vx := vx, vy := vy);
  }

  /** The body of `calculate_connections`' inner loop for one pair: the seam
      guard, the distance test, and the opacity with its pointer boost. */
  method PairEntry(p1: Particle, p2: Particle, c: Params, sqrt: real -> real) returns (entry: seq<real>)
    requires IsSqrt(sqrt)
    ensures entry == PairEntryValues(p1, p2, c, sqrt)
  {
    entry := [];
    var dx := Abs(p1.x - p2.x);
    var dy := Abs(p1.y - p2.y);
    if dx > c.width / 2.0 || dy > c.height / 2.0 {
      return;
    }
    var distance := sqrt(SumOfSquares(dx, dy));
    assert RootOf(sqrt, SumOfSquares(dx, dy));
    if distance < c.connectionDistance {
      var opacity := 1.0 - distance / c.connectionDistance;
      var d1Sq := (p1.x - c.mouseX) * (p1.x - c.mouseX) + (p1.y - c.mouseY) * (p1.y - c.mouseY);
      var d2Sq := (p2.x - c.mouseX) * (p2.x - c.mouseX) + (p2.y - c.mouseY) * (p2.y - c.mouseY);
      assert d1Sq == DistanceSq(p1, c) && d2Sq == DistanceSq(p2, c);
      var d1 := sqrt(d1Sq);
      var d2 := sqrt(d2Sq);
      var finalOpacity := opacity;
      if d1 < c.mouseRadius || d2 < c.mouseRadius {
        finalOpacity := finalOpacity * 1.3;
      }
      entry := [p1.x, p1.y, p2.x, p2.y, finalOpacity];
      assert distance == PairDistance(p1, p2, sqrt);
      assert finalOpacity == Opacity(p1, p2, c, sqrt);
    }
  }

  class ParticleSystem {
    const particles: array<Particle>
    var width: real
    var height: real
    const connectionDistance: real
    var mouseX: real
    var mouseY: real
    const mouseRadius: real := 150.0
    var mouseForce: real
    var mouseConnections: seq<MouseLink>
    var maxAttractionForce: real
    var borderRestitution: real

    /** Every recorded link names a particle of the store. */
    ghost predicate Valid()
      reads this
    {
      LinksInRange(particles.Length, mouseConnections)
    }

    /** The scalar parameters, as one value. */
    function Parameters(): (r: Params)
      reads this
    {
      Params(width, height, connectionDistance, mouseX, mouseY, mouseRadius,
             mouseForce, maxAttractionForce, borderRestitution)
    }

    /** `new`: the particles are given (they are drawn at random by the
        engine), the pointer starts off-screen, and the tuning parameters
        take their fixed defaults. */
    constructor (width: real, height: real, initial: seq<Particle>, connectionDistance: real)
      requires forall i :: 0 <= i < |initial| ==> Seeded(initial[i], width, height)
      ensures Valid() && fresh(particles)
      ensures particles[..] == initial
      ensures Parameters() == Params(width, height, connectionDistance, -1000.0, -1000.0,
                                     150.0, 1.0, 0.4, 1.0)
      ensures mouseConnections == []
    {
      particles := new Particle[|initial|](i requires 0 <= i < |initial| => initial[i]);
      this.width := width;
      this.height := height;
      this.connectionDistance := connectionDistance;
      mouseX := -1000.0;
      mouseY := -1000.0;
      mouseForce := 1.0;
      mouseConnections := [];
      maxAttractionForce := 0.4;
      borderRestitution := 1.0;
      new;
      assert particles[..] == initial;
    }

    /** `update`: rebuilds the pointer links from scratch and moves every
        particle one step, keeping it inside the box. */
    method Update(sqrt: real -> real)
      requires Valid() && IsSqrt(sqrt)
      modifies this, particles
      ensures Valid()
      ensures Parameters() == old(Parameters())
      ensures mouseConnections == Links(old(particles[..]), Parameters(), sqrt)
      ensures particles[..] == Steps(old(particles[..]), Parameters(), sqrt)
    {
      var c := Parameters();
      ghost var before := particles[..];
      var mouseActive := mouseX >= 0.0 && mouseY >= 0.0 && mouseX <= width && mouseY <= height;
      mouseConnections := [];
      var idx := 0;
      while idx < particles.Length
        invariant 0 <= idx <= particles.Length
        invariant Parameters() == c
        invariant mouseConnections == Links(before[..idx], c, sqrt)
        invariant particles[..idx] == Steps(before[..idx], c, sqrt)
        invariant forall k :: idx <= k < particles.Length ==> particles[k] == before[k]
      {
        var moved, link := MoveParticle(particles[idx], idx, mouseActive, c, sqrt);
        LinksSnoc(before, c, sqrt, idx);
        StepsSnoc(before, c, sqrt, idx);
        mouseConnections := mouseConnections + link;
        ghost var prefix := particles[..idx];
        particles[idx] := moved;
        assert particles[..idx + 1] == prefix + [moved];
        idx := idx + 1;
      }
      assert before[..idx] == before;
      assert particles[..idx] == particles[..];
      LinksInStore(before, c, sqrt);
    }

    /** `update_mouse_position`. */
    method UpdateMousePosition(x: real, y: real)
      requires Valid()
      modifies this
      ensures Valid()
      ensures Parameters() == old(Parameters()).(mouseX := x, mouseY := y)
      ensures mouseConnections == old(mouseConnections)
    {
      mouseX := x;
      mouseY := y;
    }

    /** `set_mouse_force`. */
    method SetMouseForce(force: real)
      requires Valid()
      modifies this
      ensures Valid()
      ensures Parameters() == old(Parameters()).(mouseForce := force)
      ensures mouseConnections == old(mouseConnections)
    {
      mouseForce := force;
    }

    /** `resize`: sets the box and pulls coordinates above the new bounds
        down onto them. */
    method Resize(width: real, height: real)
      requires Valid()
      modifies this, particles
      ensures Valid()
      ensures Parameters() == old(Parameters()).(width := width, height := height)
      ensures mouseConnections == old(mouseConnections)
      ensures forall i :: 0 <= i < particles.Length ==>
        particles[i] == Clipped(old(particles[i]), width, height)
    {
      this.width := width;
      this.height := height;
      var i := 0;
      while i < particles.Length
        invariant 0 <= i <= particles.Length
        invariant Parameters() == old(Parameters()).(width := width, height := height)
        invariant mouseConnections == old(mouseConnections)
        invariant forall k :: 0 <= k < i ==> particles[k] == Clipped(old(particles[k]), width, height)
        invariant forall k :: i <= k < particles.Length ==> particles[k] == old(particles[k])
      {
        var particle := particles[i];
        if particle.x > width {
          particle := particle.(x := width);
        }
        if particle.y > height {
          particle := particle.(y := height);
        }
        particles[i] := particle;
        i := i + 1;
      }
    }

    /** `get_particles`: `x, y, size` of every particle, in store order. */
    method GetParticles() returns (values: seq<real>)
      ensures |values| == 3 * particles.Length
      ensures forall i :: 0 <= i < particles.Length ==>
        values[3 * i] == particles[i].x && values[3 * i + 1] == particles[i].y &&
        values[3 * i + 2] == particles[i].size
    {
      var n := particles.Length;
      var result := new real[n * 3];
      var i := 0;
      while i < n
        invariant 0 <= i <= n
        invariant forall k :: 0 <= k < i ==>
          result[3 * k] == particles[k].x && result[3 * k + 1] == particles[k].y &&
          result[3 * k + 2] == particles[k].size
      {
        var baseIdx := i * 3;
        result[baseIdx] := particles[i].x;
        result[baseIdx + 1] := particles[i].y;
        result[baseIdx + 2] := particles[i].size;
        i := i + 1;
      }
      values := result[..];
    }

    /** `get_mouse_connections`: the recorded links that pass the seam
        guard, as `x, y, strength` triples in recording order. */
    method GetMouseConnections() returns (values: seq<real>)
      requires Valid()
      ensures values == LinkValues(particles[..], VisibleLinks(particles[..], Parameters(), mouseConnections))
    {
      ghost var ps := particles[..];
      var c := Parameters();
      var connections: seq<real> := [];
      var k := 0;
      while k < |mouseConnections|
        invariant 0 <= k <= |mouseConnections|
        invariant connections == LinkValues(ps, VisibleLinks(ps, c, mouseConnections[..k]))
      {
        var link := mouseConnections[k];
        var particle := particles[link.index];
        var dx := Abs(particle.x - mouseX);
        var dy := Abs(particle.y - mouseY);
        ghost var seen := VisibleLinks(ps, c, mouseConnections[..k]);
        assert mouseConnections[..k + 1][..k] == mouseConnections[..k];
        assert mouseConnections[..k + 1][k] == link;
        assert particle == ps[link.index];
        if !(dx > width / 2.0 || dy > height / 2.0) {
          connections := connections + [particle.x, particle.y, link.strength];
          assert Kept(ps, c, link);
          assert VisibleLinks(ps, c, mouseConnections[..k + 1]) == seen + [link];
          assert (seen + [link])[..|seen|] == seen;
        } else {
          assert !Kept(ps, c, link);
          assert VisibleLinks(ps, c, mouseConnections[..k + 1]) == seen;
        }
        k := k + 1;
      }
      assert mouseConnections[..k] == mouseConnections;
      values := connections;
    }

    /** One pass of `calculate_connections`' inner loop: the entries of the
        linked pairs `(i, j)` with `i < j`, in increasing `j`. */
    method RowConnections(i: nat, sqrt: real -> real) returns (values: seq<real>)
      requires IsSqrt(sqrt)
      requires i < particles.Length
      ensures values == PairValues(particles[..], Parameters(), sqrt,
                                   Row(LinkTest(particles[..], Parameters(), sqrt), i, particles.Length))
    {
      ghost var ps := particles[..];
      var c := Parameters();
      var n := particles.Length;
      var p1 := particles[i];
      values := [];
      var j := i + 1;
      while j < n
        invariant i + 1 <= j <= n
        invariant values == PairValues(ps, c, sqrt, Row(LinkTest(ps, c, sqrt), i, j))
      {
        var p2 := particles[j];
        assert p1 == ps[i] && p2 == ps[j];
        var entry := PairEntry(p1, p2, c, sqrt);
        RowStep(ps, c, sqrt, i, j);
        values := values + entry;
        j := j + 1;
      }
    }

    /** `calculate_connections`: every linked pair `i < j` as
        `x1, y1, x2, y2, opacity`, in lexicographic order of `(i, j)`. */
    method CalculateConnections(sqrt: real -> real) returns (values: seq<real>)
      requires IsSqrt(sqrt)
      ensures values == ConnectionValues(particles[..], Parameters(), sqrt)
    {
      ghost var ps := particles[..];
      ghost var c := Parameters();
      var n := particles.Length;
      var connections: seq<real> := [];
      var i := 0;
      while i < n
        invariant 0 <= i <= n
        invariant connections == PairValues(ps, c, sqrt, Rows(LinkTest(ps, c, sqrt), n, i))
      {
        var row := RowConnections(i, sqrt);
        EntriesAppend(EntryOf(ps, c, sqrt), Rows(LinkTest(ps, c, sqrt), n, i), Row(LinkTest(ps, c, sqrt), i, n));
        connections := connections + row;
        i := i + 1;
      }
      values := connections;
    }
  }
}
