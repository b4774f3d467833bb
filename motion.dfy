/** The per-frame motion step of the bounce-policy particle engine
    (`ParticleSystem::update` in src/lib.rs): pointer activity, the radial
    pull toward the pointer, integration, and the reflecting border. */
module Motion {
  import opened Numeric

  /** A value that may be missing; `None` stands for an f64 NaN. */
  datatype Option<T> = None | Some(value: T)

  /** One particle of the store; `size` and the orbit fields are carried but
      never changed by the bounce policy. */
  datatype Particle = Particle(
    x: real, y: real,
    vx: real, vy: real,
    size: real,
    baseVx: real, baseVy: real,
    orbitAngle: real, orbitSpeed: real, orbitRadius: real,
    isOrbiting: bool)

  /** A particle inside the pointer radius this frame, with its attraction strength. */
  datatype MouseLink = MouseLink(index: nat, strength: real)

  /** The scalar parameters of a ParticleSystem, as one value. */
  datatype Params = Params(
    width: real, height: real,
    connectionDistance: real,
    mouseX: real, mouseY: real,
    mouseRadius: real, mouseForce: real,
    maxAttractionForce: real, borderRestitution: real)

  /** The pointer counts only when it lies in the box, borders included. */
  predicate MouseActive(c: Params)
  {
    c.mouseX >= 0.0 && c.mouseY >= 0.0 && c.mouseX <= c.width && c.mouseY <= c.height
  }

  /** Squared distance from a particle to the pointer. */
  function DistanceSq(p: Particle, c: Params): (r: real)
    ensures 0.0 <= r
  {
    (p.x - c.mouseX) * (p.x - c.mouseX) + (p.y - c.mouseY) * (p.y - c.mouseY)
  }

  /** The pointer-radius test, compared on squares as the engine does. */
  predicate InRadius(p: Particle, c: Params)
  {
    DistanceSq(p, c) < c.mouseRadius * c.mouseRadius
  }

  /** Attraction strength of a particle inside the radius: the squared edge
      factor `1 - distance/radius`, scaled by the pointer force. */
  function Strength(p: Particle, c: Params, sqrt: real -> real): (r: real)
    requires InRadius(p, c)
  {
    var edge := 1.0 - sqrt(DistanceSq(p, c)) / c.mouseRadius;
    edge * edge * c.mouseForce
  }

  /** The attraction force per unit of offset (src/lib.rs:109): zero unless
      the pointer is active and the particle is inside its radius. At
      distance 0 the engine divides by zero; the model applies no pull there. */
  function PullFactor(p: Particle, c: Params, sqrt: real -> real): (r: real)
  {
    if MouseActive(c) && InRadius(p, c) then
      var distance := sqrt(DistanceSq(p, c));
      if distance == 0.0 then 0.0
      else Strength(p, c, sqrt) * c.maxAttractionForce / distance
    else 0.0
  }

  /** Velocity used this frame: the base velocity minus the offset from the
      pointer scaled by the pull factor. */
  function Velocity(p: Particle, c: Params, sqrt: real -> real): (r: (real, real))
  {
    Pulled(p, p.x - c.mouseX, p.y - c.mouseY, PullFactor(p, c, sqrt))
  }

  /** This frame's velocity as the engine evaluates it in f64, `None`
      standing for NaN: at distance 0 the force is a division by zero, an
      infinity or NaN, and multiplying it by the zero offset gives NaN on
      both axes. Elsewhere it agrees with Velocity. */
  function VelocityAsWritten(p: Particle, c: Params, sqrt: real -> real): (r: Option<(real, real)>)
  {
    if MouseActive(c) && InRadius(p, c) && sqrt(DistanceSq(p, c)) == 0.0 then None
    else Some(Velocity(p, c, sqrt))
  }

  /** A particle sitting exactly on an active pointer: the engine's velocity
      is NaN, so none of the clamp comparisons hold afterwards and the
      particle leaves the box for good (for instance a particle resting in
      the corner `(0, 0)` with the pointer on that corner); the model's
      guarded velocity is the base velocity. */
  lemma PointerOnParticle(p: Particle, c: Params, sqrt: real -> real)
    requires IsSqrt(sqrt)
    requires MouseActive(c) && 0.0 < c.mouseRadius
    requires p.x == c.mouseX && p.y == c.mouseY
    ensures VelocityAsWritten(p, c, sqrt) == None
    ensures Velocity(p, c, sqrt) == (p.baseVx, p.baseVy)
  {
    assert DistanceSq(p, c) == 0.0;
    SqrtZero(sqrt);
    assert sqrt(DistanceSq(p, c)) == 0.0;
    PositiveSquare(c.mouseRadius);
    calc {
      DistanceSq(p, c);
    ==
      0.0;
    <
      c.mouseRadius * c.mouseRadius;
    }
    assert InRadius(p, c);
    assert PullFactor(p, c, sqrt) == 0.0;
  }

  /** The base velocity minus the offset `(dx, dy)` scaled by `force`. */
  function Pulled(p: Particle, dx: real, dy: real, force: real): (r: (real, real))
  {
    (p.baseVx - dx * force, p.baseVy - dy * force)
  }

  /** One axis of the border rule: a coordinate past an edge is put on that
      edge and the base velocity is turned away from it, scaled by the
      restitution. Returns the new coordinate and base velocity. */
  function Bounce(pos: real, base: real, bound: real, restitution: real): (r: (real, real))
    ensures 0.0 <= bound ==> 0.0 <= r.0 <= bound && r.0 == Clamp(pos, bound)
    ensures 0.0 <= pos <= bound ==> r == (pos, base)
    ensures pos < 0.0 ==> r.0 == 0.0 && (0.0 <= restitution ==> 0.0 <= r.1)
    ensures 0.0 <= pos && bound < pos ==> r.0 == bound && (0.0 <= restitution ==> r.1 <= 0.0)
  {
    if pos < 0.0 then (0.0, Abs(base) * restitution)
    else if pos > bound then (bound, -Abs(base) * restitution)
    else (pos, base)
  }

  /** A reflected base velocity keeps its magnitude, scaled by the
      restitution. */
  lemma BounceMagnitude(pos: real, base: real, bound: real, restitution: real)
    requires !(0.0 <= pos <= bound)
    ensures Abs(Bounce(pos, base, bound, restitution).1) == Abs(base) * Abs(restitution)
  {
    var r := Bounce(pos, base, bound, restitution).1;
    if pos < 0.0 {
      assert r == Abs(base) * restitution;
    } else {
      assert r == -(Abs(base) * restitution);
    }
    if restitution < 0.0 {
      assert Abs(base) * restitution == -(Abs(base) * Abs(restitution));
    } else {
      assert Abs(base) * restitution == Abs(base) * Abs(restitution);
    }
  }

  /** The clamp of `v` into `[0, bound]`. */
  function Clamp(v: real, bound: real): (r: real)
    requires 0.0 <= bound
  {
    if v < 0.0 then 0.0 else if v > bound then bound else v
  }

  /** Integration and border handling for a particle moving with velocity
      `(vx, vy)` this frame (src/lib.rs:115-135). */
  function Integrate(p: Particle, vx: real, vy: real, c: Params): (q: Particle)
    // only position, velocity and base velocity change
    ensures q.size == p.size && q.isOrbiting == p.isOrbiting
    ensures q.orbitAngle == p.orbitAngle && q.orbitSpeed == p.orbitSpeed && q.orbitRadius == p.orbitRadius
    // the stored velocity is this frame's velocity, not the reflected base
    ensures q.vx == vx && q.vy == vy
    // containment: the integrated position clamped into the box
    ensures 0.0 <= c.width ==> 0.0 <= q.x <= c.width && q.x == Clamp(p.x + vx, c.width)
    ensures 0.0 <= c.height ==> 0.0 <= q.y <= c.height && q.y == Clamp(p.y + vy, c.height)
    // no clamp, no change of base velocity
    ensures 0.0 <= p.x + vx <= c.width ==> q.x == p.x + vx && q.baseVx == p.baseVx
    ensures 0.0 <= p.y + vy <= c.height ==> q.y == p.y + vy && q.baseVy == p.baseVy
    // a clamp turns the base velocity away from the crossed edge
    ensures p.x + vx < 0.0 && 0.0 <= c.borderRestitution ==> 0.0 <= q.baseVx
    ensures 0.0 <= p.x + vx && c.width < p.x + vx && 0.0 <= c.borderRestitution ==> q.baseVx <= 0.0
    ensures p.y + vy < 0.0 && 0.0 <= c.borderRestitution ==> 0.0 <= q.baseVy
    ensures 0.0 <= p.y + vy && c.height < p.y + vy && 0.0 <= c.borderRestitution ==> q.baseVy <= 0.0
  {
    var onX := Bounce(p.x + vx, p.baseVx, c.width, c.borderRestitution);
    var onY := Bounce(p.y + vy, p.baseVy, c.height, c.borderRestitution);
    p.(x := onX.0, y := onY.0, vx := vx, vy := vy, baseVx := onX.1, baseVy := onY.1)
  }

  /** The new state of one particle after `update`: inside the box whenever
      the box is non-degenerate. */
  function StepParticle(p: Particle, c: Params, sqrt: real -> real): (q: Particle)
    ensures 0.0 <= c.width ==> 0.0 <= q.x <= c.width
    ensures 0.0 <= c.height ==> 0.0 <= q.y <= c.height
  {
    var v := Velocity(p, c, sqrt);
    Integrate(p, v.0, v.1, c)
  }

  /** With the pointer inactive or out of reach, a particle moves with its
      base velocity and stores it as its velocity. */
  lemma UnpulledStep(p: Particle, c: Params, sqrt: real -> real)
    requires !(MouseActive(c) && InRadius(p, c))
    ensures StepParticle(p, c, sqrt) == Integrate(p, p.baseVx, p.baseVy, c)
    ensures StepParticle(p, c, sqrt).vx == p.baseVx && StepParticle(p, c, sqrt).vy == p.baseVy
  {
    assert PullFactor(p, c, sqrt) == 0.0;
  }

  /** A particle drifting out through the left edge with the pointer parked
      off-screen lands on the edge with its base velocity reflected, and
      keeps this frame's velocity as its stored velocity. */
  lemma LeftEdgeExample(sqrt: real -> real)
    ensures var p := Particle(0.1, 50.0, 0.0, 0.0, 2.0, -0.4, 0.0, 1.0, 0.005, 30.0, false);
      var c := Params(100.0, 100.0, 120.0, -1000.0, -1000.0, 150.0, 1.0, 0.4, 1.0);
      StepParticle(p, c, sqrt) == p.(x := 0.0, vx := -0.4, vy := 0.0, baseVx := 0.4)
  {
    var p := Particle(0.1, 50.0, 0.0, 0.0, 2.0, -0.4, 0.0, 1.0, 0.005, 30.0, false);
    var c := Params(100.0, 100.0, 120.0, -1000.0, -1000.0, 150.0, 1.0, 0.4, 1.0);
    UnpulledStep(p, c, sqrt);
  }

  /** The particle after `resize` to a `width` by `height` box: a coordinate
      above the new bound becomes the bound, any other (negative ones
      included) is kept; nothing else changes. */
  function Clipped(p: Particle, width: real, height: real): (q: Particle)
    ensures q == p.(x := q.x, y := q.y)
    ensures q.x <= width && q.y <= height
    ensures q.x == p.x <==> p.x <= width
    ensures q.y == p.y <==> p.y <= height
    ensures q.x == width <==> width <= p.x
    ensures q.y == height <==> height <= p.y
    ensures 0.0 <= p.x && 0.0 <= width ==> 0.0 <= q.x <= width
    ensures 0.0 <= p.y && 0.0 <= height ==> 0.0 <= q.y <= height
  {
    p.(x := if p.x > width then width else p.x, y := if p.y > height then height else p.y)
  }

  /** The link a particle contributes this frame (none or one). */
  function LinkAt(i: nat, p: Particle, c: Params, sqrt: real -> real): (r: seq<MouseLink>)
  {
    if MouseActive(c) && InRadius(p, c) then [MouseLink(i, Strength(p, c, sqrt))] else []
  }

  /** The links `update` records for the particles `ps`, rebuilt from an
      empty list and pushed in index order. */
  function Links(ps: seq<Particle>, c: Params, sqrt: real -> real): (r: seq<MouseLink>)
    decreases |ps|
  {
    if |ps| == 0 then []
    else Links(ps[..|ps| - 1], c, sqrt) + LinkAt(|ps| - 1, ps[|ps| - 1], c, sqrt)
  }

  /** The particles after one `update`, each moved by StepParticle, in
      store order. */
  function Steps(ps: seq<Particle>, c: Params, sqrt: real -> real): (r: seq<Particle>)
    ensures |r| == |ps|
    decreases |ps|
  {
    if |ps| == 0 then []
    else Steps(ps[..|ps| - 1], c, sqrt) + [StepParticle(ps[|ps| - 1], c, sqrt)]
  }

  /** Moving particle `k` extends the moved first `k` particles. */
  lemma StepsSnoc(ps: seq<Particle>, c: Params, sqrt: real -> real, k: nat)
    requires k < |ps|
    ensures Steps(ps[..k + 1], c, sqrt) == Steps(ps[..k], c, sqrt) + [StepParticle(ps[k], c, sqrt)]
  {
    assert ps[..k + 1][..k] == ps[..k];
  }

  /** Particle `k` after `update` is particle `k` moved by one step. */
  lemma {:induction false} StepsAt(ps: seq<Particle>, c: Params, sqrt: real -> real, k: nat)
    requires k < |ps|
    ensures Steps(ps, c, sqrt)[k] == StepParticle(ps[k], c, sqrt)
    decreases |ps|
  {
    if k < |ps| - 1 {
      StepsAt(ps[..|ps| - 1], c, sqrt, k);
    }
  }

  /** After `update` every particle lies in a non-degenerate box. */
  lemma StepsInBox(ps: seq<Particle>, c: Params, sqrt: real -> real)
    requires 0.0 <= c.width && 0.0 <= c.height
    ensures forall k :: 0 <= k < |ps| ==>
      0.0 <= Steps(ps, c, sqrt)[k].x <= c.width && 0.0 <= Steps(ps, c, sqrt)[k].y <= c.height
  {
    forall k | 0 <= k < |ps|
      ensures 0.0 <= Steps(ps, c, sqrt)[k].x <= c.width && 0.0 <= Steps(ps, c, sqrt)[k].y <= c.height
    {
      StepsAt(ps, c, sqrt, k);
    }
  }

  /** Pushing particle `k`'s link extends the links of the first `k` particles. */
  lemma LinksSnoc(ps: seq<Particle>, c: Params, sqrt: real -> real, k: nat)
    requires k < |ps|
    ensures Links(ps[..k + 1], c, sqrt) == Links(ps[..k], c, sqrt) + LinkAt(k, ps[k], c, sqrt)
  {
    assert ps[..k + 1][..k] == ps[..k];
  }

  /** Some recorded link names particle `i`. */
  predicate Recorded(ls: seq<MouseLink>, i: nat)
  {
    exists k :: 0 <= k < |ls| && ls[k].index == i
  }

  /** Every recorded link names a particle inside the radius, carries that
      particle's strength, and the indices are strictly increasing. */
  lemma {:induction false} LinksWellFormed(ps: seq<Particle>, c: Params, sqrt: real -> real)
    ensures forall k :: 0 <= k < |Links(ps, c, sqrt)| ==>
      Links(ps, c, sqrt)[k].index < |ps| && MouseActive(c) &&
      InRadius(ps[Links(ps, c, sqrt)[k].index], c) &&
      Links(ps, c, sqrt)[k].strength == Strength(ps[Links(ps, c, sqrt)[k].index], c, sqrt)
    ensures forall a, b :: 0 <= a < b < |Links(ps, c, sqrt)| ==>
      Links(ps, c, sqrt)[a].index < Links(ps, c, sqrt)[b].index
    decreases |ps|
  {
    if |ps| > 0 {
      var init := ps[..|ps| - 1];
      LinksWellFormed(init, c, sqrt);
      var ls := Links(ps, c, sqrt);
      assert ls == Links(init, c, sqrt) + LinkAt(|ps| - 1, ps[|ps| - 1], c, sqrt);
      forall k | 0 <= k < |Links(init, c, sqrt)|
        ensures ps[Links(init, c, sqrt)[k].index] == init[Links(init, c, sqrt)[k].index]
      {
      }
    }
  }

  /** A concatenation records an index when one of its parts does. */
  lemma RecordedAppend(a: seq<MouseLink>, b: seq<MouseLink>, i: nat)
    ensures Recorded(a + b, i) <==> Recorded(a, i) || Recorded(b, i)
  {
    if Recorded(a + b, i) {
      var k :| 0 <= k < |a + b| && (a + b)[k].index == i;
      if k < |a| {
        assert a[k].index == i;
      } else {
        assert b[k - |a|].index == i;
      }
    }
    if Recorded(a, i) {
      var k :| 0 <= k < |a| && a[k].index == i;
      assert (a + b)[k].index == i;
    }
    if Recorded(b, i) {
      var k :| 0 <= k < |b| && b[k].index == i;
      assert (a + b)[|a| + k].index == i;
    }
  }

  /** A particle is recorded exactly when the pointer is active and the
      particle's squared distance to it is below the squared radius. */
  lemma {:induction false} LinksExact(ps: seq<Particle>, c: Params, sqrt: real -> real, i: nat)
    requires i < |ps|
    ensures Recorded(Links(ps, c, sqrt), i) <==> MouseActive(c) && InRadius(ps[i], c)
    decreases |ps|
  {
    var n := |ps| - 1;
    var init := ps[..n];
    var last := LinkAt(n, ps[n], c, sqrt);
    assert Links(ps, c, sqrt) == Links(init, c, sqrt) + last;
    RecordedAppend(Links(init, c, sqrt), last, i);
    if MouseActive(c) && InRadius(ps[n], c) {
      assert last[0].index == n;
      assert Recorded(last, i) <==> i == n;
    } else {
      assert last == [];
      assert !Recorded(last, i);
    }
    if i == n {
      LinksWellFormed(init, c, sqrt);
      assert !Recorded(Links(init, c, sqrt), i);
    } else {
      LinksExact(init, c, sqrt, i);
      assert init[i] == ps[i];
    }
  }

  /** With the pointer outside the box no link is recorded. */
  lemma {:induction false} LinksInactive(ps: seq<Particle>, c: Params, sqrt: real -> real)
    requires !MouseActive(c)
    ensures Links(ps, c, sqrt) == []
    decreases |ps|
  {
    if |ps| > 0 {
      LinksInactive(ps[..|ps| - 1], c, sqrt);
    }
  }

  /** The distance used for a recorded particle lies in `[0, radius)`, and
      the strength lies in `(0, force]` for a positive force; at distance 0
      it is the full force. */
  lemma StrengthBounds(p: Particle, c: Params, sqrt: real -> real)
    requires IsSqrt(sqrt)
    requires 0.0 < c.mouseRadius
    requires InRadius(p, c)
    ensures 0.0 <= sqrt(DistanceSq(p, c)) < c.mouseRadius
    ensures 0.0 <= c.mouseForce ==> 0.0 <= Strength(p, c, sqrt) <= c.mouseForce
    ensures 0.0 < c.mouseForce ==> 0.0 < Strength(p, c, sqrt)
    ensures sqrt(DistanceSq(p, c)) == 0.0 ==> Strength(p, c, sqrt) == c.mouseForce
  {
    var d := sqrt(DistanceSq(p, c));
    var r := c.mouseRadius;
    SqrtBelow(sqrt, DistanceSq(p, c), r);
    assert RootOf(sqrt, DistanceSq(p, c));
    var ratio := d / r;
    assert ratio * r == d;
    assert 0.0 <= ratio;
    if ratio >= 1.0 {
      calc {
        d;
      ==
        ratio * r;
      >=
        1.0 * r;
      }
    }
    var edge := 1.0 - ratio;
    assert 0.0 < edge <= 1.0;
    calc {
      edge * edge;
    <=
      edge * 1.0;
    <=
      1.0;
    }
    assert 0.0 < edge * edge;
    var f := c.mouseForce;
    assert Strength(p, c, sqrt) == edge * edge * f;
    if 0.0 <= f {
      calc {
        edge * edge * f;
      <=
        1.0 * f;
      }
    }
  }

  /** Every recorded strength lies in `(0, force]` for a positive force. */
  lemma LinkStrengthBounds(ps: seq<Particle>, c: Params, sqrt: real -> real)
    requires IsSqrt(sqrt)
    requires 0.0 < c.mouseRadius && 0.0 < c.mouseForce
    ensures forall l :: l in Links(ps, c, sqrt) ==> 0.0 < l.strength <= c.mouseForce
  {
    LinksWellFormed(ps, c, sqrt);
    var ls := Links(ps, c, sqrt);
    forall k | 0 <= k < |ls|
      ensures 0.0 < ls[k].strength <= c.mouseForce
    {
      StrengthBounds(ps[ls[k].index], c, sqrt);
    }
  }

  /** The pull factor is never negative for a non-negative force setting. */
  lemma PullFactorNonnegative(p: Particle, c: Params, sqrt: real -> real)
    requires IsSqrt(sqrt)
    requires 0.0 <= c.mouseForce && 0.0 <= c.maxAttractionForce
    ensures 0.0 <= PullFactor(p, c, sqrt)
  {
    if MouseActive(c) && InRadius(p, c) {
      var distance := sqrt(DistanceSq(p, c));
      assert RootOf(sqrt, DistanceSq(p, c));
      if distance != 0.0 {
        var edge := 1.0 - distance / c.mouseRadius;
        var s := Strength(p, c, sqrt);
        assert s == edge * edge * c.mouseForce;
        assert 0.0 <= edge * edge;
        assert 0.0 <= s * c.maxAttractionForce;
        assert PullFactor(p, c, sqrt) == s * c.maxAttractionForce / distance;
      }
    }
  }

  /** Subtracting a non-negative multiple of the offset moves against the
      offset on each axis and along its direction. */
  lemma AgainstOffset(dx: real, dy: real, force: real)
    requires 0.0 <= force
    ensures -(dx * force) * dx <= 0.0 && -(dy * force) * dy <= 0.0
    ensures -(dx * force) * dy == -(dy * force) * dx
  {
    calc {
      -(dx * force) * dx;
    ==
      -(dx * dx * force);
    <=
      0.0;
    }
    calc {
      -(dy * force) * dy;
    ==
      -(dy * dy * force);
    <=
      0.0;
    }
  }

  /** The pull points toward the pointer: on each axis the velocity change
      opposes the offset from the pointer, and it is parallel to that offset. */
  lemma PullTowardPointer(p: Particle, c: Params, sqrt: real -> real)
    requires IsSqrt(sqrt)
    requires 0.0 <= c.mouseForce && 0.0 <= c.maxAttractionForce
    ensures var v := Velocity(p, c, sqrt);
      var dx, dy := p.x - c.mouseX, p.y - c.mouseY;
      (v.0 - p.baseVx) * dx <= 0.0 && (v.1 - p.baseVy) * dy <= 0.0 &&
      (v.0 - p.baseVx) * dy == (v.1 - p.baseVy) * dx
  {
    PullFactorNonnegative(p, c, sqrt);
    AgainstOffset(p.x - c.mouseX, p.y - c.mouseY, PullFactor(p, c, sqrt));
  }

  /** For a positive radius, comparing squared distance against the squared
      radius (the motion step) agrees with comparing the distance itself
      against the radius (the connection extractor). */
  lemma InRadiusIffNear(p: Particle, c: Params, sqrt: real -> real)
    requires IsSqrt(sqrt)
    requires 0.0 < c.mouseRadius
    ensures InRadius(p, c) <==> sqrt(DistanceSq(p, c)) < c.mouseRadius
  {
    SqrtBelow(sqrt, DistanceSq(p, c), c.mouseRadius);
  }
}
