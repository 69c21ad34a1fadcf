/** Plane vectors and axis-aligned bounding boxes: the `Vector2` values and the
    `AABB` record struct of the platformer. World X grows to the right and world
    Y grows downwards; every float coordinate is modelled as a real. */
module Geometry {

  datatype Vec2 = Vec2(x: real, y: real) {

    function Plus(o: Vec2): Vec2 {
      Vec2(x + o.x, y + o.y)
    }

    function Minus(o: Vec2): Vec2 {
      Vec2(x - o.x, y - o.y)
    }

    function Neg(): Vec2 {
      Vec2(-x, -y)
    }

    function Scale(k: real): Vec2 {
      Vec2(x * k, y * k)
    }
  }

  const ZERO: Vec2 := Vec2(0.0, 0.0)

  /** A box given by its top-left corner `min` and its bottom-right corner `max`. */
  datatype AABB = AABB(min: Vec2, max: Vec2) {

    /** The horizontal extent: `min.x` plus the width is `max.x`, and the
        width is non-negative exactly when the corners are in order. */
    function Width(): (w: real)
      ensures min.x + w == max.x
      ensures w >= 0.0 <==> min.x <= max.x
    {
      max.x - min.x
    }

    /** The vertical extent, likewise. */
    function Height(): (h: real)
      ensures min.y + h == max.y
      ensures h >= 0.0 <==> min.y <= max.y
    {
      max.y - min.y
    }

    /** The same box with both corners moved by `d`. */
    function Translate(d: Vec2): (r: AABB)
      ensures r.min == min.Plus(d)
      ensures r.Width() == Width() && r.Height() == Height()
    {
      AABB(min.Plus(d), max.Plus(d))
    }
  }

  /** `AABB.Create`: the box whose top-left corner is (x, y) and whose size is
      width by height. */
  function Create(x: real, y: real, width: real, height: real): (r: AABB)
    ensures r.min == Vec2(x, y)
    ensures r.Width() == width && r.Height() == height
  {
    AABB(Vec2(x, y), Vec2(x + width, y + height))
  }
}

/** Box-against-box overlap by Minkowski difference, and the minimum
    translation that pushes one box out of the other along a single axis. */
module CollisionMath {
  import opened Geometry

  /** `Math.Abs`: the magnitude, never below `x`, `-x` or zero. */
  function Abs(x: real): (r: real)
    ensures r >= 0.0 && (r == x || r == -x)
  {
    if x < 0.0 then -x else x
  }

  /** The box of all differences p - q with p in a and q in b. */
  function MinkowskiDifference(a: AABB, b: AABB): (d: AABB)
    ensures d.min == a.min.Minus(b.max) && d.max == a.max.Minus(b.min)
    ensures d.Width() == a.Width() + b.Width()
    ensures d.Height() == a.Height() + b.Height()
  {
    AABB(a.min.Minus(b.max), a.max.Minus(b.min))
  }

  /** The reference notion of penetration: on both axes the open intervals of
      the two boxes intersect. Boxes that only share an edge do not overlap. */
  predicate Overlap(a: AABB, b: AABB) {
    a.min.x < b.max.x && b.min.x < a.max.x && a.min.y < b.max.y && b.min.y < a.max.y
  }

  /** The exit on one axis: of the two signed distances `lo` and `hi` to the
      sides of the Minkowski difference, the one of smaller magnitude; on a tie
      the `hi` side is taken, since the comparison is strict. */
  function NearestExit(lo: real, hi: real): (e: real)
    ensures e == lo || e == hi
  {
    if Abs(lo) < Abs(hi) then lo else hi
  }

  /** The exit chosen is never further than either side, and a tie goes to
      the `hi` side. */
  lemma NearestExitMinimal(lo: real, hi: real)
    ensures Abs(NearestExit(lo, hi)) <= Abs(lo) && Abs(NearestExit(lo, hi)) <= Abs(hi)
    ensures Abs(lo) == Abs(hi) ==> NearestExit(lo, hi) == hi
  {
  }

  datatype Collision = Collision(colliding: bool, penetration: Vec2)

  /** `CollisionMath.AreColliding`: the overlap verdict together with the
      penetration vector (the C# `out` parameter). The penetration vector is
      computed whether or not the boxes collide. */
  function AreColliding(a: AABB, b: AABB): (r: Collision)
    ensures r.colliding <==> Overlap(a, b)
    ensures r.penetration.x == 0.0 || r.penetration.y == 0.0
  {
    var d := MinkowskiDifference(a, b);
    var colliding := d.min.x < 0.0 && d.max.x > 0.0 && d.min.y < 0.0 && d.max.y > 0.0;
    var minX := NearestExit(d.min.x, d.max.x);
    var minY := NearestExit(d.min.y, d.max.y);
    Collision(colliding, ShorterExit(minX, minY))
  }

  /** The penetration from the two axis exits: the X exit when it is strictly
      the shorter, the Y exit otherwise. It runs along one axis and is no
      longer than either exit. */
  function ShorterExit(mx: real, my: real): (p: Vec2)
    ensures p == Vec2(mx, 0.0) || p == Vec2(0.0, my)
    ensures Abs(p.x) + Abs(p.y) <= Abs(mx) && Abs(p.x) + Abs(p.y) <= Abs(my)
  {
    if Abs(mx) < Abs(my) then Vec2(mx, 0.0) else Vec2(0.0, my)
  }

  /** The penetration vector is the shortest of the four single-axis exits
      through the sides of the Minkowski difference, and an exact tie between
      the two axes goes to the Y axis. */
  lemma PenetrationIsShortestExit(a: AABB, b: AABB)
    ensures var d := MinkowskiDifference(a, b);
      var p := AreColliding(a, b).penetration;
      p == Vec2(d.min.x, 0.0) || p == Vec2(d.max.x, 0.0) ||
      p == Vec2(0.0, d.min.y) || p == Vec2(0.0, d.max.y)
    ensures var d := MinkowskiDifference(a, b);
      var p := AreColliding(a, b).penetration;
      var size := Abs(p.x) + Abs(p.y);
      size <= Abs(d.min.x) && size <= Abs(d.max.x) && size <= Abs(d.min.y) && size <= Abs(d.max.y)
    ensures var d := MinkowskiDifference(a, b);
      Abs(NearestExit(d.min.x, d.max.x)) == Abs(NearestExit(d.min.y, d.max.y)) ==>
        AreColliding(a, b).penetration == Vec2(0.0, NearestExit(d.min.y, d.max.y))
  {
    var d := MinkowskiDifference(a, b);
    NearestExitMinimal(d.min.x, d.max.x);
    NearestExitMinimal(d.min.y, d.max.y);
  }

  /** The overlap verdict does not depend on the order of the two boxes. */
  lemma CollidingSymmetric(a: AABB, b: AABB)
    ensures AreColliding(a, b).colliding == AreColliding(b, a).colliding
  {
  }

  /** A box of positive size overlaps itself. */
  lemma SelfOverlap(a: AABB)
    requires a.Width() > 0.0 && a.Height() > 0.0
    ensures AreColliding(a, a).colliding
  {
  }

  /** Boxes that share an edge, or are further apart, on either axis do not
      collide: the test uses strict inequalities. */
  lemma TouchingDoesNotCollide(a: AABB, b: AABB)
    requires a.max.x <= b.min.x || b.max.x <= a.min.x || a.max.y <= b.min.y || b.max.y <= a.min.y
    ensures !AreColliding(a, b).colliding
  {
  }

  /** Moving a colliding box by the negated penetration vector leaves it
      touching, but no longer overlapping, the other box. */
  lemma PushOutSeparates(a: AABB, b: AABB)
    requires AreColliding(a, b).colliding
    ensures !AreColliding(a.Translate(AreColliding(a, b).penetration.Neg()), b).colliding
  {
    var d := MinkowskiDifference(a, b);
    var p := AreColliding(a, b).penetration;
    PenetrationIsShortestExit(a, b);
    var a' := a.Translate(p.Neg());
    var d' := MinkowskiDifference(a', b);
    if p == Vec2(d.min.x, 0.0) {
      assert d'.min.x == 0.0;
    } else if p == Vec2(d.max.x, 0.0) {
      assert d'.max.x == 0.0;
    } else if p == Vec2(0.0, d.min.y) {
      assert d'.min.y == 0.0;
    } else {
      assert d'.max.y == 0.0;
    }
  }

  /** Negating and swapping the two sides of an axis negates its exit, when
      the two sides are not at the same distance. */
  lemma NearestExitNegated(lo: real, hi: real)
    requires Abs(lo) != Abs(hi)
    ensures NearestExit(-hi, -lo) == -NearestExit(lo, hi)
    ensures Abs(NearestExit(-hi, -lo)) == Abs(NearestExit(lo, hi))
  {
  }

  /** Mirroring an axis (negating and swapping its two sides) never changes
      the magnitude of its exit, tie or not. */
  lemma NearestExitMirror(lo: real, hi: real)
    ensures Abs(NearestExit(-hi, -lo)) == Abs(NearestExit(lo, hi))
  {
  }

  /** Swapping the boxes negates the penetration vector, provided the axis
      the penetration is taken on does not have its two exits at exactly the
      same distance. A tie on the other axis does no harm: mirroring keeps
      the magnitudes of both exits, so the same axis is chosen in both orders. */
  lemma PenetrationAntisymmetric(a: AABB, b: AABB)
    requires var d := MinkowskiDifference(a, b);
      var mx, my := NearestExit(d.min.x, d.max.x), NearestExit(d.min.y, d.max.y);
      if Abs(mx) < Abs(my) then Abs(d.min.x) != Abs(d.max.x) else Abs(d.min.y) != Abs(d.max.y)
    ensures AreColliding(b, a).penetration == AreColliding(a, b).penetration.Neg()
  {
    var d := MinkowskiDifference(a, b);
    var e := MinkowskiDifference(b, a);
    PenetrationOf(a, b);
    PenetrationOf(b, a);
    MirroredExits(d.min.x, d.max.x, d.min.y, d.max.y, e.min.x, e.max.x, e.min.y, e.max.y);
  }

  /** The same on the signed distances alone: the mirrored sides (negated
      and swapped) give the negated shorter exit, unless the chosen axis has a
      tie. */
  lemma MirroredExits(lx: real, hx: real, ly: real, hy: real, lx': real, hx': real, ly': real, hy': real)
    requires lx' == -hx && hx' == -lx && ly' == -hy && hy' == -ly
    requires var mx, my := NearestExit(lx, hx), NearestExit(ly, hy);
      if Abs(mx) < Abs(my) then Abs(lx) != Abs(hx) else Abs(ly) != Abs(hy)
    ensures ShorterExit(NearestExit(lx', hx'), NearestExit(ly', hy')) ==
      ShorterExit(NearestExit(lx, hx), NearestExit(ly, hy)).Neg()
  {
    var mx, my := NearestExit(lx, hx), NearestExit(ly, hy);
    var nx, ny := NearestExit(lx', hx'), NearestExit(ly', hy');
    NearestExitMirror(lx, hx);
    NearestExitMirror(ly, hy);
    if Abs(mx) < Abs(my) {
      NearestExitNegated(lx, hx);
      ShorterExitNegated(mx, my, nx, ny);
    } else {
      NearestExitNegated(ly, hy);
      ShorterExitNegated(mx, my, nx, ny);
    }
  }

  /** The penetration is the shorter of the two axis exits of the Minkowski
      difference. */
  lemma PenetrationOf(a: AABB, b: AABB)
    ensures var d := MinkowskiDifference(a, b);
      AreColliding(a, b).penetration == ShorterExit(NearestExit(d.min.x, d.max.x), NearestExit(d.min.y, d.max.y))
  {
  }

  /** Exits of the same magnitudes, the chosen one negated, give the negated
      penetration. */
  lemma ShorterExitNegated(mx: real, my: real, nx: real, ny: real)
    requires Abs(nx) == Abs(mx) && Abs(ny) == Abs(my)
    requires Abs(mx) < Abs(my) ==> nx == -mx
    requires !(Abs(mx) < Abs(my)) ==> ny == -my
    ensures ShorterExit(nx, ny) == ShorterExit(mx, my).Neg()
  {
    if Abs(mx) < Abs(my) {
      assert ShorterExit(mx, my) == Vec2(mx, 0.0) && ShorterExit(nx, ny) == Vec2(nx, 0.0);
    } else {
      assert ShorterExit(mx, my) == Vec2(0.0, my) && ShorterExit(nx, ny) == Vec2(0.0, ny);
    }
  }

  /** A tie on the axis the penetration is taken on breaks the antisymmetry:
      a box of positive size against itself has a tie on both axes, and the
      penetration, the same vector in both orders, is not its own negation.
      A box at least as wide as it is tall exits downwards by its height. */
  lemma PenetrationTieNotNegated(a: AABB)
    requires a.Width() > 0.0 && a.Height() > 0.0
    ensures AreColliding(a, a).penetration != AreColliding(a, a).penetration.Neg()
    ensures a.Width() >= a.Height() ==> AreColliding(a, a).penetration == Vec2(0.0, a.Height())
  {
    var d := MinkowskiDifference(a, a);
    var w, h := a.Width(), a.Height();
    assert d.min == Vec2(-w, -h) && d.max == Vec2(w, h);
    assert NearestExit(-w, w) == w && NearestExit(-h, h) == h;
    assert AreColliding(a, a).penetration == ShorterExit(w, h);
  }

  /** A tie on the other axis does not: two boxes of the same columns, one
      sunk into the other from below by less than their width, have their X
      exits at the same distance, yet the two orders give a vertical push and
      its negation. */
  lemma PenetrationOffAxisTie(a: AABB, b: AABB)
    requires a.min.x == b.min.x && a.max.x == b.max.x && a.Width() > 0.0
    requires a.Height() == b.Height() && a.min.y < b.min.y < a.max.y
    requires a.max.y - b.min.y <= a.Width()
    ensures AreColliding(a, b).penetration == Vec2(0.0, a.max.y - b.min.y)
    ensures AreColliding(b, a).penetration == Vec2(0.0, b.min.y - a.max.y)
  {
    var d := MinkowskiDifference(a, b);
    var w, depth := a.Width(), a.max.y - b.min.y;
    assert d.min.x == -w && d.max.x == w && d.max.y == depth && d.min.y < -depth;
    assert NearestExit(d.min.x, d.max.x) == w && NearestExit(d.min.y, d.max.y) == depth;
    assert AreColliding(a, b).penetration == ShorterExit(w, depth);
    PenetrationAntisymmetric(a, b);
  }
}
