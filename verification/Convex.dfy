/**
 Strictly convex paths under the ray loop: what it answers for every point, sides and
 corners included, and that it is right strictly inside and strictly outside.
 */
module Convex {
  import opened Polygon

  /** The vertex behind number k on the closed path. */
  function Next(p: seq<LatLng>, k: nat): LatLng
    requires k < |p|
  {
    if k + 1 < |p| then p[k + 1] else p[0]
  }

  /** Any three vertices, taken in their order, turn the same way. */
  ghost predicate IsConvex(p: seq<LatLng>) {
    |p| >= 3 && forall i, j, k :: 0 <= i < j < k < |p| ==> Area(p[i], p[j], p[k]) > 0.0
  }

  /** The edge passes the longitude of pt to its right, or to its left. */
  predicate Rises(u: LatLng, v: LatLng, pt: LatLng) { Left(u, pt) && !Left(v, pt) }

  predicate Falls(u: LatLng, v: LatLng, pt: LatLng) { !Left(u, pt) && Left(v, pt) }

  /** On the inner side of edge k or on its line, and for a falling edge not on its line. */
  predicate Admits(p: seq<LatLng>, pt: LatLng, k: nat)
    requires k < |p|
  {
    && Area(p[k], Next(p, k), pt) >= 0.0
    && (Falls(p[k], Next(p, k), pt) ==> Area(p[k], Next(p, k), pt) > 0.0)
  }

  predicate FallsAt(p: seq<LatLng>, pt: LatLng, k: nat)
    requires k < |p|
  {
    Falls(p[k], Next(p, k), pt)
  }

  /** No edge has pt on its outer side, and among the edges pt is level with, it is not on the falling one. */
  ghost predicate Contains(p: seq<LatLng>, pt: LatLng) {
    && (exists k :: 0 <= k < |p| && FallsAt(p, pt, k))
    && forall k :: 0 <= k < |p| ==> Admits(p, pt, k)
  }

  // ---------- Edges and lines ----------

  /** The side of an edge a point is on, by the height at which the edge passes it. */
  lemma HeightSide(u: LatLng, v: LatLng, pt: LatLng)
    requires u.lng != v.lng
    ensures Area(u, v, pt) == (v.lng - u.lng) * (CrossingLat(u, v, pt) - pt.lat)
  {
    var d := v.lng - u.lng;
    var t := (pt.lng - u.lng) / d;
    assert t * d == pt.lng - u.lng;
    assert d * (t * (v.lat - u.lat)) == (pt.lng - u.lng) * (v.lat - u.lat);
  }

  lemma EdgeSide(u: LatLng, v: LatLng, pt: LatLng)
    ensures Straddles(u, v, pt) == (Rises(u, v, pt) || Falls(u, v, pt))
    ensures Rises(u, v, pt) ==> Crosses(u, v, pt) == (Area(u, v, pt) < 0.0)
    ensures Falls(u, v, pt) ==> Crosses(u, v, pt) == (Area(u, v, pt) > 0.0)
  {
    if u.lng != v.lng {
      HeightSide(u, v, pt);
      Weight(v.lng - u.lng, CrossingLat(u, v, pt) - pt.lat);
    }
  }

  /** A line with both ends of an edge on its inner side has the whole edge there. */
  lemma OnEdge(u: LatLng, v: LatLng, a: LatLng, b: LatLng, pt: LatLng)
    requires a.lng < pt.lng <= b.lng && Area(u, v, a) >= 0.0 && Area(u, v, b) >= 0.0
    ensures Area(u, v, LatLng(CrossingLat(a, b, pt), pt.lng)) >= 0.0
  {
    var d := b.lng - a.lng;
    var t := (pt.lng - a.lng) / d;
    FractionBetween(pt.lng - a.lng, d);
    assert t * d == pt.lng - a.lng;
    AreaBetween(u, v, a, b, t);
    Product(1.0 - t, Area(u, v, a));
    Product(t, Area(u, v, b));
  }

  lemma AreaBetween(u: LatLng, v: LatLng, a: LatLng, b: LatLng, t: real)
    ensures Area(u, v, LatLng(a.lat + t * (b.lat - a.lat), a.lng + t * (b.lng - a.lng)))
            == (1.0 - t) * Area(u, v, a) + t * Area(u, v, b)
  {
    var h, w := v.lat - u.lat, v.lng - u.lng;
    AreaLinear(h, w, a.lng - u.lng, a.lat - u.lat, b.lng - u.lng, b.lat - u.lat, t);
  }

  lemma AreaLinear(h: real, w: real, x1: real, y1: real, x2: real, y2: real, t: real)
    ensures h * (x1 + t * (x2 - x1)) - (y1 + t * (y2 - y1)) * w
            == (1.0 - t) * (h * x1 - y1 * w) + t * (h * x2 - y2 * w)
  {
  }

  /** Straight above each other, the height tells the side, and a point between two on the inner side is there too. */
  lemma OnVertical(u: LatLng, v: LatLng, x: real, low: real, mid: real, high: real)
    requires low <= mid <= high && Area(u, v, LatLng(low, x)) >= 0.0 && Area(u, v, LatLng(high, x)) >= 0.0
    ensures Area(u, v, LatLng(mid, x)) >= 0.0
  {
    var w := v.lng - u.lng;
    assert Area(u, v, LatLng(mid, x)) - Area(u, v, LatLng(low, x)) == (low - mid) * w;
    assert Area(u, v, LatLng(mid, x)) - Area(u, v, LatLng(high, x)) == (high - mid) * w;
    if w >= 0.0 {
      Product(high - mid, w);
    } else {
      Product(mid - low, -w);
      assert (low - mid) * w == (mid - low) * (-w);
    }
  }

  /** The inner side is below a rising edge, and above a falling one. */
  lemma BelowRise(a: LatLng, b: LatLng, pt: LatLng)
    requires Rises(a, b, pt)
    ensures Area(a, b, pt) >= 0.0 <==> pt.lat <= CrossingLat(a, b, pt)
  {
    var w, e := b.lng - a.lng, CrossingLat(a, b, pt) - pt.lat;
    assert Area(a, b, pt) == w * e by {
      HeightSide(a, b, pt);
    }
    Weight(w, e);
  }

  lemma AboveFall(c: LatLng, d: LatLng, pt: LatLng)
    requires Falls(c, d, pt)
    ensures Area(c, d, pt) >= 0.0 <==> CrossingLat(d, c, pt) <= pt.lat
    ensures Area(c, d, pt) > 0.0 <==> CrossingLat(d, c, pt) < pt.lat
  {
    var w, e := d.lng - c.lng, CrossingLat(d, c, pt) - pt.lat;
    assert Area(c, d, pt) == w * e by {
      HeightSide(c, d, pt);
      CrossingSymmetric(c, d, pt);
    }
    Weight(w, e);
  }

  /**
   Between a rising edge a, b and a falling one c, d, a point is on the inner side of
   every line that has all four ends there.
   */
  lemma BetweenEdges(u: LatLng, v: LatLng, a: LatLng, b: LatLng, c: LatLng, d: LatLng, pt: LatLng)
    requires Rises(a, b, pt) && Falls(c, d, pt) && Area(a, b, pt) >= 0.0 && Area(c, d, pt) >= 0.0
    requires Area(u, v, a) >= 0.0 && Area(u, v, b) >= 0.0 && Area(u, v, c) >= 0.0 && Area(u, v, d) >= 0.0
    ensures Area(u, v, pt) >= 0.0
  {
    BelowRise(a, b, pt);
    AboveFall(c, d, pt);
    OnEdge(u, v, a, b, pt);
    OnEdge(u, v, d, c, pt);
    OnVertical(u, v, pt.lng, CrossingLat(d, c, pt), pt.lat, CrossingLat(a, b, pt));
    assert LatLng(pt.lat, pt.lng) == pt;
  }

  /** Beyond a rising edge, a point is on the inner side of a falling edge that lies on the inner side of that one. */
  lemma BeyondRise(a: LatLng, b: LatLng, c: LatLng, d: LatLng, pt: LatLng)
    requires Rises(a, b, pt) && Falls(c, d, pt) && Area(a, b, c) >= 0.0 && Area(a, b, d) >= 0.0
    requires Area(a, b, pt) < 0.0
    ensures Area(c, d, pt) > 0.0
  {
    var q := LatLng(CrossingLat(d, c, pt), pt.lng);
    OnEdge(a, b, d, c, pt);
    BelowRise(a, b, q);
    BelowRise(a, b, pt);
    AboveFall(c, d, pt);
  }

  // ---------- A convex path passes a longitude twice at most ----------

  /** Four vertices in order do not change sides four times: their diagonals cross. */
  lemma Alternate(a: LatLng, b: LatLng, c: LatLng, d: LatLng, pt: LatLng)
    requires Area(a, b, c) > 0.0 && Area(a, b, d) > 0.0 && Area(a, c, d) > 0.0 && Area(b, c, d) > 0.0
    requires Left(a, pt) && !Left(b, pt) && Left(c, pt)
    ensures Left(d, pt)
  {
    if !Left(d, pt) {
      var x := pt.lng;
      var left := Area(b, c, d) * (a.lng - x) + Area(a, b, d) * (c.lng - x);
      var right := Area(a, c, d) * (b.lng - x) + Area(a, b, c) * (d.lng - x);
      assert left < 0.0 by {
        Weight(Area(b, c, d), a.lng - x);
        Weight(Area(a, b, d), c.lng - x);
      }
      assert right >= 0.0 by {
        Product(Area(a, c, d), b.lng - x);
        Product(Area(a, b, c), d.lng - x);
      }
      Diagonals(a, b, c, d, x);
    }
  }

  lemma Diagonals(a: LatLng, b: LatLng, c: LatLng, d: LatLng, x: real)
    ensures Area(b, c, d) * (a.lng - x) + Area(a, b, d) * (c.lng - x)
            == Area(a, c, d) * (b.lng - x) + Area(a, b, c) * (d.lng - x)
  {
    var bx, cx, dx := b.lng - a.lng, c.lng - a.lng, d.lng - a.lng;
    var bh, ch, dh := b.lat - a.lat, c.lat - a.lat, d.lat - a.lat;
    var abc, abd, acd := bh * cx - ch * bx, bh * dx - dh * bx, ch * dx - dh * cx;
    assert Area(b, c, d) == abc + acd - abd;
    assert acd * bx - abd * cx + abc * dx == 0.0;
    var e := a.lng - x;
    assert (abc + acd - abd) * e + abd * (cx + e) == acd * (bx + e) + abc * (dx + e);
  }

  // ---------- A path that begins behind its falling edge ----------

  /** The first vertex from i on that is not left of pt. */
  function FirstRight(p: seq<LatLng>, pt: LatLng, i: nat): (m: nat)
    requires i < |p| && !Left(p[|p| - 1], pt)
    ensures i <= m < |p| && !Left(p[m], pt) && forall j :: i <= j < m ==> Left(p[j], pt)
    decreases |p| - i
  {
    if Left(p[i], pt) then FirstRight(p, pt, i + 1) else i
  }

  /** Its vertices to the left of pt come first, the others behind them. */
  lemma Blocks(p: seq<LatLng>, pt: LatLng) returns (m: nat)
    requires IsConvex(p) && Left(p[0], pt) && !Left(p[|p| - 1], pt)
    ensures 0 < m < |p| && forall j :: 0 <= j < |p| ==> (Left(p[j], pt) <==> j < m)
  {
    m := FirstRight(p, pt, 0);
    forall j | m < j < |p|
      ensures !Left(p[j], pt)
    {
      if Left(p[j], pt) {
        Alternate(p[0], p[m], p[j], p[|p| - 1], pt);
      }
    }
  }

  lemma {:induction false} ChainFlat(p: seq<LatLng>, pt: LatLng)
    requires forall j :: 0 <= j < |p| ==> Left(p[j], pt) == Left(p[0], pt)
    ensures !Chain(p, pt)
  {
    if |p| >= 2 {
      assert Left(p[1], pt) == Left(p[0], pt);
      ChainFlat(p[1..], pt);
    }
  }

  lemma TwoCrossings(p: seq<LatLng>, pt: LatLng, m: nat)
    requires 0 < m < |p| && forall j :: 0 <= j < |p| ==> (Left(p[j], pt) <==> j < m)
    ensures Closed(p, pt) == Xor(Crosses(p[m - 1], p[m], pt), Crosses(p[|p| - 1], p[0], pt))
  {
    ChainFlat(p[..m], pt);
    ChainFlat(p[m..], pt);
    ChainJoin(p[..m], p[m..], pt);
    assert p[..m] + p[m..] == p;
  }

  lemma AreaEnds(u: LatLng, v: LatLng)
    ensures Area(u, v, u) == 0.0 && Area(u, v, v) == 0.0
  {
  }

  /** Every vertex is on the inner side of every edge, or an end of it. */
  lemma InnerSide(p: seq<LatLng>, k: nat, j: nat)
    requires IsConvex(p) && k < |p| && j < |p|
    ensures Area(p[k], Next(p, k), p[j]) >= 0.0
  {
    AreaEnds(p[k], Next(p, k));
    if k + 1 == |p| {
      if 0 < j < k {
        AreaTurns(p[0], p[j], p[k]);
      }
    } else if j < k {
      AreaTurns(p[j], p[k], p[k + 1]);
    }
  }

  /** On the inner side of the two edges it is level with, a point is on the inner side of all. */
  lemma BetweenAll(p: seq<LatLng>, pt: LatLng, m: nat)
    requires IsConvex(p) && 0 < m < |p| && forall j :: 0 <= j < |p| ==> (Left(p[j], pt) <==> j < m)
    requires Area(p[m - 1], p[m], pt) >= 0.0 && Area(p[|p| - 1], p[0], pt) > 0.0
    ensures Contains(p, pt)
  {
    var n := |p| - 1;
    assert FallsAt(p, pt, n);
    forall k | 0 <= k < |p|
      ensures Admits(p, pt, k)
    {
      InnerSide(p, k, m - 1);
      InnerSide(p, k, m);
      InnerSide(p, k, n);
      InnerSide(p, k, 0);
      BetweenEdges(p[k], Next(p, k), p[m - 1], p[m], p[n], p[0], pt);
      assert k < n ==> !FallsAt(p, pt, k);
    }
  }

  lemma ReadyExactly(p: seq<LatLng>, pt: LatLng)
    requires IsConvex(p) && Left(p[0], pt) && !Left(p[|p| - 1], pt)
    ensures Closed(p, pt) <==> Contains(p, pt)
  {
    var n := |p| - 1;
    var m := Blocks(p, pt);
    TwoCrossings(p, pt, m);
    EdgeSide(p[m - 1], p[m], pt);
    EdgeSide(p[n], p[0], pt);
    if Contains(p, pt) {
      assert Admits(p, pt, m - 1) && Admits(p, pt, n) && FallsAt(p, pt, n);
    } else if Closed(p, pt) {
      InnerSide(p, m - 1, n);
      InnerSide(p, m - 1, 0);
      if Area(p[m - 1], p[m], pt) < 0.0 {
        BeyondRise(p[m - 1], p[m], p[n], p[0], pt);
      } else {
        BetweenAll(p, pt, m);
      }
    }
  }

  // ---------- Any strictly convex path ----------

  /** Where vertex j of the path turned to begin with vertex k stands in the path itself, and back. */
  function Unturned(n: nat, k: nat, j: nat): (i: nat)
    requires k < n && j < n
    ensures i < n && Turned(n, k, i) == j
  {
    if j + k < n then j + k else j + k - n
  }

  function Turned(n: nat, k: nat, i: nat): (j: nat)
    requires k < n && i < n
    ensures j < n
  {
    if k <= i then i - k else i + n - k
  }

  lemma TurnedAt(p: seq<LatLng>, k: nat, j: nat)
    requires k < |p| && j < |p|
    ensures var r := p[k..] + p[..k]; var i := Unturned(|p|, k, j);
            |r| == |p| && i < |p| && r[j] == p[i] && Next(r, j) == Next(p, i)
  {
  }

  lemma ConvexTurned(p: seq<LatLng>, k: nat)
    requires IsConvex(p) && k < |p|
    ensures IsConvex(p[k..] + p[..k])
  {
    var r := p[k..] + p[..k];
    forall h, i, j | 0 <= h < i < j < |r|
      ensures Area(r[h], r[i], r[j]) > 0.0
    {
      TurnedAt(p, k, h);
      TurnedAt(p, k, i);
      TurnedAt(p, k, j);
      AreaTurns(r[h], r[i], r[j]);
    }
  }

  lemma ContainsTurned(p: seq<LatLng>, k: nat, pt: LatLng)
    requires k < |p|
    ensures Contains(p[k..] + p[..k], pt) <==> Contains(p, pt)
  {
    var r, n := p[k..] + p[..k], |p|;
    forall j | 0 <= j < n
      ensures FallsAt(r, pt, j) == FallsAt(p, pt, Unturned(n, k, j))
      ensures Admits(r, pt, j) == Admits(p, pt, Unturned(n, k, j))
    {
      TurnedAt(p, k, j);
    }
    if Contains(p, pt) {
      var i :| 0 <= i < n && FallsAt(p, pt, i);
      assert Unturned(n, k, Turned(n, k, i)) == i;
      assert FallsAt(r, pt, Turned(n, k, i));
    }
    if Contains(r, pt) {
      forall i | 0 <= i < n
        ensures Admits(p, pt, i)
      {
        assert Unturned(n, k, Turned(n, k, i)) == i;
        assert Admits(r, pt, Turned(n, k, i));
      }
    }
  }

  /** When no edge falls, no vertex is on another side than the first. */
  lemma {:induction false} NoneFalls(p: seq<LatLng>, pt: LatLng, k: nat)
    requires k < |p| && forall j :: 0 <= j < |p| ==> !FallsAt(p, pt, j)
    ensures Left(p[k], pt) ==> Left(p[0], pt)
  {
    if k > 0 {
      assert !FallsAt(p, pt, k - 1);
      NoneFalls(p, pt, k - 1);
    }
  }

  lemma OneSide(p: seq<LatLng>, pt: LatLng, k: nat)
    requires k < |p| && forall j :: 0 <= j < |p| ==> !FallsAt(p, pt, j)
    ensures Left(p[k], pt) == Left(p[0], pt)
    decreases |p| - k
  {
    NoneFalls(p, pt, k);
    if Left(p[0], pt) {
      assert !FallsAt(p, pt, |p| - 1);
      assert !FallsAt(p, pt, k);
      if k + 1 < |p| {
        OneSide(p, pt, k + 1);
      }
    }
  }

  /** What the ray loop answers on a strictly convex path, for every point of the plane. */
  lemma ConvexExactly(p: seq<LatLng>, pt: LatLng)
    requires IsConvex(p)
    ensures Closed(p, pt) <==> Contains(p, pt)
  {
    if k :| 0 <= k < |p| && FallsAt(p, pt, k) {
      var first := if k + 1 < |p| then k + 1 else 0;
      var r := p[first..] + p[..first];
      ConvexTurned(p, first);
      ReadyExactly(r, pt);
      RotateInvariant(p, first, pt);
      ContainsTurned(p, first, pt);
    } else {
      forall j | 0 <= j < |p|
        ensures Left(p[j], pt) == Left(p[0], pt)
      {
        OneSide(p, pt, j);
      }
      ChainFlat(p, pt);
    }
  }

  /** So is what containsLatLng answers on a polygon of one such path. */
  lemma ConvexPolygon(p: seq<LatLng>, pt: LatLng)
    requires IsConvex(p)
    ensures |Containing([p], pt)| % 2 == 1 <==> Contains(p, pt)
  {
    OnePath(p, pt);
    ConvexExactly(p, pt);
  }

  // ---------- Strictly inside, and strictly outside ----------

  /** pt is strictly on the inner side of every edge. */
  ghost predicate GoesAround(p: seq<LatLng>, pt: LatLng) {
    forall k :: 0 <= k < |p| ==> Area(p[k], Next(p, k), pt) > 0.0
  }

  /** Seen from pt: a turn from u to v and one from v to w make one from u to w, all three on one side. */
  lemma Turns(u: LatLng, v: LatLng, w: LatLng, pt: LatLng)
    requires Area(u, v, pt) > 0.0 && Area(v, w, pt) > 0.0
    requires || (u.lng > pt.lng && v.lng > pt.lng && w.lng > pt.lng)
             || (u.lng < pt.lng && v.lng < pt.lng && w.lng < pt.lng)
    ensures Area(u, w, pt) > 0.0
  {
    var ux, vx, wx := u.lng - pt.lng, v.lng - pt.lng, w.lng - pt.lng;
    FromPoint(u, v, w, pt);
    Weight(Area(u, v, pt), wx);
    Weight(Area(v, w, pt), ux);
    Weight(Area(u, w, pt), vx);
  }

  lemma FromPoint(u: LatLng, v: LatLng, w: LatLng, pt: LatLng)
    ensures Area(u, v, pt) * (w.lng - pt.lng) + Area(v, w, pt) * (u.lng - pt.lng) == Area(u, w, pt) * (v.lng - pt.lng)
  {
    var ux, vx, wx := u.lng - pt.lng, v.lng - pt.lng, w.lng - pt.lng;
    var uy, vy, wy := u.lat - pt.lat, v.lat - pt.lat, w.lat - pt.lat;
    assert Area(u, v, pt) == uy * vx - ux * vy;
    assert Area(v, w, pt) == vy * wx - vx * wy;
    assert Area(u, w, pt) == uy * wx - ux * wy;
  }

  lemma {:induction false} TurnsOn(p: seq<LatLng>, pt: LatLng, k: nat)
    requires 0 < k < |p| && GoesAround(p, pt)
    requires || (forall j :: 0 <= j < |p| ==> p[j].lng > pt.lng)
             || (forall j :: 0 <= j < |p| ==> p[j].lng < pt.lng)
    ensures Area(p[0], p[k], pt) > 0.0
  {
    assert Area(p[k - 1], Next(p, k - 1), pt) > 0.0;
    if k > 1 {
      TurnsOn(p, pt, k - 1);
      Turns(p[0], p[k - 1], p[k], pt);
    }
  }

  /** A vertex level with pt would have to be above it and below it. */
  lemma NotLevel(u: LatLng, v: LatLng, w: LatLng, pt: LatLng)
    requires Area(u, v, pt) > 0.0 && Area(v, w, pt) > 0.0 && u.lng >= pt.lng && w.lng >= pt.lng
    ensures v.lng != pt.lng
  {
    if v.lng == pt.lng {
      assert Area(u, v, pt) == (u.lng - pt.lng) * (pt.lat - v.lat);
      assert Area(v, w, pt) == (v.lat - pt.lat) * (w.lng - pt.lng);
      if v.lat >= pt.lat {
        Product(u.lng - pt.lng, v.lat - pt.lat);
      } else {
        Product(pt.lat - v.lat, w.lng - pt.lng);
      }
      assert false;
    }
  }

  lemma NoneLevel(p: seq<LatLng>, pt: LatLng, k: nat)
    requires k < |p| && GoesAround(p, pt)
    requires forall j :: 0 <= j < |p| ==> p[j].lng >= pt.lng
    ensures p[k].lng > pt.lng
  {
    var i := if k == 0 then |p| - 1 else k - 1;
    assert Next(p, i) == p[k] && Area(p[i], Next(p, i), pt) > 0.0;
    NotLevel(p[i], p[k], Next(p, k), pt);
  }

  lemma Opposite(u: LatLng, v: LatLng, pt: LatLng)
    ensures Area(u, v, pt) == -Area(v, u, pt)
  {
  }

  lemma NotBeside(p: seq<LatLng>, pt: LatLng)
    requires |p| >= 2 && GoesAround(p, pt)
    ensures (exists j :: 0 <= j < |p| && p[j].lng <= pt.lng) && exists j :: 0 <= j < |p| && p[j].lng >= pt.lng
  {
    var n := |p| - 1;
    if (forall j :: 0 <= j < |p| ==> p[j].lng > pt.lng) || (forall j :: 0 <= j < |p| ==> p[j].lng < pt.lng) {
      TurnsOn(p, pt, n);
      Opposite(p[0], p[n], pt);
    }
  }

  /** A path that goes around pt does not lie to one side of it. */
  lemma NotOneSided(p: seq<LatLng>, pt: LatLng)
    requires |p| >= 2 && GoesAround(p, pt)
    ensures exists j :: 0 <= j < |p| && Left(p[j], pt) != Left(p[0], pt)
  {
    NotBeside(p, pt);
    if forall j :: 0 <= j < |p| ==> Left(p[j], pt) == Left(p[0], pt) {
      var j :| 0 <= j < |p| && p[j].lng <= pt.lng;
      if !Left(p[0], pt) {
        NoneLevel(p, pt, j);
      }
    }
  }

  /** So one of its edges falls. */
  lemma InsideFalls(p: seq<LatLng>, pt: LatLng)
    requires |p| >= 2 && GoesAround(p, pt)
    ensures exists k :: 0 <= k < |p| && FallsAt(p, pt, k)
  {
    NotOneSided(p, pt);
    if forall k :: 0 <= k < |p| ==> !FallsAt(p, pt, k) {
      var j :| 0 <= j < |p| && Left(p[j], pt) != Left(p[0], pt);
      OneSide(p, pt, j);
    }
  }

  /** Strictly convex paths are answered right: yes strictly inside all edges, no strictly outside one. */
  lemma ConvexRight(p: seq<LatLng>, pt: LatLng)
    requires IsConvex(p)
    ensures GoesAround(p, pt) ==> Closed(p, pt)
    ensures (exists k :: 0 <= k < |p| && Area(p[k], Next(p, k), pt) < 0.0) ==> !Closed(p, pt)
  {
    ConvexExactly(p, pt);
    if GoesAround(p, pt) {
      InsideFalls(p, pt);
    }
    if k :| 0 <= k < |p| && Area(p[k], Next(p, k), pt) < 0.0 {
      assert !Admits(p, pt, k);
    }
  }

  /** The vertices may be listed the other way round as well. */
  lemma ConvexEitherWay(p: seq<LatLng>, pt: LatLng)
    requires IsConvex(Reverse(p))
    ensures Closed(p, pt) <==> Contains(Reverse(p), pt)
  {
    ReverseInvariant(p, pt);
    ConvexExactly(Reverse(p), pt);
  }

  /** Triangles too, points on a side and at a corner included: either order of the corners is convex. */
  lemma TriangleExactly(a: LatLng, b: LatLng, c: LatLng, pt: LatLng)
    requires Area(a, b, c) != 0.0
    ensures Closed([a, b, c], pt) <==> Contains(if Area(a, b, c) > 0.0 then [a, b, c] else [c, b, a], pt)
  {
    if Area(a, b, c) > 0.0 {
      ConvexExactly([a, b, c], pt);
    } else {
      ReverseThree(a, b, c);
      AreaTurns(c, b, a);
      assert Area(c, b, a) == -Area(a, b, c);
      ConvexEitherWay([a, b, c], pt);
    }
  }

  lemma ReverseThree(a: LatLng, b: LatLng, c: LatLng)
    ensures Reverse([a, b, c]) == [c, b, a]
  {
    assert [a, b, c][1..] == [b, c] && [b, c][1..] == [c] && [c][1..] == [];
    assert Reverse([c]) == [] + [c];
  }
}
