/**
 Even-odd point-in-polygon over real coordinates: the ray loop of containsLatLng,
 the bounding-box exit in front of it, and why the exit changes nothing.
 */
module Polygon {

  datatype LatLng = LatLng(lat: real, lng: real)

  // ---------- The test of one edge ----------

  /** The edge passes the longitude of pt, counting its left end out and its right end in. */
  predicate Straddles(u: LatLng, v: LatLng, pt: LatLng) {
    (u.lng < pt.lng && v.lng >= pt.lng) || (v.lng < pt.lng && u.lng >= pt.lng)
  }

  /** The latitude of the edge at the longitude of pt. */
  function CrossingLat(u: LatLng, v: LatLng, pt: LatLng): real
    requires u.lng != v.lng
  {
    u.lat + (pt.lng - u.lng) / (v.lng - u.lng) * (v.lat - u.lat)
  }

  predicate Crosses(u: LatLng, v: LatLng, pt: LatLng) {
    Straddles(u, v, pt) && CrossingLat(u, v, pt) < pt.lat
  }

  function Xor(a: bool, b: bool): bool { a != b }

  // ---------- Parities ----------

  /** Parity of the crossings along an open chain of vertices. */
  function Chain(p: seq<LatLng>, pt: LatLng): bool {
    if |p| < 2 then false else Xor(Crosses(p[0], p[1], pt), Chain(p[1..], pt))
  }

  /** Parity of the crossings of a closed path. */
  function Closed(p: seq<LatLng>, pt: LatLng): bool {
    if p == [] then false else Xor(Chain(p, pt), Crosses(p[|p| - 1], p[0], pt))
  }

  function Paths(ps: seq<seq<LatLng>>, pt: LatLng): bool {
    if ps == [] then false else Xor(Paths(ps[..|ps| - 1], pt), Closed(ps[|ps| - 1], pt))
  }

  /** The paths that contain pt, by their numbers. */
  ghost function Containing(ps: seq<seq<LatLng>>, pt: LatLng): set<nat> {
    set i: nat | i < |ps| && Closed(ps[i], pt)
  }

  lemma {:induction false} PathsCount(ps: seq<seq<LatLng>>, pt: LatLng)
    ensures Paths(ps, pt) <==> |Containing(ps, pt)| % 2 == 1
  {
    if ps == [] {
      assert Containing(ps, pt) == {};
    } else {
      var n := |ps| - 1;
      PathsCount(ps[..n], pt);
      ContainingLast(ps, pt);
    }
  }

  lemma ContainingLast(ps: seq<seq<LatLng>>, pt: LatLng)
    requires ps != []
    ensures var n := |ps| - 1;
            |Containing(ps, pt)| == |Containing(ps[..n], pt)| + if Closed(ps[n], pt) then 1 else 0
  {
    var n := |ps| - 1;
    var before := Containing(ps[..n], pt);
    forall i: nat
      ensures i in Containing(ps, pt) <==> i in before || (i == n && Closed(ps[n], pt))
    {
      assert i < n ==> ps[..n][i] == ps[i];
    }
    if Closed(ps[n], pt) {
      assert Containing(ps, pt) == before + {n};
    } else {
      assert Containing(ps, pt) == before;
    }
  }

  /** One path decides alone. */
  lemma OnePath(p: seq<LatLng>, pt: LatLng)
    ensures |Containing([p], pt)| % 2 == 1 <==> Closed(p, pt)
  {
    PathsCount([p], pt);
    assert [p][..0] == [] && !Paths([], pt);
  }

  /** Two sets of paths together: inside exactly one of them. */
  lemma {:induction false} PathsConcat(a: seq<seq<LatLng>>, b: seq<seq<LatLng>>, pt: LatLng)
    ensures Paths(a + b, pt) == Xor(Paths(a, pt), Paths(b, pt))
    decreases |b|
  {
    if b == [] {
      assert a + b == a;
    } else {
      var n := |b| - 1;
      assert (a + b)[..|a + b| - 1] == a + b[..n];
      PathsConcat(a, b[..n], pt);
    }
  }

  lemma ContainingConcat(a: seq<seq<LatLng>>, b: seq<seq<LatLng>>, pt: LatLng)
    ensures |Containing(a + b, pt)| % 2 == 1
       <==> Xor(|Containing(a, pt)| % 2 == 1, |Containing(b, pt)| % 2 == 1)
  {
    PathsCount(a, pt);
    PathsCount(b, pt);
    PathsCount(a + b, pt);
    PathsConcat(a, b, pt);
  }

  // ---------- Bounds ----------

  /** google.maps.LatLngBounds in the plane; the bounds of nothing are empty and contain nothing. */
  datatype Bounds = Empty | Box(south: real, north: real, west: real, east: real)

  function Extend(b: Bounds, q: LatLng): Bounds {
    match b
    case Empty => Box(q.lat, q.lat, q.lng, q.lng)
    case Box(s, n, w, e) =>
      Box(if q.lat < s then q.lat else s, if q.lat > n then q.lat else n,
          if q.lng < w then q.lng else w, if q.lng > e then q.lng else e)
  }

  predicate Inside(b: Bounds, q: LatLng) {
    b.Box? && b.south <= q.lat <= b.north && b.west <= q.lng <= b.east
  }

  /** a is a part of b. */
  predicate Within(a: Bounds, b: Bounds) {
    a.Box? ==> b.Box? && b.south <= a.south && a.north <= b.north && b.west <= a.west && a.east <= b.east
  }

  ghost predicate Encloses(b: Bounds, ps: seq<seq<LatLng>>) {
    forall i, j :: 0 <= i < |ps| && 0 <= j < |ps[i]| ==> Inside(b, ps[i][j])
  }

  // ---------- The code ----------

  /** The least box around the vertices. */
  method GetBounds(ps: seq<seq<LatLng>>) returns (bounds: Bounds)
    ensures Encloses(bounds, ps)
    ensures forall b: Bounds :: Encloses(b, ps) ==> Within(bounds, b)
  {
    bounds := Empty;
    var p := 0;
    while p < |ps|
      invariant 0 <= p <= |ps|
      invariant Encloses(bounds, ps[..p])
      invariant forall b: Bounds :: Encloses(b, ps) ==> Within(bounds, b)
    {
      var path := ps[p];
      var i := 0;
      while i < |path|
        invariant 0 <= i <= |path|
        invariant Encloses(bounds, ps[..p]) && forall j :: 0 <= j < i ==> Inside(bounds, path[j])
        invariant forall b: Bounds :: Encloses(b, ps) ==> Within(bounds, b)
      {
        assert forall b: Bounds :: Encloses(b, ps) ==> Inside(b, ps[p][i]);
        bounds := Extend(bounds, path[i]);
        i := i + 1;
      }
      p := p + 1;
    }
    assert ps[..p] == ps;
  }

  /** The ray loop over one path: j runs one vertex behind i, starting from the last. */
  method RayLoop(path: seq<LatLng>, pt: LatLng, before: bool) returns (inPoly: bool)
    ensures inPoly == Xor(before, Closed(path, pt))
  {
    inPoly := before;
    var numPoints := |path|;
    var j := numPoints - 1;
    var i := 0;
    while i < numPoints
      invariant 0 <= i <= numPoints
      invariant j == if i == 0 then numPoints - 1 else i - 1
      invariant i == 0 ==> inPoly == before
      invariant i > 0 ==> inPoly == Xor(before, Xor(Chain(path[..i], pt), Crosses(path[0], path[numPoints - 1], pt)))
    {
      var vertex1, vertex2 := path[i], path[j];
      if Straddles(vertex1, vertex2, pt) {
        if CrossingLat(vertex1, vertex2, pt) < pt.lat {
          inPoly := !inPoly;
        }
      }
      if i > 0 {
        ChainLast(path[..i + 1], pt);
        assert path[..i + 1][..i] == path[..i];
        CrossesSymmetric(path[i - 1], path[i], pt);
      }
      j := i;
      i := i + 1;
    }
    if path != [] {
      assert path[..i] == path;
      CrossesSymmetric(path[0], path[numPoints - 1], pt);
    }
  }

  /** Exit for points outside the bounds, then the ray loop: the answer is whether an odd number of paths contain pt. */
  method ContainsLatLng(ps: seq<seq<LatLng>>, pt: LatLng) returns (inPoly: bool)
    ensures inPoly <==> |Containing(ps, pt)| % 2 == 1
  {
    PathsCount(ps, pt);
    var bounds := GetBounds(ps);
    if !Inside(bounds, pt) {
      OutsideBox(ps, bounds, pt);
      return false;
    }
    inPoly := false;
    var numPaths := |ps|;
    var p := 0;
    while p < numPaths
      invariant 0 <= p <= numPaths
      invariant inPoly == Paths(ps[..p], pt)
    {
      inPoly := RayLoop(ps[p], pt, inPoly);
      assert ps[..p + 1][..p] == ps[..p];
      p := p + 1;
    }
    assert ps[..p] == ps;
  }

  // ---------- Edges ----------

  /** The two ends of an edge give the same crossing: the line is one and the same. */
  lemma CrossingSymmetric(u: LatLng, v: LatLng, pt: LatLng)
    requires u.lng != v.lng
    ensures CrossingLat(u, v, pt) == CrossingLat(v, u, pt)
  {
    var d, x := v.lng - u.lng, pt.lng - u.lng;
    var t := x / d;
    assert (pt.lng - v.lng) / (u.lng - v.lng) == 1.0 - t by {
      assert t * d == x;
      DivideUnique(pt.lng - v.lng, u.lng - v.lng, 1.0 - t);
    }
    var h := v.lat - u.lat;
    assert (1.0 - t) * (u.lat - v.lat) == t * h - h;
  }

  lemma DivideUnique(a: real, b: real, q: real)
    requires b != 0.0 && q * b == a
    ensures a / b == q
  {
  }

  lemma CrossesSymmetric(u: LatLng, v: LatLng, pt: LatLng)
    ensures Crosses(u, v, pt) == Crosses(v, u, pt)
  {
    if Straddles(u, v, pt) {
      CrossingSymmetric(u, v, pt);
    }
  }

  /** A crossing lies between the latitudes of its edge. */
  lemma CrossingBetween(u: LatLng, v: LatLng, pt: LatLng, lo: real, hi: real)
    requires Straddles(u, v, pt) && lo <= u.lat <= hi && lo <= v.lat <= hi
    ensures lo <= CrossingLat(u, v, pt) <= hi
  {
    if u.lng < v.lng {
      CrossingBetweenOrdered(u, v, pt, lo, hi);
    } else {
      CrossingSymmetric(u, v, pt);
      CrossingBetweenOrdered(v, u, pt, lo, hi);
    }
  }

  lemma CrossingBetweenOrdered(u: LatLng, v: LatLng, pt: LatLng, lo: real, hi: real)
    requires u.lng <= pt.lng <= v.lng && u.lng < v.lng && lo <= u.lat <= hi && lo <= v.lat <= hi
    ensures lo <= CrossingLat(u, v, pt) <= hi
  {
    var t := (pt.lng - u.lng) / (v.lng - u.lng);
    FractionBetween(pt.lng - u.lng, v.lng - u.lng);
    Interpolates(u.lat, v.lat, t, lo, hi);
  }

  lemma FractionBetween(x: real, d: real)
    requires 0.0 <= x <= d && d > 0.0
    ensures 0.0 <= x / d <= 1.0
  {
  }

  lemma Product(p: real, q: real)
    requires p >= 0.0 && q >= 0.0
    ensures p * q >= 0.0 && (p > 0.0 && q > 0.0 ==> p * q > 0.0)
  {
  }

  lemma Interpolates(a: real, b: real, t: real, lo: real, hi: real)
    requires 0.0 <= t <= 1.0 && lo <= a <= hi && lo <= b <= hi
    ensures lo <= a + t * (b - a) <= hi
  {
    var fromLo, fromHi := (1.0 - t) * (a - lo), (1.0 - t) * (hi - a);
    var toLo, toHi := t * (b - lo), t * (hi - b);
    Product(1.0 - t, a - lo);
    Product(1.0 - t, hi - a);
    Product(t, b - lo);
    Product(t, hi - b);
    assert a + t * (b - a) == lo + fromLo + toLo;
    assert a + t * (b - a) == hi - fromHi - toHi;
  }

  // ---------- Chains ----------

  lemma {:induction false} ChainLast(p: seq<LatLng>, pt: LatLng)
    requires |p| >= 2
    ensures Chain(p, pt) == Xor(Chain(p[..|p| - 1], pt), Crosses(p[|p| - 2], p[|p| - 1], pt))
  {
    if |p| > 2 {
      ChainLast(p[1..], pt);
      assert p[1..][..|p| - 2] == p[..|p| - 1][1..];
    }
  }

  /** Splitting a chain at a vertex splits its parity. */
  lemma {:induction false} ChainSplit(p: seq<LatLng>, k: nat, pt: LatLng)
    requires k < |p|
    ensures Chain(p, pt) == Xor(Chain(p[..k + 1], pt), Chain(p[k..], pt))
  {
    if k > 0 {
      ChainSplit(p[1..], k - 1, pt);
      assert p[1..][..k] == p[..k + 1][1..] && p[1..][k - 1..] == p[k..];
    }
  }

  function Reverse(p: seq<LatLng>): seq<LatLng> {
    if p == [] then [] else Reverse(p[1..]) + [p[0]]
  }

  lemma {:induction false} ReverseEnds(p: seq<LatLng>)
    requires p != []
    ensures |Reverse(p)| == |p| && Reverse(p)[|p| - 1] == p[0] && Reverse(p)[0] == p[|p| - 1]
  {
    if |p| > 1 {
      ReverseEnds(p[1..]);
    }
  }

  lemma {:induction false} ChainReverse(p: seq<LatLng>, pt: LatLng)
    ensures Chain(Reverse(p), pt) == Chain(p, pt)
  {
    if |p| >= 2 {
      ChainReverse(p[1..], pt);
      ReverseEnds(p[1..]);
      ReverseEnds(p);
      ChainLast(Reverse(p), pt);
      assert Reverse(p)[..|p| - 1] == Reverse(p[1..]);
      CrossesSymmetric(p[0], p[1], pt);
    } else if |p| == 1 {
      ReverseEnds(p);
    }
  }

  // ---------- The answer does not depend on how a path is written ----------

  /** Reversing the vertex list changes nothing. */
  lemma ReverseInvariant(p: seq<LatLng>, pt: LatLng)
    ensures Closed(Reverse(p), pt) == Closed(p, pt)
  {
    if p != [] {
      ChainReverse(p, pt);
      ReverseEnds(p);
      CrossesSymmetric(p[0], p[|p| - 1], pt);
    }
  }

  /** Starting at another vertex changes nothing. */
  lemma RotateInvariant(p: seq<LatLng>, k: nat, pt: LatLng)
    requires k < |p|
    ensures Closed(p[k..] + p[..k], pt) == Closed(p, pt)
  {
    if k > 0 {
      var r := p[k..] + p[..k];
      ChainJoin(p[k..], p[..k], pt);
      ChainJoin(p[..k], p[k..], pt);
      assert p[..k] + p[k..] == p;
    } else {
      assert p[k..] + p[..k] == p;
    }
  }

  lemma ChainJoin(a: seq<LatLng>, b: seq<LatLng>, pt: LatLng)
    requires a != [] && b != []
    ensures Chain(a + b, pt) == Xor(Xor(Chain(a, pt), Crosses(a[|a| - 1], b[0], pt)), Chain(b, pt))
  {
    var p := a + b;
    ChainSplit(p, |a| - 1, pt);
    assert p[..|a|] == a;
    assert p[|a| - 1..][1..] == b;
  }

  /**
   The cut law: a chord between vertices i and j divides a path into two, and the
   parities of the two make up the parity of the whole, for every point.
   */
  lemma CutLaw(p: seq<LatLng>, i: nat, j: nat, pt: LatLng)
    requires i < j < |p|
    ensures Closed(p, pt) == Xor(Closed(p[i..j + 1], pt), Closed(p[..i + 1] + p[j..], pt))
  {
    var a, m, b := p[..i + 1], p[i..j + 1], p[j..];
    ChainSplit(p, j, pt);
    ChainSplit(p[..j + 1], i, pt);
    assert p[..j + 1][..i + 1] == a && p[..j + 1][i..] == m;
    assert Chain(p, pt) == Xor(Xor(Chain(a, pt), Chain(m, pt)), Chain(b, pt));
    ChainJoin(a, b, pt);
    CrossesSymmetric(p[i], p[j], pt);
  }

  /** Parity of the number of fan triangles p[0], p[k], p[k+1] that count pt as inside. */
  function Fan(p: seq<LatLng>, pt: LatLng): bool {
    if |p| < 3 then false
    else Xor(Fan(p[..|p| - 1], pt), Closed([p[0], p[|p| - 2], p[|p| - 1]], pt))
  }

  /** Whatever its shape, a path contains pt exactly if an odd number of its fan triangles do. */
  lemma {:induction false} FanLaw(p: seq<LatLng>, pt: LatLng)
    ensures Closed(p, pt) == Fan(p, pt)
  {
    if |p| == 1 {
      assert !Crosses(p[0], p[0], pt);
    } else if |p| == 2 {
      CrossesSymmetric(p[0], p[1], pt);
      assert !Chain(p[1..], pt);
    } else if |p| > 2 {
      var n := |p| - 1;
      FanLaw(p[..n], pt);
      CutLaw(p, 0, n - 1, pt);
      assert p[0..n - 1 + 1] == p[..n];
      assert p[..1] + p[n - 1..] == [p[0], p[n - 1], p[n]];
    }
  }

  // ---------- Triangles ----------

  /** pt in barycentric coordinates of the triangle a, b, c. */
  ghost predicate Barycentric(a: LatLng, b: LatLng, c: LatLng, x: real, y: real, z: real, pt: LatLng) {
    && x + y + z == 1.0
    && pt.lat == x * a.lat + y * b.lat + z * c.lat
    && pt.lng == x * a.lng + y * b.lng + z * c.lng
  }

  function Area(a: LatLng, b: LatLng, c: LatLng): real {
    (b.lat - a.lat) * (c.lng - a.lng) - (c.lat - a.lat) * (b.lng - a.lng)
  }

  function Left(u: LatLng, pt: LatLng): bool { u.lng < pt.lng }

  lemma Balance(w1: real, w2: real, e1: real, e2: real)
    requires w1 * e1 == w2 * e2 && w1 != 0.0 && w2 != 0.0
    ensures (w1 > 0.0) == (w2 > 0.0) ==> (e1 > 0.0 <==> e2 > 0.0) && (e1 == 0.0 <==> e2 == 0.0)
    ensures (w1 > 0.0) != (w2 > 0.0) ==> (e1 > 0.0 <==> e2 < 0.0) && (e1 == 0.0 <==> e2 == 0.0)
  {
    if e1 > 0.0 {
      assert w1 > 0.0 ==> w1 * e1 > 0.0;
      assert w1 < 0.0 ==> w1 * e1 < 0.0;
    } else if e1 < 0.0 {
      assert w1 > 0.0 ==> w1 * e1 < 0.0;
      assert w1 < 0.0 ==> w1 * e1 > 0.0;
    }
  }

  /**
   Two edges leave the origin for (bh, b) and (ch, c), and (ph, d) is y times the one
   plus z times the other: the heights at which the edges reach d, weighted with y*b
   and z*c, balance around ph.
   */
  lemma Heights(bh: real, b: real, ch: real, c: real, y: real, z: real, d: real, ph: real)
    requires b != 0.0 && c != 0.0 && d == y * b + z * c && ph == y * bh + z * ch
    ensures y * b * (ph - d / b * bh) == z * c * (d / c * ch - ph)
    ensures d != 0.0 && bh * c - ch * b != 0.0 ==> d / b * bh != d / c * ch
  {
    var s, t := d / b, d / c;
    assert b * s == d && c * t == d;
    var h1, h2 := s * bh, t * ch;
    assert y * b * h1 == y * d * bh by { assert y * b * h1 == y * (b * s) * bh; }
    assert z * c * h2 == z * d * ch by { assert z * c * h2 == z * (c * t) * ch; }
    assert y * b * ph + z * c * ph == d * ph;
    assert d * ph == y * d * bh + z * d * ch;
    if h1 == h2 {
      assert h1 * (b * c) == d * bh * c by { assert h1 * (b * c) == (b * s) * bh * c; }
      assert h2 * (b * c) == d * ch * b by { assert h2 * (b * c) == (c * t) * ch * b; }
      assert d * (bh * c - ch * b) == 0.0;
    }
  }

  /** The edges reach d: both point its way, and it lies before their ends. */
  ghost predicate Reached(b: real, c: real, d: real) {
    (0.0 < d <= b && d <= c) || (b < d && c < d && d <= 0.0)
  }

  /** ph is strictly between the two heights for positive weights, and on one side of both if any weight is negative. */
  lemma Between(bh: real, b: real, ch: real, c: real, x: real, y: real, z: real, d: real, ph: real)
    requires Reached(b, c, d) && x + y + z == 1.0 && bh * c - ch * b != 0.0
    requires d == y * b + z * c && ph == y * bh + z * ch
    ensures x > 0.0 && y > 0.0 && z > 0.0 ==> (d / b * bh < ph) != (d / c * ch < ph)
    ensures x < 0.0 || y < 0.0 || z < 0.0 ==> (d / b * bh < ph) == (d / c * ch < ph)
  {
    Heights(bh, b, ch, c, y, z, d, ph);
    var e1, e2 := ph - d / b * bh, d / c * ch - ph;
    if y > 0.0 && z > 0.0 {
      Weight(y, b);
      Weight(z, c);
      Balance(y * b, z * c, e1, e2);
      if x < 0.0 {
        Behind(b, c, y, z, d);
      }
    } else if d == 0.0 {
      assert d / b * bh == 0.0 && d / c * ch == 0.0;
    } else if y < 0.0 {
      OneSide(b, c, y, z, d, e1, e2);
    } else if z < 0.0 {
      OneSide(c, b, z, y, d, -e2, -e1);
    } else if x < 0.0 {
      Behind(b, c, y, z, d);
    }
  }

  /** One vertex alone on its side of pt's longitude: its two edges settle the matter. */
  lemma LoneVertex(a: LatLng, b: LatLng, c: LatLng, x: real, y: real, z: real, pt: LatLng)
    requires Barycentric(a, b, c, x, y, z, pt) && Area(a, b, c) != 0.0
    requires Left(a, pt) != Left(b, pt) && Left(b, pt) == Left(c, pt)
    ensures x > 0.0 && y > 0.0 && z > 0.0 ==> Crosses(a, b, pt) != Crosses(a, c, pt)
    ensures x < 0.0 || y < 0.0 || z < 0.0 ==> Crosses(a, b, pt) == Crosses(a, c, pt)
  {
    var bh, ch, ph := b.lat - a.lat, c.lat - a.lat, pt.lat - a.lat;
    var bl, cl, d := b.lng - a.lng, c.lng - a.lng, pt.lng - a.lng;
    FromVertex(a.lng, b.lng, c.lng, x, y, z);
    FromVertex(a.lat, b.lat, c.lat, x, y, z);
    Between(bh, bl, ch, cl, x, y, z, d, ph);
    assert Crosses(a, b, pt) == (d / bl * bh < ph);
    assert Crosses(a, c, pt) == (d / cl * ch < ph);
  }

  lemma FromVertex(a: real, b: real, c: real, x: real, y: real, z: real)
    requires x + y + z == 1.0
    ensures x * a + y * b + z * c - a == y * (b - a) + z * (c - a)
  {
  }

  /** A negative weight puts both heights on the same side of ph. */
  lemma OneSide(b: real, c: real, y: real, z: real, d: real, e1: real, e2: real)
    requires d == y * b + z * c && y < 0.0 && y * b * e1 == z * c * e2
    requires (b > 0.0 && d > 0.0) || (b < 0.0 && d < 0.0)
    ensures e1 > 0.0 <==> e2 < 0.0
  {
    Weight(y, b);
    Balance(y * b, z * c, e1, e2);
  }

  lemma Weight(y: real, b: real)
    ensures y > 0.0 ==> (y * b > 0.0 <==> b > 0.0) && (y * b < 0.0 <==> b < 0.0)
    ensures y < 0.0 ==> (y * b > 0.0 <==> b < 0.0) && (y * b < 0.0 <==> b > 0.0)
  {
  }

  lemma Beyond(e: real, f: real, y: real, z: real, s: real, n: real)
    requires e >= 0.0 && f >= 0.0 && y >= 0.0 && z >= 0.0 && s > 0.0 && n >= 0.0 && y + z == 1.0 + s
    requires n > 0.0 || (e > 0.0 && f > 0.0)
    ensures y * (e + n) + z * (f + n) > n
  {
    Product(y, e);
    Product(z, f);
    Product(s, n);
    var ye, zf, sn := y * e, z * f, s * n;
    assert y * n + z * n == n + sn by {
      assert (y + z) * n == (1.0 + s) * n;
    }
    assert y * (e + n) + z * (f + n) == ye + zf + (y * n + z * n);
    assert ye > 0.0 || zf > 0.0 || sn > 0.0;
  }

  /** A point behind the vertex is not reached. */
  lemma Behind(b: real, c: real, y: real, z: real, d: real)
    requires d == y * b + z * c && y >= 0.0 && z >= 0.0 && y + z > 1.0
    ensures !Reached(b, c, d)
  {
    if 0.0 < d <= b && d <= c {
      Beyond(b - d, c - d, y, z, y + z - 1.0, d);
    } else if b < d && c < d && d <= 0.0 {
      Beyond(d - b, d - c, y, z, y + z - 1.0, -d);
    }
  }

  lemma Corner(a: LatLng, b: LatLng, c: LatLng, pt: LatLng)
    ensures Closed([a, b, c], pt) == Xor(Xor(Crosses(a, b, pt), Crosses(b, c, pt)), Crosses(a, c, pt))
  {
    assert [a, b, c][1..] == [b, c];
    assert [b, c][1..] == [c];
    assert !Chain([c], pt);
    assert Chain([b, c], pt) == Crosses(b, c, pt);
    CrossesSymmetric(a, c, pt);
  }

  /** With no vertex alone, no edge passes; and then pt is not strictly inside. */
  lemma NoneAlone(a: LatLng, b: LatLng, c: LatLng, x: real, y: real, z: real, pt: LatLng)
    requires Barycentric(a, b, c, x, y, z, pt) && x > 0.0 && y > 0.0 && z > 0.0
    requires Left(a, pt) == Left(b, pt) == Left(c, pt)
    ensures Area(a, b, c) == 0.0
  {
    var u, v, w := a.lng - pt.lng, b.lng - pt.lng, c.lng - pt.lng;
    assert x * u + y * v + z * w == (x * a.lng + y * b.lng + z * c.lng) - (x + y + z) * pt.lng;
    ZeroSum(x, y, z, u, v, w);
  }

  lemma ZeroSum(x: real, y: real, z: real, u: real, v: real, w: real)
    requires x > 0.0 && y > 0.0 && z > 0.0 && x * u + y * v + z * w == 0.0
    requires (u < 0.0) == (v < 0.0) && (v < 0.0) == (w < 0.0)
    ensures u == 0.0 && v == 0.0 && w == 0.0
  {
    Weight(x, u);
    Weight(y, v);
    Weight(z, w);
  }

  /**
   Triangles are answered right: a point with positive barycentric coordinates is
   inside, and one with a negative coordinate is not.
   */
  lemma TriangleRight(a: LatLng, b: LatLng, c: LatLng, x: real, y: real, z: real, pt: LatLng)
    requires Barycentric(a, b, c, x, y, z, pt) && Area(a, b, c) != 0.0
    ensures x > 0.0 && y > 0.0 && z > 0.0 ==> Closed([a, b, c], pt)
    ensures x < 0.0 || y < 0.0 || z < 0.0 ==> !Closed([a, b, c], pt)
  {
    Corner(a, b, c, pt);
    CrossesSymmetric(a, b, pt);
    CrossesSymmetric(b, c, pt);
    CrossesSymmetric(a, c, pt);
    if Left(b, pt) == Left(c, pt) {
      if Left(a, pt) != Left(b, pt) {
        LoneVertex(a, b, c, x, y, z, pt);
      } else if x > 0.0 && y > 0.0 && z > 0.0 {
        NoneAlone(a, b, c, x, y, z, pt);
      }
    } else if Left(a, pt) == Left(c, pt) {
      AreaTurns(a, b, c);
      LoneVertex(b, c, a, y, z, x, pt);
    } else {
      AreaTurns(a, b, c);
      LoneVertex(c, a, b, z, x, y, pt);
    }
  }

  lemma AreaTurns(a: LatLng, b: LatLng, c: LatLng)
    ensures Area(a, b, c) == Area(b, c, a) == Area(c, a, b)
  {
  }

  // ---------- The bounding-box exit ----------

  /** Parity of the edges of a chain that pass the longitude of pt: it is told by the two ends alone. */
  function StraddleChain(p: seq<LatLng>, pt: LatLng): bool {
    if |p| < 2 then false else Xor(Straddles(p[0], p[1], pt), StraddleChain(p[1..], pt))
  }

  lemma {:induction false} StraddleEnds(p: seq<LatLng>, pt: LatLng)
    requires p != []
    ensures StraddleChain(p, pt) == Straddles(p[0], p[|p| - 1], pt)
  {
    if |p| > 1 {
      StraddleEnds(p[1..], pt);
    }
  }

  /** So a closed path has an even number of them. */
  lemma {:induction false} StraddleEven(p: seq<LatLng>, pt: LatLng)
    requires p != []
    ensures !Xor(StraddleChain(p, pt), Straddles(p[|p| - 1], p[0], pt))
  {
    StraddleEnds(p, pt);
  }

  /** Above the box every edge that passes counts; elsewhere outside it none does. */
  lemma EdgeOutside(u: LatLng, v: LatLng, b: Bounds, pt: LatLng)
    requires Inside(b, u) && Inside(b, v) && !Inside(b, pt)
    ensures Crosses(u, v, pt) == (pt.lat > b.north && Straddles(u, v, pt))
  {
    if Straddles(u, v, pt) {
      CrossingBetween(u, v, pt, b.south, b.north);
    }
  }

  lemma {:induction false} ChainOutside(p: seq<LatLng>, b: Bounds, pt: LatLng)
    requires !Inside(b, pt) && forall k :: 0 <= k < |p| ==> Inside(b, p[k])
    ensures Chain(p, pt) == (b.Box? && pt.lat > b.north && StraddleChain(p, pt))
  {
    if |p| >= 2 {
      EdgeOutside(p[0], p[1], b, pt);
      ChainOutside(p[1..], b, pt);
    }
  }

  lemma ClosedOutside(p: seq<LatLng>, b: Bounds, pt: LatLng)
    requires !Inside(b, pt) && forall k :: 0 <= k < |p| ==> Inside(b, p[k])
    ensures !Closed(p, pt)
  {
    if p != [] {
      ChainOutside(p, b, pt);
      EdgeOutside(p[|p| - 1], p[0], b, pt);
      StraddleEven(p, pt);
    }
  }

  /** Outside any box around the vertices the ray loop alone says no. */
  lemma {:induction false} OutsideBox(ps: seq<seq<LatLng>>, b: Bounds, pt: LatLng)
    requires Encloses(b, ps) && !Inside(b, pt)
    ensures !Paths(ps, pt)
  {
    if ps != [] {
      var last := |ps| - 1;
      assert forall j :: 0 <= j < |ps[last]| ==> Inside(b, ps[last][j]);
      ClosedOutside(ps[last], b, pt);
      OutsideBox(ps[..last], b, pt);
    }
  }
}
