/**
 * Centres of the county bounding boxes: for every county feature the smallest
 * and largest x and y over all points of all rings, starting from the
 * sentinels +1e8 and -1e8, and the midpoint of that box stored under the
 * county's name.
 */
module CountyCenters {

  /** A polygon vertex: `p[0]` is x, `p[1]` is y. */
  datatype Point = Point(x: real, y: real)

  /** One feature of the county file: its name and the rings of its geometry. */
  datatype Feature = Feature(county: string, rings: seq<seq<Point>>)

  /** The stored pair `[(x0 + x1) / 2, (y0 + y1) / 2]`. */
  datatype Center = Center(x: real, y: real)

  /** The starting value of the running minima; its negation starts the maxima. */
  const Sentinel: real := 100000000.0

  datatype Axis = X | Y

  function Coord(p: Point, axis: Axis): real {
    match axis
    case X => p.x
    case Y => p.y
  }

  /** The points of all rings, in the order the nested loops visit them. */
  function Flatten(rings: seq<seq<Point>>): seq<Point> {
    if rings == [] then [] else Flatten(rings[..|rings| - 1]) + rings[|rings| - 1]
  }

  /** Every point of every ring is visited. */
  lemma {:induction false} FlattenHas(rings: seq<seq<Point>>, i: nat, p: Point)
    requires i < |rings| && p in rings[i]
    ensures p in Flatten(rings)
  {
    var n := |rings|;
    if i < n - 1 {
      assert rings[..n - 1][i] == rings[i];
      FlattenHas(rings[..n - 1], i, p);
    }
  }

  /** Every visited point comes from one of the rings. */
  lemma {:induction false} FlattenFrom(rings: seq<seq<Point>>, p: Point)
    requires p in Flatten(rings)
    ensures exists i :: 0 <= i < |rings| && p in rings[i]
  {
    var n := |rings|;
    if p in Flatten(rings[..n - 1]) {
      FlattenFrom(rings[..n - 1], p);
      var i :| 0 <= i < n - 1 && p in rings[..n - 1][i];
      assert rings[..n - 1][i] == rings[i];
    } else {
      assert p in rings[n - 1];
    }
  }

  /** Rings without points contribute no points. */
  lemma {:induction false} FlattenEmpty(rings: seq<seq<Point>>)
    requires forall i :: 0 <= i < |rings| ==> rings[i] == []
    ensures Flatten(rings) == []
  {
    if rings != [] {
      FlattenEmpty(rings[..|rings| - 1]);
    }
  }

  /** Visiting one more ring appends its points. */
  lemma FlattenStep(rings: seq<seq<Point>>, i: nat)
    requires i < |rings|
    ensures Flatten(rings[..i + 1]) == Flatten(rings[..i]) + rings[i]
  {
    assert rings[..i + 1][..i] == rings[..i];
  }

  /** Visiting one more point of a ring extends the visited sequence by that point. */
  lemma AppendOne(seen: seq<Point>, r: seq<Point>, j: nat)
    requires j < |r|
    ensures seen + r[..j + 1] == (seen + r[..j]) + [r[j]]
  {
    assert r[..j + 1] == r[..j] + [r[j]];
  }

  /** Visiting one more point updates each running extreme as the loop body does. */
  lemma ExtremesStep(pts: seq<Point>, p: Point, axis: Axis)
    ensures Low(pts + [p], axis) == if Coord(p, axis) < Low(pts, axis) then Coord(p, axis) else Low(pts, axis)
    ensures High(pts + [p], axis) == if Coord(p, axis) > High(pts, axis) then Coord(p, axis) else High(pts, axis)
  {
    assert (pts + [p])[..|pts|] == pts;
  }

  /** The running minimum after visiting pts, started at the sentinel. */
  function Low(pts: seq<Point>, axis: Axis): real {
    if pts == [] then Sentinel
    else
      var m := Low(pts[..|pts| - 1], axis);
      var c := Coord(pts[|pts| - 1], axis);
      if c < m then c else m
  }

  /** The running maximum after visiting pts, started at minus the sentinel. */
  function High(pts: seq<Point>, axis: Axis): real {
    if pts == [] then -Sentinel
    else
      var m := High(pts[..|pts| - 1], axis);
      var c := Coord(pts[|pts| - 1], axis);
      if c > m then c else m
  }

  /** The running minimum is min(1e8, all coordinates): below the sentinel and every
      coordinate, and equal to the sentinel or to one of the coordinates. */
  lemma {:induction false} LowIsMinimum(pts: seq<Point>, axis: Axis)
    ensures Low(pts, axis) <= Sentinel
    ensures forall p :: p in pts ==> Low(pts, axis) <= Coord(p, axis)
    ensures Low(pts, axis) == Sentinel || exists p :: p in pts && Coord(p, axis) == Low(pts, axis)
  {
    if pts != [] {
      var prefix, last := pts[..|pts| - 1], pts[|pts| - 1];
      LowIsMinimum(prefix, axis);
      assert pts == prefix + [last];
      if Low(prefix, axis) != Sentinel && Low(pts, axis) == Low(prefix, axis) {
        var q :| q in prefix && Coord(q, axis) == Low(prefix, axis);
        assert q in pts;
      }
    }
  }

  /** The running maximum is max(-1e8, all coordinates). */
  lemma {:induction false} HighIsMaximum(pts: seq<Point>, axis: Axis)
    ensures -Sentinel <= High(pts, axis)
    ensures forall p :: p in pts ==> Coord(p, axis) <= High(pts, axis)
    ensures High(pts, axis) == -Sentinel || exists p :: p in pts && Coord(p, axis) == High(pts, axis)
  {
    if pts != [] {
      var prefix, last := pts[..|pts| - 1], pts[|pts| - 1];
      HighIsMaximum(prefix, axis);
      assert pts == prefix + [last];
      if High(prefix, axis) != -Sentinel && High(pts, axis) == High(prefix, axis) {
        var q :| q in prefix && Coord(q, axis) == High(prefix, axis);
        assert q in pts;
      }
    }
  }

  /** The centre of the box, whatever the box is. */
  function Midpoint(x0: real, x1: real, y0: real, y1: real): Center {
    Center((x0 + x1) / 2.0, (y0 + y1) / 2.0)
  }

  /** The centre stored for a feature with these rings. */
  function CenterOf(rings: seq<seq<Point>>): Center {
    var pts := Flatten(rings);
    Midpoint(Low(pts, X), High(pts, X), Low(pts, Y), High(pts, Y))
  }

  /** The body of the outer loop for one feature: the nested loops over rings and points. */
  method BoundingBox(rings: seq<seq<Point>>) returns (x0: real, x1: real, y0: real, y1: real)
    ensures x0 == Low(Flatten(rings), X) && x1 == High(Flatten(rings), X)
    ensures y0 == Low(Flatten(rings), Y) && y1 == High(Flatten(rings), Y)
  {
    x0, x1, y0, y1 := Sentinel, -Sentinel, Sentinel, -Sentinel;
    for i := 0 to |rings|
      invariant x0 == Low(Flatten(rings[..i]), X) && x1 == High(Flatten(rings[..i]), X)
      invariant y0 == Low(Flatten(rings[..i]), Y) && y1 == High(Flatten(rings[..i]), Y)
    {
      x0, x1, y0, y1 := ScanRing(Flatten(rings[..i]), rings[i], x0, x1, y0, y1);
      FlattenStep(rings, i);
    }
    assert rings[..|rings|] == rings;
  }

  /** The inner loop over the points of one ring, continuing the running extremes of the
      points seen before it. */
  method ScanRing(ghost seen: seq<Point>, r: seq<Point>, x0: real, x1: real, y0: real, y1: real)
    returns (x0': real, x1': real, y0': real, y1': real)
    requires x0 == Low(seen, X) && x1 == High(seen, X) && y0 == Low(seen, Y) && y1 == High(seen, Y)
    ensures x0' == Low(seen + r, X) && x1' == High(seen + r, X)
    ensures y0' == Low(seen + r, Y) && y1' == High(seen + r, Y)
  {
    x0', x1', y0', y1' := x0, x1, y0, y1;
    assert seen + r[..0] == seen;
    for j := 0 to |r|
      invariant x0' == Low(seen + r[..j], X) && x1' == High(seen + r[..j], X)
      invariant y0' == Low(seen + r[..j], Y) && y1' == High(seen + r[..j], Y)
    {
      var p := r[j];
      AppendOne(seen, r, j);
      ExtremesStep(seen + r[..j], p, X);
      ExtremesStep(seen + r[..j], p, Y);
      if p.x < x0' { x0' := p.x; }
      if p.x > x1' { x1' := p.x; }
      if p.y < y0' { y0' := p.y; }
      if p.y > y1' { y1' := p.y; }
    }
    assert r[..|r|] == r;
  }

  /** The map built so far after the first features: later features overwrite earlier ones. */
  function Centers(features: seq<Feature>): map<string, Center> {
    if features == [] then map[]
    else
      var last := features[|features| - 1];
      Centers(features[..|features| - 1])[last.county := CenterOf(last.rings)]
  }

  /** The script's outer loop: one bounding box per feature, its centre stored under the county's name. */
  method ComputeCenters(features: seq<Feature>) returns (result: map<string, Center>)
    ensures result == Centers(features)
  {
    result := map[];
    for k := 0 to |features|
      invariant result == Centers(features[..k])
    {
      var item := features[k];
      var x0, x1, y0, y1 := BoundingBox(item.rings);
      result := result[item.county := Midpoint(x0, x1, y0, y1)];
      assert features[..k + 1][..k] == features[..k];
    }
    assert features[..|features|] == features;
  }

  /** Every point of every ring lies inside the box. */
  lemma BoxContainsRings(rings: seq<seq<Point>>)
    ensures var pts := Flatten(rings);
      forall i, p :: 0 <= i < |rings| && p in rings[i] ==>
        && Low(pts, X) <= p.x <= High(pts, X)
        && Low(pts, Y) <= p.y <= High(pts, Y)
  {
    var pts := Flatten(rings);
    LowIsMinimum(pts, X);
    HighIsMaximum(pts, X);
    LowIsMinimum(pts, Y);
    HighIsMaximum(pts, Y);
    forall i, p | 0 <= i < |rings| && p in rings[i]
      ensures Low(pts, X) <= p.x <= High(pts, X) && Low(pts, Y) <= p.y <= High(pts, Y)
    {
      FlattenHas(rings, i, p);
      assert Coord(p, X) == p.x && Coord(p, Y) == p.y;
    }
  }

  /** The box depends only on which points occur, not on the order of rings or points. */
  lemma BoxIgnoresOrder(a: seq<Point>, b: seq<Point>, axis: Axis)
    requires forall p :: p in a <==> p in b
    ensures Low(a, axis) == Low(b, axis) && High(a, axis) == High(b, axis)
  {
    LowBelowSame(a, b, axis);
    LowBelowSame(b, a, axis);
    HighAboveSame(a, b, axis);
    HighAboveSame(b, a, axis);
  }

  /** Some ring holds the point. */
  predicate InRings(rings: seq<seq<Point>>, p: Point) {
    exists i :: 0 <= i < |rings| && p in rings[i]
  }

  /** The stored centre depends only on which points the rings hold: reordering the rings, or
      the points within them, or repeating points leaves it unchanged. */
  lemma RingOrderIrrelevant(rings: seq<seq<Point>>, rings': seq<seq<Point>>)
    requires forall p :: InRings(rings, p) <==> InRings(rings', p)
    ensures CenterOf(rings) == CenterOf(rings')
  {
    var a, b := Flatten(rings), Flatten(rings');
    forall p ensures p in a <==> p in b {
      if p in a {
        FlattenFrom(rings, p);
        assert InRings(rings, p);
        var i :| 0 <= i < |rings'| && p in rings'[i];
        FlattenHas(rings', i, p);
      }
      if p in b {
        FlattenFrom(rings', p);
        assert InRings(rings', p);
        var i :| 0 <= i < |rings| && p in rings[i];
        FlattenHas(rings, i, p);
      }
    }
    BoxIgnoresOrder(a, b, X);
    BoxIgnoresOrder(a, b, Y);
  }

  /** Half of the order independence for the minimum: every point of b occurs in a. */
  lemma LowBelowSame(a: seq<Point>, b: seq<Point>, axis: Axis)
    requires forall p :: p in b ==> p in a
    ensures Low(a, axis) <= Low(b, axis)
  {
    LowIsMinimum(a, axis);
    LowIsMinimum(b, axis);
    if Low(b, axis) != Sentinel {
      var q :| q in b && Coord(q, axis) == Low(b, axis);
      assert q in a;
    }
  }

  /** Half of the order independence for the maximum. */
  lemma HighAboveSame(a: seq<Point>, b: seq<Point>, axis: Axis)
    requires forall p :: p in b ==> p in a
    ensures High(b, axis) <= High(a, axis)
  {
    HighIsMaximum(a, axis);
    HighIsMaximum(b, axis);
    if High(b, axis) != -Sentinel {
      var q :| q in b && Coord(q, axis) == High(b, axis);
      assert q in a;
    }
  }

  /** With at least one point, the centre lies inside the box, which is no larger than the points need. */
  lemma CenterInsideBox(rings: seq<seq<Point>>)
    requires Flatten(rings) != []
    ensures var pts := Flatten(rings);
      var c := CenterOf(rings);
      && Low(pts, X) <= c.x <= High(pts, X)
      && Low(pts, Y) <= c.y <= High(pts, Y)
  {
    var pts := Flatten(rings);
    LowIsMinimum(pts, X);
    HighIsMaximum(pts, X);
    LowIsMinimum(pts, Y);
    HighIsMaximum(pts, Y);
    assert pts[0] in pts;
    assert Low(pts, X) <= High(pts, X) by {
      assert Low(pts, X) <= Coord(pts[0], X) <= High(pts, X);
    }
    assert Low(pts, Y) <= High(pts, Y) by {
      assert Low(pts, Y) <= Coord(pts[0], Y) <= High(pts, Y);
    }
  }

  /** A feature without points gets the centre (0, 0): the two sentinels cancel. */
  lemma EmptyFeatureAtOrigin(rings: seq<seq<Point>>)
    requires forall i :: 0 <= i < |rings| ==> rings[i] == []
    ensures CenterOf(rings) == Center(0.0, 0.0)
  {
    FlattenEmpty(rings);
  }

  /** The keys are exactly the county names of the features. */
  lemma {:induction false} CentersKeys(features: seq<Feature>)
    ensures forall name :: name in Centers(features) <==> exists i :: 0 <= i < |features| && features[i].county == name
  {
    if features != [] {
      var prefix := features[..|features| - 1];
      CentersKeys(prefix);
      forall name | name in Centers(features)
        ensures exists i :: 0 <= i < |features| && features[i].county == name
      {
        if name != features[|features| - 1].county {
          assert name in Centers(prefix);
          var i :| 0 <= i < |prefix| && prefix[i].county == name;
          assert features[i] == prefix[i];
        }
      }
    }
  }

  /** A county's entry is the centre of the LAST feature carrying its name. */
  lemma {:induction false} LastWriterWins(features: seq<Feature>, i: nat)
    requires i < |features|
    requires forall j :: i < j < |features| ==> features[j].county != features[i].county
    ensures features[i].county in Centers(features)
    ensures Centers(features)[features[i].county] == CenterOf(features[i].rings)
  {
    var n := |features|;
    if i < n - 1 {
      var prefix := features[..n - 1];
      assert prefix[i] == features[i];
      LastWriterWins(prefix, i);
    }
  }

  /** Storing one feature leaves every other name's entry as it was. */
  lemma OtherEntriesKept(features: seq<Feature>, f: Feature, name: string)
    requires name != f.county
    ensures name in Centers(features + [f]) <==> name in Centers(features)
    ensures name in Centers(features) ==> Centers(features + [f])[name] == Centers(features)[name]
  {
    assert (features + [f])[..|features|] == features;
  }
}
