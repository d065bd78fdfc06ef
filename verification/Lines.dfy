/** The error-accumulator line: its arithmetic, and how closely its points follow the ideal segment. */
module Lines {
  import opened Bits
  import opened Drawing

  lemma DivUnique(n: int, d: int, q: int, r: int)
    requires 0 < d && n == d * q + r && 0 <= r < d
    ensures n / d == q && n % d == r
  {
    var q', r' := n / d, n % d;
    assert d * (q' - q) == r - r';
    if q' > q {
      MulLe(1, q' - q, d);
    } else if q' < q {
      MulLe(1, q - q', d);
    }
  }

  /** After `k` steps the accumulator has wrapped `q` times and holds `err`. */
  predicate Accumulated(minor: nat, major: nat, k: nat, q: nat, err: int) {
    0 < major && 0 <= err < major && major * q + err == k * minor
  }

  lemma OneMore(k: int, d: int)
    ensures (k + 1) * d == k * d + d && d * (k + 1) == d * k + d
  {
  }

  lemma AccumulatorStart(minor: nat, major: nat)
    requires minor < major
    ensures Accumulated(minor, major, 0, 0, 0)
  {
  }

  /** A step in which the accumulator wraps. */
  lemma AccumulatorWraps(minor: nat, major: nat, k: nat, q: nat, err: int)
    requires minor < major && Accumulated(minor, major, k, q, err) && err + minor >= major
    ensures Accumulated(minor, major, k + 1, q + 1, err + minor - major) && (k + 1) * minor / major == q + 1
  {
    OneMore(k, minor);
    OneMore(q, major);
    DivUnique((k + 1) * minor, major, q + 1, err + minor - major);
  }

  lemma AccumulatorKeeps(minor: nat, major: nat, k: nat, q: nat, err: int)
    requires minor < major && Accumulated(minor, major, k, q, err) && err + minor < major
    ensures Accumulated(minor, major, k + 1, q, err + minor) && (k + 1) * minor / major == q
  {
    OneMore(k, minor);
    DivUnique((k + 1) * minor, major, q, err + minor);
  }

  /** It wraps at most `minor` times. */
  lemma WrapsAtMost(minor: nat, major: nat, k: nat, q: nat, err: int)
    requires minor < major && k <= major + 1 && Accumulated(minor, major, k, q, err)
    ensures q <= minor
  {
    MulLe(k, major + 1, minor);
    OneMore(major, minor);
    if q > minor {
      MulLe(minor + 1, q, major);
      OneMore(minor, major);
    }
  }

  /** One step of the accumulator: it wraps exactly when floor((k+1) * minor / major) grows. */
  lemma AccumulatorStep(minor: nat, major: nat, k: nat, q: nat, err: int)
    requires minor < major && k <= major && Accumulated(minor, major, k, q, err)
    ensures err + minor >= major ==>
              && Accumulated(minor, major, k + 1, q + 1, err + minor - major)
              && (k + 1) * minor / major == q + 1 && q + 1 <= minor
    ensures err + minor < major ==>
              && Accumulated(minor, major, k + 1, q, err + minor)
              && (k + 1) * minor / major == q
  {
    hide Accumulated;
    if err + minor >= major {
      AccumulatorWraps(minor, major, k, q, err);
      WrapsAtMost(minor, major, k + 1, q + 1, err + minor - major);
    } else {
      AccumulatorKeeps(minor, major, k, q, err);
    }
  }

  /** floor(k * minor / major), by name: how far the shorter axis has moved before point k. */
  function Moved(minor: nat, major: nat, k: nat): nat
    requires 0 < major
  {
    MulLe(0, k, minor);
    DivNonneg(k * minor, major);
    k * minor / major
  }

  lemma DivNonneg(n: int, d: int)
    requires 0 <= n && 0 < d
    ensures 0 <= n / d && d * (n / d) <= n < d * (n / d) + d
  {
    assert n == d * (n / d) + n % d;
  }

  lemma Quotient(n: int, d: int)
    requires 0 < d <= n
    ensures 1 <= n / d && n / d * d <= n < n / d * d + d
  {
    DivNonneg(n, d);
  }

  lemma MovedBounds(minor: nat, major: nat, k: nat)
    requires 0 < major
    ensures k * minor - major < major * Moved(minor, major, k) <= k * minor
  {
    MulLe(0, k, minor);
    DivNonneg(k * minor, major);
  }

  lemma QuotientStep(n: int, m: int, d: int)
    requires 0 <= n && 0 <= m < d
    ensures n / d <= (n + m) / d <= n / d + 1
  {
    DivNonneg(n, d);
    var q, r := n / d, n - d * (n / d);
    OneMore(q, d);
    if r + m < d {
      DivUnique(n + m, d, q, r + m);
    } else {
      DivUnique(n + m, d, q + 1, r + m - d);
    }
  }

  lemma MovedStep(minor: nat, major: nat, k: nat)
    requires minor < major
    ensures Moved(minor, major, k) <= Moved(minor, major, k + 1) <= Moved(minor, major, k) + 1
  {
    MulLe(0, k, minor);
    OneMore(k, minor);
    QuotientStep(k * minor, minor, major);
  }

  /** The ends of the walk: the first point has not moved yet and the last has moved all the way. */
  lemma MovedEnds(minor: nat, major: nat)
    requires minor < major
    ensures Moved(minor, major, 1) == 0 && Moved(minor, major, major + 1) == minor
  {
    DivUnique(1 * minor, major, 0, minor);
    assert (major + 1) * minor == major * minor + minor;
    DivUnique((major + 1) * minor, major, minor, minor);
  }

  lemma MovedWithin(minor: nat, major: nat, k: nat)
    requires minor < major && k <= major + 1
    ensures Moved(minor, major, k) <= minor
    decreases major + 1 - k
  {
    if k == major + 1 {
      MovedEnds(minor, major);
    } else {
      MovedStep(minor, major, k);
      MovedWithin(minor, major, k + 1);
    }
  }

  /** The end of the segment from which the walk starts: the smaller one along the longer axis. */
  function Start(x1: int, y1: int, x2: int, y2: int): (int, int) {
    if (if Distance(y1, y2) > Distance(x1, x2) then y1 > y2 else x1 > x2) then (x2, y2) else (x1, y1)
  }

  function End(x1: int, y1: int, x2: int, y2: int): (int, int) {
    if (if Distance(y1, y2) > Distance(x1, x2) then y1 > y2 else x1 > x2) then (x1, y1) else (x2, y2)
  }

  /** Eight-neighbours that differ. */
  predicate Neighbours(p: (int, int), q: (int, int)) {
    Distance(p.0, q.0) <= 1 && Distance(p.1, q.1) <= 1 && p != q
  }

  /** Less than one pixel away from the segment, measured along its shorter axis. */
  predicate NearSegment(x1: int, y1: int, x2: int, y2: int, p: (int, int)) {
    var s, e := Start(x1, y1, x2, y2), End(x1, y1, x2, y2);
    var cross := (e.0 - s.0) * (p.1 - s.1) - (e.1 - s.1) * (p.0 - s.0);
    var n: int := Extent(x1, y1, x2, y2);
    -n < cross < n
  }

  lemma CrossProduct(minor: int, major: int, k: int, q: int, sign: int)
    requires sign == 1 || sign == -1
    requires -major < k * minor - major * q < major
    ensures -major < (sign * minor) * k - major * (sign * q) < major
    ensures -major < major * (sign * q) - (sign * minor) * k < major
  {
    assert (sign * minor) * k == sign * (k * minor);
    assert major * (sign * q) == sign * (major * q);
  }

  lemma PointIsNear(x1: int, y1: int, x2: int, y2: int, k: nat)
    requires Distance(x1, x2) != Distance(y1, y2) && k <= Extent(x1, y1, x2, y2)
    ensures NearSegment(x1, y1, x2, y2, LinePoint(x1, y1, x2, y2, k))
  {
    var dx, dy := Distance(x1, x2), Distance(y1, y2);
    var s, e := Start(x1, y1, x2, y2), End(x1, y1, x2, y2);
    if dy > dx {
      MovedBounds(dx, dy, k + 1);
      assert (k + 1) * dx == k * dx + dx;
      CrossProduct(dx, dy, k, Moved(dx, dy, k + 1), if s.0 < e.0 then 1 else -1);
    } else {
      MovedBounds(dy, dx, k + 1);
      assert (k + 1) * dy == k * dy + dy;
      CrossProduct(dy, dx, k, Moved(dy, dx, k + 1), if s.1 < e.1 then 1 else -1);
    }
  }

  lemma PointsAreNeighbours(x1: int, y1: int, x2: int, y2: int, k: nat)
    requires k < Extent(x1, y1, x2, y2)
    ensures Neighbours(LinePoint(x1, y1, x2, y2, k), LinePoint(x1, y1, x2, y2, k + 1))
  {
    var dx, dy := Distance(x1, x2), Distance(y1, y2);
    if dy > dx {
      MovedStep(dx, dy, k + 1);
    } else if dx > dy {
      MovedStep(dy, dx, k + 1);
    }
  }

  lemma WalkEnds(x1: int, y1: int, x2: int, y2: int)
    ensures LinePoint(x1, y1, x2, y2, 0) == Start(x1, y1, x2, y2) <==> Distance(x1, x2) != Distance(y1, y2)
    ensures LinePoint(x1, y1, x2, y2, Extent(x1, y1, x2, y2)) == End(x1, y1, x2, y2) <==>
            Distance(x1, x2) != Distance(y1, y2)
  {
    var dx, dy := Distance(x1, x2), Distance(y1, y2);
    if dy > dx {
      MovedEnds(dx, dy);
    } else if dx > dy {
      MovedEnds(dy, dx);
    }
  }

  /**
   * A line is a walk of max(dx, dy) + 1 neighbouring points from one end to the other, none a whole pixel away from
   * the segment, exactly when its two extents differ. (With equal extents, a single point included, it misses both
   * ends.)
   */
  lemma LineAccuracy(x1: int, y1: int, x2: int, y2: int)
    ensures Distance(x1, x2) != Distance(y1, y2) <==>
            var n := Extent(x1, y1, x2, y2);
            && LinePoint(x1, y1, x2, y2, 0) == Start(x1, y1, x2, y2)
            && LinePoint(x1, y1, x2, y2, n) == End(x1, y1, x2, y2)
            && (forall k: nat | k < n :: Neighbours(LinePoint(x1, y1, x2, y2, k), LinePoint(x1, y1, x2, y2, k + 1)))
            && (forall k: nat | k <= n :: NearSegment(x1, y1, x2, y2, LinePoint(x1, y1, x2, y2, k)))
  {
    WalkEnds(x1, y1, x2, y2);
    forall k: nat | k < Extent(x1, y1, x2, y2)
      ensures Neighbours(LinePoint(x1, y1, x2, y2, k), LinePoint(x1, y1, x2, y2, k + 1))
    {
      PointsAreNeighbours(x1, y1, x2, y2, k);
    }
    if Distance(x1, x2) != Distance(y1, y2) {
      forall k: nat | k <= Extent(x1, y1, x2, y2)
        ensures NearSegment(x1, y1, x2, y2, LinePoint(x1, y1, x2, y2, k))
      {
        PointIsNear(x1, y1, x2, y2, k);
      }
    }
  }

  /** The walk is the same from either end. */
  lemma LineSwap(x1: int, y1: int, x2: int, y2: int)
    ensures forall k: nat | k <= Extent(x1, y1, x2, y2) ::
              LinePoint(x1, y1, x2, y2, k) == LinePoint(x2, y2, x1, y1, k)
    ensures forall x, y :: OnLine(x1, y1, x2, y2, x, y) == OnLine(x2, y2, x1, y1, x, y)
  {
    forall k: nat | k <= Extent(x1, y1, x2, y2)
      ensures LinePoint(x1, y1, x2, y2, k) == LinePoint(x2, y2, x1, y1, k)
    {
    }
  }

  /** Point `k` of a walk whose longer axis has extent `major`: the distance `d` along the shorter one. */
  lemma MovedIs(minor: nat, major: nat, k: nat, d: int)
    requires 0 < major
    ensures Moved(minor, major, k) == d <==> d * major <= k * minor < (d + 1) * major
  {
    MulLe(0, k, minor);
    DivNonneg(k * minor, major);
    OneMore(d, major);
    if d * major <= k * minor < (d + 1) * major {
      DivUnique(k * minor, major, d, k * minor - d * major);
    }
  }

  /**
   * The pixels of a line that is wider than high, drawn from its left end: in column x the one whose row is `d` away
   * from that end, where d * dx <= (x - x1 + 1) * dy < (d + 1) * dx, and no other.
   */
  lemma ShallowLine(x1: int, y1: int, x2: int, y2: int, x: int, y: int)
    requires y2 - y1 < x2 - x1 && y1 - y2 < x2 - x1
    ensures
      var d, dy := if y1 < y2 then y - y1 else y1 - y, if y1 < y2 then y2 - y1 else y1 - y2;
      OnLine(x1, y1, x2, y2, x, y) <==>
        x1 <= x <= x2 && d * (x2 - x1) <= (x - x1 + 1) * dy < (d + 1) * (x2 - x1)
  {
    var dx, dy := Distance(x1, x2), Distance(y1, y2);
    if x1 <= x <= x2 {
      MovedIs(dy, dx, x - x1 + 1, if y1 < y2 then y - y1 else y1 - y);
      PointAt(x1, y1, x2, y2, x - x1);
      assert LinePoint(x1, y1, x2, y2, x - x1) == (x, Toward(y1, y2, Moved(dy, dx, x - x1 + 1)));
    }
    hide Moved;
    if OnLine(x1, y1, x2, y2, x, y) {
      var k: nat :| k <= Extent(x1, y1, x2, y2) && LinePoint(x1, y1, x2, y2, k) == (x, y);
      PointAt(x1, y1, x2, y2, k);
      assert x == x1 + k;
    }
  }

  /**
   * The pixels of a line that is higher than wide, drawn from its upper end: in row y the one whose column is `d` away
   * from that end, where d * dy <= (y - y1 + 1) * dx < (d + 1) * dy, and no other.
   */
  lemma SteepLine(x1: int, y1: int, x2: int, y2: int, x: int, y: int)
    requires x2 - x1 < y2 - y1 && x1 - x2 < y2 - y1
    ensures
      var d, dx := if x1 < x2 then x - x1 else x1 - x, if x1 < x2 then x2 - x1 else x1 - x2;
      OnLine(x1, y1, x2, y2, x, y) <==>
        y1 <= y <= y2 && d * (y2 - y1) <= (y - y1 + 1) * dx < (d + 1) * (y2 - y1)
  {
    var dx, dy := Distance(x1, x2), Distance(y1, y2);
    if y1 <= y <= y2 {
      MovedIs(dx, dy, y - y1 + 1, if x1 < x2 then x - x1 else x1 - x);
      PointAt(x1, y1, x2, y2, y - y1);
      assert LinePoint(x1, y1, x2, y2, y - y1) == (Toward(x1, x2, Moved(dx, dy, y - y1 + 1)), y);
    }
    hide Moved;
    if OnLine(x1, y1, x2, y2, x, y) {
      var k: nat :| k <= Extent(x1, y1, x2, y2) && LinePoint(x1, y1, x2, y2, k) == (x, y);
      PointAt(x1, y1, x2, y2, k);
      assert y == y1 + k;
    }
  }

  /** A line as wide as high, a single point included, drawn from its left end: the diagonal one step ahead, except
      that the last column takes the pixel above the other end. */
  lemma DiagonalLine(x1: int, y1: int, x2: int, y2: int, x: int, y: int)
    requires 0 <= x2 - x1 && (y2 - y1 == x2 - x1 || y1 - y2 == x2 - x1)
    ensures OnLine(x1, y1, x2, y2, x, y) <==>
              || (x1 <= x < x2 && y == if y1 < y2 then y1 + (x - x1) + 1 else y1 - (x - x1) - 1)
              || (x == x2 && y == y2 - 1)
  {
    if x1 <= x <= x2 {
      assert LinePoint(x1, y1, x2, y2, x - x1).0 == x;
    }
  }

  /** The coordinate of the longer axis counts the points. */
  lemma PointAt(x1: int, y1: int, x2: int, y2: int, k: nat)
    requires Distance(x1, x2) != Distance(y1, y2)
    ensures
      var p, s := LinePoint(x1, y1, x2, y2, k), Start(x1, y1, x2, y2);
      if Distance(x1, x2) > Distance(y1, y2) then p.0 == s.0 + k else p.1 == s.1 + k
  {
  }

  lemma NoPoint(x1: int, y1: int, x2: int, y2: int)
    ensures forall x, y :: !OnLineBefore(x1, y1, x2, y2, 0, x, y)
  {
  }

  lemma OneMorePoint(x1: int, y1: int, x2: int, y2: int, n: nat)
    ensures forall x, y :: OnLineBefore(x1, y1, x2, y2, n + 1, x, y) <==>
              OnLineBefore(x1, y1, x2, y2, n, x, y) || LinePoint(x1, y1, x2, y2, n) == (x, y)
  {
  }

  lemma AllPoints(x1: int, y1: int, x2: int, y2: int)
    ensures forall x, y ::
              OnLineBefore(x1, y1, x2, y2, Extent(x1, y1, x2, y2) + 1, x, y) == OnLine(x1, y1, x2, y2, x, y)
  {
  }
}
