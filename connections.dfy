/** The proximity lines of one frame, as a function of the particle positions:
    the scan visits every unordered pair (i, j) with i < j once, in row order,
    and emits a line for each pair closer than 120. The imperative scan in
    Field is proved to produce exactly Lines(...). */
module Connections {
  import opened Arith
  import opened Motion

  /** Pairs at this distance or farther are not connected. */
  const MaxDistance: real := 120.0
  const MaxDistanceSq: real := 14400.0

  /** One stroked segment between particles i and j, with its stroke alpha and stroke width. */
  datatype Line = Line(i: nat, j: nat, alpha: real, width: real)

  /** `root` behaves as the host's square root on non-negative arguments. */
  ghost predicate IsSqrt(root: real -> real) {
    forall s :: 0.0 <= s ==> 0.0 <= root(s) && root(s) * root(s) == s
  }

  /** Squared Euclidean distance of the two planar positions; depth plays no part. */
  function DistSq(p: PState, q: PState): (d: real)
    ensures 0.0 <= d
  {
    var dx := p.x - q.x;
    var dy := p.y - q.y;
    SquareNonneg(dx);
    SquareNonneg(dy);
    dx * dx + dy * dy
  }

  /** The squared form of the source's `distance < 120` test. */
  predicate Close(p: PState, q: PState) { DistSq(p, q) < MaxDistanceSq }

  /** The source's test: the distance, as the host's square root computes it, is below 120. */
  predicate Near(p: PState, q: PState, root: real -> real) { root(DistSq(p, q)) < MaxDistance }

  function Min(a: real, b: real): real { if a <= b then a else b }

  /** The falloff of a line at distance d: min(1, (120 - d) / 120). */
  function Falloff(d: real): real { Min(1.0, (MaxDistance - d) / MaxDistance) }

  /** The stroke for the pair (i, j) at falloff `scale`: alpha baseAlpha * scale, width scale. */
  function Segment(i: nat, j: nat, baseAlpha: real, scale: real): Line {
    Line(i, j, baseAlpha * scale, scale)
  }

  /** What the scan emits for the pair (i, j): one line when the pair is close, none otherwise. */
  function LineFor(ps: seq<PState>, i: nat, j: nat, baseAlpha: real, root: real -> real): seq<Line>
    requires i < j < |ps|
  {
    if Near(ps[i], ps[j], root) then
      [Segment(i, j, baseAlpha, Falloff(root(DistSq(ps[i], ps[j]))))]
    else []
  }

  lemma LineForFacts(ps: seq<PState>, i: nat, j: nat, baseAlpha: real, root: real -> real)
    requires i < j < |ps|
    ensures |LineFor(ps, i, j, baseAlpha, root)| <= 1
    ensures |LineFor(ps, i, j, baseAlpha, root)| == 1 <==> Near(ps[i], ps[j], root)
    ensures forall k :: 0 <= k < |LineFor(ps, i, j, baseAlpha, root)| ==>
      LineFor(ps, i, j, baseAlpha, root)[k].i == i && LineFor(ps, i, j, baseAlpha, root)[k].j == j &&
      Drawn(ps, LineFor(ps, i, j, baseAlpha, root)[k], baseAlpha, root)
  {
  }

  /** Lines of the pairs (i, i+1), ..., (i, j-1), in that order. */
  function Row(ps: seq<PState>, i: nat, j: nat, baseAlpha: real, root: real -> real): seq<Line>
    requires i < j <= |ps|
    decreases j
  {
    if j == i + 1 then [] else Row(ps, i, j - 1, baseAlpha, root) + LineFor(ps, i, j - 1, baseAlpha, root)
  }

  /** Lines of the complete rows 0, ..., i-1. */
  function Upto(ps: seq<PState>, i: nat, baseAlpha: real, root: real -> real): seq<Line>
    requires i <= |ps|
    decreases i
  {
    if i == 0 then [] else Upto(ps, i - 1, baseAlpha, root) + Row(ps, i - 1, |ps|, baseAlpha, root)
  }

  /** All lines of one frame. */
  function Lines(ps: seq<PState>, baseAlpha: real, root: real -> real): seq<Line> {
    Upto(ps, |ps|, baseAlpha, root)
  }

  /** A line joins two distinct particles i < j that are close, with width the falloff of
      their distance and alpha baseAlpha times the width. */
  ghost predicate Drawn(ps: seq<PState>, l: Line, baseAlpha: real, root: real -> real) {
    l.i < l.j < |ps| && Near(ps[l.i], ps[l.j], root) &&
    l.width == Falloff(root(DistSq(ps[l.i], ps[l.j]))) && l.alpha == baseAlpha * l.width
  }

  /** Scan order: row by row, and within a row by increasing partner index. */
  predicate Before(a: Line, b: Line) { a.i < b.i || (a.i == b.i && a.j < b.j) }

  predicate Sorted(ls: seq<Line>) {
    forall k, l :: 0 <= k < l < |ls| ==> Before(ls[k], ls[l])
  }

  /** Some line of ls joins i and j. */
  predicate HasPair(ls: seq<Line>, i: nat, j: nat) {
    exists k :: 0 <= k < |ls| && ls[k].i == i && ls[k].j == j
  }

  lemma HasPairAppend(a: seq<Line>, b: seq<Line>, i: nat, j: nat)
    ensures HasPair(a + b, i, j) <==> HasPair(a, i, j) || HasPair(b, i, j)
  {
    if HasPair(a + b, i, j) {
      var k :| 0 <= k < |a + b| && (a + b)[k].i == i && (a + b)[k].j == j;
      if k >= |a| { assert b[k - |a|] == (a + b)[k]; }
    }
    if HasPair(b, i, j) {
      var k :| 0 <= k < |b| && b[k].i == i && b[k].j == j;
      assert (a + b)[|a| + k] == b[k];
    }
    if HasPair(a, i, j) {
      var k :| 0 <= k < |a| && a[k].i == i && a[k].j == j;
      assert (a + b)[k] == a[k];
    }
  }

  lemma SortedAppend(a: seq<Line>, b: seq<Line>)
    requires Sorted(a) && Sorted(b)
    requires forall k, l :: 0 <= k < |a| && 0 <= l < |b| ==> Before(a[k], b[l])
    ensures Sorted(a + b)
  {
    forall k, l | 0 <= k < l < |a + b| ensures Before((a + b)[k], (a + b)[l]) {
      if l < |a| {
        assert (a + b)[k] == a[k] && (a + b)[l] == a[l];
      } else if k >= |a| {
        assert (a + b)[k] == b[k - |a|] && (a + b)[l] == b[l - |a|];
      } else {
        assert (a + b)[k] == a[k] && (a + b)[l] == b[l - |a|];
      }
    }
  }

  /** Every line of the row (i, i+1 .. j-1) starts at i, ends below j and is drawn. */
  lemma {:induction false} RowShape(ps: seq<PState>, i: nat, j: nat, baseAlpha: real, root: real -> real)
    requires i < j <= |ps|
    ensures forall k :: 0 <= k < |Row(ps, i, j, baseAlpha, root)| ==>
      Row(ps, i, j, baseAlpha, root)[k].i == i && Row(ps, i, j, baseAlpha, root)[k].j < j &&
      Drawn(ps, Row(ps, i, j, baseAlpha, root)[k], baseAlpha, root)
    decreases j
  {
    if j > i + 1 {
      RowShape(ps, i, j - 1, baseAlpha, root);
      var r, a, b := Row(ps, i, j, baseAlpha, root), Row(ps, i, j - 1, baseAlpha, root), LineFor(ps, i, j - 1, baseAlpha, root);
      assert r == a + b;
      LineForFacts(ps, i, j - 1, baseAlpha, root);
      forall k | 0 <= k < |r| ensures r[k].i == i && r[k].j < j && Drawn(ps, r[k], baseAlpha, root) {
        if k < |a| { assert r[k] == a[k]; } else { assert r[k] == b[k - |a|]; }
      }
    }
  }

  /** The row (i, i+1 .. j-1) is in scan order. */
  lemma {:induction false} RowSorted(ps: seq<PState>, i: nat, j: nat, baseAlpha: real, root: real -> real)
    requires i < j <= |ps|
    ensures Sorted(Row(ps, i, j, baseAlpha, root))
    decreases j
  {
    if j > i + 1 {
      RowSorted(ps, i, j - 1, baseAlpha, root);
      RowShape(ps, i, j - 1, baseAlpha, root);
      LineForFacts(ps, i, j - 1, baseAlpha, root);
      var a, b := Row(ps, i, j - 1, baseAlpha, root), LineFor(ps, i, j - 1, baseAlpha, root);
      forall k, l | 0 <= k < |a| && 0 <= l < |b| ensures Before(a[k], b[l]) { }
      SortedAppend(a, b);
    }
  }

  /** The row (i, i+1 .. j-1) joins (i, m) exactly when i < m < j and the pair is close. */
  lemma {:induction false} RowPairs(ps: seq<PState>, i: nat, j: nat, baseAlpha: real, root: real -> real, m: nat)
    requires i < j <= |ps|
    ensures HasPair(Row(ps, i, j, baseAlpha, root), i, m) <==> i < m < j && Near(ps[i], ps[m], root)
    decreases j
  {
    var r := Row(ps, i, j, baseAlpha, root);
    if j > i + 1 {
      RowPairs(ps, i, j - 1, baseAlpha, root, m);
      var a, b := Row(ps, i, j - 1, baseAlpha, root), LineFor(ps, i, j - 1, baseAlpha, root);
      assert r == a + b;
      HasPairAppend(a, b, i, m);
      LineForFacts(ps, i, j - 1, baseAlpha, root);
      if m == j - 1 && Near(ps[i], ps[m], root) { assert b[0].i == i && b[0].j == m; }
    } else {
      assert r == [];
    }
  }

  /** Every line of rows 0 .. i-1 starts below i and is drawn. */
  lemma {:induction false} UptoShape(ps: seq<PState>, i: nat, baseAlpha: real, root: real -> real)
    requires i <= |ps|
    ensures forall k :: 0 <= k < |Upto(ps, i, baseAlpha, root)| ==>
      Upto(ps, i, baseAlpha, root)[k].i < i && Drawn(ps, Upto(ps, i, baseAlpha, root)[k], baseAlpha, root)
    decreases i
  {
    if i > 0 {
      UptoShape(ps, i - 1, baseAlpha, root);
      RowShape(ps, i - 1, |ps|, baseAlpha, root);
      var u, front, row := Upto(ps, i, baseAlpha, root), Upto(ps, i - 1, baseAlpha, root), Row(ps, i - 1, |ps|, baseAlpha, root);
      assert u == front + row;
      forall k | 0 <= k < |u| ensures u[k].i < i && Drawn(ps, u[k], baseAlpha, root) {
        if k < |front| { assert u[k] == front[k]; } else { assert u[k] == row[k - |front|]; }
      }
    }
  }

  /** Rows 0 .. i-1 are in scan order. */
  lemma {:induction false} UptoSorted(ps: seq<PState>, i: nat, baseAlpha: real, root: real -> real)
    requires i <= |ps|
    ensures Sorted(Upto(ps, i, baseAlpha, root))
    decreases i
  {
    if i > 0 {
      UptoSorted(ps, i - 1, baseAlpha, root);
      UptoShape(ps, i - 1, baseAlpha, root);
      RowSorted(ps, i - 1, |ps|, baseAlpha, root);
      RowShape(ps, i - 1, |ps|, baseAlpha, root);
      var front, row := Upto(ps, i - 1, baseAlpha, root), Row(ps, i - 1, |ps|, baseAlpha, root);
      forall k, l | 0 <= k < |front| && 0 <= l < |row| ensures Before(front[k], row[l]) { }
      SortedAppend(front, row);
    }
  }

  /** Rows 0 .. i-1 join (a, b) exactly when a < i, a < b < |ps| and the pair is close. */
  lemma {:induction false} UptoPairs(ps: seq<PState>, i: nat, baseAlpha: real, root: real -> real, a: nat, b: nat)
    requires i <= |ps|
    ensures HasPair(Upto(ps, i, baseAlpha, root), a, b) <==> a < i && a < b < |ps| && Near(ps[a], ps[b], root)
    decreases i
  {
    var u := Upto(ps, i, baseAlpha, root);
    if i > 0 {
      UptoPairs(ps, i - 1, baseAlpha, root, a, b);
      var front, row := Upto(ps, i - 1, baseAlpha, root), Row(ps, i - 1, |ps|, baseAlpha, root);
      assert u == front + row;
      HasPairAppend(front, row, a, b);
      if a == i - 1 {
        RowPairs(ps, i - 1, |ps|, baseAlpha, root, b);
      } else {
        RowShape(ps, i - 1, |ps|, baseAlpha, root);
        assert !HasPair(row, a, b);
      }
    } else {
      assert u == [];
    }
  }

  /** The lines of a frame are exactly the near unordered pairs: each line joins i < j,
      each near pair is joined, no other pair is, and the scan order makes every pair appear
      at most once. */
  lemma LinesArePairs(ps: seq<PState>, baseAlpha: real, root: real -> real)
    ensures forall k :: 0 <= k < |Lines(ps, baseAlpha, root)| ==>
      Drawn(ps, Lines(ps, baseAlpha, root)[k], baseAlpha, root)
    ensures Sorted(Lines(ps, baseAlpha, root))
    ensures forall i: nat, j: nat :: i < j < |ps| ==>
      (HasPair(Lines(ps, baseAlpha, root), i, j) <==> Near(ps[i], ps[j], root))
    ensures forall k, l :: 0 <= k < l < |Lines(ps, baseAlpha, root)| ==>
      (Lines(ps, baseAlpha, root)[k].i, Lines(ps, baseAlpha, root)[k].j) !=
      (Lines(ps, baseAlpha, root)[l].i, Lines(ps, baseAlpha, root)[l].j)
  {
    var ls := Lines(ps, baseAlpha, root);
    assert ls == Upto(ps, |ps|, baseAlpha, root);
    UptoShape(ps, |ps|, baseAlpha, root);
    UptoSorted(ps, |ps|, baseAlpha, root);
    forall i: nat, j: nat | i < j < |ps| ensures HasPair(ls, i, j) <==> Near(ps[i], ps[j], root) {
      UptoPairs(ps, |ps|, baseAlpha, root, i, j);
    }
  }

  lemma SqrtBelow(root: real -> real, s: real)
    requires IsSqrt(root) && 0.0 <= s
    ensures root(s) < MaxDistance <==> s < MaxDistanceSq
  {
    var d := root(s);
    assert 0.0 <= d && d * d == s;
    if d < MaxDistance {
      SquareLess(d, MaxDistance);
    } else if d > MaxDistance {
      SquareLess(MaxDistance, d);
    }
  }

  /** The source's test `sqrt(dx*dx + dy*dy) < 120` is the squared test of Close. */
  lemma DistanceTest(root: real -> real, p: PState, q: PState)
    requires IsSqrt(root)
    ensures root(DistSq(p, q)) < MaxDistance <==> Close(p, q)
  {
    SqrtBelow(root, DistSq(p, q));
  }

  /** With a true square root, a line is drawn for the pair i < j exactly when
      dx*dx + dy*dy < 14400, and every drawn line passes that test. */
  lemma LinesAreClosePairs(ps: seq<PState>, baseAlpha: real, root: real -> real)
    requires IsSqrt(root)
    ensures forall i: nat, j: nat :: i < j < |ps| ==>
      (HasPair(Lines(ps, baseAlpha, root), i, j) <==> Close(ps[i], ps[j]))
    ensures forall k :: 0 <= k < |Lines(ps, baseAlpha, root)| ==>
      Lines(ps, baseAlpha, root)[k].i < Lines(ps, baseAlpha, root)[k].j < |ps| &&
      Close(ps[Lines(ps, baseAlpha, root)[k].i], ps[Lines(ps, baseAlpha, root)[k].j])
  {
    LinesArePairs(ps, baseAlpha, root);
    forall p, q ensures Near(p, q, root) <==> Close(p, q) {
      DistanceTest(root, p, q);
    }
  }

  /** The non-negative root is unique. */
  lemma SqrtUnique(root: real -> real, s: real, d: real)
    requires IsSqrt(root) && 0.0 <= d && d * d == s
    ensures root(s) == d
  {
    MulNonneg(d, d);
    var r := root(s);
    assert 0.0 <= r && r * r == s;
    if r < d {
      SquareLess(r, d);
      assert false;
    } else if r > d {
      SquareLess(d, r);
      assert false;
    }
  }

  /** The width of every line lies in (0, 1]: it is the linear falloff 1 - d/120 of the distance d,
      equal to 1 at distance 0 and approaching 0 at distance 120, so (120 * (1 - width))^2 is the
      squared distance. */
  lemma LineScale(ps: seq<PState>, l: Line, baseAlpha: real, root: real -> real)
    requires IsSqrt(root) && Drawn(ps, l, baseAlpha, root)
    ensures 0.0 < l.width <= 1.0
    ensures l.width == 1.0 - root(DistSq(ps[l.i], ps[l.j])) / MaxDistance
    ensures (MaxDistance * (1.0 - l.width)) * (MaxDistance * (1.0 - l.width)) == DistSq(ps[l.i], ps[l.j])
    ensures DistSq(ps[l.i], ps[l.j]) == 0.0 ==> l.width == 1.0
    ensures 0.0 < baseAlpha ==> 0.0 < l.alpha <= baseAlpha
  {
    var s := DistSq(ps[l.i], ps[l.j]);
    SqrtBelow(root, s);
    if s == 0.0 { SqrtUnique(root, s, 0.0); }
    assert MaxDistance * (1.0 - l.width) == root(s);
    if 0.0 < baseAlpha {
      MulLe(baseAlpha, l.width, 1.0);
      MulPos(baseAlpha, l.width);
    }
  }

  /** Two particles 50 apart (a 30-40-50 triangle) give one line of alpha baseAlpha * 70/120. */
  lemma TwoParticleScenario(root: real -> real, baseAlpha: real, z: real)
    requires IsSqrt(root)
    ensures var ps := [PState(0.0, 0.0, z, 0.0, 0.0, 0.0), PState(30.0, 40.0, z, 0.0, 0.0, 0.0)];
      Lines(ps, baseAlpha, root) == [Segment(0, 1, baseAlpha, 70.0 / 120.0)]
  {
    var ps := [PState(0.0, 0.0, z, 0.0, 0.0, 0.0), PState(30.0, 40.0, z, 0.0, 0.0, 0.0)];
    assert DistSq(ps[0], ps[1]) == 2500.0;
    SqrtUnique(root, 2500.0, 50.0);
    assert Row(ps, 1, 2, baseAlpha, root) == [];
    assert Row(ps, 0, 2, baseAlpha, root) == LineFor(ps, 0, 1, baseAlpha, root);
    assert Upto(ps, 2, baseAlpha, root) == Upto(ps, 1, baseAlpha, root);
  }
}
