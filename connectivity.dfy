/** What two of the read accessors of ParticleSystem emit, as functions of
    the particle store: the pointer links replayed through the seam guard,
    and the particle-pair links (src/lib.rs:175-245). */
module Connectivity {
  import opened Numeric
  import opened Motion

  // ---------------------------------------------------------------------
  // Pointer links (get_mouse_connections)
  // ---------------------------------------------------------------------

  /** Every link names one of the `n` particles. */
  predicate LinksInRange(n: nat, ls: seq<MouseLink>)
  {
    forall k :: 0 <= k < |ls| ==> ls[k].index < n
  }

  /** Link indices are strictly increasing. */
  predicate IndicesIncreasing(ls: seq<MouseLink>)
  {
    forall a, b :: 0 <= a < b < |ls| ==> ls[a].index < ls[b].index
  }

  /** The seam guard for a pointer link: the particle is no further from the
      pointer than half the box on either axis. */
  predicate Visible(p: Particle, c: Params)
  {
    Abs(p.x - c.mouseX) <= c.width / 2.0 && Abs(p.y - c.mouseY) <= c.height / 2.0
  }

  /** A link passes the guard when its particle exists and is visible; the
      store invariant keeps every recorded index in range. */
  predicate Kept(ps: seq<Particle>, c: Params, l: MouseLink)
  {
    l.index < |ps| && Visible(ps[l.index], c)
  }

  /** The links that pass the seam guard, in recording order. */
  function VisibleLinks(ps: seq<Particle>, c: Params, ls: seq<MouseLink>): (r: seq<MouseLink>)
    ensures |r| <= |ls|
    decreases |ls|
  {
    if |ls| == 0 then []
    else
      var l := ls[|ls| - 1];
      VisibleLinks(ps, c, ls[..|ls| - 1]) + (if Kept(ps, c, l) then [l] else [])
  }

  /** The triple emitted for one link: the particle's current position and
      the recorded strength (nothing for an index outside the store). */
  function LinkTriple(ps: seq<Particle>, l: MouseLink): (r: seq<real>)
  {
    if l.index < |ps| then [ps[l.index].x, ps[l.index].y, l.strength] else []
  }

  /** The flat buffer of triples for the links `ls`, in order. */
  function LinkValues(ps: seq<Particle>, ls: seq<MouseLink>): (r: seq<real>)
    ensures |r| <= 3 * |ls|
    decreases |ls|
  {
    if |ls| == 0 then []
    else LinkValues(ps, ls[..|ls| - 1]) + LinkTriple(ps, ls[|ls| - 1])
  }

  /** A link survives the guard exactly when it was recorded and its
      particle passes the guard. */
  lemma {:induction false} VisibleLinksExact(ps: seq<Particle>, c: Params, ls: seq<MouseLink>, l: MouseLink)
    ensures l in VisibleLinks(ps, c, ls) <==> l in ls && l.index < |ps| && Visible(ps[l.index], c)
    decreases |ls|
  {
    if |ls| > 0 {
      var init := ls[..|ls| - 1];
      var last := ls[|ls| - 1];
      assert ls == init + [last];
      VisibleLinksExact(ps, c, init, l);
      assert l in ls <==> l in init || l == last;
    }
  }

  /** The guard keeps only links naming particles of the store. */
  lemma VisibleLinksInRange(ps: seq<Particle>, c: Params, ls: seq<MouseLink>)
    ensures LinksInRange(|ps|, VisibleLinks(ps, c, ls))
  {
    var v := VisibleLinks(ps, c, ls);
    forall k | 0 <= k < |v| ensures v[k].index < |ps| {
      VisibleLinksExact(ps, c, ls, v[k]);
    }
  }

  /** Filtering distributes over concatenation: the guard keeps the
      recording order and judges each link on its own. */
  lemma {:induction false} VisibleLinksAppend(ps: seq<Particle>, c: Params, a: seq<MouseLink>, b: seq<MouseLink>)
    ensures VisibleLinks(ps, c, a + b) == VisibleLinks(ps, c, a) + VisibleLinks(ps, c, b)
    decreases |b|
  {
    if |b| == 0 {
      assert a + b == a;
    } else {
      var init := b[..|b| - 1];
      assert (a + b)[..|a + b| - 1] == a + init;
      assert (a + b)[|a + b| - 1] == b[|b| - 1];
      VisibleLinksAppend(ps, c, a, init);
    }
  }

  /** Links recorded in increasing index order stay so after the guard. */
  lemma {:induction false} VisibleLinksIncreasing(ps: seq<Particle>, c: Params, ls: seq<MouseLink>)
    requires IndicesIncreasing(ls)
    ensures IndicesIncreasing(VisibleLinks(ps, c, ls))
    decreases |ls|
  {
    if |ls| > 0 {
      var init := ls[..|ls| - 1];
      var last := ls[|ls| - 1];
      VisibleLinksIncreasing(ps, c, init);
      var v := VisibleLinks(ps, c, init);
      forall k | 0 <= k < |v| ensures v[k].index < last.index {
        VisibleLinksExact(ps, c, init, v[k]);
        var m :| 0 <= m < |init| && init[m] == v[k];
      }
    }
  }

  /** Links naming particles of the store give one triple each. */
  lemma {:induction false} LinkValuesLength(ps: seq<Particle>, ls: seq<MouseLink>)
    requires LinksInRange(|ps|, ls)
    ensures |LinkValues(ps, ls)| == 3 * |ls|
    decreases |ls|
  {
    if |ls| > 0 {
      var init := ls[..|ls| - 1];
      assert forall k :: 0 <= k < |init| ==> init[k] == ls[k];
      LinkValuesLength(ps, init);
      assert ls[|ls| - 1].index < |ps|;
    }
  }

  /** For links naming particles of the store, field `t` of the triple of
      link `k` sits at position `3k + t` of the buffer. */
  lemma {:induction false} LinkValuesAt(ps: seq<Particle>, ls: seq<MouseLink>, k: nat, t: nat)
    requires LinksInRange(|ps|, ls)
    requires k < |ls| && t < 3
    ensures |LinkValues(ps, ls)| == 3 * |ls|
    ensures LinkValues(ps, ls)[3 * k + t] == [ps[ls[k].index].x, ps[ls[k].index].y, ls[k].strength][t]
    decreases |ls|
  {
    LinkValuesLength(ps, ls);
    var init := ls[..|ls| - 1];
    assert forall k :: 0 <= k < |init| ==> init[k] == ls[k];
    LinkValuesLength(ps, init);
    assert ls[k].index < |ps|;
    if k < |init| {
      LinkValuesAt(ps, init, k, t);
    }
  }

  /** The buffer `get_mouse_connections` returns holds one triple per link
      that passes the guard, so at most one per recorded link. */
  lemma MouseConnectionsSize(ps: seq<Particle>, c: Params, ls: seq<MouseLink>)
    ensures |LinkValues(ps, VisibleLinks(ps, c, ls))| == 3 * |VisibleLinks(ps, c, ls)|
    ensures |LinkValues(ps, VisibleLinks(ps, c, ls))| <= 3 * |ls|
  {
    VisibleLinksInRange(ps, c, ls);
    LinkValuesLength(ps, VisibleLinks(ps, c, ls));
  }


  // ---------------------------------------------------------------------
  // Particle-pair links (calculate_connections)
  // ---------------------------------------------------------------------

  /** Distance between two particles. */
  function PairDistance(p1: Particle, p2: Particle, sqrt: real -> real): (r: real)
  {
    sqrt(SumOfSquares(Abs(p1.x - p2.x), Abs(p1.y - p2.y)))
  }

  /** A pair is linked when it passes the seam guard and is closer than the
      connection distance. */
  predicate Linked(p1: Particle, p2: Particle, c: Params, sqrt: real -> real)
  {
    Abs(p1.x - p2.x) <= c.width / 2.0 && Abs(p1.y - p2.y) <= c.height / 2.0 &&
    PairDistance(p1, p2, sqrt) < c.connectionDistance
  }

  /** The pointer-proximity test of the pair extractor, on the plain distance. */
  predicate NearPointer(p: Particle, c: Params, sqrt: real -> real)
  {
    sqrt(DistanceSq(p, c)) < c.mouseRadius
  }

  /** Opacity of a linked pair: `1 - distance/connection_distance`, raised by
      a factor 1.3 when either end is near the pointer (no upper clamp). */
  function Opacity(p1: Particle, p2: Particle, c: Params, sqrt: real -> real): (r: real)
    requires IsSqrt(sqrt)
    requires Linked(p1, p2, c, sqrt)
    ensures 0.0 <= PairDistance(p1, p2, sqrt) < c.connectionDistance
    ensures 0.0 < r <= 1.3
    ensures 1.0 - PairDistance(p1, p2, sqrt) / c.connectionDistance <= r
    ensures (NearPointer(p1, c, sqrt) || NearPointer(p2, c, sqrt)) <==>
      r > 1.0 - PairDistance(p1, p2, sqrt) / c.connectionDistance
  {
    var d := PairDistance(p1, p2, sqrt);
    var cd := c.connectionDistance;
    assert RootOf(sqrt, SumOfSquares(Abs(p1.x - p2.x), Abs(p1.y - p2.y)));
    var base := 1.0 - d / cd;
    OpacityBase(d, cd);
    if NearPointer(p1, c, sqrt) || NearPointer(p2, c, sqrt) then base * 1.3 else base
  }

  /** The unscaled opacity lies in `(0, 1]` and is 1 exactly at distance 0. */
  lemma OpacityBase(d: real, cd: real)
    requires 0.0 <= d < cd
    ensures 0.0 < 1.0 - d / cd <= 1.0
    ensures 1.0 - d / cd == 1.0 <==> d == 0.0
  {
    var ratio := d / cd;
    assert ratio * cd == d;
    if ratio >= 1.0 {
      calc {
        d;
      ==
        ratio * cd;
      >=
        1.0 * cd;
      }
    }
    if ratio == 0.0 {
      assert d == 0.0;
    }
  }

  /** The link test of the pair extractor on particle indices. */
  function LinkTest(ps: seq<Particle>, c: Params, sqrt: real -> real): (r: (nat, nat) -> bool)
  {
    (i: nat, j: nat) => i < j < |ps| && Linked(ps[i], ps[j], c, sqrt)
  }

  /** The pairs `(i, k)` with `i < k < j` that pass `linked`, in increasing
      `k`: one pass of the extractor's inner loop. */
  function Row(linked: (nat, nat) -> bool, i: nat, j: nat): (r: seq<(nat, nat)>)
    requires i < j
    ensures |r| <= j - i - 1
    decreases j
  {
    if j == i + 1 then []
    else Row(linked, i, j - 1) + (if linked(i, j - 1) then [(i, j - 1)] else [])
  }

  /** The pairs of the rows below `i` of an `n`-particle store, row by row. */
  function Rows(linked: (nat, nat) -> bool, n: nat, i: nat): (r: seq<(nat, nat)>)
    requires i <= n
    decreases i
  {
    if i == 0 then [] else Rows(linked, n, i - 1) + Row(linked, i - 1, n)
  }

  /** All linked pairs `i < j` of the store, in the order they are emitted. */
  function ConnectedPairs(ps: seq<Particle>, c: Params, sqrt: real -> real): (r: seq<(nat, nat)>)
  {
    Rows(LinkTest(ps, c, sqrt), |ps|, |ps|)
  }

  /** Lexicographic order on index pairs. */
  predicate LexBefore(a: (nat, nat), b: (nat, nat))
  {
    a.0 < b.0 || (a.0 == b.0 && a.1 < b.1)
  }

  /** A row holds linked pairs `(i, k)` with `i < k < j`, in increasing `k`. */
  lemma {:induction false} RowShape(linked: (nat, nat) -> bool, i: nat, j: nat)
    requires i < j
    ensures forall k :: 0 <= k < |Row(linked, i, j)| ==>
      Row(linked, i, j)[k].0 == i && i < Row(linked, i, j)[k].1 < j &&
      linked(Row(linked, i, j)[k].0, Row(linked, i, j)[k].1)
    ensures forall a, b :: 0 <= a < b < |Row(linked, i, j)| ==>
      Row(linked, i, j)[a].1 < Row(linked, i, j)[b].1
    decreases j
  {
    if j > i + 1 {
      RowShape(linked, i, j - 1);
    }
  }

  /** A row holds every linked partner of `i` below `j`. */
  lemma {:induction false} RowComplete(linked: (nat, nat) -> bool, i: nat, j: nat, k: nat)
    requires i < k < j
    requires linked(i, k)
    ensures (i, k) in Row(linked, i, j)
    decreases j
  {
    var row := Row(linked, i, j - 1);
    if k < j - 1 {
      RowComplete(linked, i, j - 1, k);
      if linked(i, j - 1) {
        assert Row(linked, i, j) == row + [(i, j - 1)];
      }
    } else {
      assert Row(linked, i, j) == row + [(i, k)];
    }
  }

  /** The rows below `i` hold linked pairs `(a, b)` with `a < i` and
      `a < b < n`, in lexicographic order. */
  lemma {:induction false} RowsSorted(linked: (nat, nat) -> bool, n: nat, i: nat)
    requires i <= n
    ensures forall k :: 0 <= k < |Rows(linked, n, i)| ==>
      Rows(linked, n, i)[k].0 < i && Rows(linked, n, i)[k].0 < Rows(linked, n, i)[k].1 < n &&
      linked(Rows(linked, n, i)[k].0, Rows(linked, n, i)[k].1)
    ensures forall a, b :: 0 <= a < b < |Rows(linked, n, i)| ==>
      LexBefore(Rows(linked, n, i)[a], Rows(linked, n, i)[b])
    decreases i
  {
    if i > 0 {
      var rows, row := Rows(linked, n, i - 1), Row(linked, i - 1, n);
      RowsSorted(linked, n, i - 1);
      RowShape(linked, i - 1, n);
      var all := rows + row;
      forall k | 0 <= k < |all|
        ensures all[k].0 < i && all[k].0 < all[k].1 < n && linked(all[k].0, all[k].1)
      {
        if k < |rows| {
          assert all[k] == rows[k];
        } else {
          assert all[k] == row[k - |rows|];
        }
      }
      forall a, b | 0 <= a < b < |all| ensures LexBefore(all[a], all[b]) {
        if b < |rows| {
          assert all[a] == rows[a] && all[b] == rows[b];
        } else if a < |rows| {
          assert all[a] == rows[a] && all[b] == row[b - |rows|];
        } else {
          assert all[a] == row[a - |rows|] && all[b] == row[b - |rows|];
        }
      }
    }
  }

  /** The rows below `i` hold every linked pair `a < b < n` with `a < i`. */
  lemma {:induction false} RowsComplete(linked: (nat, nat) -> bool, n: nat, i: nat, a: nat, b: nat)
    requires a < i <= n && a < b < n
    requires linked(a, b)
    ensures (a, b) in Rows(linked, n, i)
    decreases i
  {
    if a < i - 1 {
      RowsComplete(linked, n, i - 1, a, b);
    } else {
      RowComplete(linked, a, n, b);
    }
  }

  /** The rows below `i` hold at most `i*n - i*(i+1)/2` pairs. */
  lemma {:induction false} RowsCount(linked: (nat, nat) -> bool, n: nat, i: nat)
    requires i <= n
    ensures 2 * |Rows(linked, n, i)| <= 2 * i * n - i * (i + 1)
    decreases i
  {
    if i > 0 {
      var rows, row := |Rows(linked, n, i - 1)|, |Row(linked, i - 1, n)|;
      assert |Rows(linked, n, i)| == rows + row;
      RowsCount(linked, n, i - 1);
      CountStep(i, n, rows, row);
    }
  }

  /** The arithmetic step of RowsCount: adding a row of at most `n - i`
      pairs to the rows below `i - 1`. */
  lemma CountStep(i: int, n: int, rows: int, row: int)
    requires 2 * rows <= 2 * (i - 1) * n - (i - 1) * (i - 1 + 1)
    requires row <= n - i
    ensures 2 * (rows + row) <= 2 * i * n - i * (i + 1)
  {
    assert 2 * (i - 1) * n == 2 * i * n - 2 * n;
    assert (i - 1) * (i - 1 + 1) == i * (i + 1) - 2 * i;
  }

  /** The rows of an `n`-particle store hold exactly the linked pairs
      `a < b < n`. */
  lemma RowsExact(linked: (nat, nat) -> bool, n: nat)
    ensures forall a: nat, b: nat :: a < b < n ==> ((a, b) in Rows(linked, n, n) <==> linked(a, b))
  {
    var all := Rows(linked, n, n);
    RowsSorted(linked, n, n);
    forall a: nat, b: nat | a < b < n ensures (a, b) in all <==> linked(a, b) {
      if linked(a, b) {
        RowsComplete(linked, n, n, a, b);
      }
      if (a, b) in all {
        var k :| 0 <= k < |all| && all[k] == (a, b);
      }
    }
  }

  /** A pair `i < j` is emitted exactly when it is linked. */
  lemma ConnectedPairsExact(ps: seq<Particle>, c: Params, sqrt: real -> real)
    ensures forall i: nat, j: nat :: i < j < |ps| ==>
      ((i, j) in ConnectedPairs(ps, c, sqrt) <==> Linked(ps[i], ps[j], c, sqrt))
  {
    var linked := LinkTest(ps, c, sqrt);
    RowsExact(linked, |ps|);
    forall i: nat, j: nat | i < j < |ps| ensures linked(i, j) == Linked(ps[i], ps[j], c, sqrt) {
    }
  }

  /** Every emitted pair is a linked pair `i < j` of the store, and pairs
      come out in lexicographic order, so none appears twice or reversed. */
  lemma ConnectedPairsSound(ps: seq<Particle>, c: Params, sqrt: real -> real)
    ensures forall k :: 0 <= k < |ConnectedPairs(ps, c, sqrt)| ==>
      ValidPair(ps, c, sqrt, ConnectedPairs(ps, c, sqrt)[k])
    ensures forall a, b :: 0 <= a < b < |ConnectedPairs(ps, c, sqrt)| ==>
      LexBefore(ConnectedPairs(ps, c, sqrt)[a], ConnectedPairs(ps, c, sqrt)[b])
  {
    var linked := LinkTest(ps, c, sqrt);
    var cp := ConnectedPairs(ps, c, sqrt);
    RowsSorted(linked, |ps|, |ps|);
    forall k | 0 <= k < |cp| ensures ValidPair(ps, c, sqrt, cp[k]) {
      assert linked(cp[k].0, cp[k].1);
    }
  }

  /** At most `n(n-1)/2` pairs are emitted. */
  lemma ConnectedPairsCount(ps: seq<Particle>, c: Params, sqrt: real -> real)
    ensures 2 * |ConnectedPairs(ps, c, sqrt)| <= |ps| * (|ps| - 1)
  {
    RowsCount(LinkTest(ps, c, sqrt), |ps|, |ps|);
  }

  /** The links `update` records name particles of the store: a corollary of
      `Motion.LinksWellFormed` in terms of `LinksInRange`, which
      re-establishes the class invariant at the end of `update`. */
  lemma LinksInStore(ps: seq<Particle>, c: Params, sqrt: real -> real)
    ensures LinksInRange(|ps|, Links(ps, c, sqrt))
  {
    LinksWellFormed(ps, c, sqrt);
  }

  /** An index pair `(i, j)` that the extractor emits. */
  predicate ValidPair(ps: seq<Particle>, c: Params, sqrt: real -> real, pr: (nat, nat))
  {
    pr.0 < pr.1 < |ps| && Linked(ps[pr.0], ps[pr.1], c, sqrt)
  }

  /** What the inner loop emits for the candidate pair `(p1, p2)`: both
      endpoints and the opacity when they are linked, nothing otherwise. */
  function PairEntryValues(p1: Particle, p2: Particle, c: Params, sqrt: real -> real): (r: seq<real>)
    requires IsSqrt(sqrt)
  {
    if Linked(p1, p2, c, sqrt) then [p1.x, p1.y, p2.x, p2.y, Opacity(p1, p2, c, sqrt)] else []
  }

  /** The entry of the index pair `pr`, empty for indices outside the store. */
  function EntryOf(ps: seq<Particle>, c: Params, sqrt: real -> real): (r: ((nat, nat)) -> seq<real>)
    requires IsSqrt(sqrt)
  {
    (pr: (nat, nat)) =>
      if pr.0 < |ps| && pr.1 < |ps| then PairEntryValues(ps[pr.0], ps[pr.1], c, sqrt) else []
  }

  /** The entries `entry(pr)` of the pairs `prs`, concatenated in order. */
  function Entries(entry: ((nat, nat)) -> seq<real>, prs: seq<(nat, nat)>): (r: seq<real>)
    decreases |prs|
  {
    if |prs| == 0 then [] else Entries(entry, prs[..|prs| - 1]) + entry(prs[|prs| - 1])
  }

  /** The buffer of a concatenation of pair lists is the concatenation of
      their buffers. */
  lemma {:induction false} EntriesAppend(entry: ((nat, nat)) -> seq<real>, a: seq<(nat, nat)>, b: seq<(nat, nat)>)
    ensures Entries(entry, a + b) == Entries(entry, a) + Entries(entry, b)
    decreases |b|
  {
    if |b| == 0 {
      assert a + b == a;
    } else {
      var init := b[..|b| - 1];
      assert (a + b)[..|a + b| - 1] == a + init;
      assert (a + b)[|a + b| - 1] == b[|b| - 1];
      EntriesAppend(entry, a, init);
    }
  }

  /** When every pair has a 5-value entry, the buffer holds five values per
      pair. */
  lemma {:induction false} EntriesLength(entry: ((nat, nat)) -> seq<real>, prs: seq<(nat, nat)>)
    requires forall k :: 0 <= k < |prs| ==> |entry(prs[k])| == 5
    ensures |Entries(entry, prs)| == 5 * |prs|
    decreases |prs|
  {
    if |prs| > 0 {
      var init := prs[..|prs| - 1];
      assert forall k :: 0 <= k < |init| ==> init[k] == prs[k];
      EntriesLength(entry, init);
      assert |entry(prs[|prs| - 1])| == 5;
    }
  }

  /** When every pair has a 5-value entry, field `t` of the entry of pair
      `k` sits at position `5k + t` of the buffer. */
  lemma {:induction false} EntriesAt(entry: ((nat, nat)) -> seq<real>, prs: seq<(nat, nat)>, k: nat, t: nat)
    requires forall k :: 0 <= k < |prs| ==> |entry(prs[k])| == 5
    requires k < |prs| && t < 5
    ensures |Entries(entry, prs)| == 5 * |prs|
    ensures Entries(entry, prs)[5 * k + t] == entry(prs[k])[t]
    decreases |prs|
  {
    EntriesLength(entry, prs);
    var init := prs[..|prs| - 1];
    assert forall k :: 0 <= k < |init| ==> init[k] == prs[k];
    EntriesLength(entry, init);
    assert |entry(prs[k])| == 5;
    if k < |init| {
      EntriesAt(entry, init, k, t);
    }
  }

  /** The flat buffer of the entries of the pairs `prs`, in order. */
  function PairValues(ps: seq<Particle>, c: Params, sqrt: real -> real, prs: seq<(nat, nat)>): (r: seq<real>)
    requires IsSqrt(sqrt)
  {
    Entries(EntryOf(ps, c, sqrt), prs)
  }

  /** An emitted pair's entry is its 5-tuple `x1, y1, x2, y2, opacity`. */
  lemma EntryOfValid(ps: seq<Particle>, c: Params, sqrt: real -> real, pr: (nat, nat))
    requires IsSqrt(sqrt)
    requires ValidPair(ps, c, sqrt, pr)
    ensures EntryOf(ps, c, sqrt)(pr) ==
      [ps[pr.0].x, ps[pr.0].y, ps[pr.1].x, ps[pr.1].y, Opacity(ps[pr.0], ps[pr.1], c, sqrt)]
  {
  }

  /** Extending a row by the candidate partner `j` appends that candidate's
      entry, which is empty when the pair is not linked. */
  lemma RowStep(ps: seq<Particle>, c: Params, sqrt: real -> real, i: nat, j: nat)
    requires IsSqrt(sqrt)
    requires i < j < |ps|
    ensures PairValues(ps, c, sqrt, Row(LinkTest(ps, c, sqrt), i, j + 1)) ==
      PairValues(ps, c, sqrt, Row(LinkTest(ps, c, sqrt), i, j)) +
      PairEntryValues(ps[i], ps[j], c, sqrt)
  {
    var linked := LinkTest(ps, c, sqrt);
    var entry := EntryOf(ps, c, sqrt);
    var row := Row(linked, i, j);
    if linked(i, j) {
      assert Row(linked, i, j + 1) == row + [(i, j)];
      assert (row + [(i, j)])[..|row|] == row;
      assert Entries(entry, row + [(i, j)]) == Entries(entry, row) + entry((i, j));
    } else {
      assert Row(linked, i, j + 1) == row;
    }
  }

  /** The buffer `calculate_connections` returns: one 5-tuple per emitted
      pair. */
  function ConnectionValues(ps: seq<Particle>, c: Params, sqrt: real -> real): (r: seq<real>)
    requires IsSqrt(sqrt)
    ensures |r| == 5 * |ConnectedPairs(ps, c, sqrt)|
  {
    var cp := ConnectedPairs(ps, c, sqrt);
    ConnectedPairsSound(ps, c, sqrt);
    assert forall k :: 0 <= k < |cp| ==> |EntryOf(ps, c, sqrt)(cp[k])| == 5;
    EntriesLength(EntryOf(ps, c, sqrt), cp);
    PairValues(ps, c, sqrt, cp)
  }

  /** The buffer is a whole number of 5-tuples, at most one per pair of
      particles. */
  lemma ConnectionValuesSize(ps: seq<Particle>, c: Params, sqrt: real -> real)
    requires IsSqrt(sqrt)
    ensures |ConnectionValues(ps, c, sqrt)| % 5 == 0
    ensures 2 * |ConnectionValues(ps, c, sqrt)| <= 5 * (|ps| * (|ps| - 1))
  {
    var pairs := |ConnectedPairs(ps, c, sqrt)|;
    var bound := |ps| * (|ps| - 1);
    ConnectedPairsCount(ps, c, sqrt);
    assert 2 * pairs <= bound;
    assert |ConnectionValues(ps, c, sqrt)| == 5 * pairs;
  }

  /** Tuple `k` of the buffer is `x1, y1, x2, y2, opacity` of the `k`-th
      emitted pair. */
  lemma ConnectionValuesAt(ps: seq<Particle>, c: Params, sqrt: real -> real, k: nat)
    requires IsSqrt(sqrt)
    requires k < |ConnectedPairs(ps, c, sqrt)|
    ensures ValidPair(ps, c, sqrt, ConnectedPairs(ps, c, sqrt)[k])
    ensures ConnectionValues(ps, c, sqrt)[5 * k..5 * k + 5] ==
      var (i, j) := ConnectedPairs(ps, c, sqrt)[k];
      [ps[i].x, ps[i].y, ps[j].x, ps[j].y, Opacity(ps[i], ps[j], c, sqrt)]
  {
    var cp := ConnectedPairs(ps, c, sqrt);
    var entry := EntryOf(ps, c, sqrt);
    ConnectedPairsSound(ps, c, sqrt);
    assert forall k :: 0 <= k < |cp| ==> |entry(cp[k])| == 5;
    var r := ConnectionValues(ps, c, sqrt);
    EntryOfValid(ps, c, sqrt, cp[k]);
    forall t | 0 <= t < 5 ensures r[5 * k + t] == entry(cp[k])[t] {
      EntriesAt(entry, cp, k, t);
    }
    assert r[5 * k..5 * k + 5] == entry(cp[k]);
  }

  /** Two particles 10 apart with a connection distance of 20 and the
      pointer parked off-screen give one tuple at opacity 0.5. */
  lemma TwoParticleExample(sqrt: real -> real)
    requires IsSqrt(sqrt)
    ensures var p1 := Particle(0.0, 0.0, 0.0, 0.0, 1.0, 0.0, 0.0, 0.0, 0.0, 0.0, false);
      var p2 := Particle(10.0, 0.0, 0.0, 0.0, 1.0, 0.0, 0.0, 0.0, 0.0, 0.0, false);
      var c := Params(100.0, 100.0, 20.0, -1000.0, -1000.0, 150.0, 1.0, 0.4, 1.0);
      ConnectionValues([p1, p2], c, sqrt) == [0.0, 0.0, 10.0, 0.0, 0.5]
  {
    var p1 := Particle(0.0, 0.0, 0.0, 0.0, 1.0, 0.0, 0.0, 0.0, 0.0, 0.0, false);
    var p2 := Particle(10.0, 0.0, 0.0, 0.0, 1.0, 0.0, 0.0, 0.0, 0.0, 0.0, false);
    var c := Params(100.0, 100.0, 20.0, -1000.0, -1000.0, 150.0, 1.0, 0.4, 1.0);
    var ps := [p1, p2];
    assert SumOfSquares(Abs(p1.x - p2.x), Abs(p1.y - p2.y)) == 10.0 * 10.0;
    SqrtOfSquare(sqrt, 10.0);
    assert PairDistance(p1, p2, sqrt) == 10.0;
    assert Linked(p1, p2, c, sqrt);
    SqrtBelow(sqrt, DistanceSq(p1, c), 150.0);
    SqrtBelow(sqrt, DistanceSq(p2, c), 150.0);
    assert !NearPointer(p1, c, sqrt) && !NearPointer(p2, c, sqrt);
    assert Opacity(p1, p2, c, sqrt) == 0.5;
    var linked := LinkTest(ps, c, sqrt);
    assert linked(0, 1);
    assert Row(linked, 1, 2) == [];
    assert Row(linked, 0, 2) == [(0, 1)];
    assert ConnectedPairs(ps, c, sqrt) == [(0, 1)];
    assert PairValues(ps, c, sqrt, [(0, 1)]) == Entries(EntryOf(ps, c, sqrt), []) + EntryOf(ps, c, sqrt)((0, 1));
  }
}
