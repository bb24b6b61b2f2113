/** Two proxies that should agree: the detector's verdict and the dashboard's,
    which computes its correlation with a centred loop instead of raw sums. */
module Divergence {
  import opened Arithmetic
  import opened Collections
  import opened Pearson

  /** The dashboard's cut-off, in each variance and in the base value. */
  const TINY: real := 0.000000001
  const DEFAULT_PROXY_DELTA_PCT: real := 5.0
  const DEFAULT_PROXY_R: real := 0.6

  // ---- the dashboard's loop ----

  method Mean(p: Pairs, second: bool) returns (m: real)
    requires p != []
    ensures m == if second then MeanY(p) else MeanX(p)
  {
    var sum := 0.0;
    for i := 0 to |p|
      invariant sum + SumX(p[i..]) == SumX(p) || second
      invariant sum + SumY(p[i..]) == SumY(p) || !second
    {
      assert p[i..][1..] == p[i + 1..];
      sum := sum + (if second then p[i].1 else p[i].0);
    }
    assert p[|p|..] == [];
    m := sum / N(p);
  }

  lemma CentredStep(p: Pairs, i: nat, a: real, b: real)
    requires i < |p|
    ensures CentredXY(p[i..], a, b) == CentredXY(p[i + 1..], a, b) + Off(p[i].0, p[i].1, a, b)
    ensures CentredXX(p[i..], a) == CentredXX(p[i + 1..], a) + Off(p[i].0, p[i].0, a, a)
    ensures CentredYY(p[i..], b) == CentredYY(p[i + 1..], b) + Off(p[i].1, p[i].1, b, b)
  {
    hide Off;
    assert p[i..][1..] == p[i + 1..];
  }

  lemma CentredDone(p: Pairs, a: real, b: real)
    ensures CentredXY(p[|p|..], a, b) == CentredXX(p[|p|..], a) == CentredYY(p[|p|..], b) == 0.0
  {
  }

  /** The three accumulators after the loop are the centred sums at the means. */
  method CentredSums(p: Pairs) returns (num: real, da: real, db: real)
    requires p != []
    ensures num == CentredXY(p, MeanX(p), MeanY(p))
    ensures da == CentredXX(p, MeanX(p)) && db == CentredYY(p, MeanY(p))
  {
    hide CentredXY, CentredXX, CentredYY, MeanX, MeanY;
    var ma := Mean(p, false);
    var mb := Mean(p, true);
    num, da, db := 0.0, 0.0, 0.0;
    assert p[0..] == p;
    for i := 0 to |p|
      invariant num + CentredXY(p[i..], ma, mb) == CentredXY(p, ma, mb)
      invariant da + CentredXX(p[i..], ma) == CentredXX(p, ma)
      invariant db + CentredYY(p[i..], mb) == CentredYY(p, mb)
    {
      CentredStep(p, i, ma, mb);
      num := num + (p[i].0 - ma) * (p[i].1 - mb);
      da := da + (p[i].0 - ma) * (p[i].0 - ma);
      db := db + (p[i].1 - mb) * (p[i].1 - mb);
    }
    CentredDone(p, ma, mb);
  }

  predicate DashboardGuard(p: Pairs)
    requires p != []
  {
    CentredXX(p, MeanX(p)) > TINY && CentredYY(p, MeanY(p)) > TINY
  }

  /** The dashboard's coefficient, given the root of the product of its sums
      (positive past the guard, see GuardedRoot). */
  function DashboardR(p: Pairs, root: real): real
    requires p != []
  {
    if DashboardGuard(p) && root > 0.0 then CentredXY(p, MeanX(p), MeanY(p)) / root else 0.0
  }

  lemma GuardedRoot(da: real, db: real, root: real)
    requires da > TINY && db > TINY && IsSqrt(root, da * db)
    ensures root > 0.0
  {
    ProductPositive(da, db);
  }

  lemma RootsScale(n: real, da: real, db: real, vx: real, vy: real, d: real, e: real, root: real, rootJs: real)
    requires n > 0.0 && n * da == vx && n * db == vy && d == vx * vy && e == da * db
    requires IsSqrt(root, d) && IsSqrt(rootJs, e)
    ensures root == n * rootJs
  {
    ProductNonneg(n, rootJs);
    assert (n * rootJs) * (n * rootJs) == (n * n) * (rootJs * rootJs);
    assert (n * da) * (n * db) == (n * n) * (da * db);
    RootUnique(root, n * rootJs, d);
  }

  lemma QuotientScales(c: real, n: real, num: real, root: real, rootJs: real)
    requires n > 0.0 && rootJs > 0.0 && c == n * num && root == n * rootJs
    ensures root > 0.0 && c / root == num / rootJs
  {
    ProductPositive(n, rootJs);
    var q := num / rootJs;
    assert q * rootJs == num;
    assert q * root == n * (q * rootJs);
  }

  /** Detector and dashboard compute the same coefficient for every input they
      both accept, except that their cut-offs differ: they disagree exactly when
      one of them is cut off, the other is not, and the covariance is nonzero. */
  lemma SameCoefficient(p: Pairs, da: real, db: real, root: real, rootJs: real)
    requires |p| >= 2
    requires IsSqrt(root, VarX(p) * VarY(p))
    requires da == CentredXX(p, MeanX(p)) && db == CentredYY(p, MeanY(p)) && IsSqrt(rootJs, da * db)
    ensures R(p, root) == DashboardR(p, rootJs)
            <==> Cov(p) == 0.0 || (root >= EPSILON <==> DashboardGuard(p))
  {
    hide Cov, VarX, VarY, CentredXX, CentredYY, CentredXY, MeanX, MeanY;
    CentredIsRaw(p);
    RootsScale(N(p), da, db, VarX(p), VarY(p), VarX(p) * VarY(p), da * db, root, rootJs);
    if DashboardGuard(p) {
      GuardedRoot(da, db, rootJs);
    }
    if rootJs > 0.0 {
      QuotientScales(Cov(p), N(p), CentredXY(p, MeanX(p), MeanY(p)), root, rootJs);
      ZeroQuotient(Cov(p), root);
    }
  }

  lemma TwoPoints(p: Pairs, d: real)
    requires p == [(0.0, 0.0), (d, d)]
    ensures SumX(p) == SumY(p) == d && SumXX(p) == SumXY(p) == SumYY(p) == Times(d, d)
    ensures CentredXX(p, MeanX(p)) == Off(0.0, 0.0, MeanX(p), MeanX(p)) + Off(d, d, MeanX(p), MeanX(p))
    ensures MeanX(p) == d / 2.0
  {
    hide Off;
    var q := p[1..];
    assert q == [(d, d)] && q[0] == (d, d) && q[1..] == [];
    SumsHead(p);
    SumsHead(q);
    var m := MeanX(p);
    assert CentredXX(q, m) == CentredXX(q[1..], m) + Off(q[0].0, q[0].0, m, m);
    assert CentredXX(p, m) == CentredXX(q, m) + Off(p[0].0, p[0].0, m, m);
    assert Times(0.0, 0.0) == 0.0;
  }

  /** The cut-offs do differ: on two close, perfectly aligned observations the
      detector reports 1 and the dashboard 0. */
  lemma CutOffsDiffer(rootJs: real)
    ensures var p := [(0.0, 0.0), (0.00001, 0.00001)];
            && IsSqrt(0.0000000001, VarX(p) * VarY(p))
            && R(p, 0.0000000001) == 1.0 && DashboardR(p, rootJs) == 0.0
  {
    hide SumX, SumY, SumXX, SumXY, SumYY, CentredXX, CentredYY, CentredXY, MeanX, MeanY;
    var p: Pairs := [(0.0, 0.0), (0.00001, 0.00001)];
    TwoPoints(p, 0.00001);
    assert VarX(p) == 0.0000000001;
    assert VarY(p) == 0.0000000001;
    assert Cov(p) == 0.0000000001;
    assert CentredXX(p, MeanX(p)) == 0.00000000005;
  }

  // ---- the two verdicts ----

  datatype Verdict = TooFewPairs | Verdict(diverged: bool, decoupled: bool)

  function Base(a: real, b: real): real {
    if Abs(a) >= Abs(b) then Abs(a) else Abs(b)
  }

  /** Distance of the latest pair in percent of the larger magnitude. */
  function DeltaPct(a: real, b: real): real
    requires a != 0.0 || b != 0.0
  {
    (Abs(a - b) / Base(a, b)) * 100.0
  }

  lemma DeltaBounded(a: real, b: real)
    requires a != 0.0 || b != 0.0
    ensures 0.0 <= DeltaPct(a, b) <= 200.0
    ensures DeltaPct(a, b) == 0.0 <==> a == b
  {
    QuotientRange(Abs(a - b), Base(a, b), 2.0);
  }

  /** The larger magnitude of the two. */
  predicate Larger(m: real, a: real, b: real) {
    Abs(a) <= m && Abs(b) <= m && (m == Abs(a) || m == Abs(b))
  }

  /** The distance reaches line percent exactly when a hundred times the difference
      reaches line times the larger magnitude. */
  lemma DeltaInFull(a: real, b: real, m: real, line: real)
    requires Larger(m, a, b) && m > 0.0
    ensures Base(a, b) == m && Product(DeltaPct(a, b), m, 100.0 * Abs(a - b))
    ensures DeltaPct(a, b) >= line <==> 100.0 * Abs(a - b) >= line * m
  {
    assert Base(a, b) == m;
    PercentReaches(Abs(a - b), m, line);
    hide Abs, Base, Product;
  }

  lemma PercentReaches(x: real, m: real, line: real)
    requires m > 0.0
    ensures Product((x / m) * 100.0, m, 100.0 * x)
    ensures (x / m) * 100.0 >= line <==> 100.0 * x >= line * m
  {
    var q := x / m;
    var pct := q * 100.0;
    assert q * m == x;
    assert pct * m == 100.0 * (q * m);
    ProductOrder(line, pct, m);
  }

  function DetectorVerdict(p: Pairs, deltaPct: real, minR: real, root: real): Verdict {
    if |p| < MIN_SAMPLES then TooFewPairs
    else
      var (a, b) := p[|p| - 1];
      var delta := if deltaPct > 0.0 then deltaPct else DEFAULT_PROXY_DELTA_PCT;
      var floor := if minR > 0.0 then minR else DEFAULT_PROXY_R;
      Verdict(Base(a, b) > EPSILON && DeltaPct(a, b) >= delta, Abs(R(p, root)) < floor)
  }

  /** The watch line of the page: an entry of 0, like one it cannot read, means the
      default; a negative one stands. */
  function WatchLine(entered: real): real {
    if entered == 0.0 then 5.0 else entered
  }

  function DashboardVerdict(p: Pairs, entered: real, rootJs: real): Verdict {
    if |p| < 4 then TooFewPairs
    else
      var (a, b) := p[|p| - 1];
      var observed := if Base(a, b) > TINY then DeltaPct(a, b) else 0.0;
      Verdict(observed >= WatchLine(entered), Abs(DashboardR(p, rootJs)) < 0.6)
  }

  /** The detector's verdict on the latest pair and on all of them: it needs four pairs,
      a larger magnitude above 2 to the power -52, and a difference of delta percent of
      it, 5 by default; and a coefficient below the floor, 0.6 by default. */
  lemma DetectorInFull(p: Pairs, deltaPct: real, minR: real, root: real, a: real, b: real, m: real, line: real)
    requires p != [] && p[|p| - 1] == (a, b) && Larger(m, a, b)
    requires line == if deltaPct > 0.0 then deltaPct else 5.0
    ensures DetectorVerdict(p, deltaPct, minR, root)
            == if |p| < 4 then TooFewPairs
               else Verdict(m > 1.0 / 4503599627370496.0 && 100.0 * Abs(a - b) >= line * m,
                            Abs(R(p, root)) < if minR > 0.0 then minR else 0.6)
  {
    hide R, DeltaPct;
    if m > 0.0 {
      DeltaInFull(a, b, m, line);
    }
  }

  /** The page's, which takes the distance of a pair up to 1e-9 as 0. */
  lemma DashboardInFull(p: Pairs, entered: real, rootJs: real, a: real, b: real, m: real, line: real)
    requires p != [] && p[|p| - 1] == (a, b) && Larger(m, a, b)
    requires line == if entered == 0.0 then 5.0 else entered
    ensures DashboardVerdict(p, entered, rootJs)
            == if |p| < 4 then TooFewPairs
               else Verdict(if m > 0.000000001 then 100.0 * Abs(a - b) >= line * m else line <= 0.0,
                            Abs(DashboardR(p, rootJs)) < 0.6)
  {
    hide DashboardR, DeltaPct;
    if m > 0.0 {
      DeltaInFull(a, b, m, line);
    }
  }

  /** The page's coefficient: past 1e-9 in both centred sums, times the root it is the
      centred cross sum, and otherwise 0. */
  lemma DashboardCoefficient(p: Pairs, rootJs: real)
    requires p != []
    ensures var guard := CentredXX(p, MeanX(p)) > 0.000000001 && CentredYY(p, MeanY(p)) > 0.000000001;
            if guard && rootJs > 0.0 then Product(DashboardR(p, rootJs), rootJs, CentredXY(p, MeanX(p), MeanY(p)))
            else DashboardR(p, rootJs) == 0.0
  {
    hide CentredXX, CentredYY, CentredXY, MeanX, MeanY;
    if rootJs > 0.0 {
      OverTimes(CentredXY(p, MeanX(p), MeanY(p)), rootJs);
    }
  }

  /** The coefficient of whichever side is not cut off. */
  function Uncut(p: Pairs, root: real, rootJs: real): real
    requires p != []
  {
    if root >= EPSILON then R(p, root) else DashboardR(p, rootJs)
  }

  /** Both see the same decoupling exactly when their correlation cut-offs fall
      alike, or the coefficient that only one of them computes is below the floor
      like the 0 of the other. */
  lemma SameDecoupling(p: Pairs, da: real, db: real, root: real, rootJs: real)
    requires |p| >= 2
    requires IsSqrt(root, VarX(p) * VarY(p))
    requires da == CentredXX(p, MeanX(p)) && db == CentredYY(p, MeanY(p)) && IsSqrt(rootJs, da * db)
    ensures (Abs(R(p, root)) < DEFAULT_PROXY_R <==> Abs(DashboardR(p, rootJs)) < DEFAULT_PROXY_R)
            <==> (root >= EPSILON <==> DashboardGuard(p)) || Abs(Uncut(p, root, rootJs)) < DEFAULT_PROXY_R
  {
    hide Cov, VarX, VarY, CentredXX, CentredYY, CentredXY, MeanX, MeanY;
    SameCoefficient(p, da, db, root, rootJs);
    if DashboardGuard(p) {
      GuardedRoot(da, db, rootJs);
    }
  }

  /** With the same threshold and the default correlation floor, page and detector
      give the same verdict exactly when each cut-off falls alike or makes no
      difference: a base between the two cut-offs must be within the threshold, and
      a coefficient that only one side computes must be below the floor. Under a
      negative threshold the page always reports a divergence, and the detector
      falls back to its default. */
  lemma SameVerdict(p: Pairs, threshold: real, da: real, db: real, root: real, rootJs: real)
    requires IsSqrt(root, VarX(p) * VarY(p))
    requires p != [] ==>
               da == CentredXX(p, MeanX(p)) && db == CentredYY(p, MeanY(p)) && IsSqrt(rootJs, da * db)
    ensures DetectorVerdict(p, threshold, DEFAULT_PROXY_R, root) == DashboardVerdict(p, threshold, rootJs)
            <==> |p| >= MIN_SAMPLES ==>
                   var (a, b) := p[|p| - 1];
                   && (if threshold < 0.0 then Base(a, b) > EPSILON && DeltaPct(a, b) >= DEFAULT_PROXY_DELTA_PCT
                       else EPSILON < Base(a, b) <= TINY ==> DeltaPct(a, b) < WatchLine(threshold))
                   && ((root >= EPSILON <==> DashboardGuard(p)) || Abs(Uncut(p, root, rootJs)) < DEFAULT_PROXY_R)
  {
    hide Cov, VarX, VarY, CentredXX, CentredYY, CentredXY, MeanX, MeanY, R, DashboardR, DashboardGuard, Uncut, DeltaPct;
    if |p| >= MIN_SAMPLES {
      SameDecoupling(p, da, db, root, rootJs);
      var (a, b) := p[|p| - 1];
      if a != 0.0 || b != 0.0 {
        DeltaBounded(a, b);
      }
    }
  }
}
