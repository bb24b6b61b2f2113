/** Trend breaks: the points where a long enough run of moves in one direction is
    followed at once by a move in the other. */
module TrendBreak {
  import opened Collections

  type Series = seq<(string, real)>

  datatype Finding = Finding(
    at: nat,                         // index of the reversing move
    runLength: nat,                  // moves in the trend it ends
    rising: bool,                    // direction of that trend
    prev: (string, real),            // last point of the trend
    next: (string, real))            // first point of the new direction

  function Sign(d: real): int {
    if d > 0.0 then 1 else if d < 0.0 then -1 else 0
  }

  /** Direction of move i, from point i to point i + 1. */
  function Dir(s: Series, i: nat): int
    requires i + 1 < |s|
  {
    Sign(s[i + 1].1 - s[i].1)
  }

  /** Move i reverses m moves of the opposite direction right before it. */
  ghost predicate Reverses(s: Series, i: nat, m: nat) {
    && m <= i && i + 1 < |s|
    && Dir(s, i) != 0
    && forall k | i - m <= k < i :: Dir(s, k) == -Dir(s, i)
  }

  /** The moves from start up to i form a maximal run of direction dir. */
  ghost predicate MaximalRun(s: Series, start: nat, i: nat, dir: int) {
    && start < i && i < |s| && dir != 0
    && (forall k | start <= k < i :: Dir(s, k) == dir)
    && (start > 0 ==> Dir(s, start - 1) != dir)
  }

  /** What the loop knows before move i: the current run, or that the last move
      was flat (or there was none). */
  ghost predicate RunState(s: Series, i: nat, start: nat, dir: int) {
    && start <= i < |s|
    && (dir == 0 ==> start == i && (i > 0 ==> Dir(s, i - 1) == 0))
    && (dir != 0 ==> MaximalRun(s, start, i, dir))
  }

  /** A finding reports a reversal of a maximal run of at least m moves. */
  ghost predicate Faithful(s: Series, f: Finding, m: nat) {
    && f.at + 1 < |s| && f.runLength >= m && f.runLength <= f.at
    && MaximalRun(s, f.at - f.runLength, f.at, if f.rising then 1 else -1)
    && Dir(s, f.at) == (if f.rising then -1 else 1)
    && f.prev == s[f.at] && f.next == s[f.at + 1]
  }

  lemma RunEndsHere(s: Series, start: nat, i: nat, dir: int, m: nat)
    requires MaximalRun(s, start, i, dir) && i + 1 < |s| && m >= 1
    ensures Reverses(s, i, m) <==> Dir(s, i) == -dir && i - start >= m
  {
    assert Dir(s, i - 1) == dir;
    assert start > 0 ==> Dir(s, start - 1) != dir;
  }

  lemma NoRunEndsHere(s: Series, i: nat, m: nat)
    requires i + 1 < |s| && m >= 1 && (i > 0 ==> Dir(s, i - 1) == 0)
    ensures !Reverses(s, i, m)
  {
    if i > 0 {
      assert Dir(s, i - 1) == 0;
    }
  }

  /** A reversal, in terms of the values: m moves up and a move down, or the other
      way round. */
  lemma ReversalInFull(s: Series, i: nat, m: nat)
    requires m >= 1
    ensures Reverses(s, i, m) <==>
              && m <= i && i + 1 < |s|
              && (|| ((forall k | i - m <= k < i :: s[k].1 < s[k + 1].1) && s[i].1 > s[i + 1].1)
                  || ((forall k | i - m <= k < i :: s[k].1 > s[k + 1].1) && s[i].1 < s[i + 1].1))
  {
    if m <= i && i + 1 < |s| {
      assert forall k | i - m <= k < i :: Dir(s, k) == Sign(s[k + 1].1 - s[k].1);
      assert Reverses(s, i, m) ==> Dir(s, i - 1) == -Dir(s, i);
      var k := i - 1;
      assert i - m <= k < i;
    }
  }

  /** What a finding says, in terms of the values: the trend rose or fell at every one
      of its moves, and at no move before the first, and the last two points go the
      other way. */
  lemma FindingInFull(s: Series, f: Finding, m: nat)
    requires Faithful(s, f, m)
    ensures m <= f.runLength <= f.at && f.at + 1 < |s|
    ensures f.prev == s[f.at] && f.next == s[f.at + 1]
    ensures var from := f.at - f.runLength;
            if f.rising then
              && (forall k | from <= k < f.at :: s[k].1 < s[k + 1].1)
              && f.next.1 < f.prev.1 && (from > 0 ==> s[from - 1].1 >= s[from].1)
            else
              && (forall k | from <= k < f.at :: s[k].1 > s[k + 1].1)
              && f.next.1 > f.prev.1 && (from > 0 ==> s[from - 1].1 <= s[from].1)
  {
    var from := f.at - f.runLength;
    forall k | from <= k < f.at
      ensures if f.rising then s[k].1 < s[k + 1].1 else s[k].1 > s[k + 1].1
    {
      assert Dir(s, k) == if f.rising then 1 else -1;
    }
  }

  /** What the loop knows before the next move. */
  lemma RunAdvances(s: Series, i: nat, start: nat, dir: int)
    requires RunState(s, i, start, dir) && i + 1 < |s|
    ensures -1 <= dir <= 1 && start <= i
    ensures var d := Dir(s, i);
            if d == 0 then RunState(s, i + 1, i + 1, 0)
            else if dir == d then RunState(s, i + 1, start, dir)
            else RunState(s, i + 1, i, d)
  {
    if dir != 0 {
      assert Dir(s, start) == dir;
    }
  }

  lemma RunReported(s: Series, i: nat, start: nat, dir: int, m: nat)
    requires RunState(s, i, start, dir) && i + 1 < |s| && dir != 0 && Dir(s, i) == -dir && i - start >= m
    ensures Faithful(s, Finding(i, i - start, dir > 0, s[i], s[i + 1]), m)
  {
    RunAdvances(s, i, start, dir);
  }

  lemma ReversalHere(s: Series, i: nat, start: nat, dir: int, m: nat)
    requires RunState(s, i, start, dir) && i + 1 < |s| && m >= 1
    ensures Reverses(s, i, m) <==> dir != 0 && Dir(s, i) == -dir && i - start >= m
  {
    if dir != 0 {
      RunEndsHere(s, start, i, dir, m);
    } else {
      NoRunEndsHere(s, i, m);
    }
  }

  /** The findings are exactly the reversals of maximal runs of at least
      max(minRun, 2) moves, in order, each with the whole run it ends. */
  method DetectTrendBreak(s: Series, minRun: nat) returns (fs: seq<Finding>)
    ensures forall f | f in fs :: Faithful(s, f, Max(minRun, 2))
    ensures forall i, j | 0 <= i < j < |fs| :: fs[i].at < fs[j].at
    ensures forall i: nat :: Reverses(s, i, Max(minRun, 2)) <==> exists f :: f in fs && f.at == i
  {
    fs := [];
    var m := Max(minRun, 2);
    NoneBeyond(s, m);
    hide Reverses, MaximalRun, Faithful, Dir;
    if |s| < 3 {
      return;
    }
    var runStart, runDir := 0, 0;
    hide RunState;
    for i := 0 to |s| - 1
      invariant RunState(s, i, runStart, runDir)
      invariant forall f | f in fs :: f.at < i && Faithful(s, f, m)
      invariant forall a, b | 0 <= a < b < |fs| :: fs[a].at < fs[b].at
      invariant forall k: nat | k < i :: Reverses(s, k, m) <==> exists f :: f in fs && f.at == k
    {
      var d := s[i + 1].1 - s[i].1;
      var dir := if d > 0.0 then 1 else if d < 0.0 then -1 else 0;
      assert dir == Dir(s, i) by {
        DirIs(s, i);
      }
      RunAdvances(s, i, runStart, runDir);
      ReversalHere(s, i, runStart, runDir, m);
      if dir == 0 {
        runStart := i + 1;
        runDir := 0;
        continue;
      }
      if runDir != 0 && dir != runDir {
        var runLen := i - runStart;
        if runLen >= m {
          RunReported(s, i, runStart, runDir, m);
          fs := fs + [Finding(i, runLen, runDir > 0, s[i], s[i + 1])];
        }
        runStart := i;
        runDir := dir;
      } else if runDir == 0 {
        runStart := i;
        runDir := dir;
      }
    }
  }

  lemma DirIs(s: Series, i: nat)
    requires i + 1 < |s|
    ensures Dir(s, i) == (var d := s[i + 1].1 - s[i].1; if d > 0.0 then 1 else if d < 0.0 then -1 else 0)
  {
  }

  lemma NoneBeyond(s: Series, m: nat)
    requires m >= 2
    ensures forall i: nat | i + 1 >= |s| || |s| < 3 :: !Reverses(s, i, m)
  {
  }

  // ---- spacing ----

  /** Two reversals are at least m moves apart. */
  lemma ReversalsApart(s: Series, i: nat, j: nat, m: nat)
    requires Reverses(s, i, m) && Reverses(s, j, m) && i < j && m >= 1
    ensures j - i >= m
  {
    assert Dir(s, i - 1) == -Dir(s, i);
  }

  /** So n findings need at least n·m moves before the last of them. */
  lemma {:induction false} FindingsBounded(s: Series, fs: seq<Finding>, m: nat)
    requires m >= 1 && fs != []
    requires forall f | f in fs :: Faithful(s, f, m)
    requires forall i, j | 0 <= i < j < |fs| :: fs[i].at < fs[j].at
    ensures |fs| * m <= fs[|fs| - 1].at < |s| - 1
  {
    var last := |fs| - 1;
    assert Faithful(s, fs[last], m);
    if last > 0 {
      FindingsBounded(s, fs[..last], m);
      assert Faithful(s, fs[last - 1], m);
      ReversalsApart(s, fs[last - 1].at, fs[last].at, m);
      assert |fs| * m == last * m + m;
    }
  }

  // ---- invariance ----

  /** The series with every value mapped to scale·v + shift. */
  function Mapped(s: Series, scale: real, shift: real): Series {
    seq(|s|, i requires 0 <= i < |s| => (s[i].0, scale * s[i].1 + shift))
  }

  lemma MappedDir(s: Series, scale: real, shift: real, i: nat)
    requires i + 1 < |s| && scale != 0.0
    ensures Dir(Mapped(s, scale, shift), i) == (if scale > 0.0 then Dir(s, i) else -Dir(s, i))
  {
    var d := s[i + 1].1 - s[i].1;
    assert (scale * s[i + 1].1 + shift) - (scale * s[i].1 + shift) == scale * d;
    if d > 0.0 && scale > 0.0 {
      assert scale * d > 0.0;
    } else if d < 0.0 && scale > 0.0 {
      assert scale * (-d) > 0.0;
    } else if d > 0.0 {
      assert (-scale) * d > 0.0;
    } else if d < 0.0 {
      assert (-scale) * (-d) > 0.0;
    }
  }

  /** Negating, scaling or shifting a series leaves its break positions where
      they are. */
  lemma BreaksInvariant(s: Series, scale: real, shift: real, i: nat, m: nat)
    requires scale != 0.0
    ensures Reverses(Mapped(s, scale, shift), i, m) <==> Reverses(s, i, m)
  {
    if m <= i && i + 1 < |s| {
      forall k | i - m <= k <= i
        ensures Dir(Mapped(s, scale, shift), k) == (if scale > 0.0 then Dir(s, k) else -Dir(s, k))
      {
        MappedDir(s, scale, shift, k);
      }
    }
  }
}
