/** The brief's diversifier: items are grouped by series and dealt out in turns,
    one per group and round. */
module Diversify {
  import opened Collections

  /** evidenceField is the field of the first evidence row, if there is one. */
  datatype Item = Item(source: string, dataset: string, evidenceField: Option<string>, id: string)

  function Key(i: Item): string {
    i.source + "/" + i.dataset + "/" + (if i.evidenceField.None? then "" else i.evidenceField.value)
  }

  const LATE_CAP: nat := 999
  const EARLY_CAP: nat := 2

  // ---- groups ----

  /** Two items are in one group exactly when they agree in source, dataset and field,
      an absent field being like an empty one, as long as no source or dataset name
      holds a slash. */
  lemma SameGroupExactly(x: Item, y: Item)
    requires '/' !in x.source && '/' !in y.source && '/' !in x.dataset && '/' !in y.dataset
    ensures Key(x) == Key(y)
            <==> && x.source == y.source && x.dataset == y.dataset
                 && (x.evidenceField == y.evidenceField
                     || (x.evidenceField in {None, Some("")} && y.evidenceField in {None, Some("")}))
  {
    var a := if x.evidenceField.None? then "" else x.evidenceField.value;
    var b := if y.evidenceField.None? then "" else y.evidenceField.value;
    KeyNests(x, a);
    KeyNests(y, b);
    hide Key;
    if Key(x) == Key(y) {
      FirstSlash(x.source, x.dataset + ("/" + a), y.source, y.dataset + ("/" + b));
      FirstSlash(x.dataset, a, y.dataset, b);
    }
  }

  lemma KeyNests(x: Item, field: string)
    requires field == if x.evidenceField.None? then "" else x.evidenceField.value
    ensures Key(x) == x.source + ("/" + (x.dataset + ("/" + field)))
  {
  }

  lemma FirstSlash(a: string, x: string, b: string, y: string)
    requires '/' !in a && '/' !in b && a + ("/" + x) == b + ("/" + y)
    ensures a == b && x == y
  {
    var whole := a + ("/" + x);
    assert whole[|a|] == '/' && whole[|b|] == '/';
    assert a == whole[..|a|] && b == whole[..|b|];
    assert |a| == |b|;
    assert x == whole[|a| + 1..] && y == whole[|b| + 1..];
  }

  /** Group names in order of first appearance. */
  function GroupKeys(items: seq<Item>): seq<string> {
    if items == [] then []
    else
      var front := GroupKeys(items[..|items| - 1]);
      var k := Key(items[|items| - 1]);
      if k in front then front else front + [k]
  }

  /** The positions of one group's items, ascending. */
  function Positions(items: seq<Item>, k: string): seq<nat> {
    if items == [] then []
    else Positions(items[..|items| - 1], k) + (if Key(items[|items| - 1]) == k then [|items| - 1] else [])
  }

  function Groups(items: seq<Item>): seq<seq<nat>> {
    seq(|GroupKeys(items)|, j requires 0 <= j < |GroupKeys(items)| => Positions(items, GroupKeys(items)[j]))
  }

  lemma {:induction false} GroupKeysCover(items: seq<Item>)
    ensures NoDuplicates(GroupKeys(items))
    ensures forall k :: k in GroupKeys(items) <==> exists i :: 0 <= i < |items| && Key(items[i]) == k
  {
    if items != [] {
      var n := |items| - 1;
      GroupKeysCover(items[..n]);
      forall k
        ensures k in GroupKeys(items) <==> exists i :: 0 <= i < |items| && Key(items[i]) == k
      {
        if k in GroupKeys(items[..n]) {
          var i :| 0 <= i < n && Key(items[..n][i]) == k;
          assert Key(items[i]) == k;
        }
        if i :| 0 <= i < |items| && Key(items[i]) == k {
          assert i < n ==> Key(items[..n][i]) == k;
        }
      }
    }
  }

  lemma {:induction false} PositionsExact(items: seq<Item>, k: string)
    ensures forall i, j | 0 <= i < j < |Positions(items, k)| :: Positions(items, k)[i] < Positions(items, k)[j]
    ensures forall p :: p in Positions(items, k) <==> 0 <= p < |items| && Key(items[p]) == k
  {
    if items != [] {
      var front := items[..|items| - 1];
      PositionsExact(front, k);
      assert forall i | 0 <= i < |Positions(front, k)| :: Positions(front, k)[i] in Positions(front, k);
    }
  }

  // ---- the reference: deal column by column ----

  /** The r-th element of every group that has one, in group order. */
  function Column(gs: seq<seq<nat>>, r: nat): seq<nat> {
    if gs == [] then []
    else
      var last := |gs| - 1;
      Column(gs[..last], r) + (if r < |gs[last]| then [gs[last][r]] else [])
  }

  /** The first d columns, one after another. */
  function Columns(gs: seq<seq<nat>>, d: nat): seq<nat> {
    if d == 0 then [] else Columns(gs, d - 1) + Column(gs, d - 1)
  }

  /** The deal, cut off after n. */
  function Dealt(gs: seq<seq<nat>>, n: int): seq<nat> {
    var whole := Columns(gs, LATE_CAP);
    whole[..Min(Max(n, 0), |whole|)]
  }

  // ---- the program ----

  method BuildGroups(items: seq<Item>) returns (groupKeys: seq<string>, groups: map<string, seq<nat>>)
    ensures groupKeys == GroupKeys(items)
    ensures groups.Keys == set k | k in groupKeys
    ensures forall k | k in groups :: groups[k] == Positions(items, k)
  {
    groupKeys, groups := [], map[];
    for i := 0 to |items|
      invariant groupKeys == GroupKeys(items[..i])
      invariant groups.Keys == set k | k in groupKeys
      invariant forall k | k in groups :: groups[k] == Positions(items[..i], k)
      invariant forall k | k !in groups :: Positions(items[..i], k) == []
    {
      assert items[..i + 1][..i] == items[..i];
      var k := Key(items[i]);
      if k in groups {
        groups := groups[k := groups[k] + [i]];
      } else {
        groups := groups[k := [i]];
        groupKeys := groupKeys + [k];
      }
    }
    assert items[..|items|] == items;
  }

  function Pointer(pointers: map<string, nat>, k: string): nat {
    if k in pointers then pointers[k] else 0
  }

  /** How far a group has been dealt after d full rounds. */
  function Depth(g: seq<nat>, d: nat): nat {
    Min(|g|, Min(d, LATE_CAP))
  }

  /** The deal after d full rounds and the first j groups of the next. */
  function Progress(gs: seq<seq<nat>>, d: nat, j: nat): seq<nat>
    requires j <= |gs|
  {
    if d < LATE_CAP then Columns(gs, d) + Column(gs[..j], d) else Columns(gs, LATE_CAP)
  }

  ghost predicate PointersAt(keys: seq<string>, gs: seq<seq<nat>>, pointers: map<string, nat>, d: nat, j: nat) {
    && |keys| == |gs|
    && (forall a | 0 <= a < |keys| :: Pointer(pointers, keys[a]) == Depth(gs[a], if a < j then d + 1 else d))
  }

  /** A group's turn in round d takes its element d, if there is one below the
      late cap; the early cap is never what stops it. */
  lemma TurnTaken(keys: seq<string>, gs: seq<seq<nat>>, pointers: map<string, nat>, d: nat, j: nat)
    requires NoDuplicates(keys) && PointersAt(keys, gs, pointers, d, j) && j < |keys|
    ensures var p := Pointer(pointers, keys[j]);
            var cap := if d < 2 then EARLY_CAP else LATE_CAP;
            var taken := p < |gs[j]| && p < cap;
            && (taken <==> d < LATE_CAP && d < |gs[j]|)
            && (taken ==> p == d && PointersAt(keys, gs, pointers[keys[j] := p + 1], d, j + 1))
            && (!taken ==> PointersAt(keys, gs, pointers, d, j + 1))
  {
    var next := pointers[keys[j] := d + 1];
    forall a | 0 <= a < |keys| && a != j
      ensures Pointer(next, keys[a]) == Pointer(pointers, keys[a])
    {
      assert keys[a] != keys[j];
    }
  }

  lemma PointersCover(keys: seq<string>, gs: seq<seq<nat>>, pointers: map<string, nat>, d: nat, j: nat)
    requires PointersAt(keys, gs, pointers, d, j)
    ensures |keys| == |gs|
  {
  }

  lemma NextRound(keys: seq<string>, gs: seq<seq<nat>>, pointers: map<string, nat>, d: nat)
    requires PointersAt(keys, gs, pointers, d, |keys|)
    ensures PointersAt(keys, gs, pointers, d + 1, 0)
  {
  }

  lemma ProgressStep(gs: seq<seq<nat>>, d: nat, j: nat)
    requires j < |gs|
    ensures Progress(gs, d, j + 1)
            == Progress(gs, d, j) + (if d < LATE_CAP && d < |gs[j]| then [gs[j][d]] else [])
  {
    assert gs[..j + 1][..j] == gs[..j];
  }

  lemma ProgressRound(gs: seq<seq<nat>>, d: nat)
    ensures Progress(gs, d, |gs|) == Progress(gs, d + 1, 0)
  {
    assert gs[..|gs|] == gs;
    assert Column(gs[..0], d + 1) == [];
    if d + 1 == LATE_CAP {
      assert Columns(gs, LATE_CAP) == Columns(gs, d) + Column(gs, d);
    }
  }

  lemma {:induction false} ColumnsGrow(gs: seq<seq<nat>>, d: nat, e: nat)
    requires d <= e
    ensures Columns(gs, d) <= Columns(gs, e)
    decreases e
  {
    if d < e {
      ColumnsGrow(gs, d, e - 1);
    }
  }

  lemma {:induction false} ColumnPrefix(gs: seq<seq<nat>>, d: nat, j: nat)
    requires j <= |gs|
    ensures Column(gs[..j], d) <= Column(gs, d)
    decreases |gs| - j
  {
    if j < |gs| {
      assert gs[..j + 1][..j] == gs[..j];
      ColumnPrefix(gs, d, j + 1);
    } else {
      assert gs[..j] == gs;
    }
  }

  lemma ExtendPrefix(base: seq<nat>, part: seq<nat>, col: seq<nat>, whole: seq<nat>)
    requires part <= col && base + col <= whole
    ensures base + part <= whole
  {
  }

  lemma ProgressIsPrefix(gs: seq<seq<nat>>, d: nat, j: nat)
    requires j <= |gs|
    ensures Progress(gs, d, j) <= Columns(gs, LATE_CAP)
  {
    hide Column;
    if d < LATE_CAP {
      ColumnPrefix(gs, d, j);
      ColumnsGrow(gs, d + 1, LATE_CAP);
      ExtendPrefix(Columns(gs, d), Column(gs[..j], d), Column(gs, d), Columns(gs, LATE_CAP));
    }
  }

  /** Once a column is empty all later ones are. */
  lemma {:induction false} ColumnEmpty(gs: seq<seq<nat>>, d: nat, e: nat)
    requires Column(gs, d) == [] && d <= e
    ensures Column(gs, e) == []
  {
    if gs != [] {
      ColumnEmpty(gs[..|gs| - 1], d, e);
    }
  }

  lemma {:induction false} NothingAfterEmpty(gs: seq<seq<nat>>, d: nat, e: nat)
    requires Column(gs, d) == [] && d <= e
    ensures Columns(gs, e) == Columns(gs, d)
    decreases e
  {
    hide Column;
    if d < e {
      NothingAfterEmpty(gs, d, e - 1);
      ColumnEmpty(gs, d, e - 1);
    }
  }

  /** One pass over the groups, stopping as soon as the output is full. */
  method Round(
    keys: seq<string>, groups: map<string, seq<nat>>, ghost gs: seq<seq<nat>>,
    out0: seq<nat>, pointers0: map<string, nat>, idx: nat, maxN: int)
    returns (out: seq<nat>, pointers: map<string, nat>, added: bool)
    requires NoDuplicates(keys) && PointersAt(keys, gs, pointers0, idx, 0)
    requires forall a | 0 <= a < |keys| :: keys[a] in groups && groups[keys[a]] == gs[a]
    requires out0 == Progress(gs, idx, 0) && |out0| < maxN
    ensures |out| <= maxN && out <= Columns(gs, LATE_CAP)
    ensures |out| < maxN ==> out == Progress(gs, idx + 1, 0) && PointersAt(keys, gs, pointers, idx + 1, 0)
    ensures added <==> |out| > |out0|
    ensures |out| >= |out0|
  {
    hide Progress, PointersAt, Pointer, Columns, Column;
    out, pointers, added := out0, pointers0, false;
    PointersCover(keys, gs, pointers0, idx, 0);
    for j := 0 to |keys|
      invariant out == Progress(gs, idx, j) && |out| < maxN
      invariant PointersAt(keys, gs, pointers, idx, j)
      invariant |out| >= |out0| && (added <==> |out| > |out0|)
    {
      var gk := keys[j];
      var cap := if idx < 2 then EARLY_CAP else LATE_CAP;
      var p := Pointer(pointers, gk);
      ProgressStep(gs, idx, j);
      TurnTaken(keys, gs, pointers, idx, j);
      if p < |groups[gk]| && p < cap {
        out := out + [groups[gk][p]];
        pointers := pointers[gk := p + 1];
        added := true;
        if |out| >= maxN {
          ProgressIsPrefix(gs, idx, j + 1);
          return;
        }
      }
    }
    ProgressRound(gs, idx);
    ProgressIsPrefix(gs, idx + 1, 0);
    NextRound(keys, gs, pointers, idx);
  }

  lemma StartOfDeal(items: seq<Item>)
    ensures Progress(Groups(items), 0, 0) == []
    ensures PointersAt(GroupKeys(items), Groups(items), map[], 0, 0)
    ensures forall j | 0 <= j < |GroupKeys(items)| :: Groups(items)[j] == Positions(items, GroupKeys(items)[j])
  {
    assert Groups(items)[..0] == [];
  }

  /** The output is the first maxN positions of the column-by-column deal. */
  method DealOut(items: seq<Item>, maxN: int) returns (out: seq<nat>)
    ensures out == Dealt(Groups(items), maxN)
  {
    hide Progress, Columns, Column, Groups;
    var keys, groups := BuildGroups(items);
    ghost var gs := Groups(items);
    GroupKeysCover(items);
    var pointers: map<string, nat> := map[];
    var added, idx := true, 0;
    out := [];
    StartOfDeal(items);
    while added && |out| < maxN
      invariant |out| <= Max(maxN, 0) && out <= Columns(gs, LATE_CAP)
      invariant |out| < maxN ==> out == Progress(gs, idx, 0) && PointersAt(keys, gs, pointers, idx, 0)
      invariant |out| < maxN && !added ==> idx > 0 && Progress(gs, idx, 0) == Progress(gs, idx - 1, 0)
      decreases maxN - |out|, added
    {
      out, pointers, added := Round(keys, groups, gs, out, pointers, idx, maxN);
      idx := idx + 1;
    }
    if |out| < maxN {
      StalledMeansDone(gs, idx - 1);
    }
  }

  lemma StalledMeansDone(gs: seq<seq<nat>>, d: nat)
    requires Progress(gs, d + 1, 0) == Progress(gs, d, 0)
    ensures Progress(gs, d, 0) == Columns(gs, LATE_CAP)
  {
    if d < LATE_CAP {
      ProgressRound(gs, d);
      assert gs[..|gs|] == gs && Column(gs[..0], d) == [];
      assert |Columns(gs, d) + Column(gs, d)| == |Columns(gs, d)|;
      NothingAfterEmpty(gs, d, LATE_CAP);
    }
  }

  // ---- what the deal promises ----

  lemma {:induction false} ColumnBelow(gs: seq<seq<nat>>, r: nat, n: nat)
    requires forall g, p | g in gs && p in g :: p < n
    ensures forall p | p in Column(gs, r) :: p < n
  {
    if gs != [] {
      var last := gs[|gs| - 1];
      ColumnBelow(gs[..|gs| - 1], r, n);
      assert last in gs && (r < |last| ==> last[r] in last);
    }
  }

  lemma {:induction false} ColumnsBelow(gs: seq<seq<nat>>, d: nat, n: nat)
    requires forall g, p | g in gs && p in g :: p < n
    ensures forall p | p in Columns(gs, d) :: p < n
  {
    if d > 0 {
      ColumnsBelow(gs, d - 1, n);
      ColumnBelow(gs, d - 1, n);
    }
  }

  lemma DealtInRange(items: seq<Item>, maxN: int)
    ensures forall p | p in Dealt(Groups(items), maxN) :: p < |items|
  {
    forall g, p | g in Groups(items) && p in g
      ensures p < |items|
    {
      var j :| 0 <= j < |Groups(items)| && Groups(items)[j] == g;
      PositionsExact(items, GroupKeys(items)[j]);
    }
    ColumnsBelow(Groups(items), LATE_CAP, |items|);
    var whole := Columns(Groups(items), LATE_CAP);
    forall p | p in Dealt(Groups(items), maxN)
      ensures p < |items|
    {
      assert p in whole;
    }
  }

  /** What n groups can give in d turns each. */
  function Quota(gs: seq<seq<nat>>, d: nat): nat {
    if gs == [] then 0 else Quota(gs[..|gs| - 1], d) + Min(|gs[|gs| - 1]|, d)
  }

  lemma {:induction false} QuotaStep(gs: seq<seq<nat>>, d: nat)
    ensures Quota(gs, d + 1) == Quota(gs, d) + |Column(gs, d)|
    ensures Quota(gs, 0) == 0
  {
    if gs != [] {
      QuotaStep(gs[..|gs| - 1], d);
    }
  }

  lemma {:induction false} ColumnsLength(gs: seq<seq<nat>>, d: nat)
    ensures |Columns(gs, d)| == Quota(gs, d)
  {
    hide Column, Quota;
    if d == 0 {
      QuotaStep(gs, 0);
    } else {
      QuotaStep(gs, d - 1);
      ColumnsLength(gs, d - 1);
    }
  }

  /** As many are emitted as the limit and the groups allow. */
  lemma DealtLength(items: seq<Item>, maxN: int)
    ensures |Dealt(Groups(items), maxN)| == Min(Max(maxN, 0), Quota(Groups(items), 999))
  {
    ColumnsLength(Groups(items), LATE_CAP);
  }

  /** Selects the positions of one group. */
  function InGroup(items: seq<Item>, k: string): nat -> bool {
    (p: nat) => 0 <= p < |items| && Key(items[p]) == k
  }

  /** What one group contributed to an output, in the order it was emitted. */
  function Share(items: seq<Item>, out: seq<nat>, k: string): seq<nat> {
    Filter(out, InGroup(items, k))
  }

  /** f selects the a-th group and nothing of the others. */
  ghost predicate Selects(gs: seq<seq<nat>>, a: nat, f: nat -> bool) {
    && a < |gs|
    && forall b, i | 0 <= b < |gs| && 0 <= i < |gs[b]| :: f(gs[b][i]) <==> a == b
  }

  lemma {:induction false} ColumnShare(gs: seq<seq<nat>>, a: nat, f: nat -> bool, r: nat, j: nat)
    requires Selects(gs, a, f) && j <= |gs|
    ensures Filter(Column(gs[..j], r), f) == if a < j && r < |gs[a]| then [gs[a][r]] else []
  {
    if j > 0 {
      ColumnShare(gs, a, f, r, j - 1);
      assert gs[..j][..j - 1] == gs[..j - 1];
      var front := Column(gs[..j - 1], r);
      if r < |gs[j - 1]| {
        FilterSnoc(front, gs[j - 1][r], f);
      } else {
        assert front + [] == front;
      }
    }
  }

  lemma FilterNone(f: nat -> bool)
    ensures Filter<nat>([], f) == []
  {
  }

  lemma TakeOneMore(g: seq<nat>, d: nat)
    requires d > 0
    ensures g[..Min(d, |g|)] == g[..Min(d - 1, |g|)] + (if d - 1 < |g| then [g[d - 1]] else [])
  {
  }

  lemma {:induction false} ColumnsShare(gs: seq<seq<nat>>, a: nat, f: nat -> bool, d: nat)
    requires Selects(gs, a, f)
    ensures Filter(Columns(gs, d), f) == gs[a][..Min(d, |gs[a]|)]
  {
    hide Column, Filter;
    if d == 0 {
      FilterNone(f);
      assert gs[a][..Min(d, |gs[a]|)] == [];
    } else {
      ColumnsShare(gs, a, f, d - 1);
      FilterConcat(Columns(gs, d - 1), Column(gs, d - 1), f);
      ColumnShare(gs, a, f, d - 1, |gs|);
      assert gs[..|gs|] == gs;
      TakeOneMore(gs[a], d);
    }
  }

  /** Every cut through a column falls after some group's turn. */
  lemma {:induction false} ColumnCut(gs: seq<seq<nat>>, r: nat, m: nat) returns (j: nat)
    requires m <= |Column(gs, r)|
    ensures j <= |gs| && Column(gs, r)[..m] == Column(gs[..j], r)
  {
    j := |gs|;
    if m == |Column(gs, r)| {
      assert gs[..j] == gs;
    } else {
      var front := gs[..|gs| - 1];
      j := ColumnCut(front, r, m);
      assert front[..j] == gs[..j];
    }
  }

  /** Every cut through the deal falls in some round, after some group's turn. */
  lemma {:induction false} CutPoint(gs: seq<seq<nat>>, e: nat, n: nat) returns (d: nat, j: nat)
    requires n <= |Columns(gs, e)|
    ensures d <= e && j <= |gs| && (d == e ==> j == 0)
    ensures Columns(gs, e)[..n] == Columns(gs, d) + Column(gs[..j], d)
  {
    if e == 0 {
      d, j := 0, 0;
    } else {
      var before := Columns(gs, e - 1);
      if n <= |before| {
        d, j := CutPoint(gs, e - 1, n);
        assert Columns(gs, e)[..n] == before[..n];
      } else {
        d := e - 1;
        j := ColumnCut(gs, d, n - |before|);
        assert Columns(gs, e)[..n] == before + Column(gs, d)[..n - |before|];
      }
    }
  }

  lemma GroupSelected(items: seq<Item>, a: nat)
    requires a < |GroupKeys(items)|
    ensures Selects(Groups(items), a, InGroup(items, GroupKeys(items)[a]))
  {
    var keys, gs := GroupKeys(items), Groups(items);
    GroupKeysCover(items);
    forall b, i | 0 <= b < |gs| && 0 <= i < |gs[b]|
      ensures InGroup(items, keys[a])(gs[b][i]) <==> a == b
    {
      PositionsExact(items, keys[b]);
      assert gs[b][i] in Positions(items, keys[b]);
    }
  }

  /** What the a-th group has emitted when the deal is cut in round d after j turns. */
  lemma ShareAtCut(gs: seq<seq<nat>>, a: nat, f: nat -> bool, d: nat, j: nat)
    requires Selects(gs, a, f) && j <= |gs|
    ensures Filter(Columns(gs, d) + Column(gs[..j], d), f)
            == gs[a][..Min(|gs[a]|, if a < j then d + 1 else d)]
  {
    FilterConcat(Columns(gs, d), Column(gs[..j], d), f);
    ColumnsShare(gs, a, f, d);
    ColumnShare(gs, a, f, d, j);
  }

  /** The round-robin promise for two groups, a listed before b: each emits a
      prefix of itself in order, b is never ahead of a and a is ahead by at most
      one, unless the one behind has nothing more to give. */
  lemma FairShares(items: seq<Item>, maxN: int, a: nat, b: nat)
    requires a < b < |GroupKeys(items)|
    ensures var out := Dealt(Groups(items), maxN);
            var ka, kb := GroupKeys(items)[a], GroupKeys(items)[b];
            var sa, sb := Share(items, out, ka), Share(items, out, kb);
            && sa <= Positions(items, ka) && sb <= Positions(items, kb)
            && |sa| <= 999 && |sb| <= 999
            && (|sb| > |sa| ==> |sa| == Min(|Positions(items, ka)|, 999))
            && (|sa| > |sb| + 1 ==> |sb| == Min(|Positions(items, kb)|, 999))
  {
    var keys, gs := GroupKeys(items), Groups(items);
    var out := Dealt(gs, maxN);
    GroupSelected(items, a);
    GroupSelected(items, b);
    var d, j := CutPoint(gs, LATE_CAP, |out|);
    ShareAtCut(gs, a, InGroup(items, keys[a]), d, j);
    ShareAtCut(gs, b, InGroup(items, keys[b]), d, j);
  }

  lemma SharePrefix(items: seq<Item>, maxN: int, a: nat)
    requires a < |GroupKeys(items)|
    ensures Share(items, Dealt(Groups(items), maxN), GroupKeys(items)[a]) <= Positions(items, GroupKeys(items)[a])
  {
    var gs := Groups(items);
    GroupSelected(items, a);
    var d, j := CutPoint(gs, LATE_CAP, |Dealt(gs, maxN)|);
    ShareAtCut(gs, a, InGroup(items, GroupKeys(items)[a]), d, j);
  }

  lemma KeyListed(items: seq<Item>, p: nat) returns (a: nat)
    requires p < |items|
    ensures a < |GroupKeys(items)| && GroupKeys(items)[a] == Key(items[p])
  {
    GroupKeysCover(items);
    assert Key(items[p]) in GroupKeys(items);
    a :| 0 <= a < |GroupKeys(items)| && GroupKeys(items)[a] == Key(items[p]);
  }

  /** No position is emitted twice. */
  lemma EmittedOnce(items: seq<Item>, maxN: int)
    ensures NoDuplicates(Dealt(Groups(items), maxN))
  {
    var out := Dealt(Groups(items), maxN);
    DealtInRange(items, maxN);
    forall i, j | 0 <= i < j < |out|
      ensures out[i] != out[j]
    {
      assert out[i] in out;
      var k := Key(items[out[i]]);
      var a := KeyListed(items, out[i]);
      SharePrefix(items, maxN, a);
      PositionsExact(items, k);
      assert forall m | 0 <= m < |Share(items, out, k)| :: Share(items, out, k)[m] == Positions(items, k)[m];
      FilterOnce(out, InGroup(items, k), i, j);
    }
  }

  // ---- the order of the deal ----

  function WithKey(k: string): Item -> bool {
    (i: Item) => Key(i) == k
  }

  lemma {:induction false} PositionsCount(items: seq<Item>, k: string)
    ensures |Positions(items, k)| == Count(items, WithKey(k))
  {
    if items != [] {
      var n := |items| - 1;
      PositionsCount(items[..n], k);
      CountConcat(items[..n], [items[n]], WithKey(k));
      assert items == items[..n] + [items[n]];
      assert [items[n]][1..] == [];
    }
  }

  /** How many items of its own group come before position p. */
  function Earlier(items: seq<Item>, p: nat): nat
    requires p < |items|
  {
    Count(items[..p], WithKey(Key(items[p])))
  }

  /** The r-th position of a group has r of the group before it. */
  lemma {:induction false} PositionRank(items: seq<Item>, k: string, r: nat)
    requires r < |Positions(items, k)|
    ensures var p := Positions(items, k)[r];
            p < |items| && Key(items[p]) == k && Earlier(items, p) == r
  {
    var n := |items| - 1;
    var front := items[..n];
    if r < |Positions(front, k)| {
      PositionRank(front, k, r);
      var p := Positions(front, k)[r];
      assert front[..p] == items[..p];
    } else {
      PositionsCount(front, k);
    }
  }

  /** Groups are listed as they first appear. */
  lemma {:induction false} FirstAppearance(items: seq<Item>)
    ensures forall a | 0 <= a < |GroupKeys(items)| :: Positions(items, GroupKeys(items)[a]) != []
    ensures forall a, b | 0 <= a < b < |GroupKeys(items)| ::
              Positions(items, GroupKeys(items)[a])[0] < Positions(items, GroupKeys(items)[b])[0]
  {
    if items != [] {
      var n := |items| - 1;
      var front, keys := items[..n], GroupKeys(items);
      FirstAppearance(front);
      GroupKeysCover(front);
      forall k | k in GroupKeys(front)
        ensures Positions(items, k) != [] && Positions(items, k)[0] == Positions(front, k)[0] < n
      {
        var a :| 0 <= a < |GroupKeys(front)| && GroupKeys(front)[a] == k;
        PositionRank(front, k, 0);
      }
      var k := Key(items[n]);
      if k !in GroupKeys(front) {
        NoPositions(front, k);
      }
    }
  }

  lemma NoPositions(items: seq<Item>, k: string)
    requires k !in GroupKeys(items)
    ensures Positions(items, k) == []
  {
    GroupKeysCover(items);
    if Positions(items, k) != [] {
      PositionRank(items, k, 0);
    }
  }

  lemma {:induction false} ColumnAt(gs: seq<seq<nat>>, r: nat, i: nat) returns (a: nat)
    requires i < |Column(gs, r)|
    ensures a < |gs| && r < |gs[a]| && Column(gs, r)[i] == gs[a][r]
  {
    var last := |gs| - 1;
    if i < |Column(gs[..last], r)| {
      a := ColumnAt(gs[..last], r, i);
    } else {
      a := last;
    }
  }

  lemma {:induction false} ColumnOrdered(gs: seq<seq<nat>>, r: nat, i: nat, j: nat) returns (a: nat, b: nat)
    requires i < j < |Column(gs, r)|
    ensures a < b < |gs| && r < |gs[a]| && r < |gs[b]|
    ensures Column(gs, r)[i] == gs[a][r] && Column(gs, r)[j] == gs[b][r]
  {
    var last := |gs| - 1;
    if j < |Column(gs[..last], r)| {
      a, b := ColumnOrdered(gs[..last], r, i, j);
    } else {
      a := ColumnAt(gs[..last], r, i);
      b := last;
    }
  }

  lemma {:induction false} ColumnsAt(gs: seq<seq<nat>>, e: nat, i: nat) returns (r: nat, a: nat)
    requires i < |Columns(gs, e)|
    ensures r < e && a < |gs| && r < |gs[a]| && Columns(gs, e)[i] == gs[a][r]
  {
    var before := Columns(gs, e - 1);
    if i < |before| {
      r, a := ColumnsAt(gs, e - 1, i);
    } else {
      r := e - 1;
      a := ColumnAt(gs, r, i - |before|);
    }
  }

  lemma {:induction false} ColumnsOrdered(gs: seq<seq<nat>>, e: nat, i: nat, j: nat)
    returns (r: nat, a: nat, s: nat, b: nat)
    requires i < j < |Columns(gs, e)|
    ensures a < |gs| && r < |gs[a]| && b < |gs| && s < |gs[b]| && s < e
    ensures Columns(gs, e)[i] == gs[a][r] && Columns(gs, e)[j] == gs[b][s]
    ensures r < s || (r == s && a < b)
  {
    var before := Columns(gs, e - 1);
    if j < |before| {
      r, a, s, b := ColumnsOrdered(gs, e - 1, i, j);
    } else if i < |before| {
      r, a := ColumnsAt(gs, e - 1, i);
      s := e - 1;
      b := ColumnAt(gs, s, j - |before|);
    } else {
      r, s := e - 1, e - 1;
      a, b := ColumnOrdered(gs, r, i - |before|, j - |before|);
    }
  }

  /** Some item of the group at p comes before every item of the group at q. */
  ghost predicate AppearsFirst(items: seq<Item>, p: nat, q: nat)
    requires p < |items| && q < |items|
  {
    exists f | 0 <= f < |items| && Key(items[f]) == Key(items[p]) ::
      forall g | 0 <= g < |items| && Key(items[g]) == Key(items[q]) :: f < g
  }

  /** Items come out by how many of their own group precede them in the input, always
      fewer than 999, and among equals by which group appears first. */
  lemma DealOrder(items: seq<Item>, maxN: int, i: nat, j: nat)
    requires i < j < |Dealt(Groups(items), maxN)|
    ensures var out := Dealt(Groups(items), maxN);
            var p, q := out[i], out[j];
            && p < |items| && q < |items| && Earlier(items, q) < 999
            && (|| Earlier(items, p) < Earlier(items, q)
                || (Earlier(items, p) == Earlier(items, q) && AppearsFirst(items, p, q)))
  {
    var gs, keys := Groups(items), GroupKeys(items);
    var r, a, s, b := ColumnsOrdered(gs, LATE_CAP, i, j);
    PositionRank(items, keys[a], r);
    PositionRank(items, keys[b], s);
    if r == s {
      FirstAppearance(items);
      PositionRank(items, keys[a], 0);
      PositionsExact(items, keys[b]);
      var f := gs[a][0];
      forall g | 0 <= g < |items| && Key(items[g]) == keys[b]
        ensures f < g
      {
        assert g in Positions(items, keys[b]);
      }
    }
  }

  /** When the limit is not reached nothing is lost but what lies behind the
      first 999 of its own group. */
  lemma NothingWithheld(items: seq<Item>, maxN: int, p: nat)
    requires |Dealt(Groups(items), maxN)| < maxN && p < |items|
    ensures p in Dealt(Groups(items), maxN) <==> Earlier(items, p) < 999
  {
    EmittedByRank(items, maxN, p);
    var own := Positions(items, Key(items[p]));
    PositionsExact(items, Key(items[p]));
    assert p in own;
    var r :| 0 <= r < |own| && own[r] == p;
    PositionRank(items, Key(items[p]), r);
  }

  lemma EmittedByRank(items: seq<Item>, maxN: int, p: nat)
    requires |Dealt(Groups(items), maxN)| < maxN && p < |items|
    ensures var own := Positions(items, Key(items[p]));
            p in Dealt(Groups(items), maxN) <==> p in own[..Min(|own|, LATE_CAP)]
  {
    var gs, k := Groups(items), Key(items[p]);
    var a := KeyListed(items, p);
    GroupSelected(items, a);
    ColumnsShare(gs, a, InGroup(items, k), LATE_CAP);
    assert Dealt(gs, maxN) == Columns(gs, LATE_CAP);
    FilterMember(Columns(gs, LATE_CAP), InGroup(items, k), p);
  }

  method DedupDiversify(items: seq<Item>, maxN: int) returns (out: seq<Item>)
    ensures var dealt := Dealt(Groups(items), maxN);
            && |out| == |dealt|
            && forall i | 0 <= i < |out| :: dealt[i] < |items| && out[i] == items[dealt[i]]
  {
    var dealt := DealOut(items, maxN);
    DealtInRange(items, maxN);
    assert forall i | 0 <= i < |dealt| :: dealt[i] in dealt;
    out := seq(|dealt|, i requires 0 <= i < |dealt| => items[dealt[i]]);
  }
}
