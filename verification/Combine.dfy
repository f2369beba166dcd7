/** The k-element subsets of 0..n-1, and the in-place enumeration of them by
    `get_combine_list` in src/game/majiang.rs. */
module Combine {
  import opened Powers

  // ----- Subsets as ascending lists -----

  predicate Ascending(l: seq<nat>) {
    forall i, j :: 0 <= i < j < |l| ==> l[i] < l[j]
  }

  predicate Below(l: seq<nat>, n: nat) {
    forall i :: 0 <= i < |l| ==> l[i] < n
  }

  /** A k-element subset of 0..n-1, as an ascending list. */
  predicate Subset(l: seq<nat>, n: nat, k: nat) {
    |l| == k && Ascending(l) && Below(l, n)
  }

  /** The sum of 2^i over the members of a subset. */
  function Weight(l: seq<nat>): nat {
    if l == [] then 0 else Weight(l[..|l| - 1]) + Pow2(l[|l| - 1])
  }

  /** Every k-subset exactly once, in strictly increasing weight. */
  ghost predicate Enumerates(ls: seq<seq<nat>>, n: nat, k: nat) {
    && (forall i :: 0 <= i < |ls| ==> Subset(ls[i], n, k))
    && (forall i, j :: 0 <= i < j < |ls| ==> Weight(ls[i]) < Weight(ls[j]))
    && (forall l: seq<nat> :: Subset(l, n, k) ==> l in ls)
  }

  // ----- Subsets as 0/1 arrays -----

  predicate IsBits(v: seq<nat>) {
    forall i :: 0 <= i < |v| ==> v[i] == 0 || v[i] == 1
  }

  function Count(v: seq<nat>): nat {
    if v == [] then 0 else Count(v[..|v| - 1]) + v[|v| - 1]
  }

  /** The number that the array spells in binary, lowest digit first. */
  function Value(v: seq<nat>): nat {
    if v == [] then 0
    else Value(v[..|v| - 1]) + if v[|v| - 1] == 1 then Pow2(|v| - 1) else 0
  }

  function Ones(v: seq<nat>): seq<nat> {
    if v == [] then []
    else if v[|v| - 1] == 1 then Ones(v[..|v| - 1]) + [|v| - 1]
    else Ones(v[..|v| - 1])
  }

  predicate Vector(v: seq<nat>, n: nat, k: nat) {
    |v| == n && IsBits(v) && Count(v) == k
  }

  lemma {:induction false} ValueBound(v: seq<nat>)
    ensures Value(v) < Pow2(|v|)
  {
    if v != [] {
      ValueBound(v[..|v| - 1]);
    }
  }

  lemma CountBound(v: seq<nat>)
    requires IsBits(v)
    ensures Count(v) <= |v|
  {
  }

  lemma {:induction false} OnesBelow(v: seq<nat>)
    requires IsBits(v)
    ensures Subset(Ones(v), |v|, Count(v))
    ensures Weight(Ones(v)) == Value(v)
  {
    if v != [] {
      OnesBelow(v[..|v| - 1]);
      var l := Ones(v[..|v| - 1]);
      assert (l + [|v| - 1])[..|l|] == l;
    }
  }

  /** The array of a subset. */
  function Indicator(l: seq<nat>, n: nat): (v: seq<nat>)
    ensures |v| == n && forall i :: 0 <= i < n ==> v[i] == if i in l then 1 else 0
  {
    seq(n, i requires 0 <= i < n => if i in l then 1 else 0)
  }

  lemma BelowSomething(l: seq<nat>, n: nat)
    requires Below(l, n)
    ensures l == [] || n > 0
  {
    assert l != [] ==> l[0] < n;
  }

  lemma TopIsLast(l: seq<nat>, n: nat)
    requires n > 0 && Ascending(l) && Below(l, n) && n - 1 in l
    ensures l != [] && l == l[..|l| - 1] + [n - 1] && Below(l[..|l| - 1], n - 1)
  {
    var i :| 0 <= i < |l| && l[i] == n - 1;
    var last := l[|l| - 1];
    if i < |l| - 1 {
      assert false;
    }
  }

  lemma IndicatorTop(l: seq<nat>, n: nat)
    requires n > 0 && Ascending(l) && Below(l, n) && n - 1 in l
    ensures l != [] && l == l[..|l| - 1] + [n - 1] && Below(l[..|l| - 1], n - 1)
    ensures Indicator(l, n) == Indicator(l[..|l| - 1], n - 1) + [1]
  {
    TopIsLast(l, n);
    var l' := l[..|l| - 1];
    assert forall i :: i in l <==> i in l' || i == n - 1;
  }

  lemma IndicatorNoTop(l: seq<nat>, n: nat)
    requires n > 0 && Ascending(l) && Below(l, n) && n - 1 !in l
    ensures Below(l, n - 1) && Indicator(l, n) == Indicator(l, n - 1) + [0]
  {
    forall i | 0 <= i < |l| ensures l[i] < n - 1 { assert l[i] in l; }
  }

  /** The array has its ones exactly at the listed places. */
  ghost predicate Spells(v: seq<nat>, l: seq<nat>) {
    IsBits(v) && Ones(v) == l && Count(v) == |l|
  }

  lemma {:induction false} IndicatorOnes(l: seq<nat>, n: nat)
    requires Ascending(l) && Below(l, n)
    ensures Spells(Indicator(l, n), l)
  {
    BelowSomething(l, n);
    if n > 0 {
      if n - 1 in l {
        IndicatorTop(l, n);
        IndicatorOnes(l[..|l| - 1], n - 1);
      } else {
        IndicatorNoTop(l, n);
        IndicatorOnes(l, n - 1);
      }
    }
  }

  lemma SubsetSize(l: seq<nat>, n: nat)
    requires Ascending(l) && Below(l, n)
    ensures |l| <= n
  {
    IndicatorOnes(l, n);
    CountBound(Indicator(l, n));
  }

  /** c ones followed by m - c zeros. */
  function Packed(m: nat, c: nat): (v: seq<nat>)
    ensures |v| == m && forall i :: 0 <= i < m ==> v[i] == if i < c then 1 else 0
  {
    seq(m, i requires 0 <= i < m => if i < c then 1 else 0)
  }

  lemma {:induction false} PackedCount(m: nat, c: nat)
    requires c <= m
    ensures Count(Packed(m, c)) == c
  {
    if m > 0 {
      var c' := if c == m then c - 1 else c;
      assert Packed(m, c)[..m - 1] == Packed(m - 1, c');
      PackedCount(m - 1, c');
    }
  }

  lemma SomeSubset(ls: seq<seq<nat>>, n: nat, k: nat)
    requires k <= n && Enumerates(ls, n, k)
    ensures ls != []
  {
    PackedCount(n, k);
    OnesBelow(Packed(n, k));
    assert Ones(Packed(n, k)) in ls;
  }

  // ----- Extreme arrays -----

  /** m - c zeros followed by c ones. */
  function Stacked(m: nat, c: nat): (v: seq<nat>)
    ensures |v| == m && forall i :: 0 <= i < m ==> v[i] == if i < m - c then 0 else 1
  {
    seq(m, i requires 0 <= i < m => if i < m - c then 0 else 1)
  }

  lemma {:induction false} PackedLeast(v: seq<nat>, c: nat)
    requires Vector(v, |v|, c)
    ensures Count(Packed(|v|, c)) == c && Value(Packed(|v|, c)) <= Value(v)
  {
    if v != [] {
      var m := |v| - 1;
      CountBound(v[..m]);
      PackedLeast(v[..m], c - v[m]);
      if c == m + 1 {
        assert Packed(m + 1, c)[..m] == Packed(m, c - 1);
      } else {
        assert Packed(m + 1, c)[..m] == Packed(m, c);
        ValueBound(Packed(m, c));
        if v[m] == 1 {
          PackedCount(m, c);
        }
      }
    }
  }

  lemma {:induction false} StackedCount(m: nat, c: nat)
    requires c <= m
    ensures Count(Stacked(m, c)) == c
  {
    if m > 0 {
      var c' := if c == 0 then 0 else c - 1;
      assert Stacked(m, c)[..m - 1] == Stacked(m - 1, c');
      StackedCount(m - 1, c');
    }
  }

  lemma {:induction false} StackedGreatest(v: seq<nat>, c: nat)
    requires Vector(v, |v|, c)
    ensures Value(v) <= Value(Stacked(|v|, c))
  {
    if v != [] {
      var m := |v| - 1;
      CountBound(v[..m]);
      StackedGreatest(v[..m], c - v[m]);
      if c == 0 {
        assert Stacked(m + 1, 0)[..m] == Stacked(m, 0);
      } else {
        assert Stacked(m + 1, c)[..m] == Stacked(m, c - 1);
        ValueBound(v[..m]);
      }
    }
  }

  // ----- One turn of the enumeration -----

  /** A one directly followed by a zero. */
  predicate Drop(v: seq<nat>, i: nat) {
    i + 1 < |v| && v[i] == 1 && v[i + 1] == 0
  }

  predicate FirstDrop(v: seq<nat>, f: nat) {
    Drop(v, f) && forall i: nat :: i < f ==> !Drop(v, i)
  }

  /** Move the one at f up by one place and pack the ones below it. */
  function Advance(v: seq<nat>, f: nat): (r: seq<nat>)
    requires f + 1 < |v|
  {
    Packed(f, Count(v[..f])) + [0, 1] + v[f + 2..]
  }

  lemma {:induction false} SortedIsStacked(v: seq<nat>)
    requires IsBits(v) && forall i: nat :: !Drop(v, i)
    ensures v == Stacked(|v|, Count(v))
  {
    if v != [] {
      var m := |v| - 1;
      forall i: nat ensures !Drop(v[..m], i) { assert !Drop(v, i); }
      SortedIsStacked(v[..m]);
      CountBound(v[..m]);
      if v[m] == 0 && m > 0 {
        assert !Drop(v, m - 1);
      }
    }
  }

  lemma BelowTopIsStacked(v: seq<nat>)
    requires |v| >= 2 && IsBits(v) && FirstDrop(v, |v| - 2)
    ensures 0 < Count(v) < |v| && v[..|v| - 1] == Stacked(|v| - 1, Count(v))
  {
    var m := |v| - 1;
    var w := v[..m];
    forall i: nat ensures !Drop(w, i) { assert i < m - 1 ==> !Drop(v, i); }
    SortedIsStacked(w);
    CountBound(w);
  }

  lemma StackedPrefix(m: nat, k: nat)
    requires 0 < k <= m
    ensures Stacked(m, k)[..m - 1] == Stacked(m - 1, k - 1) && Count(Stacked(m, k)[..m - 1]) == k - 1
  {
    assert Stacked(m, k)[..m - 1] == Stacked(m - 1, k - 1);
    StackedCount(m - 1, k - 1);
  }

  lemma PackedZero(m: nat, c: nat)
    requires c < m
    ensures Packed(m - 1, c) + [0, 1] == Packed(m, c) + [1]
  {
    assert Packed(m - 1, c) + [0] == Packed(m, c);
  }

  lemma OnesBelowTop(v: seq<nat>, m: nat)
    requires |v| == m + 1 && m >= 1 && IsBits(v) && FirstDrop(v, m - 1)
    ensures 0 < Count(v) <= m && v[..m] == Stacked(m, Count(v)) && Count(v[..m - 1]) == Count(v) - 1
  {
    BelowTopIsStacked(v);
    StackedPrefix(m, Count(v));
    assert v[..m][..m - 1] == v[..m - 1];
  }

  lemma AdvanceAtTop(v: seq<nat>, m: nat)
    requires |v| == m + 1 && m >= 1
    ensures Advance(v, m - 1) == Packed(m - 1, Count(v[..m - 1])) + [0, 1]
  {
    assert v[m + 1..] == [];
  }

  /** A first drop at the very top: the rest of the array is stacked. */
  lemma DropAtTop(v: seq<nat>, m: nat)
    requires |v| == m + 1 && m >= 1 && IsBits(v) && FirstDrop(v, m - 1)
    ensures var k := Count(v);
            && 0 < k <= m
            && v[..m] == Stacked(m, k)
            && Advance(v, m - 1) == Packed(m, k - 1) + [1]
  {
    OnesBelowTop(v, m);
    PackedZero(m, Count(v) - 1);
    AdvanceAtTop(v, m);
  }

  lemma DropBelowTop(v: seq<nat>, f: nat)
    requires FirstDrop(v, f) && f + 2 < |v|
    ensures FirstDrop(v[..|v| - 1], f)
    ensures Advance(v, f) == Advance(v[..|v| - 1], f) + [v[|v| - 1]]
  {
    var w := v[..|v| - 1];
    forall i: nat | i < f ensures !Drop(w, i) { assert !Drop(v, i); }
    assert w[..f] == v[..f];
  }

  ghost predicate Keeps(v: seq<nat>, w: seq<nat>) {
    Vector(w, |v|, Count(v)) && Value(w) > Value(v)
  }

  lemma KeepsTop(v: seq<nat>, w: seq<nat>, b: nat)
    requires Keeps(v, w) && 0 <= b <= 1
    ensures Keeps(v + [b], w + [b])
  {
  }

  lemma KeepsAtTop(v: seq<nat>)
    requires |v| >= 2 && IsBits(v) && FirstDrop(v, |v| - 2)
    ensures Keeps(v, Advance(v, |v| - 2))
  {
    var m := |v| - 1;
    DropAtTop(v, |v| - 1);
    PackedCount(m, Count(v) - 1);
    ValueBound(v[..m]);
  }

  /** The next array has as many ones and a greater value. */
  lemma {:induction false} AdvanceKeeps(v: seq<nat>, f: nat)
    requires IsBits(v) && FirstDrop(v, f)
    ensures Keeps(v, Advance(v, f))
  {
    var m := |v| - 1;
    if f + 2 < |v| {
      DropBelowTop(v, f);
      AdvanceKeeps(v[..m], f);
      assert v == v[..m] + [v[m]];
      KeepsTop(v[..m], Advance(v[..m], f), v[m]);
    } else {
      KeepsAtTop(v);
    }
  }

  /** Below the top, what decides is the array without its top place. */
  lemma {:induction false} NextBelowTop(v: seq<nat>, t: seq<nat>, w: seq<nat>, m: nat)
    requires |v| == |t| == m + 1 && |w| == m && IsBits(v) && IsBits(t) && IsBits(w)
    requires Value(t) > Value(v)
    requires t[m] == v[m] && Value(t[..m]) > Value(v[..m]) ==> Value(t[..m]) >= Value(w)
    ensures Value(t) >= Value(w + [v[m]])
  {
    ValueBound(t[..m]);
    ValueBound(w);
  }

  lemma NextAtTop(v: seq<nat>, t: seq<nat>)
    requires |v| >= 2 && IsBits(v) && FirstDrop(v, |v| - 2)
    requires Vector(t, |v|, Count(v)) && Value(t) > Value(v)
    ensures Value(t) >= Value(Advance(v, |v| - 2))
  {
    var m, k := |v| - 1, Count(v);
    DropAtTop(v, |v| - 1);
    if t[m] == 0 {
      StackedGreatest(t[..m], k);
    } else {
      PackedLeast(t[..m], k - 1);
    }
  }

  /** No array with as many ones lies between an array and the next. */
  lemma {:induction false} AdvanceIsNext(v: seq<nat>, f: nat, t: seq<nat>)
    requires IsBits(v) && FirstDrop(v, f)
    requires Vector(t, |v|, Count(v)) && Value(t) > Value(v)
    ensures Value(t) >= Value(Advance(v, f))
  {
    var m := |v| - 1;
    if f + 2 < |v| {
      DropBelowTop(v, f);
      AdvanceKeeps(v[..m], f);
      if t[m] == v[m] && Value(t[..m]) > Value(v[..m]) {
        AdvanceIsNext(v[..m], f, t[..m]);
      }
      NextBelowTop(v, t, Advance(v[..m], f), m);
    } else {
      NextAtTop(v, t);
    }
  }

  // ----- The enumeration itself -----

  /** The lists found so far are those of all arrays below the current one. */
  ghost predicate EnumeratesBelow(ls: seq<seq<nat>>, n: nat, k: nat, v: seq<nat>) {
    && (forall i :: 0 <= i < |ls| ==> Subset(ls[i], n, k) && Weight(ls[i]) < Value(v))
    && (forall i, j :: 0 <= i < j < |ls| ==> Weight(ls[i]) < Weight(ls[j]))
    && (forall t: seq<nat> :: Vector(t, n, k) && Value(t) < Value(v) ==> Ones(t) in ls)
  }

  lemma {:induction false} SameValue(v: seq<nat>, t: seq<nat>)
    requires |v| == |t| && IsBits(v) && IsBits(t) && Value(v) == Value(t)
    ensures v == t
  {
    if v != [] {
      var m := |v| - 1;
      ValueBound(v[..m]);
      ValueBound(t[..m]);
      SameValue(v[..m], t[..m]);
      assert v == v[..m] + [v[m]] && t == t[..m] + [t[m]];
    }
  }

  /** Adding the current subset and moving on keeps the account. */
  lemma AfterStep(ls: seq<seq<nat>>, n: nat, k: nat, v: seq<nat>, f: nat)
    requires Vector(v, n, k) && EnumeratesBelow(ls, n, k, v) && FirstDrop(v, f)
    ensures EnumeratesBelow(ls + [Ones(v)], n, k, Advance(v, f))
    ensures Vector(Advance(v, f), n, k) && Value(v) < Value(Advance(v, f)) < Pow2(n)
  {
    OnesBelow(v);
    AdvanceKeeps(v, f);
    ValueBound(Advance(v, f));
    var ls' := ls + [Ones(v)];
    forall t: seq<nat> | Vector(t, n, k) && Value(t) < Value(Advance(v, f))
      ensures Ones(t) in ls'
    {
      if Value(t) > Value(v) {
        AdvanceIsNext(v, f, t);
      } else if Value(t) == Value(v) {
        SameValue(v, t);
        assert ls'[|ls|] == Ones(t);
      }
    }
  }

  /** With nothing left to move, no subset is missing. */
  lemma {:induction false} NoneMissing(ls: seq<seq<nat>>, n: nat, k: nat, v: seq<nat>, l: seq<nat>)
    requires Vector(v, n, k) && EnumeratesBelow(ls, n, k, v) && v == Stacked(n, k) && Subset(l, n, k)
    ensures l in ls || l == Ones(v)
  {
    IndicatorOnes(l, n);
    var t := Indicator(l, n);
    StackedGreatest(t, k);
    if Value(t) == Value(v) {
      SameValue(v, t);
    }
  }

  lemma {:induction false} AfterLast(ls: seq<seq<nat>>, n: nat, k: nat, v: seq<nat>)
    requires Vector(v, n, k) && EnumeratesBelow(ls, n, k, v) && forall i: nat :: !Drop(v, i)
    ensures Enumerates(ls + [Ones(v)], n, k)
  {
    OnesBelow(v);
    SortedIsStacked(v);
    var ls' := ls + [Ones(v)];
    forall l: seq<nat> | Subset(l, n, k) ensures l in ls' {
      NoneMissing(ls, n, k, v, l);
      assert ls'[|ls|] == Ones(v);
    }
  }

  lemma BeforeFirst(n: nat, k: nat)
    requires k <= n
    ensures Vector(Packed(n, k), n, k) && EnumeratesBelow([], n, k, Packed(n, k))
  {
    PackedCount(n, k);
    forall t: seq<nat> | Vector(t, n, k) ensures Value(t) >= Value(Packed(n, k)) {
      PackedLeast(t, k);
    }
  }

  method FirstSubset(n: nat, k: nat) returns (readyList: array<nat>)
    requires 0 < k <= n
    ensures fresh(readyList) && readyList[..] == Packed(n, k)
  {
    readyList := new nat[n];
    for i := 0 to n
      invariant forall j :: 0 <= j < i ==> readyList[j] == if j < k then 1 else 0
    {
      readyList[i] := if i <= k - 1 then 1 else 0;
    }
  }

  /** The members of the current subset, and the first place where a one is
      followed by a zero (n when there is none). */
  method ReadSubset(readyList: array<nat>) returns (curList: seq<nat>, firstIdx: nat)
    requires IsBits(readyList[..])
    ensures curList == Ones(readyList[..])
    ensures firstIdx == readyList.Length || FirstDrop(readyList[..], firstIdx)
    ensures firstIdx == readyList.Length ==> forall i: nat :: !Drop(readyList[..], i)
  {
    var n := readyList.Length;
    curList, firstIdx := [], n;
    for i := 0 to n
      invariant curList == Ones(readyList[..i])
      invariant firstIdx == n || FirstDrop(readyList[..], firstIdx)
      invariant firstIdx == n ==> forall j: nat :: j < i ==> !Drop(readyList[..], j)
    {
      assert readyList[..i + 1][..i] == readyList[..i];
      if readyList[i] == 1 {
        curList := curList + [i];
        if firstIdx == n {
          if n > i + 1 && readyList[i + 1] == 0 {
            firstIdx := i;
          }
        }
      }
    }
    assert readyList[..n] == readyList[..];
  }

  lemma MovedUp(was: seq<nat>, f: nat)
    requires f + 1 < |was|
    ensures was[f := 0][f + 1 := 1][f..] == [0, 1] + was[f + 2..]
  {
  }

  method PackBelow(readyList: array<nat>, firstIdx: nat, count: nat)
    requires count <= firstIdx <= readyList.Length
    modifies readyList
    ensures readyList[..] == Packed(firstIdx, count) + old(readyList[..])[firstIdx..]
  {
    if count >= 1 {
      for i := 0 to count
        invariant forall j :: 0 <= j < i ==> readyList[j] == 1
        invariant forall j :: firstIdx <= j < readyList.Length ==> readyList[j] == old(readyList[j])
      {
        readyList[i] := 1;
      }
    }
    for i := count to firstIdx
      invariant forall j :: 0 <= j < i ==> readyList[j] == if j < count then 1 else 0
      invariant forall j :: firstIdx <= j < readyList.Length ==> readyList[j] == old(readyList[j])
    {
      readyList[i] := 0;
    }
  }

  method StepSubset(readyList: array<nat>, firstIdx: nat)
    requires IsBits(readyList[..]) && Drop(readyList[..], firstIdx)
    modifies readyList
    ensures readyList[..] == Advance(old(readyList[..]), firstIdx)
  {
    ghost var was := readyList[..];
    readyList[firstIdx] := 0;
    readyList[firstIdx + 1] := 1;
    var count := 0;
    for i := 0 to firstIdx
      invariant count == Count(was[..i]) && count <= i
      invariant readyList[..] == was[firstIdx := 0][firstIdx + 1 := 1]
    {
      assert was[..i + 1][..i] == was[..i];
      assert readyList[i] == readyList[..][i] == was[i];
      if readyList[i] == 1 {
        count := count + 1;
      }
    }
    PackBelow(readyList, firstIdx, count);
    MovedUp(was, firstIdx);
  }

  /** All k-subsets of 0..n-1 for k > 0; for k = 0 the source answers with no
      list at all rather than with the empty one. */
  method GetCombineList(n: nat, k: nat) returns (resultList: seq<seq<nat>>)
    requires k <= n
    ensures if k == 0 then resultList == [] else Enumerates(resultList, n, k)
  {
    resultList := [];
    if k == 0 {
      return;
    }
    var readyList := FirstSubset(n, k);
    BeforeFirst(n, k);
    while true
      invariant EnumeratesBelow(resultList, n, k, readyList[..])
      invariant Vector(readyList[..], n, k)
      decreases Pow2(n) - Value(readyList[..])
    {
      var curList, firstIdx := ReadSubset(readyList);
      if firstIdx == n {
        AfterLast(resultList, n, k, readyList[..]);
        resultList := resultList + [curList];
        break;
      }
      AfterStep(resultList, n, k, readyList[..], firstIdx);
      resultList := resultList + [curList];
      StepSubset(readyList, firstIdx);
    }
  }

  // ----- How many there are -----

  function Choose(n: nat, k: nat): nat {
    if k == 0 then 1 else if n == 0 then 0 else Choose(n - 1, k) + Choose(n - 1, k - 1)
  }

  function WithTop(ls: seq<seq<nat>>, x: nat): (r: seq<seq<nat>>)
    ensures |r| == |ls| && forall i :: 0 <= i < |ls| ==> r[i] == ls[i] + [x]
  {
    seq(|ls|, i requires 0 <= i < |ls| => ls[i] + [x])
  }

  /** The subsets without n - 1, then those with it. */
  function All(n: nat, k: nat): (r: seq<seq<nat>>)
    ensures |r| == Choose(n, k)
  {
    if k == 0 then [[]] else if n == 0 then [] else All(n - 1, k) + WithTop(All(n - 1, k - 1), n - 1)
  }

  ghost predicate NoRepeats(ls: seq<seq<nat>>) {
    forall i, j :: 0 <= i < j < |ls| ==> ls[i] != ls[j]
  }

  ghost predicate AllSubsets(ls: seq<seq<nat>>, n: nat, k: nat) {
    forall i :: 0 <= i < |ls| ==> Subset(ls[i], n, k)
  }

  lemma WithTopSubsets(ls: seq<seq<nat>>, n: nat, k: nat)
    requires AllSubsets(ls, n, k) && NoRepeats(ls)
    ensures AllSubsets(WithTop(ls, n), n + 1, k + 1) && NoRepeats(WithTop(ls, n))
  {
    var c := WithTop(ls, n);
    forall i, j | 0 <= i < j < |c| ensures c[i] != c[j] {
      assert c[i][..k] == ls[i] && c[j][..k] == ls[j];
    }
  }

  /** Subsets without n, then subsets with it. */
  lemma BothSubsets(a: seq<seq<nat>>, b: seq<seq<nat>>, n: nat, k: nat, all: seq<seq<nat>>)
    requires AllSubsets(a, n, k + 1) && NoRepeats(a) && AllSubsets(b, n, k) && NoRepeats(b) && all == a + WithTop(b, n)
    ensures AllSubsets(all, n + 1, k + 1) && NoRepeats(all)
  {
    WithTopSubsets(b, n, k);
    forall i | 0 <= i < |a| ensures a[i][k] != n && Subset(a[i], n + 1, k + 1) { assert Subset(a[i], n, k + 1); }
    forall i | 0 <= i < |b| ensures WithTop(b, n)[i][k] == n { assert Subset(b[i], n, k); }
  }

  lemma {:induction false} AllAreSubsets(n: nat, k: nat)
    ensures AllSubsets(All(n, k), n, k) && NoRepeats(All(n, k))
  {
    if k > 0 && n > 0 {
      AllAreSubsets(n - 1, k);
      AllAreSubsets(n - 1, k - 1);
      BothSubsets(All(n - 1, k), All(n - 1, k - 1), n - 1, k - 1, All(n, k));
    }
  }

  lemma {:induction false} AllLow(n: nat, k: nat, i: nat)
    requires n > 0 && k > 0 && i < |All(n - 1, k)|
    ensures i < |All(n, k)| && All(n, k)[i] == All(n - 1, k)[i]
  {
  }

  lemma {:induction false} AllHigh(n: nat, k: nat, i: nat, l: seq<nat>)
    requires n > 0 && k > 0 && i < |All(n - 1, k - 1)| && All(n - 1, k - 1)[i] == l
    ensures |All(n - 1, k)| + i < |All(n, k)| && All(n, k)[|All(n - 1, k)| + i] == l + [n - 1]
  {
  }

  lemma {:induction false} SubsetTop(l: seq<nat>, n: nat, k: nat)
    requires n > 0 && k > 0 && Subset(l, n, k) && n - 1 in l
    ensures Subset(l[..k - 1], n - 1, k - 1) && l == l[..k - 1] + [n - 1]
  {
    TopIsLast(l, n);
  }

  lemma {:induction false} SubsetNoTop(l: seq<nat>, n: nat, k: nat)
    requires n > 0 && Subset(l, n, k) && n - 1 !in l
    ensures Subset(l, n - 1, k)
  {
    IndicatorNoTop(l, n);
  }

  /** Where a subset stands in that list. */
  lemma {:induction false} PlaceOf(n: nat, k: nat, l: seq<nat>) returns (i: nat)
    requires Subset(l, n, k)
    ensures i < |All(n, k)| && All(n, k)[i] == l
  {
    BelowSomething(l, n);
    if k == 0 {
      i := 0;
      assert l == [];
    } else if n - 1 in l {
      SubsetTop(l, n, k);
      var j := PlaceOf(n - 1, k - 1, l[..k - 1]);
      AllHigh(n, k, j, l[..k - 1]);
      i := |All(n - 1, k)| + j;
    } else {
      SubsetNoTop(l, n, k);
      i := PlaceOf(n - 1, k, l);
      AllLow(n, k, i);
    }
  }

  ghost function Members(ls: seq<seq<nat>>): set<seq<nat>> {
    set l | l in ls
  }

  lemma {:induction false} NoRepeatsSize(ls: seq<seq<nat>>)
    requires NoRepeats(ls)
    ensures |Members(ls)| == |ls|
  {
    if ls != [] {
      var init, last := ls[..|ls| - 1], ls[|ls| - 1];
      NoRepeatsSize(init);
      assert ls == init + [last];
      assert Members(ls) == Members(init) + {last};
    }
  }

  /** An enumeration of the k-subsets of 0..n-1 has as many lists as there are
      ways to choose k out of n. */
  lemma {:induction false} EnumerationSize(ls: seq<seq<nat>>, n: nat, k: nat)
    requires Enumerates(ls, n, k)
    ensures |ls| == Choose(n, k)
  {
    AllAreSubsets(n, k);
    NoRepeatsSize(ls);
    NoRepeatsSize(All(n, k));
    forall l: seq<nat> ensures l in ls <==> l in All(n, k) {
      if Subset(l, n, k) { var i := PlaceOf(n, k, l); }
    }
    assert Members(ls) == Members(All(n, k));
  }
}
