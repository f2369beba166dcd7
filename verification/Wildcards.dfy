/** `check_can_hu` of src/game/majiang.rs with wildcards: it finds a winning hand
    exactly when there is one that keeps as many triples and sequences of the hand
    itself as can be kept. */
module Wildcards {
  import opened Tiles
  import opened KingSearch
  import opened HuCheck
  import opened SearchBounds
  import opened Completeness
  import opened Cover
  import Assembly
  import Combine
  import Sequences

  // ----- A colour -----

  lemma {:induction false} FewTiles(tiles: multiset<Card>, low: nat, high: nat)
    requires low <= high <= 256 && forall c: Card :: tiles[c] <= 5 && (tiles[c] > 0 ==> low <= c < high)
    ensures |tiles| <= 5 * (high - low)
  {
    if low == high {
      assert tiles == multiset{};
    } else {
      var less := tiles[high - 1 := 0];
      FewTiles(less, low, high - 1);
      assert tiles == less[high - 1 := tiles[high - 1]];
    }
  }

  lemma ColorSize(hand: seq<Card>, color: nat)
    requires color < 5 && forall c: Card :: multiset(hand)[c] <= 5
    ensures |ColorTiles(hand, color)| <= 80
  {
    forall c: Card ensures ColorTiles(hand, color)[c] <= 5
      && (ColorTiles(hand, color)[c] > 0 ==> 16 * color <= c < 16 * color + 16) {
      RealTilesSize(hand, color + 1);
    }
    FewTiles(ColorTiles(hand, color), 16 * color, 16 * color + 16);
  }

  /** With at most five copies, no tile is left three times. */
  lemma NoThreeLeft(hand: seq<Card>, color: nat, isSpecEat: bool, l: seq<nat>, c: Card)
    requires color < 5 && Largest(ColorTiles(hand, color), HandItems(hand, color, isSpecEat), l)
    requires multiset(hand)[c] <= 5
    ensures (ColorTiles(hand, color) - Listed(Pick(HandItems(hand, color, isSpecEat), l)))[c] <= 2
  {
    var tiles, items := ColorTiles(hand, color), HandItems(hand, color, isSpecEat);
    var chosen, y := Pick(items, l), NewByData(c, c, c, Peng);
    if (tiles - Listed(chosen))[c] >= 3 {
      assert multiset([c, c, c]) <= tiles - Listed(chosen);
      RestHasThree(tiles, Listed(chosen), [c, c, c]);
      HandItemsAre(hand, color, isSpecEat);
      ColorTileOf(hand, color, c);
      PengAt(multiset(hand), color, isSpecEat, y, c);
      OccursPengs(chosen, y, c);
      PengsHeld(chosen, c);
      var k := OneNotChosen(items, l, y);
      LargestLeavesNone(tiles, items, l, k);
    }
  }

  lemma RestSparse(hand: seq<Card>, color: nat, isSpecEat: bool, l: seq<nat>)
    requires color < 5 && Largest(ColorTiles(hand, color), HandItems(hand, color, isSpecEat), l)
    requires forall c: Card :: multiset(hand)[c] <= 5
    ensures Sparse(ColorTiles(hand, color) - Listed(Pick(HandItems(hand, color, isSpecEat), l)), color, isSpecEat)
  {
    var tiles, taken := ColorTiles(hand, color), Listed(Pick(HandItems(hand, color, isSpecEat), l));
    forall c: Card ensures (tiles - taken)[c] <= 2 && ((tiles - taken)[c] > 0 ==> RealTile(c) && c / 16 == color) {
      NoThreeLeft(hand, color, isSpecEat, l, c);
      if tiles[c] > 0 {
        ColorTileOf(hand, color, c);
      }
    }
    NoEatLeft(hand, color, isSpecEat, l);
  }

  /** After some largest free choice, what is left of the colour is split with c
      wildcards, in any way at all. */
  ghost predicate DealtWith(hand: seq<Card>, color: nat, isSpecEat: bool, l: seq<nat>, list: seq<KindItem>, c: int)
    requires color < 5
  {
    var tiles, items := ColorTiles(hand, color), HandItems(hand, color, isSpecEat);
    Largest(tiles, items, l) && Decomposes(tiles - Listed(Pick(items, l)), c, list, isSpecEat)
  }

  ghost predicate Deals(hand: seq<Card>, color: nat, isSpecEat: bool, c: int) {
    color < 5 && exists l, list :: DealtWith(hand, color, isSpecEat, l, list, c)
  }

  lemma OneTile(rest: multiset<Card>) returns (c: Card)
    requires |rest| == 1
    ensures rest == multiset{c}
  {
    c :| c in rest;
    CardSub(multiset{c}, rest);
    NothingLeft(rest, multiset{c});
  }

  lemma FinishedWith(h: Hand, chosen: seq<KindItem>, pair: KindItem)
    requires PairOf(pair, h.held - Listed(chosen)) && h.held - Listed(chosen) != multiset{}
    ensures Finishes(h, chosen, chosen + [pair])
  {
  }

  lemma PassingFinish(h: Hand, chosen: seq<KindItem>) returns (list: seq<KindItem>)
    requires Passes(h, chosen)
    ensures Finishes(h, chosen, list)
  {
    var rest := h.held - Listed(chosen);
    list := chosen;
    if rest != multiset{} {
      var pair: KindItem;
      if |rest| == 1 {
        var c := OneTile(rest);
        pair := KindItem([c, c], Dui, 1);
      } else {
        var c: Card :| rest == multiset{c, c};
        pair := KindItem([c, c], Dui, 0);
        assert multiset(pair.cardIdx) == rest;
      }
      FinishedWith(h, chosen, pair);
      list := chosen + [pair];
    }
  }

  lemma SplitsDecompose(tiles: multiset<Card>, kings: int, color: nat, isSpecEat: bool, c: int)
    returns (list: seq<KindItem>)
    requires color < 5 && kings >= 0 && Splits(tiles, kings, color, isSpecEat, c)
    ensures Decomposes(tiles, c, list, isSpecEat) && 0 <= c <= kings
  {
    list := [];
    if tiles != multiset{} {
      var h := SearchedHand(tiles, kings, color, isSpecEat);
      SearchedLegal(tiles, kings, color, isSpecEat);
      var l :| Combine.Subset(l, |h.items|, |l|) && Passes(h, Pick(h.items, l)) && c == CostOf(h, Pick(h.items, l));
      PickTriples(h.items, l, isSpecEat);
      list := PassingFinish(h, Pick(h.items, l));
      PassingDecomposes(h, Pick(h.items, l), list, isSpecEat);
    }
  }

  /** What a colour costs is what some split costs ... */
  lemma CostsDeal(hand: seq<Card>, color: nat, kings: int, isSpecEat: bool, c: int)
    requires (forall d: Card :: multiset(hand)[d] <= 5) && kings >= 0 && ColorCosts(hand, color, kings, isSpecEat, c)
    ensures Deals(hand, color, isSpecEat, c) && 0 <= c <= kings
  {
    var tiles, items := ColorTiles(hand, color), HandItems(hand, color, isSpecEat);
    ColorSize(hand, color);
    BoundsLoseNothing(hand, color, kings, isSpecEat, c);
    var l :| Largest(tiles, items, l) && Splits(tiles - Listed(Pick(items, l)), kings, color, isSpecEat, c);
    var list := SplitsDecompose(tiles - Listed(Pick(items, l)), kings, color, isSpecEat, c);
    assert DealtWith(hand, color, isSpecEat, l, list, c);
  }

  /** A triple for every tile. */
  lemma {:induction false} PengEach(tiles: multiset<Card>, isSpecEat: bool) returns (list: seq<KindItem>)
    ensures Decomposes(tiles, 2 * |tiles|, list, isSpecEat) && PairCount(list) == 0
    decreases |tiles|
  {
    list := [];
    if tiles != multiset{} {
      var c :| c in tiles;
      var peng, less := NewByData(c, c, c, Peng), tiles - multiset{c};
      list := PengEach(less, isSpecEat);
      assert tiles == less + multiset{c};
      ListedSnoc(list, peng);
      PairCountSnoc(list, peng);
      LegalSnoc(list, peng, isSpecEat);
      InTriple(peng.cardIdx, c);
      list := list + [peng];
    }
  }

  lemma DealsAtLeast(hand: seq<Card>, color: nat, isSpecEat: bool, c: int)
    requires Deals(hand, color, isSpecEat, c)
    ensures c >= 0
  {
    var l, list :| DealtWith(hand, color, isSpecEat, l, list, c);
    CardSub(ColorTiles(hand, color) - Listed(Pick(HandItems(hand, color, isSpecEat), l)), Listed(list));
  }

  /** ... and no split costs less. */
  lemma DealCosts(hand: seq<Card>, color: nat, kings: int, isSpecEat: bool, c: int) returns (cost: int)
    requires (forall d: Card :: multiset(hand)[d] <= 5) && Deals(hand, color, isSpecEat, c) && c <= kings
    ensures cost <= c && ColorCosts(hand, color, kings, isSpecEat, cost)
  {
    var tiles, items := ColorTiles(hand, color), HandItems(hand, color, isSpecEat);
    var l, list :| DealtWith(hand, color, isSpecEat, l, list, c);
    var rest := tiles - Listed(Pick(items, l));
    RestSparse(hand, color, isSpecEat, l);
    ColorSize(hand, color);
    CardSub(Listed(Pick(items, l)), tiles);
    DealsAtLeast(hand, color, isSpecEat, c);
    if c < 255 {
      cost := SplitFinds(rest, kings, color, isSpecEat, list, c);
    } else {
      var pengs := PengEach(rest, isSpecEat);
      cost := SplitFinds(rest, kings, color, isSpecEat, pengs, 2 * |rest|);
    }
    BoundsLoseNothing(hand, color, kings, isSpecEat, cost);
  }

  // ----- All colours -----

  /** For how many wildcards a colour can be dealt with in some way. */
  type DealTable = (int, int) -> bool

  ghost function AllDeals(hand: seq<Card>, isSpecEat: bool): DealTable {
    (color, c) => color >= 0 && Deals(hand, color, isSpecEat, c)
  }

  ghost predicate CostsUpTo(costs: CostTable, color: int, kings: int, c: int) {
    exists x: int :: x <= c && costs(color, kings, x)
  }

  /** What a colour costs is one of the deals, and no deal that can be paid for
      costs less. */
  ghost predicate Matches(costs: CostTable, deals: DealTable, kingNum: int) {
    && (forall k: nat, kings: int, c: int ::
          0 <= kings <= kingNum && costs(k, kings, c) ==> deals(k, c) && 0 <= c <= kings)
    && (forall k: nat, kings: int, c: int ::
          0 <= c <= kings <= kingNum && deals(k, c) ==> CostsUpTo(costs, k, kings, c))
    && (forall k: nat, c: int :: deals(k, c) ==> c >= 0)
  }

  lemma AllMatches(hand: seq<Card>, isSpecEat: bool, kingNum: int)
    requires forall c: Card :: multiset(hand)[c] <= 5
    ensures Matches(Costs(hand, isSpecEat), AllDeals(hand, isSpecEat), kingNum)
  {
    var costs, deals := Costs(hand, isSpecEat), AllDeals(hand, isSpecEat);
    forall k: nat, kings: int, c: int | 0 <= kings <= kingNum && costs(k, kings, c)
      ensures deals(k, c) && 0 <= c <= kings {
      CostsDeal(hand, k, kings, isSpecEat, c);
    }
    forall k: nat, kings: int, c: int | 0 <= c <= kings <= kingNum && deals(k, c)
      ensures CostsUpTo(costs, k, kings, c) {
      var x := DealCosts(hand, k, kings, isSpecEat, c);
      assert costs(k, kings, x);
    }
    forall k: nat, c: int | deals(k, c) ensures c >= 0 { DealsAtLeast(hand, k, isSpecEat, c); }
  }

  lemma {:induction false} LeastExists(costs: CostTable, color: nat, kings: int, c: int) returns (least: int)
    requires costs(color, kings, c) && forall x: int :: costs(color, kings, x) ==> x >= 0
    ensures least <= c && costs(color, kings, least) && Cheapest(costs, color, kings, least)
    decreases c
  {
    if x: int :| x < c && costs(color, kings, x) {
      least := LeastExists(costs, color, kings, x);
    } else {
      least := c;
    }
  }

  ghost predicate AllDealt(deals: DealTable, us: seq<int>) {
    forall k: nat :: k < |us| ==> deals(k, us[k])
  }

  /** Each colour can be dealt with so that the wildcards are enough for all of
      them, and for filling up the pairs. */
  ghost predicate Suffices(hand: seq<Card>, deals: DealTable, kingNum: nat, us: seq<int>) {
    && |us| == 5 && AllDealt(deals, us) && Sum(us) <= kingNum
    && Sum(us) + PairColors(hand, us) <= kingNum + PairsOf(|hand| + kingNum)
  }

  lemma PairsSnoc(hand: seq<Card>, used: seq<int>, use: int)
    ensures PairColors(hand, used + [use]) == PairColors(hand, used) + PairOfColor(hand, |used|, use)
  {
    assert (used + [use])[..|used|] == used;
  }

  /** The next colour is dealt with for as little as can be. */
  lemma SpentFurther(costs: CostTable, deals: DealTable, kingNum: nat, used: seq<int>, c: int) returns (least: int)
    requires Matches(costs, deals, kingNum) && Spent(costs, kingNum, used) && 0 <= Sum(used) <= kingNum
    requires costs(|used|, kingNum - Sum(used), c)
    ensures 0 <= least <= c && deals(|used|, least) && Spent(costs, kingNum, used + [least])
    ensures Sum(used + [least]) == Sum(used) + least <= kingNum
  {
    least := LeastExists(costs, |used|, kingNum - Sum(used), c);
    SpentMore(costs, kingNum, used, least);
    SumSnoc(used, least);
  }

  ghost predicate NeverStuck(costs: CostTable, kingNum: nat) {
    forall us: seq<int> :: |us| < 5 && Spent(costs, kingNum, us) ==> !ColorStuck(costs, |us|, kingNum - Sum(us))
  }

  lemma DealtSnoc(deals: DealTable, us: seq<int>, use: int)
    requires AllDealt(deals, us) && deals(|us|, use)
    ensures AllDealt(deals, us + [use])
  {
  }

  lemma NotStuckCost(costs: CostTable, kingNum: nat, used: seq<int>) returns (c: int)
    requires NeverStuck(costs, kingNum) && |used| < 5 && Spent(costs, kingNum, used)
    ensures costs(|used|, kingNum - Sum(used), c)
  {
    assert !ColorStuck(costs, |used|, kingNum - Sum(used));
    c :| costs(|used|, kingNum - Sum(used), c);
  }

  /** The colours dealt with so far. */
  ghost predicate DealtSoFar(costs: CostTable, deals: DealTable, kingNum: nat, used: seq<int>) {
    Spent(costs, kingNum, used) && 0 <= Sum(used) <= kingNum && AllDealt(deals, used)
  }

  lemma DealtNext(costs: CostTable, deals: DealTable, kingNum: nat, used: seq<int>, c: int) returns (more: seq<int>)
    requires Matches(costs, deals, kingNum) && DealtSoFar(costs, deals, kingNum, used)
             && costs(|used|, kingNum - Sum(used), c)
    ensures |more| == |used| + 1 && DealtSoFar(costs, deals, kingNum, more)
  {
    var least := SpentFurther(costs, deals, kingNum, used, c);
    DealtSnoc(deals, used, least);
    more := used + [least];
  }

  /** As long as nothing is stuck, all colours are dealt with. */
  lemma {:induction false} SpentOf(costs: CostTable, deals: DealTable, kingNum: nat, n: nat) returns (used: seq<int>)
    requires Matches(costs, deals, kingNum) && n <= 5 && NeverStuck(costs, kingNum)
    ensures |used| == n && DealtSoFar(costs, deals, kingNum, used)
  {
    used := [];
    if n > 0 {
      used := SpentOf(costs, deals, kingNum, n - 1);
      var c := NotStuckCost(costs, kingNum, used);
      used := DealtNext(costs, deals, kingNum, used, c);
    }
  }

  lemma SpentSuffices(hand: seq<Card>, costs: CostTable, deals: DealTable, kingNum: nat) returns (used: seq<int>)
    requires Matches(costs, deals, kingNum)
    requires forall us: seq<int> :: |us| <= 5 && Spent(costs, kingNum, us) ==> !Fails(hand, costs, kingNum, us)
    ensures Suffices(hand, deals, kingNum, used)
  {
    forall us: seq<int> | |us| < 5 && Spent(costs, kingNum, us) ensures !ColorStuck(costs, |us|, kingNum - Sum(us)) {
      StuckFails(hand, costs, kingNum, us, kingNum - Sum(us));
    }
    used := SpentOf(costs, deals, kingNum, 5);
    assert !Fails(hand, costs, kingNum, used);
  }

  lemma {:induction false} PrefixSum(us: seq<int>, n: nat)
    requires n <= |us| && forall i :: 0 <= i < |us| ==> us[i] >= 0
    ensures 0 <= Sum(us[..n]) <= Sum(us)
  {
    if n < |us| {
      PrefixSum(us[..|us| - 1], n);
      assert us[..|us| - 1][..n] == us[..n];
    } else if n > 0 {
      PrefixSum(us[..n - 1], n - 1);
      assert us[..n] == us && us[..n - 1][..n - 1] == us[..n - 1];
    }
  }

  /** Who spends less on a colour does not spend more on it and its pair. */
  lemma PairWithin(hand: seq<Card>, color: nat, use: int, least: int)
    requires least <= use
    ensures least + PairOfColor(hand, color, least) <= use + PairOfColor(hand, color, use)
  {
  }

  lemma DealtSum(costs: CostTable, deals: DealTable, kingNum: int, us: seq<int>, n: nat)
    requires Matches(costs, deals, kingNum) && AllDealt(deals, us) && n <= |us|
    ensures 0 <= Sum(us[..n]) <= Sum(us)
  {
    forall i: nat | i < |us| ensures us[i] >= 0 { assert deals(i, us[i]); }
    PrefixSum(us, n);
  }

  lemma NextWithin(hand: seq<Card>, costs: CostTable, deals: DealTable, kingNum: nat, used: seq<int>, use: int,
                   sum: int, pairs: int)
    returns (least: int)
    requires Matches(costs, deals, kingNum) && Spent(costs, kingNum, used) && deals(|used|, use)
    requires 0 <= Sum(used) <= sum && Sum(used) + PairColors(hand, used) <= sum + pairs && sum + use <= kingNum
    ensures var more := used + [least];
            && Spent(costs, kingNum, more) && 0 <= Sum(more) <= sum + use
            && Sum(more) + PairColors(hand, more) <= sum + use + (pairs + PairOfColor(hand, |used|, use))
  {
    var left := kingNum - Sum(used);
    assert use >= 0;
    assert CostsUpTo(costs, |used|, left, use);
    var cost :| cost <= use && costs(|used|, left, cost);
    least := SpentFurther(costs, deals, kingNum, used, cost);
    PairWithin(hand, |used|, use, least);
    PairsSnoc(hand, used, least);
  }

  /** Spending as little as can be, colour after colour, stays within what any
      other way spends. */
  lemma {:induction false} SpentWithin(hand: seq<Card>, costs: CostTable, deals: DealTable, kingNum: nat, us: seq<int>,
                                       n: nat)
    returns (used: seq<int>)
    requires Matches(costs, deals, kingNum) && AllDealt(deals, us) && Sum(us) <= kingNum && n <= |us|
    ensures |used| == n && Spent(costs, kingNum, used) && 0 <= Sum(used) <= Sum(us[..n])
    ensures Sum(used) + PairColors(hand, used) <= Sum(us[..n]) + PairColors(hand, us[..n])
  {
    used := [];
    if n > 0 {
      var init := SpentWithin(hand, costs, deals, kingNum, us, n - 1);
      SumNext(hand, us, n - 1);
      DealtSum(costs, deals, kingNum, us, n);
      var least := NextWithin(hand, costs, deals, kingNum, init, us[n - 1], Sum(us[..n - 1]),
        PairColors(hand, us[..n - 1]));
      used := init + [least];
    }
  }

  lemma WithinWins(hand: seq<Card>, costs: CostTable, deals: DealTable, kingNum: nat, us: seq<int>)
    returns (used: seq<int>)
    requires Matches(costs, deals, kingNum) && Suffices(hand, deals, kingNum, us)
    ensures |used| == 5 && Spent(costs, kingNum, used) && !Fails(hand, costs, kingNum, used)
  {
    used := SpentWithin(hand, costs, deals, kingNum, us, 5);
    assert us[..5] == us;
  }

  /** A hand wins exactly when, after a largest choice of items without wildcards
      in every colour, the rest of all colours can be split in any way that the
      wildcards suffice for: spending as few as possible on one colour after the
      other loses nothing. */
  lemma FoundAfterFree(hand: seq<Card>, kingNum: nat, isSpecEat: bool)
    requires forall c: Card :: multiset(hand)[c] <= 5
    ensures !Loses(hand, kingNum, isSpecEat) <==> exists us :: Suffices(hand, AllDeals(hand, isSpecEat), kingNum, us)
  {
    var costs, deals := Costs(hand, isSpecEat), AllDeals(hand, isSpecEat);
    AllMatches(hand, isSpecEat, kingNum);
    if !Loses(hand, kingNum, isSpecEat) {
      var used := SpentSuffices(hand, costs, deals, kingNum);
    }
    if us :| Suffices(hand, deals, kingNum, us) {
      var used := WithinWins(hand, costs, deals, kingNum, us);
      NoReason(hand, kingNum, isSpecEat, used);
    }
  }

  // ----- Winning hands that keep the free items -----

  /** A largest free choice of the colour is part of the list. */
  ghost predicate Keeps(hand: seq<Card>, list: seq<KindItem>, color: nat, isSpecEat: bool) {
    color < 5 &&
    exists l :: Largest(ColorTiles(hand, color), HandItems(hand, color, isSpecEat), l)
                && multiset(Pick(HandItems(hand, color, isSpecEat), l)) <= multiset(list)
  }

  ghost predicate KeepsBelow(hand: seq<Card>, list: seq<KindItem>, n: nat, isSpecEat: bool) {
    forall k: nat :: k < n ==> Keeps(hand, list, k, isSpecEat)
  }

  ghost predicate KeepsFree(hand: seq<Card>, list: seq<KindItem>, isSpecEat: bool) {
    KeepsBelow(hand, list, 5, isSpecEat)
  }

  /** All triples and sequences of one list are in the other. */
  ghost predicate Extends(a: seq<KindItem>, b: seq<KindItem>) {
    forall y: KindItem :: y.kindType != Dui ==> multiset(a)[y] <= multiset(b)[y]
  }

  lemma TriplesExtend(chosen: seq<KindItem>, a: seq<KindItem>, b: seq<KindItem>, isSpecEat: bool)
    requires AllTriples(chosen, isSpecEat) && multiset(chosen) <= multiset(a) && Extends(a, b)
    ensures multiset(chosen) <= multiset(b)
  {
    forall y ensures multiset(chosen)[y] <= multiset(b)[y] {
      if y in chosen {
        var i :| 0 <= i < |chosen| && chosen[i] == y;
        assert LegalTriple(chosen[i], isSpecEat);
        assert multiset(chosen)[y] <= multiset(a)[y];
      }
    }
  }

  lemma KeepsMore(hand: seq<Card>, a: seq<KindItem>, b: seq<KindItem>, color: nat, isSpecEat: bool)
    requires color < 5 && Keeps(hand, a, color, isSpecEat) && Extends(a, b)
    ensures Keeps(hand, b, color, isSpecEat)
  {
    var items := HandItems(hand, color, isSpecEat);
    var l :| Largest(ColorTiles(hand, color), items, l) && multiset(Pick(items, l)) <= multiset(a);
    HandItemsLegal(hand, color, isSpecEat);
    PickTriples(items, l, isSpecEat);
    TriplesExtend(Pick(items, l), a, b, isSpecEat);
  }

  /** The largest free choice and the split of the rest. */
  lemma DealtList(hand: seq<Card>, color: nat, isSpecEat: bool, c: int) returns (list: seq<KindItem>)
    requires Deals(hand, color, isSpecEat, c)
    ensures Decomposes(ColorTiles(hand, color), c, list, isSpecEat) && Keeps(hand, list, color, isSpecEat)
  {
    var items := HandItems(hand, color, isSpecEat);
    var l, rest :| DealtWith(hand, color, isSpecEat, l, rest, c);
    HandItemsLegal(hand, color, isSpecEat);
    PickTriples(items, l, isSpecEat);
    DecomposesWithFree(ColorTiles(hand, color), Pick(items, l), c, rest, isSpecEat);
    list := Pick(items, l) + rest;
  }

  lemma PairOfRest(hand: seq<Card>, k: nat, size: int)
    ensures PairOfColor(hand, k, size - |ColorTiles(hand, k)|) == PairsOf(size)
  {
  }

  lemma PairsOfList(list: seq<KindItem>, isSpecEat: bool)
    requires AllLegal(list, isSpecEat) && PairCount(list) <= 1
    ensures PairCount(list) == PairsOf(|Listed(list)|)
  {
    LegalSize(list, isSpecEat);
    PairBySize(|Listed(list)|, |list|, PairCount(list));
  }

  lemma PairsOfDeal(hand: seq<Card>, color: nat, isSpecEat: bool, c: int, list: seq<KindItem>)
    requires Decomposes(ColorTiles(hand, color), c, list, isSpecEat)
    ensures PairCount(list) == PairOfColor(hand, color, c)
  {
    PairsOfList(list, isSpecEat);
    PairOfRest(hand, color, |Listed(list)|);
  }

  lemma AllKeepMore(hand: seq<Card>, a: seq<KindItem>, b: seq<KindItem>, n: nat, isSpecEat: bool)
    requires KeepsBelow(hand, a, n, isSpecEat) && Extends(a, b)
    ensures KeepsBelow(hand, b, n, isSpecEat)
  {
    forall k: nat | k < n ensures Keeps(hand, b, k, isSpecEat) {
      assert Keeps(hand, a, k, isSpecEat);
      KeepsMore(hand, a, b, k, isSpecEat);
    }
  }

  lemma KeepBoth(hand: seq<Card>, a: seq<KindItem>, b: seq<KindItem>, n: nat, isSpecEat: bool)
    requires n < 5 && KeepsBelow(hand, a, n, isSpecEat) && Keeps(hand, b, n, isSpecEat)
    ensures KeepsBelow(hand, a + b, n + 1, isSpecEat)
  {
    var both := a + b;
    AllKeepMore(hand, a, both, n, isSpecEat);
    KeepsMore(hand, b, both, n, isSpecEat);
  }

  /** The first colours together. */
  ghost predicate JoinedDeals(hand: seq<Card>, isSpecEat: bool, us: seq<int>, n: nat, list: seq<KindItem>)
    requires n <= |us| && n <= 5
  {
    && AllLegal(list, isSpecEat) && RealTiles(hand, n) <= Listed(list)
    && |Listed(list)| == |RealTiles(hand, n)| + Sum(us[..n]) && PairCount(list) == PairColors(hand, us[..n])
    && KeepsBelow(hand, list, n, isSpecEat)
  }

  lemma JoinNext(hand: seq<Card>, isSpecEat: bool, us: seq<int>, n: nat, list: seq<KindItem>, next: seq<KindItem>)
    requires n < |us| && n < 5 && JoinedDeals(hand, isSpecEat, us, n, list)
    requires Decomposes(ColorTiles(hand, n), us[n], next, isSpecEat) && Keeps(hand, next, n, isSpecEat)
    ensures JoinedDeals(hand, isSpecEat, us, n + 1, list + next)
  {
    LegalConcat(list, next, isSpecEat);
    ListedConcat(list, next);
    ColorTilesAdd(hand, n);
    PairCountConcat(list, next);
    PairsOfDeal(hand, n, isSpecEat, us[n], next);
    SumNext(hand, us, n);
    KeepBoth(hand, list, next, n, isSpecEat);
  }

  lemma {:induction false} JoinDeals(hand: seq<Card>, isSpecEat: bool, us: seq<int>, n: nat)
    returns (list: seq<KindItem>)
    requires n <= |us| && n <= 5 && forall k: nat :: k < n ==> Deals(hand, k, isSpecEat, us[k])
    ensures JoinedDeals(hand, isSpecEat, us, n, list)
  {
    list := [];
    if n == 0 {
      RealTilesSize(hand, 0);
    } else {
      var init := JoinDeals(hand, isSpecEat, us, n - 1);
      var next := DealtList(hand, n - 1, isSpecEat, us[n - 1]);
      JoinNext(hand, isSpecEat, us, n - 1, init, next);
      list := init + next;
    }
  }

  // ----- Filling up -----

  /** From one list to the next: nothing is lost, and so many pairs and tiles
      change. */
  ghost predicate Fills(a: seq<KindItem>, b: seq<KindItem>, pairs: int, tiles: int, isSpecEat: bool) {
    && (AllLegal(a, isSpecEat) ==> AllLegal(b, isSpecEat)) && Listed(a) <= Listed(b) && Extends(a, b)
    && PairCount(b) == PairCount(a) + pairs && |Listed(b)| == |Listed(a)| + tiles
  }

  lemma FillsAdd(list: seq<KindItem>, x: KindItem, isSpecEat: bool)
    requires LegalItem(x, isSpecEat)
    ensures Fills(list, list + [x], if x.kindType == Dui then 1 else 0, |x.cardIdx|, isSpecEat)
  {
    ListedSnoc(list, x);
    PairCountSnoc(list, x);
    if AllLegal(list, isSpecEat) {
      LegalSnoc(list, x, isSpecEat);
    }
  }

  lemma FillsBoth(a: seq<KindItem>, b: seq<KindItem>, c: seq<KindItem>, p: int, t: int, q: int, u: int, isSpecEat: bool)
    requires Fills(a, b, p, t, isSpecEat) && Fills(b, c, q, u, isSpecEat)
    ensures Fills(a, c, p + q, t + u, isSpecEat)
  {
  }

  lemma {:induction false} AddThrees(list: seq<KindItem>, n: nat, isSpecEat: bool) returns (more: seq<KindItem>)
    ensures Fills(list, more, 0, 3 * n, isSpecEat)
    decreases n
  {
    more := list;
    if n > 0 {
      var peng := NewByData(KING_IDX, KING_IDX, KING_IDX, Peng);
      FillsAdd(list, peng, isSpecEat);
      more := AddThrees(list + [peng], n - 1, isSpecEat);
      FillsBoth(list, list + [peng], more, 0, 3, 0, 3 * (n - 1), isSpecEat);
    }
  }

  lemma ExtendsLast(a: seq<KindItem>, b: seq<KindItem>, x: KindItem, y: KindItem)
    requires Extends(a, b) && (x.kindType == Dui || x == y)
    ensures Extends(a + [x], b + [y])
  {
    forall z: KindItem | z.kindType != Dui ensures multiset(a + [x])[z] <= multiset(b + [y])[z] {
      assert multiset(a)[z] <= multiset(b)[z];
    }
  }

  lemma UpgradedPair(x: KindItem, isSpecEat: bool)
    requires Assembly.IsPair(x)
    ensures var y := Assembly.Upgrade(x);
            LegalItem(y, isSpecEat) && multiset(x.cardIdx) <= multiset(y.cardIdx) && |x.cardIdx| == 2
              && |y.cardIdx| == 3
  {
  }

  lemma LegalFront(a: seq<KindItem>, x: KindItem, isSpecEat: bool)
    requires AllLegal(a + [x], isSpecEat)
    ensures AllLegal(a, isSpecEat) && LegalItem(x, isSpecEat)
  {
    forall i | 0 <= i < |a| ensures LegalItem(a[i], isSpecEat) { assert (a + [x])[i] == a[i]; }
    assert (a + [x])[|a|] == x;
  }

  lemma UpgradeLast(a: seq<KindItem>, b: seq<KindItem>, x: KindItem, p: int, t: int, isSpecEat: bool)
    requires Fills(a, b, p, t, isSpecEat) && Assembly.IsPair(x)
    ensures Fills(a + [x], b + [Assembly.Upgrade(x)], p - 1, t + 1, isSpecEat)
  {
    var y := Assembly.Upgrade(x);
    UpgradedPair(x, isSpecEat);
    ListedSnoc(a, x);
    ListedSnoc(b, y);
    PairCountSnoc(a, x);
    PairCountSnoc(b, y);
    ExtendsLast(a, b, x, y);
    if AllLegal(a + [x], isSpecEat) {
      LegalFront(a, x, isSpecEat);
      LegalSnoc(b, y, isSpecEat);
    }
  }

  lemma SameLast(a: seq<KindItem>, b: seq<KindItem>, x: KindItem, p: int, t: int, isSpecEat: bool)
    requires Fills(a, b, p, t, isSpecEat)
    ensures Fills(a + [x], b + [x], p, t, isSpecEat)
  {
    ListedSnoc(a, x);
    ListedSnoc(b, x);
    PairCountSnoc(a, x);
    PairCountSnoc(b, x);
    ExtendsLast(a, b, x, x);
    if AllLegal(a + [x], isSpecEat) {
      LegalFront(a, x, isSpecEat);
      LegalSnoc(b, x, isSpecEat);
    }
  }

  /** So many pairs become triples. */
  lemma {:induction false} UpgradeSome(list: seq<KindItem>, n: nat, isSpecEat: bool) returns (more: seq<KindItem>)
    requires AllLegal(list, isSpecEat) && n <= PairCount(list)
    ensures Fills(list, more, -(n as int), n, isSpecEat)
  {
    more := list;
    if n > 0 {
      var init, x := list[..|list| - 1], list[|list| - 1];
      assert list == init + [x];
      LegalFront(init, x, isSpecEat);
      if x.kindType == Dui {
        more := UpgradeSome(init, n - 1, isSpecEat);
        UpgradeLast(init, more, x, -(n - 1), n - 1, isSpecEat);
        more := more + [Assembly.Upgrade(x)];
      } else {
        more := UpgradeSome(init, n, isSpecEat);
        SameLast(init, more, x, -(n as int), n, isSpecEat);
        more := more + [x];
      }
    }
  }

  /** A pair of wildcards, and triples of them. */
  lemma FillPair(list: seq<KindItem>, left: nat, isSpecEat: bool) returns (more: seq<KindItem>)
    requires left % 3 == 2
    ensures Fills(list, more, 1, left, isSpecEat)
  {
    var pair := KindItem([KING_IDX, KING_IDX], Dui, 2);
    var n := left / 3;
    assert left == 3 * n + 2;
    FillsAdd(list, pair, isSpecEat);
    more := AddThrees(list + [pair], n, isSpecEat);
    FillsBoth(list, list + [pair], more, 1, 2, 0, 3 * n, isSpecEat);
  }

  /** So many pairs are filled up, and triples of wildcards added. */
  lemma FillPairs(list: seq<KindItem>, d: nat, left: nat, isSpecEat: bool) returns (more: seq<KindItem>)
    requires AllLegal(list, isSpecEat) && d <= PairCount(list) && d <= left && (left - d) % 3 == 0
    ensures Fills(list, more, -(d as int), left, isSpecEat)
  {
    var n := (left - d) / 3;
    assert left == d + 3 * n;
    var some := UpgradeSome(list, d, isSpecEat);
    more := AddThrees(some, n, isSpecEat);
    FillsBoth(list, some, more, -(d as int), d, 0, 3 * n, isSpecEat);
  }

  /** Of so many tiles, with so many pairs and wildcards left, in modulo three. */
  lemma LeftOvers(size: nat, items: nat, d: nat, left: nat, pairs: nat)
    requires size + d == 3 * items && (size + left) % 3 == 2 * pairs && pairs <= 1
    ensures (left - d - 2 * pairs) % 3 == 0
    ensures d == 0 && pairs == 1 ==> left % 3 == 2
    ensures d >= pairs ==> (left - (d - pairs)) % 3 == 0
  {
    assert (size + left) % 3 == (left - d) % 3 by { assert size + left == 3 * items + (left - d); }
  }

  /** With wildcards enough, pairs are filled up and triples of wildcards added
      until one pair is left, or none. */
  lemma FillUp(list: seq<KindItem>, left: nat, pairs: nat, isSpecEat: bool) returns (more: seq<KindItem>)
    requires AllLegal(list, isSpecEat) && pairs <= 1 && PairCount(list) <= left + pairs
    requires (|Listed(list)| + left) % 3 == 2 * pairs
    ensures Fills(list, more, pairs - PairCount(list), left, isSpecEat)
  {
    var d := PairCount(list);
    LegalSize(list, isSpecEat);
    LeftOvers(|Listed(list)|, |list|, d, left, pairs);
    if d < pairs {
      more := FillPair(list, left, isSpecEat);
    } else {
      more := FillPairs(list, d - pairs, left, isSpecEat);
    }
  }

  lemma RoundUpSame(n: nat)
    ensures Assembly.RoundUp(n, n % 3) == n
  {
  }

  lemma FilledWins(hand: seq<Card>, kingNum: nat, isSpecEat: bool, joined: seq<KindItem>, list: seq<KindItem>)
    requires RealTiles(hand, 5) == multiset(hand) <= Listed(joined) && AllLegal(joined, isSpecEat)
    requires (|hand| + kingNum) % 3 != 1
    requires Fills(joined, list, PairsOf(|hand| + kingNum) - PairCount(joined), |hand|
             + kingNum - |Listed(joined)|, isSpecEat)
    ensures Wins(hand, kingNum, list, isSpecEat)
  {
    RoundUpSame(|hand| + kingNum);
  }

  lemma FilledUp(hand: seq<Card>, kingNum: nat, isSpecEat: bool, joined: seq<KindItem>) returns (list: seq<KindItem>)
    requires RealTiles(hand, 5) == multiset(hand) <= Listed(joined) && AllLegal(joined, isSpecEat)
             && (|hand| + kingNum) % 3 != 1
    requires |Listed(joined)| <= |hand| + kingNum && KeepsBelow(hand, joined, 5, isSpecEat)
    requires PairCount(joined) <= |hand| + kingNum - |Listed(joined)| + PairsOf(|hand| + kingNum)
    ensures Wins(hand, kingNum, list, isSpecEat) && KeepsFree(hand, list, isSpecEat)
  {
    list := FillUp(joined, |hand| + kingNum - |Listed(joined)|, PairsOf(|hand| + kingNum), isSpecEat);
    AllKeepMore(hand, joined, list, 5, isSpecEat);
    FilledWins(hand, kingNum, isSpecEat, joined, list);
  }

  lemma DealtEach(hand: seq<Card>, isSpecEat: bool, us: seq<int>, k: nat)
    requires AllDealt(AllDeals(hand, isSpecEat), us) && k < |us|
    ensures Deals(hand, k, isSpecEat, us[k])
  {
    assert AllDeals(hand, isSpecEat)(k, us[k]);
  }

  lemma JoinAll(hand: seq<Card>, kingNum: nat, isSpecEat: bool, us: seq<int>) returns (list: seq<KindItem>)
    requires Suffices(hand, AllDeals(hand, isSpecEat), kingNum, us)
    ensures AllLegal(list, isSpecEat) && RealTiles(hand, 5) <= Listed(list) && KeepsBelow(hand, list, 5, isSpecEat)
    ensures Sum(us) <= kingNum && |Listed(list)| == |RealTiles(hand, 5)| + Sum(us)
    ensures PairCount(list) <= kingNum - Sum(us) + PairsOf(|hand| + kingNum)
  {
    forall k: nat | k < 5 ensures Deals(hand, k, isSpecEat, us[k]) { DealtEach(hand, isSpecEat, us, k); }
    list := JoinDeals(hand, isSpecEat, us, 5);
    assert us[..5] == us;
  }

  lemma WinKept(hand: seq<Card>, kingNum: nat, isSpecEat: bool, us: seq<int>) returns (list: seq<KindItem>)
    requires Suffices(hand, AllDeals(hand, isSpecEat), kingNum, us) && (|hand| + kingNum) % 3 != 1
    requires forall i :: 0 <= i < |hand| ==> RealTile(hand[i])
    ensures Wins(hand, kingNum, list, isSpecEat) && KeepsFree(hand, list, isSpecEat)
  {
    AllTilesReal(hand);
    var joined := JoinAll(hand, kingNum, isSpecEat, us);
    list := FilledUp(hand, kingNum, isSpecEat, joined);
  }

  // ----- Such a winning hand is found -----

  lemma PairsBetween(front: seq<KindItem>, x: KindItem, back: seq<KindItem>)
    ensures PairCount(front + [x] + back) == PairCount(front + back) + if x.kindType == Dui then 1 else 0
  {
    PairCountConcat(front, back);
    PairCountSnoc(front, x);
    PairCountConcat(front + [x], back);
  }

  lemma PairsWithout(list: seq<KindItem>, j: nat)
    requires j < |list|
    ensures PairCount(list) == PairCount(list[..j] + list[j + 1..]) + if list[j].kindType == Dui then 1 else 0
  {
    Sequences.SplitAt(list, j);
    PairsBetween(list[..j], list[j], list[j + 1..]);
  }

  lemma LegalWithout(list: seq<KindItem>, j: nat, isSpecEat: bool)
    requires j < |list| && AllLegal(list, isSpecEat)
    ensures AllLegal(list[..j] + list[j + 1..], isSpecEat)
  {
    var less := list[..j] + list[j + 1..];
    forall i | 0 <= i < |less| ensures LegalItem(less[i], isSpecEat) {
      assert LegalItem(list[if i < j then i else i + 1], isSpecEat);
    }
  }

  /** A list in two parts. */
  ghost predicate Parts(list: seq<KindItem>, a: seq<KindItem>, b: seq<KindItem>) {
    Listed(list) == Listed(a) + Listed(b) && PairCount(list) == PairCount(a) + PairCount(b)
  }

  lemma PartsMore(list: seq<KindItem>, j: nat, a: seq<KindItem>, b: seq<KindItem>)
    requires j < |list| && Parts(list[..j] + list[j + 1..], a, b)
    ensures Parts(list, a + [list[j]], b)
  {
    ListedWithout(list, j);
    PairsWithout(list, j);
    ListedSnoc(a, list[j]);
    PairCountSnoc(a, list[j]);
    PlusSwap(Listed(a), Listed(b), multiset(list[j].cardIdx));
  }

  /** What is in the list besides the given items. */
  lemma {:induction false} Remainder(list: seq<KindItem>, items: seq<KindItem>, isSpecEat: bool)
    returns (rest: seq<KindItem>)
    requires multiset(items) <= multiset(list) && AllLegal(list, isSpecEat)
    ensures AllLegal(rest, isSpecEat) && Parts(list, items, rest)
    decreases |items|
  {
    if items == [] {
      rest := list;
    } else {
      var init, y := items[..|items| - 1], items[|items| - 1];
      assert items == init + [y];
      assert multiset(items)[y] > 0;
      var j :| 0 <= j < |list| && list[j] == y;
      TakenOne(list, j);
      BothLess(multiset(init), multiset(list[..j] + list[j + 1..]), y);
      LegalWithout(list, j, isSpecEat);
      rest := Remainder(list[..j] + list[j + 1..], init, isSpecEat);
      PartsMore(list, j, init, rest);
    }
  }

  lemma {:induction false} BetweenHas(list: seq<KindItem>, a: int, b: int, y: KindItem)
    requires StartsBetween(y, a, b)
    ensures multiset(Between(list, a, b))[y] == multiset(list)[y]
  {
    if list != [] {
      var init, x := list[..|list| - 1], list[|list| - 1];
      assert list == init + [x];
      BetweenHas(init, a, b, y);
    }
  }

  lemma PartHas(hand: seq<Card>, list: seq<KindItem>, color: nat, isSpecEat: bool, chosen: seq<KindItem>)
    requires color < 5 && AllTriples(chosen, isSpecEat) && Listed(chosen) <= ColorTiles(hand, color)
    requires multiset(chosen) <= multiset(list)
    ensures multiset(chosen) <= multiset(Between(list, color, color + 1))
  {
    forall y ensures multiset(chosen)[y] <= multiset(Between(list, color, color + 1))[y] {
      if y in chosen {
        var i :| 0 <= i < |chosen| && chosen[i] == y;
        TripleShape(chosen[i], isSpecEat);
        ItemListed(chosen, y);
        assert y.cardIdx[0] in multiset(y.cardIdx);
        ColorTileOf(hand, color, y.cardIdx[0]);
        BetweenHas(list, color, color + 1, y);
      }
    }
  }

  /** What a winning hand says about a colour: its items hold the tiles. */
  lemma PartOfWin(hand: seq<Card>, list: seq<KindItem>, isSpecEat: bool, k: nat)
    requires k < 5 && AllLegal(list, isSpecEat) && PairCount(list) <= 1 && RealTiles(hand, 5) <= Listed(list)
    ensures var part := Between(list, k, k + 1);
            AllLegal(part, isSpecEat) && PairCount(part) <= 1 && ColorTiles(hand, k) <= Listed(part)
  {
    BetweenLegal(list, k, k + 1, isSpecEat);
    BetweenPairs(list, k, k, k + 1);
    forall c: Card ensures ColorTiles(hand, k)[c] <= Listed(Between(list, k, k + 1))[c] {
      BetweenListed(list, k, k + 1, isSpecEat, c);
    }
  }

  /** What the list spends on a colour. */
  ghost function SpendOn(hand: seq<Card>, list: seq<KindItem>, k: nat): int {
    |Listed(Between(list, k, k + 1))| - |ColorTiles(hand, k)|
  }

  lemma RestDecomposes(tiles: multiset<Card>, part: seq<KindItem>, chosen: seq<KindItem>, rest: seq<KindItem>,
                       isSpecEat: bool)
    requires Parts(part, chosen, rest) && AllLegal(rest, isSpecEat) && PairCount(part) <= 1
    requires Listed(chosen) <= tiles <= Listed(part)
    ensures Decomposes(tiles - Listed(chosen), |Listed(part)| - |tiles|, rest, isSpecEat)
  {
    CardSub(Listed(chosen), tiles);
    assert tiles - Listed(chosen) <= Listed(rest);
  }

  lemma PartDeals(hand: seq<Card>, list: seq<KindItem>, isSpecEat: bool, k: nat)
    requires k < 5 && AllLegal(list, isSpecEat) && PairCount(list) <= 1 && RealTiles(hand, 5) <= Listed(list)
    requires Keeps(hand, list, k, isSpecEat)
    ensures Deals(hand, k, isSpecEat, SpendOn(hand, list, k))
  {
    var tiles, items, part := ColorTiles(hand, k), HandItems(hand, k, isSpecEat), Between(list, k, k + 1);
    var l :| Largest(tiles, items, l) && multiset(Pick(items, l)) <= multiset(list);
    var chosen := Pick(items, l);
    PartOfWin(hand, list, isSpecEat, k);
    HandItemsLegal(hand, k, isSpecEat);
    PickTriples(items, l, isSpecEat);
    PartHas(hand, list, k, isSpecEat, chosen);
    var rest := Remainder(part, chosen, isSpecEat);
    RestDecomposes(tiles, part, chosen, rest, isSpecEat);
    assert DealtWith(hand, k, isSpecEat, l, rest, SpendOn(hand, list, k));
  }

  lemma PartPairs(hand: seq<Card>, list: seq<KindItem>, isSpecEat: bool, k: nat)
    requires k < 5 && AllLegal(list, isSpecEat) && PairCount(list) <= 1
    ensures PairOfColor(hand, k, SpendOn(hand, list, k)) == PairCount(Between(list, k, k + 1))
  {
    var part := Between(list, k, k + 1);
    BetweenLegal(list, k, k + 1, isSpecEat);
    BetweenPairs(list, k, k, k + 1);
    PairsOfList(part, isSpecEat);
    PairOfRest(hand, k, |Listed(part)|);
  }

  lemma {:induction false} BetweenSizes(list: seq<KindItem>, a: int, b: int, n: int)
    requires a <= b <= n
    ensures |Listed(Between(list, a, n))| == |Listed(Between(list, a, b))| + |Listed(Between(list, b, n))|
    ensures |Listed(Between(list, a, n))| <= |Listed(list)|
  {
    if list != [] {
      var init, x := list[..|list| - 1], list[|list| - 1];
      BetweenSizes(init, a, b, n);
      ListedSnoc(Between(init, a, n), x);
      ListedSnoc(Between(init, a, b), x);
      ListedSnoc(Between(init, b, n), x);
    }
  }

  /** What the list spends on the first colours. */
  ghost function SpendAll(hand: seq<Card>, list: seq<KindItem>, n: nat): (us: seq<int>)
    ensures |us| == n
  {
    if n == 0 then [] else SpendAll(hand, list, n - 1) + [SpendOn(hand, list, n - 1)]
  }

  lemma {:induction false} SpendAt(hand: seq<Card>, list: seq<KindItem>, n: nat, k: nat)
    requires k < n
    ensures SpendAll(hand, list, n)[k] == SpendOn(hand, list, k)
  {
    var init := SpendAll(hand, list, n - 1);
    assert SpendAll(hand, list, n) == init + [SpendOn(hand, list, n - 1)];
    if k < n - 1 {
      SpendAt(hand, list, n - 1, k);
    }
  }

  lemma {:induction false} SpendSum(hand: seq<Card>, list: seq<KindItem>, n: nat)
    ensures Sum(SpendAll(hand, list, n)) == |Listed(Between(list, 0, n))| - |RealTiles(hand, n)|
  {
    if n == 0 {
      BetweenSizes(list, 0, 0, 0);
      RealTilesSize(hand, 0);
    } else {
      SpendSum(hand, list, n - 1);
      SumSnoc(SpendAll(hand, list, n - 1), SpendOn(hand, list, n - 1));
      BetweenSizes(list, 0, n - 1, n);
      ColorTilesAdd(hand, n - 1);
    }
  }

  lemma {:induction false} SpendPairs(hand: seq<Card>, list: seq<KindItem>, isSpecEat: bool, n: nat)
    requires n <= 5 && AllLegal(list, isSpecEat) && PairCount(list) <= 1
    ensures PairColors(hand, SpendAll(hand, list, n)) == PairCount(Between(list, 0, n))
  {
    if n == 0 {
      BetweenPairs(list, 0, 0, 0);
    } else {
      SpendPairs(hand, list, isSpecEat, n - 1);
      PairsSnoc(hand, SpendAll(hand, list, n - 1), SpendOn(hand, list, n - 1));
      BetweenPairs(list, 0, n - 1, n);
      PartPairs(hand, list, isSpecEat, n - 1);
    }
  }

  lemma SizeOfWin(hand: seq<Card>, kingNum: nat, isSpecEat: bool, list: seq<KindItem>)
    requires Wins(hand, kingNum, list, isSpecEat) && (forall i :: 0 <= i < |hand| ==> RealTile(hand[i]))
    ensures AllLegal(list, isSpecEat) && PairCount(list) == PairsOf(|hand| + kingNum)
            && RealTiles(hand, 5) <= Listed(list)
    ensures |Listed(list)| == |hand| + kingNum && |RealTiles(hand, 5)| == |hand|
  {
    AllTilesReal(hand);
  }

  lemma KeptSuffices(hand: seq<Card>, kingNum: nat, isSpecEat: bool, list: seq<KindItem>)
    requires Wins(hand, kingNum, list, isSpecEat) && KeepsFree(hand, list, isSpecEat)
    requires forall i :: 0 <= i < |hand| ==> RealTile(hand[i])
    ensures Suffices(hand, AllDeals(hand, isSpecEat), kingNum, SpendAll(hand, list, 5))
  {
    var us, deals := SpendAll(hand, list, 5), AllDeals(hand, isSpecEat);
    SizeOfWin(hand, kingNum, isSpecEat, list);
    SpendSum(hand, list, 5);
    SpendPairs(hand, list, isSpecEat, 5);
    BetweenSizes(list, 0, 0, 5);
    BetweenPairs(list, 0, 0, 5);
    forall k: nat | k < |us| ensures deals(k, us[k]) {
      assert Keeps(hand, list, k, isSpecEat);
      SpendAt(hand, list, 5, k);
      PartDeals(hand, list, isSpecEat, k);
    }
  }

  /** With wildcards a hand of at most five copies of every tile wins exactly when
      there is a winning hand that keeps, in each colour, as many triples and
      sequences of the hand itself as can be kept. */
  lemma FoundIfKept(hand: seq<Card>, kingNum: nat, isSpecEat: bool)
    requires (forall i :: 0 <= i < |hand| ==> RealTile(hand[i])) && forall c: Card :: multiset(hand)[c] <= 5
    requires (|hand| + kingNum) % 3 != 1
    ensures !Loses(hand, kingNum, isSpecEat) <==>
            exists huList :: Wins(hand, kingNum, huList, isSpecEat) && KeepsFree(hand, huList, isSpecEat)
  {
    FoundAfterFree(hand, kingNum, isSpecEat);
    if us :| Suffices(hand, AllDeals(hand, isSpecEat), kingNum, us) {
      var list := WinKept(hand, kingNum, isSpecEat, us);
    }
    if list :| Wins(hand, kingNum, list, isSpecEat) && KeepsFree(hand, list, isSpecEat) {
      KeptSuffices(hand, kingNum, isSpecEat, list);
    }
  }
}
