/** The last part of `check_can_hu` in src/game/majiang.rs (lines 566-665):
    turning the pairs of the colours and the spare wildcards into a full hand. */
module Assembly {
  import opened Tiles
  import opened KingSearch

  predicate IsPair(item: KindItem) {
    item.kindType == Dui && |item.cardIdx| == 2 && item.cardIdx[0] == item.cardIdx[1]
  }

  predicate IsTriple(item: KindItem, isSpecEat: bool) {
    item.kindType != Dui && LegalItem(item, isSpecEat)
  }

  ghost predicate HuTriples(list: seq<KindItem>, isSpecEat: bool) {
    forall i {:trigger IsTriple(list[i], isSpecEat)} :: 0 <= i < |list| ==> IsTriple(list[i], isSpecEat)
  }

  ghost predicate HuPairs(list: seq<KindItem>) {
    forall i :: 0 <= i < |list| ==> IsPair(list[i])
  }

  function Upgrade(v: KindItem): KindItem
    requires |v.cardIdx| > 0
  {
    KindItem(v.cardIdx + [v.cardIdx[0]], Peng, v.useKingCount + 1)
  }

  lemma TripleSizes(list: seq<KindItem>, isSpecEat: bool)
    requires HuTriples(list, isSpecEat)
    ensures |Listed(list)| == 3 * |list| && PairCount(list) == 0
  {
    forall i | 0 <= i < |list| ensures |list[i].cardIdx| == 3 && list[i].kindType != Dui {
      assert IsTriple(list[i], isSpecEat);
    }
    ListedThrees(list);
    NoPairs(list);
  }

  lemma TriplesAreLegal(list: seq<KindItem>, isSpecEat: bool)
    requires HuTriples(list, isSpecEat)
    ensures AllLegal(list, isSpecEat)
  {
    forall i | 0 <= i < |list| ensures LegalItem(list[i], isSpecEat) { assert IsTriple(list[i], isSpecEat); }
  }

  lemma TriplesSnoc(list: seq<KindItem>, item: KindItem, isSpecEat: bool)
    requires HuTriples(list, isSpecEat) && IsTriple(item, isSpecEat)
    ensures HuTriples(list + [item], isSpecEat)
  {
    var r := list + [item];
    forall i | 0 <= i < |r| ensures IsTriple(r[i], isSpecEat) {
      assert i < |list| ==> IsTriple(list[i], isSpecEat);
    }
  }

  lemma {:induction false} PairSizes(list: seq<KindItem>)
    requires HuPairs(list)
    ensures |Listed(list)| == 2 * |list|
  {
    if list != [] {
      PairSizes(list[..|list| - 1]);
    }
  }

  lemma {:induction false} ListedDrop(list: seq<KindItem>, i: nat)
    requires i < |list|
    ensures Listed(list[i..]) == multiset(list[i].cardIdx) + Listed(list[i + 1..])
  {
    assert list[i..] == [list[i]] + list[i + 1..];
    ListedConcat([list[i]], list[i + 1..]);
    assert [list[i]] == [] + [list[i]];
    ListedSnoc([], list[i]);
  }

  // ----- Upgrading pairs -----

  /** The triples made so far, the pairs set aside and the pairs still to come
      hold all the tiles there were. */
  ghost predicate Holds(all: multiset<Card>, triples: seq<KindItem>, aside: seq<KindItem>, rest: seq<KindItem>,
                        isSpecEat: bool) {
    && HuTriples(triples, isSpecEat)
    && HuPairs(aside)
    && all <= Listed(triples) + Listed(aside) + Listed(rest)
  }

  /** The next pair is upgraded; nothing is lost. */
  lemma HoldsUpgrade(all: multiset<Card>, triples: seq<KindItem>, aside: seq<KindItem>, pairs: seq<KindItem>, i: nat,
                     isSpecEat: bool)
    requires i < |pairs| && IsPair(pairs[i]) && Holds(all, triples, aside, pairs[i..], isSpecEat)
    ensures Holds(all, triples + [Upgrade(pairs[i])], aside, pairs[i + 1..], isSpecEat)
  {
    ListedDrop(pairs, i);
    ListedSnoc(triples, Upgrade(pairs[i]));
    TriplesSnoc(triples, Upgrade(pairs[i]), isSpecEat);
  }

  /** The next pair is set aside; nothing is lost. */
  lemma HoldsAside(all: multiset<Card>, triples: seq<KindItem>, aside: seq<KindItem>, pairs: seq<KindItem>, i: nat,
                   isSpecEat: bool)
    requires i < |pairs| && IsPair(pairs[i]) && Holds(all, triples, aside, pairs[i..], isSpecEat)
    ensures Holds(all, triples, aside + [pairs[i]], pairs[i + 1..], isSpecEat)
  {
    ListedDrop(pairs, i);
    ListedSnoc(aside, pairs[i]);
  }

  /** A list of legal items that holds at least the given tiles. */
  ghost predicate Hu(list: seq<KindItem>, all: multiset<Card>, pairs: nat, size: int, isSpecEat: bool) {
    AllLegal(list, isSpecEat) && PairCount(list) == pairs && all <= Listed(list) && |Listed(list)| == size
  }

  /** The last pair stays a pair. */
  lemma KeepLast(all: multiset<Card>, triples: seq<KindItem>, pairs: seq<KindItem>, i: nat, isSpecEat: bool)
    requires i + 1 == |pairs| && IsPair(pairs[i]) && Holds(all, triples, [], pairs[i..], isSpecEat)
    ensures Hu(triples + [pairs[i]], all, 1, 3 * |triples| + 2, isSpecEat)
  {
    ListedDrop(pairs, i);
    assert pairs[i + 1..] == [];
    ListedSnoc(triples, pairs[i]);
    TripleSizes(triples, isSpecEat);
    TriplesAreLegal(triples, isSpecEat);
    LegalSnoc(triples, pairs[i], isSpecEat);
    PairCountSnoc(triples, pairs[i]);
  }

  lemma NothingToCome(all: multiset<Card>, triples: seq<KindItem>, aside: seq<KindItem>, pairs: seq<KindItem>,
                      isSpecEat: bool)
    requires Holds(all, triples, aside, pairs[|pairs|..], isSpecEat)
    ensures Holds(all, triples, [], aside, isSpecEat)
    ensures aside == [] ==> Hu(triples, all, 0, 3 * |triples|, isSpecEat)
  {
    assert pairs[|pairs|..] == [];
    TripleSizes(triples, isSpecEat);
    TriplesAreLegal(triples, isSpecEat);
  }

  method PushThird(v: KindItem) returns (r: KindItem)
    requires IsPair(v)
    ensures r == Upgrade(v)
  {
    var card := v.cardIdx[0];
    r := v.(cardIdx := v.cardIdx + [card]);
    r := r.(useKingCount := r.useKingCount + 1);
    r := r.(kindType := Peng);
  }

  /** Turns every pair into a triple, one wildcard each. */
  method UpgradeAll(huList: seq<KindItem>, leftDuiList: seq<KindItem>, ghost all: multiset<Card>, ghost isSpecEat: bool)
    returns (list: seq<KindItem>)
    requires HuPairs(leftDuiList) && Holds(all, huList, [], leftDuiList, isSpecEat)
    ensures Hu(list, all, 0, 3 * |huList| + 3 * |leftDuiList|, isSpecEat)
  {
    list := huList;
    assert leftDuiList[0..] == leftDuiList;
    for i := 0 to |leftDuiList|
      invariant Holds(all, list, [], leftDuiList[i..], isSpecEat) && |list| == |huList| + i
    {
      HoldsUpgrade(all, list, [], leftDuiList, i, isSpecEat);
      var v := PushThird(leftDuiList[i]);
      list := list + [v];
    }
    NothingToCome(all, list, [], leftDuiList, isSpecEat);
  }

  lemma HuSnoc(list: seq<KindItem>, all: multiset<Card>, pairs: nat, size: int, isSpecEat: bool, item: KindItem)
    requires Hu(list, all, pairs, size, isSpecEat) && LegalItem(item, isSpecEat)
    ensures Hu(list + [item], all, pairs + (if item.kindType == Dui then 1 else 0), size + |item.cardIdx|, isSpecEat)
  {
    ListedSnoc(list, item);
    PairCountSnoc(list, item);
    LegalSnoc(list, item, isSpecEat);
  }

  /** How many threes it takes to use up so many wildcards. */
  function Threes(kings: int): nat {
    if kings <= 0 then 0 else (kings + 2) / 3
  }

  /** Spends the remaining wildcards in triples of the king tile, as many as it
      takes to use them up. */
  method FillWithKings(huList: seq<KindItem>, leftKingCount: int, kingPoker: Card,
                       ghost all: multiset<Card>, ghost pairs: nat, ghost size: int, ghost isSpecEat: bool)
    returns (list: seq<KindItem>)
    requires Hu(huList, all, pairs, size, isSpecEat) && leftKingCount >= -2
    ensures Hu(list, all, pairs, size + 3 * Threes(leftKingCount), isSpecEat)
  {
    list := huList;
    ghost var added: nat := 0;
    var left := leftKingCount;
    while true
      invariant Hu(list, all, pairs, size + 3 * added, isSpecEat)
      invariant left == leftKingCount - 3 * added && left >= -2
      decreases left + 2
    {
      if left <= 0 {
        break;
      }
      var item := NewByData(kingPoker, kingPoker, kingPoker, Peng);
      item := item.(useKingCount := 3);
      HuSnoc(list, all, pairs, size + 3 * added, isSpecEat, item);
      list := list + [item];
      left := left - 3;
      added := added + 1;
    }
  }

  /** The tiles and wildcards that went in. */
  function SumOf(huList: seq<KindItem>, leftDuiList: seq<KindItem>, leftKingCount: int): int {
    3 * |huList| + 2 * |leftDuiList| + leftKingCount
  }

  /** The next size, from `sum` on, that leaves `rest` modulo three. */
  function RoundUp(sum: int, rest: int): int {
    sum + (rest - sum) % 3
  }

  lemma RoundUpIs(sum: int, rest: int, size: int, thirds: int)
    requires sum <= size <= sum + 2 && size == 3 * thirds + rest
    ensures RoundUp(sum, rest) == size
  {
    assert (rest - sum) % 3 == (size - sum - 3 * thirds) % 3 == size - sum;
  }

  /** The case with no pair in the winning hand (lines 578-599). */
  method FinishFull(huList: seq<KindItem>, leftDuiList: seq<KindItem>, leftKingCount: int, kingPoker: Card,
                    ghost all: multiset<Card>, ghost isSpecEat: bool)
    returns (list: seq<KindItem>)
    requires HuPairs(leftDuiList) && Holds(all, huList, [], leftDuiList, isSpecEat) && leftKingCount >= |leftDuiList|
    ensures Hu(list, all, 0, RoundUp(SumOf(huList, leftDuiList, leftKingCount), 0), isSpecEat)
  {
    var size := 3 * |huList| + 3 * |leftDuiList|;
    list := UpgradeAll(huList, leftDuiList, all, isSpecEat);
    ghost var added := Threes(leftKingCount - |leftDuiList|);
    list := FillWithKings(list, leftKingCount - |leftDuiList|, kingPoker, all, 0, size, isSpecEat);
    RoundUpIs(SumOf(huList, leftDuiList, leftKingCount), 0, size + 3 * added, |huList| + |leftDuiList| + added);
  }

  /** The first loop over the pairs (lines 613-628): pairs made without a
      wildcard are upgraded first, the others set aside; when wildcards are one
      short the last pair stays a pair. */
  method UpgradePlain(huList: seq<KindItem>, leftDuiList: seq<KindItem>, isBig: bool, ghost all: multiset<Card>,
                      ghost isSpecEat: bool)
    returns (list: seq<KindItem>, useKingDui: seq<KindItem>, addNum: int, kept: bool)
    requires HuPairs(leftDuiList) && Holds(all, huList, [], leftDuiList, isSpecEat) && (!isBig ==> leftDuiList != [])
    ensures kept ==> !isBig && Hu(list, all, 1, 3 * |huList| + 3 * |leftDuiList| - 1, isSpecEat)
    ensures !kept ==> HuPairs(useKingDui) && Holds(all, list, [], useKingDui, isSpecEat)
    ensures !kept ==> |list| == |huList| + addNum && addNum + |useKingDui| == |leftDuiList|
    ensures !kept && !isBig ==> useKingDui != []
  {
    list, useKingDui, addNum, kept := huList, [], 0, false;
    var sum := |leftDuiList|;
    assert leftDuiList[0..] == leftDuiList;
    for i := 0 to |leftDuiList|
      invariant Holds(all, list, useKingDui, leftDuiList[i..], isSpecEat)
      invariant 0 <= addNum && |list| == |huList| + addNum && addNum + |useKingDui| == i
      invariant !isBig && i == sum ==> useKingDui != []
    {
      var v := leftDuiList[i];
      if !isBig && addNum >= sum - 1 {
        KeepLast(all, list, leftDuiList, i, isSpecEat);
        list := list + [v];
        kept := true;
        return;
      }
      if v.useKingCount > 0 {
        HoldsAside(all, list, useKingDui, leftDuiList, i, isSpecEat);
        useKingDui := useKingDui + [v];
      } else {
        HoldsUpgrade(all, list, useKingDui, leftDuiList, i, isSpecEat);
        v := PushThird(v);
        list := list + [v];
        addNum := addNum + 1;
      }
    }
    NothingToCome(all, list, useKingDui, leftDuiList, isSpecEat);
  }

  /** The second loop (lines 630-641): the pairs set aside. */
  method UpgradeAside(huList: seq<KindItem>, useKingDui: seq<KindItem>, addNum0: int, sum: int, isBig: bool,
                      ghost all: multiset<Card>, ghost isSpecEat: bool)
    returns (list: seq<KindItem>)
    requires HuPairs(useKingDui) && Holds(all, huList, [], useKingDui, isSpecEat) && addNum0 + |useKingDui| == sum
    requires !isBig ==> useKingDui != []
    ensures isBig ==> Hu(list, all, 0, 3 * |huList| + 3 * |useKingDui|, isSpecEat)
    ensures !isBig ==> Hu(list, all, 1, 3 * |huList| + 3 * |useKingDui| - 1, isSpecEat)
  {
    list := huList;
    var addNum := addNum0;
    assert useKingDui[0..] == useKingDui;
    for i := 0 to |useKingDui|
      invariant Holds(all, list, [], useKingDui[i..], isSpecEat)
      invariant |list| == |huList| + i && addNum == addNum0 + i
      invariant !isBig ==> i < |useKingDui|
    {
      var v := useKingDui[i];
      if !isBig && addNum >= sum - 1 {
        KeepLast(all, list, useKingDui, i, isSpecEat);
        list := list + [v];
        return;
      }
      HoldsUpgrade(all, list, [], useKingDui, i, isSpecEat);
      v := PushThird(v);
      list := list + [v];
      addNum := addNum + 1;
    }
    NothingToCome(all, list, [], useKingDui, isSpecEat);
  }

  /** Both loops: all pairs become triples, or all but one. */
  method UpgradePairs(huList: seq<KindItem>, leftDuiList: seq<KindItem>, isBig: bool, ghost all: multiset<Card>,
                      ghost isSpecEat: bool)
    returns (list: seq<KindItem>)
    requires HuPairs(leftDuiList) && Holds(all, huList, [], leftDuiList, isSpecEat) && (!isBig ==> leftDuiList != [])
    ensures isBig ==> Hu(list, all, 0, 3 * |huList| + 3 * |leftDuiList|, isSpecEat)
    ensures !isBig ==> Hu(list, all, 1, 3 * |huList| + 3 * |leftDuiList| - 1, isSpecEat)
  {
    var useKingDui, addNum, kept;
    list, useKingDui, addNum, kept := UpgradePlain(huList, leftDuiList, isBig, all, isSpecEat);
    if !kept {
      list := UpgradeAside(list, useKingDui, addNum, |leftDuiList|, isBig, all, isSpecEat);
    }
  }

  /** The case with one pair in the winning hand (lines 601-662). */
  method FinishWithPair(huList: seq<KindItem>, leftDuiList: seq<KindItem>, leftKingCount0: int, kingPoker: Card,
                        ghost all: multiset<Card>, ghost isSpecEat: bool)
    returns (list: seq<KindItem>)
    requires HuPairs(leftDuiList) && Holds(all, huList, [], leftDuiList, isSpecEat) && leftKingCount0 >= 0
    requires leftKingCount0 + 1 >= |leftDuiList|
    ensures Hu(list, all, 1, RoundUp(SumOf(huList, leftDuiList, leftKingCount0), 2), isSpecEat)
  {
    var leftKingCount := leftKingCount0;
    var isBig := leftKingCount + 1 > |leftDuiList|;
    if isBig {
      leftKingCount := leftKingCount - |leftDuiList|;
    } else {
      leftKingCount := leftKingCount - (|leftDuiList| - 1);
    }
    list := UpgradePairs(huList, leftDuiList, isBig, all, isSpecEat);
    ghost var thirds := |huList| + |leftDuiList| - if isBig then 0 else 1;
    if isBig {
      var item := KindItem([kingPoker, kingPoker], Dui, 2);
      HuSnoc(list, all, 0, 3 * thirds, isSpecEat, item);
      list := list + [item];
      leftKingCount := leftKingCount - 2;
    }
    ghost var added := Threes(leftKingCount);
    list := FillWithKings(list, leftKingCount, kingPoker, all, 1, 3 * thirds + 2, isSpecEat);
    RoundUpIs(SumOf(huList, leftDuiList, leftKingCount0), 2, 3 * thirds + 2 + 3 * added, thirds + added);
  }
}
