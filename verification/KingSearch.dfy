/** Splitting the tiles of one colour with the help of wildcards:
    `check_left_vaild` and `calc_ttt_combine` of src/game/majiang.rs. */
module KingSearch {
  import opened Wrappers
  import opened Tiles
  import Combine
  import Sequences

  // ----- The items worth trying -----

  function Cnt(m: Counts, c: Card): int {
    if c in m then m[c] else 0
  }

  function Missing(count: nat): nat { if count == 0 then 1 else 0 }

  function Less(count: nat): nat { if count == 0 then 0 else count - 1 }

  /** The copies of one sequence, each with the wildcards it would need. */
  function EatItems(eat: seq<Card>, count1: nat, count2: nat, count3: nat, kings: int): seq<KindItem>
    requires |eat| == 3
    decreases count1 + count2 + count3
  {
    if count1 + count2 + count3 + kings < 3 then []
    else if count1 + count2 == 0 || count1 + count3 == 0 || count2 + count3 == 0 then []
    else
      var short := Missing(count1) + Missing(count2) + Missing(count3);
      [NewByData(eat[0], eat[1], eat[2], Chi).(useKingCount := short)]
      + EatItems(eat, Less(count1), Less(count2), Less(count3), kings - short)
  }

  function PengItems(tiles: multiset<Card>, kings: int, card: Card): seq<KindItem> {
    if tiles[card] == 2 && kings >= 1 then [NewByData(card, card, card, Peng).(useKingCount := 1)]
    else if tiles[card] == 1 && kings >= 2 then [NewByData(card, card, card, Peng).(useKingCount := 2)]
    else []
  }

  function AllEatItems(tiles: multiset<Card>, kings: int, eats: seq<seq<Card>>): seq<KindItem>
    requires forall i :: 0 <= i < |eats| ==> |eats[i]| == 3
  {
    if eats == [] then []
    else
      var eat := eats[|eats| - 1];
      AllEatItems(tiles, kings, eats[..|eats| - 1]) + EatItems(eat, tiles[eat[0]], tiles[eat[1]], tiles[eat[2]], kings)
  }

  /** Items that start at ranks below `rank`. */
  function KingItems(tiles: multiset<Card>, kings: int, color: nat, isSpecEat: bool, rank: nat): seq<KindItem>
    requires color < 5 && rank <= PokerNum(color)
  {
    if rank <= 1 then []
    else
      KingItems(tiles, kings, color, isSpecEat, rank - 1)
      + PengItems(tiles, kings, TileCode(color, rank - 1))
      + AllEatItems(tiles, kings, CanEat(color, rank - 1, isSpecEat))
  }

  ghost predicate AllTriples(items: seq<KindItem>, isSpecEat: bool)
  {
    forall i {:trigger LegalTriple(items[i], isSpecEat)} :: 0 <= i < |items| ==> LegalTriple(items[i], isSpecEat)
  }

  lemma {:induction false} EatItemsLegal(eat: seq<Card>, c1: nat, c2: nat, c3: nat, kings: int, color: nat, idx: nat,
                                         isSpecEat: bool)
    requires color < 5 && 1 <= idx < PokerNum(color) && eat in CanEat(color, idx, isSpecEat)
    ensures AllTriples(EatItems(eat, c1, c2, c3, kings), isSpecEat)
    decreases c1 + c2 + c3
  {
    assert [eat[0], eat[1], eat[2]] == eat;
    if c1 + c2 + c3 + kings >= 3 && c1 + c2 != 0 && c1 + c3 != 0 && c2 + c3 != 0 {
      var short := Missing(c1) + Missing(c2) + Missing(c3);
      EatItemsLegal(eat, Less(c1), Less(c2), Less(c3), kings - short, color, idx, isSpecEat);
    }
  }

  lemma {:induction false} AllEatItemsLegal(tiles: multiset<Card>, kings: int, eats: seq<seq<Card>>, color: nat,
                                            idx: nat, isSpecEat: bool)
    requires color < 5 && 1 <= idx < PokerNum(color)
    requires forall i :: 0 <= i < |eats| ==> |eats[i]| == 3 && eats[i] in CanEat(color, idx, isSpecEat)
    ensures AllTriples(AllEatItems(tiles, kings, eats), isSpecEat)
  {
    if eats != [] {
      var eat := eats[|eats| - 1];
      AllEatItemsLegal(tiles, kings, eats[..|eats| - 1], color, idx, isSpecEat);
      EatItemsLegal(eat, tiles[eat[0]], tiles[eat[1]], tiles[eat[2]], kings, color, idx, isSpecEat);
    }
  }

  lemma PengItemsLegal(tiles: multiset<Card>, kings: int, card: Card, isSpecEat: bool)
    requires card < KING_IDX
    ensures AllTriples(PengItems(tiles, kings, card), isSpecEat)
  {
    assert NewByData(card, card, card, Peng).cardIdx == [card, card, card];
  }

  lemma TriplesConcat(a: seq<KindItem>, b: seq<KindItem>, isSpecEat: bool)
    requires AllTriples(a, isSpecEat) && AllTriples(b, isSpecEat)
    ensures AllTriples(a + b, isSpecEat)
  {
  }

  lemma {:induction false} KingItemsLegal(tiles: multiset<Card>, kings: int, color: nat, isSpecEat: bool, rank: nat)
    requires color < 5 && rank <= PokerNum(color)
    ensures AllTriples(KingItems(tiles, kings, color, isSpecEat, rank), isSpecEat)
  {
    if rank > 1 {
      var lower := KingItems(tiles, kings, color, isSpecEat, rank - 1);
      var pengs := PengItems(tiles, kings, TileCode(color, rank - 1));
      var eats := AllEatItems(tiles, kings, CanEat(color, rank - 1, isSpecEat));
      KingItemsLegal(tiles, kings, color, isSpecEat, rank - 1);
      PengItemsLegal(tiles, kings, TileCode(color, rank - 1), isSpecEat);
      AllEatItemsLegal(tiles, kings, CanEat(color, rank - 1, isSpecEat), color, rank - 1, isSpecEat);
      TriplesConcat(lower, pengs, isSpecEat);
      TriplesConcat(lower + pengs, eats, isSpecEat);
    }
  }

  method CollectPeng(cardIdx: Counts, kingCount: int, card: Card) returns (kindItems: seq<KindItem>)
    requires ValidCounts(cardIdx) && card != KING_IDX
    ensures kindItems == PengItems(Held(cardIdx), kingCount, card)
  {
    kindItems := [];
    var useKingCount := 0;
    var cardCount := Cnt(cardIdx, card);
    var isCreatePeng := false;
    if cardCount == 2 && kingCount >= 1 {
      useKingCount := 1;
      isCreatePeng := true;
    } else if cardCount == 1 && kingCount >= 2 {
      useKingCount := 2;
      isCreatePeng := true;
    }
    if isCreatePeng {
      var item := NewByData(card, card, card, Peng);
      item := item.(useKingCount := useKingCount);
      kindItems := kindItems + [item];
    }
  }

  /** One tile of a sequence: from the hand, or a wildcard. */
  method TakeOne(count: nat, tempTotalCount: int, used: int) returns (count': nat, tempTotalCount': int, used': int)
    ensures count' == Less(count) && tempTotalCount' == tempTotalCount - Missing(count)
            && used' == used + Missing(count)
  {
    count', tempTotalCount', used' := count, tempTotalCount, used;
    if count <= 0 {
      tempTotalCount' := tempTotalCount' - 1;
      used' := used' + 1;
    } else {
      count' := count' - 1;
    }
  }

  lemma EatItemsNext(eat: seq<Card>, c1: nat, c2: nat, c3: nat, kings: int)
    requires |eat| == 3 && c1 + c2 + c3 + kings >= 3 && c1 + c2 != 0 && c1 + c3 != 0 && c2 + c3 != 0
    ensures var short := Missing(c1) + Missing(c2) + Missing(c3);
            EatItems(eat, c1, c2, c3, kings) ==
            [NewByData(eat[0], eat[1], eat[2], Chi).(useKingCount := short)]
              + EatItems(eat, Less(c1), Less(c2), Less(c3), kings - short)
  {
  }

  method CollectFrom(eat: seq<Card>, c1: nat, c2: nat, c3: nat, kingCount: int) returns (kindItems: seq<KindItem>)
    requires |eat| == 3
    ensures kindItems == EatItems(eat, c1, c2, c3, kingCount)
  {
    kindItems := [];
    var count1, count2, count3, tempTotalCount := c1, c2, c3, kingCount;
    ghost var goal := EatItems(eat, count1, count2, count3, kingCount);
    while count1 + count2 + count3 + tempTotalCount >= 3
      invariant kindItems + EatItems(eat, count1, count2, count3, tempTotalCount) == goal
      decreases count1 + count2 + count3
    {
      if count1 + count2 == 0 || count1 + count3 == 0 || count2 + count3 == 0 {
        break;
      }
      EatItemsNext(eat, count1, count2, count3, tempTotalCount);
      ghost var now := EatItems(eat, count1, count2, count3, tempTotalCount);
      var used := 0;
      count1, tempTotalCount, used := TakeOne(count1, tempTotalCount, used);
      count2, tempTotalCount, used := TakeOne(count2, tempTotalCount, used);
      count3, tempTotalCount, used := TakeOne(count3, tempTotalCount, used);
      var item := NewByData(eat[0], eat[1], eat[2], Chi);
      item := item.(useKingCount := used);
      assert now == [item] + EatItems(eat, count1, count2, count3, tempTotalCount);
      Sequences.Shift(kindItems, item, EatItems(eat, count1, count2, count3, tempTotalCount));
      kindItems := kindItems + [item];
    }
  }

  method CollectEat(cardIdx: Counts, kingCount: int, eat: seq<Card>) returns (kindItems: seq<KindItem>)
    requires ValidCounts(cardIdx) && |eat| == 3 && KING_IDX !in eat
    ensures kindItems == EatItems(eat, Held(cardIdx)[eat[0]], Held(cardIdx)[eat[1]], Held(cardIdx)[eat[2]], kingCount)
  {
    var count1: nat, count2: nat, count3: nat := Cnt(cardIdx, eat[0]), Cnt(cardIdx, eat[1]), Cnt(cardIdx, eat[2]);
    kindItems := CollectFrom(eat, count1, count2, count3, kingCount);
  }

  method CollectEats(cardIdx: Counts, kingCount: int, eatList: seq<seq<Card>>) returns (kindItems: seq<KindItem>)
    requires ValidCounts(cardIdx)
    requires forall i :: 0 <= i < |eatList| ==> |eatList[i]| == 3 && KING_IDX !in eatList[i]
    ensures kindItems == AllEatItems(Held(cardIdx), kingCount, eatList)
  {
    kindItems := [];
    for e := 0 to |eatList|
      invariant kindItems == AllEatItems(Held(cardIdx), kingCount, eatList[..e])
    {
      assert eatList[..e + 1][..e] == eatList[..e];
      var items := CollectEat(cardIdx, kingCount, eatList[e]);
      kindItems := kindItems + items;
    }
    assert eatList[..|eatList|] == eatList;
  }

  /** The generating loops of `calc_ttt_combine` (lines 313-376). */
  method CollectKingItems(cardIdx: Counts, leftSum: int, kingCount: int, color: nat, isSpecEat: bool)
    returns (kindItems: seq<KindItem>)
    requires ValidCounts(cardIdx) && color < 5
    ensures kindItems == if leftSum + kingCount < 3 then []
                         else KingItems(Held(cardIdx), kingCount, color, isSpecEat, PokerNum(color))
  {
    kindItems := [];
    var j := 1;
    while j < PokerNum(color)
      invariant 1 <= j <= PokerNum(color)
      invariant leftSum + kingCount < 3 ==> kindItems == []
      invariant leftSum + kingCount >= 3 ==> kindItems == KingItems(Held(cardIdx), kingCount, color, isSpecEat, j)
    {
      var card := TileCode(color, j);
      if leftSum + kingCount < 3 {
        break;
      }
      var pengItems := CollectPeng(cardIdx, kingCount, card);
      kindItems := kindItems + pengItems;
      var eatItems := CollectEats(cardIdx, kingCount, CanEat(color, j, isSpecEat));
      kindItems := kindItems + eatItems;
      j := j + 1;
    }
  }

  // ----- What a choice of items amounts to -----

  /** Tiles held, wildcards at hand, and the items to choose from. */
  datatype Hand = Hand(held: multiset<Card>, kings: int, items: seq<KindItem>)

  function Pick(items: seq<KindItem>, l: seq<nat>): (r: seq<KindItem>)
    requires Combine.Below(l, |items|)
    ensures |r| == |l| && forall i :: 0 <= i < |l| ==> r[i] == items[l[i]]
  {
    seq(|l|, i requires 0 <= i < |l| => items[l[i]])
  }

  /** The tiles left over by the chosen items can be finished off: none is
      left, or a pair, or a single tile that a wildcard can pair up. */
  ghost predicate Finishable(rest: multiset<Card>, kings: int) {
    || rest == multiset{}
    || (|rest| == 1 && kings > 0)
    || exists c: Card :: rest == multiset{c, c}
  }

  ghost predicate Passes(h: Hand, chosen: seq<KindItem>) {
    var need := Listed(chosen);
    && Shortfall(h.held, need) <= h.kings
    && Finishable(h.held - need, h.kings - Shortfall(h.held, need))
  }

  /** Wildcards spent on a choice and on the pair that finishes it. */
  ghost function CostOf(h: Hand, chosen: seq<KindItem>): nat {
    var need := Listed(chosen);
    Shortfall(h.held, need) + if |h.held - need| == 1 then 1 else 0
  }

  /** The pair that finishes off one leftover tile, with a wildcard, or two. */
  ghost predicate PairOf(item: KindItem, rest: multiset<Card>) {
    && item.kindType == Dui
    && |item.cardIdx| == 2 && item.cardIdx[0] == item.cardIdx[1]
    && 0 <= item.useKingCount <= 1
    && rest == if item.useKingCount == 1 then multiset{item.cardIdx[0]} else multiset(item.cardIdx)
  }

  /** `list` is the choice with the pair, if one is needed, at its end. */
  ghost predicate Finishes(h: Hand, chosen: seq<KindItem>, list: seq<KindItem>) {
    var rest := h.held - Listed(chosen);
    if rest == multiset{} then list == chosen
    else list != [] && list == chosen + [list[|list| - 1]] && PairOf(list[|list| - 1], rest)
  }

  function PairCount(list: seq<KindItem>): nat {
    if list == [] then 0
    else PairCount(list[..|list| - 1]) + if list[|list| - 1].kindType == Dui then 1 else 0
  }

  lemma {:induction false} PairCountConcat(a: seq<KindItem>, b: seq<KindItem>)
    ensures PairCount(a + b) == PairCount(a) + PairCount(b)
  {
    if b == [] {
      assert a + b == a;
    } else {
      assert (a + b)[..|a + b| - 1] == a + b[..|b| - 1];
      PairCountConcat(a, b[..|b| - 1]);
    }
  }

  lemma {:induction false} NoPairs(list: seq<KindItem>)
    requires forall i :: 0 <= i < |list| ==> list[i].kindType != Dui
    ensures PairCount(list) == 0
  {
    if list != [] {
      NoPairs(list[..|list| - 1]);
    }
  }

  ghost predicate AllLegal(list: seq<KindItem>, isSpecEat: bool)
  {
    forall i {:trigger LegalItem(list[i], isSpecEat)} :: 0 <= i < |list| ==> LegalItem(list[i], isSpecEat)
  }

  /** A list of legal items that accounts for every tile held and for exactly
      `spent` wildcards, with at most one pair in it. */
  ghost predicate Decomposes(held: multiset<Card>, spent: int, list: seq<KindItem>, isSpecEat: bool)
  {
    && AllLegal(list, isSpecEat)
    && PairCount(list) <= 1
    && held <= Listed(list)
    && |Listed(list)| == |held| + spent
  }

  lemma PairFills(item: KindItem, held: multiset<Card>, need: multiset<Card>)
    requires PairOf(item, held - need)
    ensures |item.cardIdx| == 2 && held <= need + multiset(item.cardIdx)
    ensures |held - need| == 2 - item.useKingCount
  {
    assert held - need <= multiset(item.cardIdx);
  }

  lemma FinishedCost(h: Hand, chosen: seq<KindItem>)
    requires Passes(h, chosen)
    ensures var rest := h.held - Listed(chosen);
            && 0 <= CostOf(h, chosen) <= h.kings
            && |Listed(chosen)| == |h.held| + CostOf(h, chosen) - (if rest == multiset{} then 0 else 2)
  {
    ShortfallBalance(h.held, Listed(chosen));
    assert forall c: Card :: |multiset{c, c}| == 2;
  }

  lemma PairCountSnoc(list: seq<KindItem>, item: KindItem)
    ensures PairCount(list + [item]) == PairCount(list) + if item.kindType == Dui then 1 else 0
  {
    assert (list + [item])[..|list|] == list;
  }

  lemma TriplesLegal(chosen: seq<KindItem>, isSpecEat: bool)
    requires AllTriples(chosen, isSpecEat)
    ensures AllLegal(chosen, isSpecEat) && PairCount(chosen) == 0
  {
    forall i | 0 <= i < |chosen| ensures LegalItem(chosen[i], isSpecEat) && chosen[i].kindType != Dui {
      assert LegalTriple(chosen[i], isSpecEat);
    }
    NoPairs(chosen);
  }

  lemma LegalSnoc(list: seq<KindItem>, item: KindItem, isSpecEat: bool)
    requires AllLegal(list, isSpecEat) && LegalItem(item, isSpecEat)
    ensures AllLegal(list + [item], isSpecEat)
  {
    var r := list + [item];
    forall i | 0 <= i < |r| ensures LegalItem(r[i], isSpecEat) {
      assert i < |list| ==> LegalItem(list[i], isSpecEat);
    }
  }

  lemma LegalWithPair(chosen: seq<KindItem>, item: KindItem, isSpecEat: bool, rest: multiset<Card>)
    requires AllTriples(chosen, isSpecEat) && PairOf(item, rest)
    ensures AllLegal(chosen + [item], isSpecEat) && PairCount(chosen + [item]) == 1
  {
    TriplesLegal(chosen, isSpecEat);
    LegalSnoc(chosen, item, isSpecEat);
    PairCountSnoc(chosen, item);
  }

  lemma NothingLeft(held: multiset<Card>, need: multiset<Card>)
    requires held - need == multiset{}
    ensures held <= need
  {
    forall c: Card ensures held[c] <= need[c] { assert (held - need)[c] == 0; }
  }

  lemma FinishedTiles(h: Hand, chosen: seq<KindItem>, list: seq<KindItem>)
    requires Finishes(h, chosen, list)
    ensures h.held <= Listed(list)
    ensures |Listed(list)| == |Listed(chosen)| + if h.held - Listed(chosen) == multiset{} then 0 else 2
  {
    var need := Listed(chosen);
    if h.held - need == multiset{} {
      NothingLeft(h.held, need);
    } else {
      var item := list[|list| - 1];
      PairFills(item, h.held, need);
      ListedSnoc(chosen, item);
    }
  }

  lemma FinishedLegal(h: Hand, chosen: seq<KindItem>, list: seq<KindItem>, isSpecEat: bool)
    requires AllTriples(chosen, isSpecEat) && Finishes(h, chosen, list)
    ensures AllLegal(list, isSpecEat) && PairCount(list) <= 1
    ensures |list| - PairCount(list) == |chosen|
  {
    var rest := h.held - Listed(chosen);
    if rest == multiset{} {
      TriplesLegal(chosen, isSpecEat);
    } else {
      var item := list[|list| - 1];
      LegalWithPair(chosen, item, isSpecEat, rest);
    }
  }

  /** A choice that passes, once finished, is a decomposition of the hand. */
  lemma PassingDecomposes(h: Hand, chosen: seq<KindItem>, list: seq<KindItem>, isSpecEat: bool)
    requires AllTriples(chosen, isSpecEat)
    requires Passes(h, chosen) && Finishes(h, chosen, list)
    ensures Decomposes(h.held, CostOf(h, chosen), list, isSpecEat)
    ensures 0 <= CostOf(h, chosen) <= h.kings
    ensures |list| - PairCount(list) == |chosen|
  {
    FinishedCost(h, chosen);
    FinishedTiles(h, chosen, list);
    FinishedLegal(h, chosen, list, isSpecEat);
  }

  lemma TriplesSize(list: seq<KindItem>, isSpecEat: bool)
    requires AllTriples(list, isSpecEat)
    ensures |Listed(list)| == 3 * |list|
  {
    forall i | 0 <= i < |list| ensures |list[i].cardIdx| == 3 { TripleShape(list[i], isSpecEat); }
    ListedThrees(list);
  }

  lemma PickTriples(items: seq<KindItem>, l: seq<nat>, isSpecEat: bool)
    requires AllTriples(items, isSpecEat) && Combine.Below(l, |items|)
    ensures AllTriples(Pick(items, l), isSpecEat)
  {
  }

  // ----- Finishing a choice -----

  lemma FinishableList(list: seq<Card>, kings: int)
    ensures Finishable(multiset(list), kings) <==>
            || |list| == 0
            || (|list| == 1 && kings > 0)
            || (|list| == 2 && list[0] == list[1])
  {
    if |list| == 2 {
      assert list == [list[0], list[1]];
      assert multiset(list) == multiset{list[0], list[1]};
      if list[0] != list[1] {
        assert forall c: Card :: multiset(list)[c] < 2;
        assert forall c: Card :: multiset{c, c}[c] == 2;
      }
    } else {
      assert forall c: Card :: |multiset{c, c}| == 2;
    }
  }

  lemma PairOfList(list: seq<Card>)
    requires 1 <= |list| <= 2 && (|list| == 2 ==> list[0] == list[1])
    ensures PairOf(KindItem([list[0], list[0]], Dui, 2 - |list|), multiset(list))
  {
    assert list == if |list| == 1 then [list[0]] else [list[0], list[0]];
  }

  /** `check_left_vaild`: sees whether the tiles that the chosen items leave
      over can be finished off, and adds the pair that does it. */
  method CheckLeftValid(cardIdx: Counts, temp: CardIdx, curList: seq<KindItem>, ghost h: Hand)
    returns (isSuccess: bool, useKingCount: int, newList: seq<KindItem>)
    requires ValidCounts(cardIdx) && Held(cardIdx) == h.held
    requires KING_IDX !in HuPokers(curList) && KING_IDX in temp.m
    modifies temp
    ensures isSuccess <==> Finishable(h.held - Listed(curList), old(Kings(temp.m)))
    ensures isSuccess ==> Finishes(h, curList, newList)
    ensures useKingCount == if isSuccess && |h.held - Listed(curList)| == 1 then 1 else 0
    ensures KING_IDX in temp.m && Kings(temp.m) == old(Kings(temp.m)) - useKingCount
  {
    var subIdx := SubNumPokers(cardIdx, curList);
    var subList := IdxToList(subIdx);
    FinishableList(subList, Kings(temp.m));
    newList := curList;
    if |subList| >= 3 {
      return false, 0, curList;
    }
    isSuccess, useKingCount := false, 0;
    if |subList| == 0 {
      isSuccess := true;
    } else if |subList| == 1 && temp.m[KING_IDX] > 0 {
      temp.m := temp.m[KING_IDX := temp.m[KING_IDX] - 1];
      isSuccess := true;
      useKingCount := 1;
      PairOfList(subList);
      newList := curList + [KindItem([subList[0], subList[0]], Dui, 1)];
    } else if |subList| == 2 {
      if subList[0] == subList[1] {
        isSuccess := true;
        PairOfList(subList);
        newList := curList + [KindItem([subList[0], subList[0]], Dui, 0)];
      }
    }
  }

  // ----- Trying the choices -----

  lemma {:induction false} TriplesAvoidKing(list: seq<KindItem>, isSpecEat: bool)
    requires AllTriples(list, isSpecEat)
    ensures KING_IDX !in HuPokers(list)
  {
    if list != [] {
      TriplesAvoidKing(list[..|list| - 1], isSpecEat);
      TripleShape(list[|list| - 1], isSpecEat);
    }
  }

  ghost predicate Affordable(m: Counts, items: seq<KindItem>)
    requires ValidCounts(m)
  {
    Shortfall(Held(m), Listed(items)) <= Kings(m)
  }

  lemma ChargedAffordable(before: Counts, items: seq<KindItem>, after: Counts)
    requires ValidCounts(before) && Charged(before, Listed(items), after)
    ensures Affordable(before, items)
  {
  }

  lemma ChargeItem(before: Counts, done: seq<KindItem>, item: KindItem, rest: seq<KindItem>,
                   now: Counts, after: Counts, ok: bool)
    requires ValidCounts(before) && Charged(before, Listed(done), now)
    requires ok <==> Shortfall(Held(now), multiset(item.cardIdx)) <= Kings(now)
    requires ok ==> Charged(now, multiset(item.cardIdx), after)
    ensures ok ==> Charged(before, Listed(done + [item]), after)
    ensures !ok ==> !Affordable(before, done + [item] + rest)
  {
    ListedSnoc(done, item);
    ShortfallAdds(Held(before), Listed(done), multiset(item.cardIdx));
    if !ok {
      ListedConcat(done + [item], rest);
      ShortfallMonotone(Held(before), Listed(done + [item]), Listed(done + [item] + rest));
    }
  }

  /** Charge the chosen items one by one; give up at the first that cannot be
      paid for. */
  method ChargeChoice(temp: CardIdx, kindItems: seq<KindItem>, list: seq<nat>, ghost isSpecEat: bool)
    returns (costSuccess: bool, useItemNum: int, curList: seq<KindItem>)
    requires ValidCounts(temp.m) && list != [] && Combine.Below(list, |kindItems|)
    requires AllTriples(kindItems, isSpecEat)
    modifies temp
    ensures costSuccess <==> Affordable(old(temp.m), Pick(kindItems, list))
    ensures costSuccess ==> curList == Pick(kindItems, list) && Charged(old(temp.m), Listed(curList), temp.m)
  {
    ghost var before, chosen := temp.m, Pick(kindItems, list);
    curList, useItemNum, costSuccess := [], 0, false;
    for k := 0 to |list|
      invariant curList == chosen[..k]
      invariant Charged(before, Listed(curList), temp.m)
      invariant k > 0 ==> costSuccess
    {
      ghost var now := temp.m;
      TripleShape(kindItems[list[k]], isSpecEat);
      costSuccess := CostOneItems(temp, kindItems[list[k]]);
      Sequences.SplitAt(chosen, k);
      ChargeItem(before, chosen[..k], chosen[k], chosen[k + 1..], now, temp.m, costSuccess);
      if !costSuccess {
        return;
      }
      useItemNum := useItemNum + if kindItems[list[k]].useKingCount > 0 then 1 else 0;
      curList := curList + [kindItems[list[k]]];
    }
    Sequences.Whole(chosen);
    ChargedAffordable(before, curList, temp.m);
  }

  /** One turn of the loop at lines 402-433: charge a choice to a copy of the
      table, finish it, and say what it costs. */
  method TryChoice(cardIdx: Counts, kingCount: int, kindItems: seq<KindItem>, list: seq<nat>,
                   ghost h: Hand, ghost isSpecEat: bool)
    returns (isSuccess: bool, curKingCount: int, useItemNum: int, newList: seq<KindItem>)
    requires ValidCounts(cardIdx) && KING_IDX in cardIdx && cardIdx[KING_IDX] == kingCount
    requires h == Hand(Held(cardIdx), kingCount, kindItems)
    requires list != [] && Combine.Below(list, |kindItems|)
    requires AllTriples(kindItems, isSpecEat)
    ensures isSuccess <==> Passes(h, Pick(kindItems, list))
    ensures isSuccess ==> curKingCount == CostOf(h, Pick(kindItems, list))
    ensures isSuccess ==> Finishes(h, Pick(kindItems, list), newList)
  {
    var temp := new CardIdx(cardIdx);
    var costSuccess, num, curList := ChargeChoice(temp, kindItems, list, isSpecEat);
    isSuccess, curKingCount, useItemNum, newList := false, 0, num, [];
    if costSuccess {
      PickTriples(kindItems, list, isSpecEat);
      TriplesAvoidKing(curList, isSpecEat);
      var use;
      isSuccess, use, newList := CheckLeftValid(cardIdx, temp, curList, h);
      if isSuccess {
        curKingCount := kingCount - temp.m[KING_IDX];
      }
    }
  }

  function MinItemNum(leftSum: int): int {
    var floor := ((1.51 / 3.0) * (leftSum as real - 2.0)).Floor;
    if floor > 0 then floor else 0
  }

  function MaxItemNum(leftSum: int, kingCount: int): int
  {
    (leftSum + kingCount) / 3
  }

  /** The choices that the search goes through: all subsets of the items, of
      the sizes between its two bounds. */
  ghost predicate Searched(h: Hand, l: seq<nat>) {
    && Combine.Subset(l, |h.items|, |l|)
    && MinItemNum(|h.held|) <= h.kings
    && MinItemNum(|h.held|) <= |l| <= MaxItemNum(|h.held|, h.kings)
    && |l| <= 255
  }

  ghost predicate Candidate(h: Hand, l: seq<nat>) {
    Searched(h, l) && Passes(h, Pick(h.items, l))
  }

  /** The list is a finished choice that passes, at the given cost. */
  ghost predicate Found(h: Hand, list: seq<KindItem>, cost: int) {
    exists l :: Candidate(h, l) && Finishes(h, Pick(h.items, l), list) && cost == CostOf(h, Pick(h.items, l))
  }

  /** No candidate with fewer than `sizes` items, nor one of `seen`, beats the
      best one. */
  ghost predicate Covered(h: Hand, sizes: int, seen: seq<seq<nat>>, best: Option<seq<KindItem>>, cost: int) {
    forall l ::
      Candidate(h, l) && (|l| < sizes || l in seen) && CostOf(h, Pick(h.items, l)) < 255
      ==> best.Some? && cost <= CostOf(h, Pick(h.items, l))
  }

  /** The best choice found so far, with `size` the largest size tried. */
  ghost predicate BestSoFar(h: Hand, best: Option<seq<KindItem>>, cost: int, size: int) {
    match best
    case None => cost == 255
    case Some(list) => Found(h, list, cost) && cost <= 255 && |list| - PairCount(list) <= size
  }

  ghost predicate Table(cardIdx: Counts, kingCount: int, h: Hand) {
    && ValidCounts(cardIdx) && KING_IDX in cardIdx && cardIdx[KING_IDX] == kingCount
    && h.held == Held(cardIdx) && h.kings == kingCount
  }

  lemma CoveredMore(h: Hand, sizes: int, seen: seq<seq<nat>>, x: seq<nat>, best: Option<seq<KindItem>>, cost: int)
    requires Covered(h, sizes, seen, best, cost) && (best == None ==> cost >= 255)
    requires Candidate(h, x) ==> cost <= CostOf(h, Pick(h.items, x))
    ensures Covered(h, sizes, seen + [x], best, cost)
  {
  }

  lemma CoveredCheaper(h: Hand, sizes: int, seen: seq<seq<nat>>, best: Option<seq<KindItem>>, cost: int,
                       best': Option<seq<KindItem>>, cost': int)
    requires Covered(h, sizes, seen, best, cost) && cost' <= cost && best'.Some?
    ensures Covered(h, sizes, seen, best', cost')
  {
  }

  lemma ChoiceTaken(h: Hand, seen: seq<seq<nat>>, x: seq<nat>, best: Option<seq<KindItem>>, cost: int,
                    newCost: int, list: seq<KindItem>, isSpecEat: bool)
    requires Candidate(h, x) && AllTriples(h.items, isSpecEat)
    requires cost <= 255 && Covered(h, |x|, seen, best, cost)
    requires newCost == CostOf(h, Pick(h.items, x)) <= cost && Finishes(h, Pick(h.items, x), list)
    ensures BestSoFar(h, Some(list), newCost, |x|) && Covered(h, |x|, seen + [x], Some(list), newCost)
  {
    CoveredCheaper(h, |x|, seen, best, cost, Some(list), newCost);
    CoveredMore(h, |x|, seen, x, Some(list), newCost);
    PickTriples(h.items, x, isSpecEat);
    FinishedLegal(h, Pick(h.items, x), list, isSpecEat);
  }

  /** Keeping the better of the best so far and the choice just tried, or either
      one on a tie, keeps the account right. */
  lemma ChoiceTried(h: Hand, seen: seq<seq<nat>>, x: seq<nat>, best: Option<seq<KindItem>>, cost: int,
                    ok: bool, newCost: int, list: seq<KindItem>, isSpecEat: bool)
    requires Searched(h, x) && AllTriples(h.items, isSpecEat)
    requires BestSoFar(h, best, cost, |x|) && Covered(h, |x|, seen, best, cost)
    requires ok <==> Candidate(h, x)
    requires ok ==> newCost == CostOf(h, Pick(h.items, x)) && Finishes(h, Pick(h.items, x), list)
    ensures !ok || newCost >= cost ==> Covered(h, |x|, seen + [x], best, cost)
    ensures ok && newCost <= cost ==>
              BestSoFar(h, Some(list), newCost, |x|) && Covered(h, |x|, seen + [x], Some(list), newCost)
  {
    if ok && newCost <= cost {
      ChoiceTaken(h, seen, x, best, cost, newCost, list, isSpecEat);
    }
    if !ok || newCost >= cost {
      CoveredMore(h, |x|, seen, x, best, cost);
    }
  }

  /** Tries one choice and keeps it when it spends fewer wildcards, or as many
      with more wildcard items. */
  method TryAndKeep(cardIdx: Counts, kingCount: int, kindItems: seq<KindItem>, list: seq<nat>,
                    best0: Option<seq<KindItem>>, minUse0: int, maxUse0: int, ghost seen: seq<seq<nat>>,
                    ghost h: Hand, ghost isSpecEat: bool)
    returns (best: Option<seq<KindItem>>, minUseKingCount: int, maxUseItemNum: int)
    requires Table(cardIdx, kingCount, h) && h.items == kindItems
    requires AllTriples(kindItems, isSpecEat)
    requires Searched(h, list) && list != []
    requires BestSoFar(h, best0, minUse0, |list|) && Covered(h, |list|, seen, best0, minUse0)
    ensures BestSoFar(h, best, minUseKingCount, |list|) && Covered(h, |list|, seen + [list], best, minUseKingCount)
  {
    best, minUseKingCount, maxUseItemNum := best0, minUse0, maxUse0;
    var ok, curKingCount, curUseItemNum, curList :=
      TryChoice(cardIdx, kingCount, kindItems, list, h, isSpecEat);
    ChoiceTried(h, seen, list, best, minUseKingCount, ok, curKingCount, curList, isSpecEat);
    if ok {
      if curKingCount < minUseKingCount {
        minUseKingCount := curKingCount;
        maxUseItemNum := curUseItemNum;
        best := Some(curList);
      } else if curKingCount == minUseKingCount {
        if maxUseItemNum < curUseItemNum {
          maxUseItemNum := curUseItemNum;
          best := Some(curList);
        }
      }
    }
  }

  lemma SizeDone(h: Hand, n: nat, ls: seq<seq<nat>>, best: Option<seq<KindItem>>, cost: int)
    requires Covered(h, n, ls, best, cost) && Combine.Enumerates(ls, |h.items|, n)
    ensures Covered(h, n + 1, [], best, cost)
  {
  }

  /** Goes through all choices of one size (lines 401-433). */
  method SearchSize(cardIdx: Counts, kingCount: int, kindItems: seq<KindItem>, needNum: nat,
                    best0: Option<seq<KindItem>>, minUse0: int, maxUse0: int,
                    ghost h: Hand, ghost isSpecEat: bool)
    returns (best: Option<seq<KindItem>>, minUseKingCount: int, maxUseItemNum: int)
    requires Table(cardIdx, kingCount, h) && h.items == kindItems
    requires AllTriples(kindItems, isSpecEat)
    requires 0 < needNum <= |kindItems| && needNum <= 255
    requires MinItemNum(|h.held|) <= h.kings
    requires MinItemNum(|h.held|) <= needNum <= MaxItemNum(|h.held|, h.kings)
    requires BestSoFar(h, best0, minUse0, needNum) && Covered(h, needNum, [], best0, minUse0)
    ensures BestSoFar(h, best, minUseKingCount, needNum) && Covered(h, needNum + 1, [], best, minUseKingCount)
  {
    best, minUseKingCount, maxUseItemNum := best0, minUse0, maxUse0;
    var resultList := Combine.GetCombineList(|kindItems|, needNum);
    for i := 0 to |resultList|
      invariant BestSoFar(h, best, minUseKingCount, needNum)
      invariant Covered(h, needNum, resultList[..i], best, minUseKingCount)
    {
      best, minUseKingCount, maxUseItemNum := TryAndKeep(cardIdx, kingCount, kindItems, resultList[i],
        best, minUseKingCount, maxUseItemNum, resultList[..i], h, isSpecEat);
      Sequences.SplitAt(resultList, i);
    }
    Sequences.Whole(resultList);
    SizeDone(h, needNum, resultList, best, minUseKingCount);
  }

  // ----- The search over all sizes -----

  /** What the search works on: the tiles, the wildcards and the items built
      from them. */
  function SearchedHand(tiles: multiset<Card>, kingCount: int, color: nat, isSpecEat: bool): Hand
    requires color < 5
  {
    Hand(tiles, kingCount, if |tiles| + kingCount < 3 then []
      else KingItems(tiles, kingCount, color, isSpecEat, PokerNum(color)))
  }

  /** The tiles of a colour can be split up with c of the wildcards. */
  ghost predicate Completes(tiles: multiset<Card>, kingCount: int, color: nat, isSpecEat: bool, c: int)
    requires color < 5
  {
    if tiles == multiset{} then c == 0
    else
      var h := SearchedHand(tiles, kingCount, color, isSpecEat);
      exists l :: Candidate(h, l) && c == CostOf(h, Pick(h.items, l))
  }

  lemma SearchedLegal(tiles: multiset<Card>, kingCount: int, color: nat, isSpecEat: bool)
    requires color < 5
    ensures AllTriples(SearchedHand(tiles, kingCount, color, isSpecEat).items, isSpecEat)
  {
    KingItemsLegal(tiles, kingCount, color, isSpecEat, PokerNum(color));
  }

  lemma WithKings(cardIdx: Counts, kingCount: int)
    requires ValidCounts(cardIdx) && kingCount >= 0
    ensures Held(cardIdx[KING_IDX := kingCount]) == Held(cardIdx)
  {
  }

  lemma FoundDecomposes(h: Hand, list: seq<KindItem>, cost: int, isSpecEat: bool)
    requires AllTriples(h.items, isSpecEat) && Found(h, list, cost)
    ensures 0 <= cost <= h.kings && Decomposes(h.held, cost, list, isSpecEat)
  {
    var l :| Candidate(h, l) && Finishes(h, Pick(h.items, l), list) && cost == CostOf(h, Pick(h.items, l));
    PickTriples(h.items, l, isSpecEat);
    PassingDecomposes(h, Pick(h.items, l), list, isSpecEat);
  }

  /** No candidate of the list's size or smaller costs less. */
  ghost predicate NoCheaper(h: Hand, list: seq<KindItem>, cost: int) {
    forall l :: Candidate(h, l) && CostOf(h, Pick(h.items, l)) < 255 && |l| <= |list| - PairCount(list)
      ==> cost <= CostOf(h, Pick(h.items, l))
  }

  /** A choice that passes costs what its size and the pair say. */
  lemma CostBySize(h: Hand, l: seq<nat>, isSpecEat: bool)
    requires AllTriples(h.items, isSpecEat) && Candidate(h, l)
    ensures 3 * |l| <= |h.held| + CostOf(h, Pick(h.items, l)) <= 3 * |l| + 2
  {
    PickTriples(h.items, l, isSpecEat);
    TriplesSize(Pick(h.items, l), isSpecEat);
    FinishedCost(h, Pick(h.items, l));
  }

  /** A larger choice always costs more, so the best one of its size and below is
      the best of all. */
  lemma LeastOfAll(h: Hand, list: seq<KindItem>, cost: int, isSpecEat: bool)
    requires AllTriples(h.items, isSpecEat) && Found(h, list, cost) && NoCheaper(h, list, cost)
    ensures forall l :: Candidate(h, l) && CostOf(h, Pick(h.items, l)) < 255 ==> cost <= CostOf(h, Pick(h.items, l))
  {
    var l0 :| Candidate(h, l0) && Finishes(h, Pick(h.items, l0), list) && cost == CostOf(h, Pick(h.items, l0));
    PickTriples(h.items, l0, isSpecEat);
    FinishedLegal(h, Pick(h.items, l0), list, isSpecEat);
    CostBySize(h, l0, isSpecEat);
    forall l | Candidate(h, l) && CostOf(h, Pick(h.items, l)) < 255 ensures cost <= CostOf(h, Pick(h.items, l)) {
      CostBySize(h, l, isSpecEat);
    }
  }

  lemma FoundLeast(tiles: multiset<Card>, kingCount: int, color: nat, isSpecEat: bool, list: seq<KindItem>, cost: int)
    requires color < 5 && tiles != multiset{}
    requires var h := SearchedHand(tiles, kingCount, color, isSpecEat); Found(h, list, cost) && NoCheaper(h, list, cost)
    ensures Completes(tiles, kingCount, color, isSpecEat, cost)
    ensures forall c: int :: c < 255 && Completes(tiles, kingCount, color, isSpecEat, c) ==> cost <= c
  {
    SearchedLegal(tiles, kingCount, color, isSpecEat);
    LeastOfAll(SearchedHand(tiles, kingCount, color, isSpecEat), list, cost, isSpecEat);
  }

  lemma NoItems(h: Hand)
    requires 0 == MinItemNum(|h.held|) <= h.kings && MaxItemNum(|h.held|, h.kings) >= 0
    ensures Searched(h, []) && Pick(h.items, []) == [] && h.held - Listed([]) == h.held
    ensures Candidate(h, []) <==> Finishable(h.held, h.kings)
    ensures CostOf(h, []) == if |h.held| == 1 then 1 else 0
  {
    assert Listed([]) - h.held == multiset{};
  }

  /** The size-zero turn (lines 391-398): no triple at all, only the finish. */
  method TryNoItems(cards: Counts, kingCount: int, ghost h: Hand, ghost isSpecEat: bool)
    returns (preResultList: Option<seq<KindItem>>, minUseKingCount: int)
    requires Table(cards, kingCount, h) && kingCount >= 0
    requires 0 == MinItemNum(|h.held|) <= h.kings && MaxItemNum(|h.held|, h.kings) >= 0
    ensures BestSoFar(h, preResultList, minUseKingCount, 0) && Covered(h, 1, [], preResultList, minUseKingCount)
  {
    var temp := new CardIdx(cards);
    NoItems(h);
    var isSuccess, useKingCount, curList := CheckLeftValid(cards, temp, [], h);
    if isSuccess {
      FinishedLegal(h, [], curList, isSpecEat);
      preResultList, minUseKingCount := Some(curList), useKingCount;
    } else {
      preResultList, minUseKingCount := None, 255;
    }
  }

  /** The loop over the number of items (lines 378-439). */
  method SearchSizes(cards: Counts, kingCount: int, kindItems: seq<KindItem>, minItemNum: nat, maxItemNum: int,
                     ghost h: Hand, ghost isSpecEat: bool)
    returns (preResultList: Option<seq<KindItem>>, minUseKingCount: int)
    requires Table(cards, kingCount, h) && h.items == kindItems && kingCount >= 0
    requires AllTriples(kindItems, isSpecEat)
    requires minItemNum == MinItemNum(|h.held|) <= h.kings && maxItemNum == MaxItemNum(|h.held|, h.kings)
    ensures preResultList.Some? ==> Found(h, preResultList.value, minUseKingCount)
    ensures preResultList == None ==> forall l | Candidate(h, l) :: CostOf(h, Pick(h.items, l)) >= 255
    ensures preResultList.Some? ==> NoCheaper(h, preResultList.value, minUseKingCount)
  {
    var maxUseItemNum := 0;
    preResultList, minUseKingCount := None, 255;
    var needNum := minItemNum;
    while needNum < maxItemNum + 1
      invariant minItemNum <= needNum
      invariant BestSoFar(h, preResultList, minUseKingCount, needNum - 1)
      invariant Covered(h, needNum, [], preResultList, minUseKingCount)
      decreases maxItemNum - needNum
    {
      if needNum > |kindItems| {
        forall l | Candidate(h, l) ensures |l| < needNum { Combine.SubsetSize(l, |kindItems|); }
        break;
      }
      if minUseKingCount < needNum {
        break;
      }
      if needNum == 0 {
        preResultList, minUseKingCount := TryNoItems(cards, kingCount, h, isSpecEat);
      } else {
        preResultList, minUseKingCount, maxUseItemNum :=
          SearchSize(cards, kingCount, kindItems, needNum, preResultList, minUseKingCount, maxUseItemNum, h, isSpecEat);
        if preResultList.Some? {
          break;
        }
      }
      needNum := needNum + 1;
    }
  }

  /** Splits the tiles of one colour into items, spending as few of the given
      wildcards as it can. On success the list accounts for every tile and for
      exactly the wildcards reported, and no candidate of any size costs less; it
      fails only when there is no candidate that costs less than 255. */
  method CalcTttCombine(cardIdx: Counts, kingCount: int, color: nat, isSpecEat: bool)
    returns (isSuccess: bool, useKingCount: int, resultList: seq<KindItem>)
    requires ValidCounts(cardIdx) && KING_IDX !in cardIdx && kingCount >= 0 && color < 5
    ensures isSuccess ==> 0 <= useKingCount <= kingCount
    ensures isSuccess ==> Decomposes(Held(cardIdx), useKingCount, resultList, isSpecEat)
    ensures isSuccess ==> Completes(Held(cardIdx), kingCount, color, isSpecEat, useKingCount)
    ensures forall c: int ::
              c < 255 && Completes(Held(cardIdx), kingCount, color, isSpecEat, c) ==> isSuccess && useKingCount <= c
  {
    var leftSum := GetPokerIdxSum(cardIdx);
    if leftSum == 0 {
      assert Held(cardIdx) == multiset{};
      return true, 0, [];
    }
    ghost var h := SearchedHand(Held(cardIdx), kingCount, color, isSpecEat);
    var cards := cardIdx[KING_IDX := kingCount];
    WithKings(cardIdx, kingCount);
    SearchedLegal(Held(cardIdx), kingCount, color, isSpecEat);
    var maxItemNum, minItemNum := MaxItemNum(leftSum, kingCount), MinItemNum(leftSum);
    if kingCount < minItemNum {
      return false, 0, [];
    }
    var kindItems := CollectKingItems(cards, leftSum, kingCount, color, isSpecEat);
    assert h.items == kindItems;
    var preResultList, minUseKingCount :=
      SearchSizes(cards, kingCount, kindItems, minItemNum, maxItemNum, h, isSpecEat);
    match preResultList
    case Some(list) =>
      isSuccess, useKingCount, resultList := true, minUseKingCount, list;
      FoundDecomposes(h, list, minUseKingCount, isSpecEat);
      FoundLeast(Held(cardIdx), kingCount, color, isSpecEat, list, minUseKingCount);
    case None =>
      isSuccess, useKingCount, resultList := false, 0, [];
  }
}
