/** `check_can_hu` of src/game/majiang.rs: is a mahjong hand, together with its
    wildcards, a winning hand? */
module HuCheck {
  import opened Wrappers
  import opened Tiles
  import opened KingSearch
  import Assembly
  import Combine
  import Sequences

  // ----- The real tiles of a hand -----

  predicate RealBelow(c: Card, n: nat) {
    RealTile(c) && c / 16 < n
  }

  ghost predicate IsRealPart(hand: seq<Card>, n: nat, tiles: multiset<Card>) {
    forall c: Card :: tiles[c] == if RealBelow(c, n) then multiset(hand)[c] else 0
  }

  lemma {:induction false} RealPartExists(hand: seq<Card>, n: nat) returns (tiles: multiset<Card>)
    ensures IsRealPart(hand, n, tiles)
  {
    if hand == [] {
      tiles := multiset{};
    } else {
      var c := hand[|hand| - 1];
      tiles := RealPartExists(hand[..|hand| - 1], n);
      assert hand == hand[..|hand| - 1] + [c];
      if RealBelow(c, n) {
        tiles := tiles + multiset{c};
      }
    }
  }

  /** The tiles of the first `n` colours of a hand; other codes are passed
      over. */
  ghost function RealTiles(hand: seq<Card>, n: nat): (tiles: multiset<Card>)
    ensures IsRealPart(hand, n, tiles)
  {
    assert exists tiles :: IsRealPart(hand, n, tiles) by { var tiles := RealPartExists(hand, n); }
    var tiles :| IsRealPart(hand, n, tiles);
    tiles
  }

  lemma RealTilesSize(hand: seq<Card>, n: nat)
    ensures RealTiles(hand, n) <= multiset(hand) && |RealTiles(hand, n)| <= |hand|
    ensures n == 0 ==> RealTiles(hand, n) == multiset{}
  {
    CardSub(RealTiles(hand, n), multiset(hand));
  }

  lemma AllTilesReal(hand: seq<Card>)
    requires forall i :: 0 <= i < |hand| ==> RealTile(hand[i])
    ensures RealTiles(hand, 5) == multiset(hand)
  {
    forall c: Card ensures RealTiles(hand, 5)[c] == multiset(hand)[c] {
      if c in multiset(hand) {
        assert c in hand;
      }
    }
  }

  // ----- Counting the hand -----

  /** The table counts the tiles, and has no entries of zero. */
  ghost predicate TableOf(m: Counts, hand: multiset<Card>) {
    forall c: Card :: hand[c] == (if c in m then m[c] else 0) && (c in m ==> m[c] > 0)
  }

  method CountPokers(pokerList: seq<Card>) returns (allCardIdx: Counts)
    ensures TableOf(allCardIdx, multiset(pokerList))
  {
    allCardIdx := map[];
    for i := 0 to |pokerList|
      invariant TableOf(allCardIdx, multiset(pokerList[..i]))
    {
      Sequences.SplitAt(pokerList, i);
      var poker := pokerList[i];
      allCardIdx := allCardIdx[poker := Cnt(allCardIdx, poker) + 1];
    }
    Sequences.Whole(pokerList);
  }

  predicate InColor(c: Card, idx: nat, rank: nat) {
    RealTile(c) && c / 16 == idx && c % 16 < rank
  }

  /** The part of a table that holds the first ranks of a colour. */
  ghost predicate ColorPart(m: Counts, idx: nat, rank: nat, part: Counts) {
    && (forall c: Card :: c in part <==> c in m && InColor(c, idx, rank))
    && (forall c <- part :: part[c] == m[c])
  }

  lemma InColorStep(idx: nat, rank: nat, c: Card)
    requires idx < 5 && 1 <= rank < PokerNum(idx)
    ensures InColor(c, idx, rank + 1) <==> InColor(c, idx, rank) || c == TileCode(idx, rank)
    ensures !InColor(TileCode(idx, rank), idx, rank)
  {
  }

  lemma ColorPartStep(m: Counts, idx: nat, rank: nat, part: Counts)
    requires idx < 5 && 1 <= rank < PokerNum(idx) && ValidCounts(m) && ColorPart(m, idx, rank, part)
    ensures var card := TileCode(idx, rank);
            var part' := if card in m then part[card := m[card]] else part;
            && ColorPart(m, idx, rank + 1, part') && ValidCounts(part') && ValidCounts(part)
            && |Held(part')| == |Held(part)| + Cnt(m, card)
  {
    var card := TileCode(idx, rank);
    forall c: Card ensures InColor(c, idx, rank + 1) <==> InColor(c, idx, rank) || c == card {
      InColorStep(idx, rank, c);
    }
    InColorStep(idx, rank, card);
    if card in m {
      HeldInsert(m, part, card);
    }
  }

  lemma ColorPartCount(m: Counts, hand: seq<Card>, idx: nat, part: Counts, c: Card)
    requires idx < 5 && TableOf(m, multiset(hand)) && ColorPart(m, idx, PokerNum(idx), part) && ValidCounts(part)
    ensures Held(part)[c] == if RealTile(c) && c / 16 == idx then multiset(hand)[c] else 0
    ensures KING_IDX !in part
  {
    assert c in part <==> c in m && InColor(c, idx, PokerNum(idx));
    assert !RealTile(KING_IDX);
  }

  lemma ColorPartWhole(m: Counts, hand: seq<Card>, idx: nat, part: Counts)
    requires idx < 5 && TableOf(m, multiset(hand)) && ColorPart(m, idx, PokerNum(idx), part) && ValidCounts(part)
    ensures KING_IDX !in part
    ensures RealTiles(hand, idx + 1) == RealTiles(hand, idx) + Held(part)
  {
    forall c: Card
      ensures RealTiles(hand, idx + 1)[c] == RealTiles(hand, idx)[c] + Held(part)[c]
    {
      ColorPartCount(m, hand, idx, part, c);
    }
  }

  /** The tiles of one colour (lines 72-86). */
  method GetSubPokerIdx(allCardIdx: Counts, idx: nat, ghost hand: seq<Card>) returns (pokerIdx: Counts, sum: int)
    requires idx < 5 && TableOf(allCardIdx, multiset(hand)) && ValidCounts(allCardIdx)
    ensures ValidCounts(pokerIdx) && KING_IDX !in pokerIdx && sum == |Held(pokerIdx)|
    ensures RealTiles(hand, idx + 1) == RealTiles(hand, idx) + Held(pokerIdx)
  {
    pokerIdx, sum := map[], 0;
    assert Held(pokerIdx) == multiset{};
    for i := 1 to PokerNum(idx)
      invariant ColorPart(allCardIdx, idx, i, pokerIdx)
      invariant ValidCounts(pokerIdx) && sum == |Held(pokerIdx)|
    {
      ColorPartStep(allCardIdx, idx, i, pokerIdx);
      var card := TileCode(idx, i);
      if card in allCardIdx {
        sum := sum + allCardIdx[card];
        pokerIdx := pokerIdx[card := allCardIdx[card]];
      }
    }
    ColorPartWhole(allCardIdx, hand, idx, pokerIdx);
  }

  // ----- The items that need no wildcard -----

  /** As many copies of a sequence as the tiles allow. */
  function Copies(item: KindItem, count1: nat, count2: nat, count3: nat): seq<KindItem> {
    if count1 > 0 && count2 > 0 && count3 > 0 then [item] + Copies(item, count1 - 1, count2 - 1, count3 - 1) else []
  }

  function FreePeng(hand: multiset<Card>, card: Card): seq<KindItem> {
    if hand[card] >= 3 then [NewByData(card, card, card, Peng)] else []
  }

  function FreeEats(hand: multiset<Card>, eats: seq<seq<Card>>): seq<KindItem>
    requires forall i :: 0 <= i < |eats| ==> |eats[i]| == 3
  {
    if eats == [] then []
    else
      var eat := eats[|eats| - 1];
      FreeEats(hand, eats[..|eats| - 1])
        + Copies(NewByData(eat[0], eat[1], eat[2], Chi), hand[eat[0]], hand[eat[1]], hand[eat[2]])
  }

  /** The items that start at one tile. */
  function FreeAt(hand: multiset<Card>, card: Card, eats: seq<seq<Card>>): seq<KindItem>
    requires forall i :: 0 <= i < |eats| ==> |eats[i]| == 3
  {
    if card in hand then FreePeng(hand, card) + FreeEats(hand, eats) else []
  }

  /** Triples and sequences the hand itself holds that start at ranks below
      `rank`. */
  function FreeItems(hand: multiset<Card>, color: nat, isSpecEat: bool, rank: nat): seq<KindItem>
    requires color < 5 && rank <= PokerNum(color)
  {
    if rank <= 1 then []
    else
      FreeItems(hand, color, isSpecEat, rank - 1)
      + FreeAt(hand, TileCode(color, rank - 1), CanEat(color, rank - 1, isSpecEat))
  }

  lemma {:induction false} CopiesLegal(item: KindItem, c1: nat, c2: nat, c3: nat, isSpecEat: bool)
    requires LegalTriple(item, isSpecEat)
    ensures AllTriples(Copies(item, c1, c2, c3), isSpecEat)
  {
    if c1 > 0 && c2 > 0 && c3 > 0 {
      CopiesLegal(item, c1 - 1, c2 - 1, c3 - 1, isSpecEat);
    }
  }

  lemma OneEatLegal(hand: multiset<Card>, eat: seq<Card>, color: nat, idx: nat, isSpecEat: bool)
    requires color < 5 && 1 <= idx < PokerNum(color) && |eat| == 3 && eat in CanEat(color, idx, isSpecEat)
    ensures AllTriples(Copies(NewByData(eat[0], eat[1], eat[2], Chi), hand[eat[0]], hand[eat[1]], hand[eat[2]]),
            isSpecEat)
  {
    var item := NewByData(eat[0], eat[1], eat[2], Chi);
    assert item.cardIdx == eat && LegalTriple(item, isSpecEat);
    CopiesLegal(item, hand[eat[0]], hand[eat[1]], hand[eat[2]], isSpecEat);
  }

  lemma {:induction false} FreeEatsLegal(hand: multiset<Card>, eats: seq<seq<Card>>, color: nat, idx: nat,
                                         isSpecEat: bool)
    requires color < 5 && 1 <= idx < PokerNum(color)
    requires forall i :: 0 <= i < |eats| ==> |eats[i]| == 3 && eats[i] in CanEat(color, idx, isSpecEat)
    ensures AllTriples(FreeEats(hand, eats), isSpecEat)
  {
    if eats != [] {
      var init, eat := eats[..|eats| - 1], eats[|eats| - 1];
      FreeEatsLegal(hand, init, color, idx, isSpecEat);
      OneEatLegal(hand, eat, color, idx, isSpecEat);
      TriplesConcat(FreeEats(hand, init),
        Copies(NewByData(eat[0], eat[1], eat[2], Chi), hand[eat[0]], hand[eat[1]], hand[eat[2]]), isSpecEat);
    }
  }

  lemma FreeAtLegal(hand: multiset<Card>, color: nat, idx: nat, isSpecEat: bool)
    requires color < 5 && 1 <= idx < PokerNum(color)
    ensures AllTriples(FreeAt(hand, TileCode(color, idx), CanEat(color, idx, isSpecEat)), isSpecEat)
  {
    var card := TileCode(color, idx);
    FreeEatsLegal(hand, CanEat(color, idx, isSpecEat), color, idx, isSpecEat);
    assert AllTriples(FreePeng(hand, card), isSpecEat);
    TriplesConcat(FreePeng(hand, card), FreeEats(hand, CanEat(color, idx, isSpecEat)), isSpecEat);
  }

  lemma {:induction false} FreeItemsLegal(hand: multiset<Card>, color: nat, isSpecEat: bool, rank: nat)
    requires color < 5 && rank <= PokerNum(color)
    ensures AllTriples(FreeItems(hand, color, isSpecEat, rank), isSpecEat)
  {
    if rank > 1 {
      FreeItemsLegal(hand, color, isSpecEat, rank - 1);
      FreeAtLegal(hand, color, rank - 1, isSpecEat);
      TriplesConcat(FreeItems(hand, color, isSpecEat, rank - 1),
                    FreeAt(hand, TileCode(color, rank - 1), CanEat(color, rank - 1, isSpecEat)), isSpecEat);
    }
  }

  method CollectCopies(allCardIdx: Counts, eat: seq<Card>, ghost hand: multiset<Card>)
    returns (kindItems: seq<KindItem>)
    requires TableOf(allCardIdx, hand) && |eat| == 3
    ensures kindItems == Copies(NewByData(eat[0], eat[1], eat[2], Chi), hand[eat[0]], hand[eat[1]], hand[eat[2]])
  {
    kindItems := [];
    if eat[0] in allCardIdx && eat[1] in allCardIdx && eat[2] in allCardIdx {
      var item := NewByData(eat[0], eat[1], eat[2], Chi);
      var count1: nat, count2: nat, count3: nat := allCardIdx[eat[0]], allCardIdx[eat[1]], allCardIdx[eat[2]];
      ghost var goal := Copies(item, count1, count2, count3);
      while count1 > 0 && count2 > 0 && count3 > 0
        invariant kindItems + Copies(item, count1, count2, count3) == goal
        decreases count1
      {
        Sequences.Shift(kindItems, item, Copies(item, count1 - 1, count2 - 1, count3 - 1));
        kindItems := kindItems + [item];
        count1, count2, count3 := count1 - 1, count2 - 1, count3 - 1;
      }
    }
  }

  method CollectFreeEats(allCardIdx: Counts, eatList: seq<seq<Card>>, ghost hand: multiset<Card>)
    returns (kindItems: seq<KindItem>)
    requires TableOf(allCardIdx, hand)
    requires forall i :: 0 <= i < |eatList| ==> |eatList[i]| == 3
    ensures kindItems == FreeEats(hand, eatList)
  {
    kindItems := [];
    for e := 0 to |eatList|
      invariant kindItems == FreeEats(hand, eatList[..e])
    {
      Sequences.SplitAt(eatList, e);
      var items := CollectCopies(allCardIdx, eatList[e], hand);
      kindItems := kindItems + items;
    }
    Sequences.Whole(eatList);
  }

  method CollectFreeAt(allCardIdx: Counts, card: Card, eatList: seq<seq<Card>>, ghost hand: multiset<Card>)
    returns (kindItems: seq<KindItem>)
    requires TableOf(allCardIdx, hand)
    requires forall i :: 0 <= i < |eatList| ==> |eatList[i]| == 3
    ensures kindItems == FreeAt(hand, card, eatList)
  {
    kindItems := [];
    if card in allCardIdx {
      var isCreatePeng := allCardIdx[card] >= 3;
      if isCreatePeng {
        kindItems := [NewByData(card, card, card, Peng)];
      }
      var eatItems := CollectFreeEats(allCardIdx, eatList, hand);
      kindItems := kindItems + eatItems;
    }
  }

  /** Triples and sequences the hand itself holds (lines 468-500). */
  method CollectFreeItems(allCardIdx: Counts, allNum: int, color: nat, isSpecEat: bool, ghost hand: multiset<Card>)
    returns (kindItems: seq<KindItem>)
    requires color < 5 && TableOf(allCardIdx, hand)
    ensures kindItems == if allNum < 3 then [] else FreeItems(hand, color, isSpecEat, PokerNum(color))
  {
    kindItems := [];
    var j := 1;
    while j < PokerNum(color)
      invariant 1 <= j <= PokerNum(color)
      invariant allNum < 3 ==> kindItems == []
      invariant allNum >= 3 ==> kindItems == FreeItems(hand, color, isSpecEat, j)
    {
      if allNum < 3 {
        break;
      }
      var items := CollectFreeAt(allCardIdx, TileCode(color, j), CanEat(color, j, isSpecEat), hand);
      kindItems := kindItems + items;
      j := j + 1;
    }
  }

  // ----- The largest choices that need no wildcard -----

  /** A choice of items that the tiles pay for without any wildcard. */
  ghost predicate FreeChoice(tiles: multiset<Card>, items: seq<KindItem>, l: seq<nat>) {
    Combine.Subset(l, |items|, |l|) && Listed(Pick(items, l)) <= tiles
  }

  /** A list of items that comes of such a choice. */
  ghost predicate FreeList(tiles: multiset<Card>, items: seq<KindItem>, x: seq<KindItem>, size: nat) {
    exists l :: FreeChoice(tiles, items, l) && |l| == size && x == Pick(items, l)
  }

  ghost predicate HasTiles(lists: seq<seq<KindItem>>, tiles: multiset<Card>) {
    exists i :: 0 <= i < |lists| && Listed(lists[i]) == tiles
  }

  /** The lists come of free choices, and no free choice among `ls` is left
      out. */
  ghost predicate FreeLists(tiles: multiset<Card>, items: seq<KindItem>, size: nat, ls: seq<seq<nat>>,
                            lists: seq<seq<KindItem>>) {
    && (forall i :: 0 <= i < |lists| ==> FreeList(tiles, items, lists[i], size))
    && (forall l :: l in ls && FreeChoice(tiles, items, l) ==> HasTiles(lists, Listed(Pick(items, l))))
  }

  lemma FreeMeansHeld(cardIdx: Counts, x: seq<KindItem>)
    requires ValidCounts(cardIdx) && KING_IDX !in cardIdx
    ensures Affordable(cardIdx, x) <==> Listed(x) <= Held(cardIdx)
  {
    if Shortfall(Held(cardIdx), Listed(x)) == 0 {
      NothingLeft(Listed(x), Held(cardIdx));
    }
    if Listed(x) <= Held(cardIdx) {
      assert Listed(x) - Held(cardIdx) == multiset{};
    }
  }

  lemma HasMore(lists: seq<seq<KindItem>>, x: seq<KindItem>)
    ensures HasTiles(lists + [x], Listed(x))
    ensures forall tiles :: HasTiles(lists, tiles) ==> HasTiles(lists + [x], tiles)
  {
    var more := lists + [x];
    assert more[|lists|] == x;
    forall tiles | HasTiles(lists, tiles) ensures HasTiles(more, tiles) {
      var i :| 0 <= i < |lists| && Listed(lists[i]) == tiles;
      assert more[i] == lists[i];
    }
  }

  lemma FreeListsTaken(tiles: multiset<Card>, items: seq<KindItem>, size: nat, ls: seq<seq<nat>>, l: seq<nat>,
                       lists: seq<seq<KindItem>>)
    requires FreeLists(tiles, items, size, ls, lists) && FreeChoice(tiles, items, l) && |l| == size
    ensures FreeLists(tiles, items, size, ls + [l], lists + [Pick(items, l)])
  {
    HasMore(lists, Pick(items, l));
    assert FreeList(tiles, items, Pick(items, l), size);
  }

  method KeepIfAffordable(cardIdx: Counts, kindItems: seq<KindItem>, ghost size: nat, list: seq<nat>,
                          huList0: seq<seq<KindItem>>,
                          ghost seen: seq<seq<nat>>, ghost isSpecEat: bool)
    returns (huList: seq<seq<KindItem>>, costSuccess: bool)
    requires ValidCounts(cardIdx) && KING_IDX !in cardIdx && AllTriples(kindItems, isSpecEat)
    requires size > 0 && Combine.Subset(list, |kindItems|, size)
    requires FreeLists(Held(cardIdx), kindItems, size, seen, huList0)
    ensures FreeLists(Held(cardIdx), kindItems, size, seen + [list], huList)
    ensures costSuccess ==> huList != []
  {
    var temp := new CardIdx(cardIdx);
    var num, curList;
    FreeMeansHeld(cardIdx, Pick(kindItems, list));
    costSuccess, num, curList := ChargeChoice(temp, kindItems, list, isSpecEat);
    if costSuccess {
      FreeListsTaken(Held(cardIdx), kindItems, size, seen, list, huList0);
      huList := huList0 + [curList];
    } else {
      huList := huList0;
    }
  }

  /** Charges each of the given choices to a table without wildcards and keeps
      those that it pays for (lines 513-528). */
  method KeepAffordable(cardIdx: Counts, kindItems: seq<KindItem>, ghost size: nat, resultList: seq<seq<nat>>,
                        ghost isSpecEat: bool)
    returns (huList: seq<seq<KindItem>>, costSuccess: bool)
    requires ValidCounts(cardIdx) && KING_IDX !in cardIdx && AllTriples(kindItems, isSpecEat)
    requires forall i :: 0 <= i < |resultList| ==> size > 0 && Combine.Subset(resultList[i], |kindItems|, size)
    ensures FreeLists(Held(cardIdx), kindItems, size, resultList, huList)
    ensures costSuccess && huList == [] ==> resultList == []
    ensures resultList == [] ==> huList == [] && costSuccess
  {
    huList, costSuccess := [], true;
    for i := 0 to |resultList|
      invariant FreeLists(Held(cardIdx), kindItems, size, resultList[..i], huList)
      invariant costSuccess && huList == [] ==> i == 0
      invariant i == 0 ==> costSuccess && huList == []
    {
      huList, costSuccess := KeepIfAffordable(cardIdx, kindItems, size, resultList[i], huList, resultList[..i],
        isSpecEat);
      Sequences.SplitAt(resultList, i);
    }
    Sequences.Whole(resultList);
  }

  /** The lists are the free choices of one size. */
  ghost predicate AllOfSize(tiles: multiset<Card>, items: seq<KindItem>, size: nat, lists: seq<seq<KindItem>>) {
    && (forall i :: 0 <= i < |lists| ==> FreeList(tiles, items, lists[i], size))
    && (forall l :: FreeChoice(tiles, items, l) && |l| == size ==> HasTiles(lists, Listed(Pick(items, l))))
  }

  lemma FreeListsDone(tiles: multiset<Card>, items: seq<KindItem>, size: nat, ls: seq<seq<nat>>,
                      lists: seq<seq<KindItem>>, costSuccess: bool)
    requires size <= |items| && FreeLists(tiles, items, size, ls, lists)
    requires if size == 0 then ls == [] else Combine.Enumerates(ls, |items|, size)
    requires costSuccess && lists == [] ==> ls == []
    requires ls == [] ==> lists == [] && costSuccess
    ensures if costSuccess && lists == [] then size == 0 && AllOfSize(tiles, items, 0, [[]])
            else AllOfSize(tiles, items, size, lists)
  {
    if size > 0 {
      Combine.SomeSubset(ls, |items|, size);
    } else {
      var none: seq<seq<KindItem>> := [];
      HasMore(none, []);
      assert none + [[]] == [[]];
      assert Pick(items, []) == [];
      assert FreeChoice(tiles, items, []) && FreeList(tiles, items, [], 0);
    }
  }

  /** The affordable choices of one size (lines 510-532). */
  method FreeChoices(cardIdx: Counts, kindItems: seq<KindItem>, size: nat, ghost isSpecEat: bool)
    returns (huList: seq<seq<KindItem>>)
    requires ValidCounts(cardIdx) && KING_IDX !in cardIdx && AllTriples(kindItems, isSpecEat)
    requires size <= |kindItems|
    ensures AllOfSize(Held(cardIdx), kindItems, size, huList)
  {
    var resultList := Combine.GetCombineList(|kindItems|, size);
    var costSuccess;
    huList, costSuccess := KeepAffordable(cardIdx, kindItems, size, resultList, isSpecEat);
    FreeListsDone(Held(cardIdx), kindItems, size, resultList, huList, costSuccess);
    if costSuccess && |huList| == 0 {
      huList := huList + [[]];
      assert huList == [[]];
    }
  }

  /** A free choice as large as any, and large enough for the source to look at:
      the wildcards could take the rest off. */
  ghost predicate TopChoice(tiles: multiset<Card>, items: seq<KindItem>, kings: int, l: seq<nat>) {
    && FreeChoice(tiles, items, l)
    && (forall k :: FreeChoice(tiles, items, k) ==> |k| <= |l|)
    && |l| * 3 + kings * 2 + 2 >= |tiles|
  }

  ghost predicate TopList(tiles: multiset<Card>, items: seq<KindItem>, kings: int, x: seq<KindItem>) {
    exists l :: TopChoice(tiles, items, kings, l) && x == Pick(items, l)
  }

  /** The lists are the largest free choices. */
  ghost predicate AllTops(tiles: multiset<Card>, items: seq<KindItem>, kings: int, lists: seq<seq<KindItem>>) {
    && (forall i :: 0 <= i < |lists| ==> TopList(tiles, items, kings, lists[i]))
    && (forall l :: TopChoice(tiles, items, kings, l) ==> HasTiles(lists, Listed(Pick(items, l))))
  }

  lemma SizeIsTop(tiles: multiset<Card>, items: seq<KindItem>, kings: int, size: nat, lists: seq<seq<KindItem>>)
    requires AllOfSize(tiles, items, size, lists) && lists != []
    requires forall l :: FreeChoice(tiles, items, l) ==> |l| <= size
    requires size * 3 + kings * 2 + 2 >= |tiles|
    ensures AllTops(tiles, items, kings, lists)
  {
    assert FreeList(tiles, items, lists[0], size);
    forall i | 0 <= i < |lists| ensures TopList(tiles, items, kings, lists[i]) {
      assert FreeList(tiles, items, lists[i], size);
      var l :| FreeChoice(tiles, items, l) && |l| == size && lists[i] == Pick(items, l);
      assert TopChoice(tiles, items, kings, l);
    }
  }

  lemma NoneOfSize(tiles: multiset<Card>, items: seq<KindItem>, size: nat)
    requires AllOfSize(tiles, items, size, [])
    ensures forall l :: FreeChoice(tiles, items, l) ==> |l| != size
  {
  }

  lemma FreeChoiceSize(cardIdx: Counts, items: seq<KindItem>, isSpecEat: bool)
    requires ValidCounts(cardIdx) && AllTriples(items, isSpecEat)
    ensures forall l :: FreeChoice(Held(cardIdx), items, l) ==> |l| <= |items| && |l| <= |Held(cardIdx)| / 3
  {
    forall l | FreeChoice(Held(cardIdx), items, l)
      ensures |l| <= |items| && |l| <= |Held(cardIdx)| / 3
    {
      Combine.SubsetSize(l, |items|);
      PickTriples(items, l, isSpecEat);
      TriplesSize(Pick(items, l), isSpecEat);
      CardSub(Listed(Pick(items, l)), Held(cardIdx));
    }
  }

  /** The largest number of king-free items comes first; smaller ones are tried
      only when no larger choice can be paid for (lines 502-538). */
  method LargestFree(cardIdx: Counts, allNum: int, kindItems: seq<KindItem>, leftKingCount: int, ghost isSpecEat: bool)
    returns (curTypeList: seq<seq<KindItem>>)
    requires ValidCounts(cardIdx) && KING_IDX !in cardIdx && AllTriples(kindItems, isSpecEat)
    requires allNum == |Held(cardIdx)|
    ensures AllTops(Held(cardIdx), kindItems, leftKingCount, curTypeList)
  {
    curTypeList := [];
    var third := allNum / 3;
    var maxCombine := if |kindItems| < third then |kindItems| else third;
    FreeChoiceSize(cardIdx, kindItems, isSpecEat);
    var i := maxCombine;
    while i >= 0
      invariant -1 <= i <= maxCombine
      invariant curTypeList == []
      invariant forall l :: FreeChoice(Held(cardIdx), kindItems, l) ==> |l| <= i
    {
      if i * 3 + leftKingCount * 2 + 2 < allNum {
        break;
      }
      var huList := FreeChoices(cardIdx, kindItems, i, isSpecEat);
      if |huList| > 0 {
        SizeIsTop(Held(cardIdx), kindItems, leftKingCount, i, huList);
        curTypeList := huList;
        return;
      }
      NoneOfSize(Held(cardIdx), kindItems, i);
      i := i - 1;
    }
  }

  // ----- One colour -----

  lemma DecomposesWithFree(tiles: multiset<Card>, free: seq<KindItem>, spent: int, rest: seq<KindItem>, isSpecEat: bool)
    requires AllTriples(free, isSpecEat) && Listed(free) <= tiles
    requires Decomposes(tiles - Listed(free), spent, rest, isSpecEat)
    ensures Decomposes(tiles, spent, free + rest, isSpecEat)
  {
    TriplesLegal(free, isSpecEat);
    ListedConcat(free, rest);
    PairCountConcat(free, rest);
    CardSub(Listed(free), tiles);
  }

  /** After one of the lists, what is left of the tiles can be split up with c
      wildcards. */
  ghost predicate RestCosts(tiles: multiset<Card>, lists: seq<seq<KindItem>>, kings: int, color: nat, isSpecEat: bool,
                            c: int)
    requires color < 5
  {
    exists i :: 0 <= i < |lists| && Completes(tiles - Listed(lists[i]), kings, color, isSpecEat, c)
  }

  /** Nothing cheaper than `cost`, nor than 255, can be done with the rest. */
  ghost predicate NoneBelow(rest: multiset<Card>, kings: int, color: nat, isSpecEat: bool, cost: int)
    requires color < 5
  {
    forall c: int :: c < cost && c < 255 ==> !Completes(rest, kings, color, isSpecEat, c)
  }

  /** The rest of one choice, if it takes fewer wildcards than the best so far. */
  method TryRest(cardIdx: Counts, list: seq<KindItem>, leftKingCount: int, color: nat, isSpecEat: bool, minUse: int)
    returns (finalList: Option<seq<KindItem>>, useKingCount: int)
    requires ValidCounts(cardIdx) && KING_IDX !in cardIdx && color < 5 && leftKingCount >= 0
    requires AllTriples(list, isSpecEat) && Listed(list) <= Held(cardIdx)
    ensures finalList.Some? ==> 0 <= useKingCount <= leftKingCount && useKingCount < minUse
    ensures finalList.Some? ==> Decomposes(Held(cardIdx), useKingCount, finalList.value, isSpecEat)
    ensures finalList.Some? ==> Completes(Held(cardIdx) - Listed(list), leftKingCount, color, isSpecEat, useKingCount)
    ensures NoneBelow(Held(cardIdx) - Listed(list), leftKingCount, color, isSpecEat,
                      if finalList.Some? then useKingCount else minUse)
  {
    TriplesAvoidKing(list, isSpecEat);
    var leftIdx := SubNumPokers(cardIdx, list);
    var isSuccess, resultList;
    isSuccess, useKingCount, resultList := CalcTttCombine(leftIdx, leftKingCount, color, isSpecEat);
    finalList := None;
    if isSuccess {
      if useKingCount < minUse {
        DecomposesWithFree(Held(cardIdx), list, useKingCount, resultList, isSpecEat);
        finalList := Some(list + resultList);
      }
    }
  }

  /** None of the first i rests can be dealt with for less than `cost`. */
  ghost predicate AllNoneBelow(tiles: multiset<Card>, lists: seq<seq<KindItem>>, i: nat, kings: int, color: nat,
                               isSpecEat: bool, cost: int)
    requires color < 5 && i <= |lists|
  {
    i > 0 ==>
      && AllNoneBelow(tiles, lists, i - 1, kings, color, isSpecEat, cost)
      && NoneBelow(tiles - Listed(lists[i - 1]), kings, color, isSpecEat, cost)
  }

  lemma {:induction false} AllNoneBelowAt(tiles: multiset<Card>, lists: seq<seq<KindItem>>, i: nat, kings: int,
                                          color: nat, isSpecEat: bool, cost: int, j: nat)
    requires color < 5 && j < i <= |lists| && AllNoneBelow(tiles, lists, i, kings, color, isSpecEat, cost)
    ensures NoneBelow(tiles - Listed(lists[j]), kings, color, isSpecEat, cost)
  {
    if j == i - 1 {
      assert lists[j] == lists[i - 1];
    } else {
      AllNoneBelowAt(tiles, lists, i - 1, kings, color, isSpecEat, cost, j);
    }
  }

  /** The best rest found among the first i lists. */
  ghost predicate BestRest(tiles: multiset<Card>, lists: seq<seq<KindItem>>, i: nat, kings: int, color: nat,
                           isSpecEat: bool,
                           best: Option<seq<KindItem>>, minUse: int)
    requires color < 5 && i <= |lists|
  {
    && AllNoneBelow(tiles, lists, i, kings, color, isSpecEat, minUse)
    && match best
       case None => minUse == 255
       case Some(list) =>
         && 0 <= minUse <= kings && minUse < 255
         && Decomposes(tiles, minUse, list, isSpecEat)
         && RestCosts(tiles, lists, kings, color, isSpecEat, minUse)
  }

  lemma NoneBelowLess(rest: multiset<Card>, kings: int, color: nat, isSpecEat: bool, cost: int, less: int)
    requires color < 5 && less <= cost
    ensures NoneBelow(rest, kings, color, isSpecEat, cost) ==> NoneBelow(rest, kings, color, isSpecEat, less)
  {
  }

  lemma {:induction false} AllBelowLess(tiles: multiset<Card>, lists: seq<seq<KindItem>>, i: nat, kings: int,
                                        color: nat, isSpecEat: bool, cost: int, less: int)
    requires color < 5 && i <= |lists| && less <= cost
    ensures AllNoneBelow(tiles, lists, i, kings, color, isSpecEat, cost)
            ==> AllNoneBelow(tiles, lists, i, kings, color, isSpecEat, less)
  {
    if i > 0 {
      AllBelowLess(tiles, lists, i - 1, kings, color, isSpecEat, cost, less);
      NoneBelowLess(tiles - Listed(lists[i - 1]), kings, color, isSpecEat, cost, less);
    }
  }

  lemma BetterRest(tiles: multiset<Card>, lists: seq<seq<KindItem>>, i: nat, kings: int, color: nat, isSpecEat: bool,
                   best: Option<seq<KindItem>>, minUse: int, better: Option<seq<KindItem>>, use: int)
    requires color < 5 && i < |lists| && BestRest(tiles, lists, i, kings, color, isSpecEat, best, minUse)
    requires better.Some? ==> 0 <= use <= kings && use < minUse && Decomposes(tiles, use, better.value, isSpecEat)
    requires better.Some? ==> Completes(tiles - Listed(lists[i]), kings, color, isSpecEat, use)
    requires NoneBelow(tiles - Listed(lists[i]), kings, color, isSpecEat, if better.Some? then use else minUse)
    ensures if better.Some? then BestRest(tiles, lists, i + 1, kings, color, isSpecEat, better, use)
            else BestRest(tiles, lists, i + 1, kings, color, isSpecEat, best, minUse)
  {
    AllBelowLess(tiles, lists, i, kings, color, isSpecEat, minUse, if better.Some? then use else minUse);
  }

  /** Among the largest king-free choices, the one whose rest needs the fewest
      wildcards (lines 540-556). */
  method CheapestRest(cardIdx: Counts, curTypeList: seq<seq<KindItem>>, leftKingCount: int, color: nat, isSpecEat: bool)
    returns (finalList: Option<seq<KindItem>>, minUseKingCount: int)
    requires ValidCounts(cardIdx) && KING_IDX !in cardIdx && color < 5 && leftKingCount >= 0
    requires forall i :: 0 <= i < |curTypeList| ==>
               AllTriples(curTypeList[i], isSpecEat) && Listed(curTypeList[i]) <= Held(cardIdx)
    ensures BestRest(Held(cardIdx), curTypeList, |curTypeList|, leftKingCount, color, isSpecEat, finalList,
            minUseKingCount)
  {
    finalList, minUseKingCount := None, 255;
    for i := 0 to |curTypeList|
      invariant BestRest(Held(cardIdx), curTypeList, i, leftKingCount, color, isSpecEat, finalList, minUseKingCount)
    {
      var better, useKingCount := TryRest(cardIdx, curTypeList[i], leftKingCount, color, isSpecEat, minUseKingCount);
      BetterRest(Held(cardIdx), curTypeList, i, leftKingCount, color, isSpecEat, finalList, minUseKingCount, better,
        useKingCount);
      if better.Some? {
        finalList, minUseKingCount := better, useKingCount;
      }
    }
  }

  ghost function ColorTiles(hand: seq<Card>, color: nat): multiset<Card> {
    RealTiles(hand, color + 1) - RealTiles(hand, color)
  }

  /** The items of a colour that the hand holds. */
  ghost function HandItems(hand: seq<Card>, color: nat, isSpecEat: bool): seq<KindItem>
    requires color < 5
  {
    if |ColorTiles(hand, color)| < 3 then [] else FreeItems(multiset(hand), color, isSpecEat, PokerNum(color))
  }

  /** With so many wildcards at hand, a colour can be dealt with for c of them:
      first a largest choice of items that need none, then the rest. */
  ghost predicate ColorCosts(hand: seq<Card>, color: nat, kings: int, isSpecEat: bool, c: int) {
    && color < 5 && 0 <= c < 255
    && exists l :: TopChoice(ColorTiles(hand, color), HandItems(hand, color, isSpecEat), kings, l)
                   && Completes(ColorTiles(hand, color) - Listed(Pick(HandItems(hand, color, isSpecEat), l)), kings,
                      color, isSpecEat, c)
  }

  lemma CostsOfTop(hand: seq<Card>, color: nat, kings: int, isSpecEat: bool, lists: seq<seq<KindItem>>, c: int)
    requires color < 5 && 0 <= c < 255
             && AllTops(ColorTiles(hand, color), HandItems(hand, color, isSpecEat), kings, lists)
    requires RestCosts(ColorTiles(hand, color), lists, kings, color, isSpecEat, c)
    ensures ColorCosts(hand, color, kings, isSpecEat, c)
  {
    var tiles, items := ColorTiles(hand, color), HandItems(hand, color, isSpecEat);
    var i :| 0 <= i < |lists| && Completes(tiles - Listed(lists[i]), kings, color, isSpecEat, c);
    assert TopList(tiles, items, kings, lists[i]);
    var l :| TopChoice(tiles, items, kings, l) && lists[i] == Pick(items, l);
    assert Completes(tiles - Listed(Pick(items, l)), kings, color, isSpecEat, c);
  }

  lemma NoCosts(hand: seq<Card>, color: nat, kings: int, isSpecEat: bool, lists: seq<seq<KindItem>>, cost: int, c: int)
    requires color < 5 && AllTops(ColorTiles(hand, color), HandItems(hand, color, isSpecEat), kings, lists)
    requires AllNoneBelow(ColorTiles(hand, color), lists, |lists|, kings, color, isSpecEat, cost)
    requires c < cost
    ensures !ColorCosts(hand, color, kings, isSpecEat, c)
  {
    var tiles, items := ColorTiles(hand, color), HandItems(hand, color, isSpecEat);
    forall l | TopChoice(tiles, items, kings, l)
      ensures NoneBelow(tiles - Listed(Pick(items, l)), kings, color, isSpecEat, cost) {
      assert HasTiles(lists, Listed(Pick(items, l)));
      var i :| 0 <= i < |lists| && Listed(lists[i]) == Listed(Pick(items, l));
      AllNoneBelowAt(tiles, lists, |lists|, kings, color, isSpecEat, cost, i);
    }
  }

  lemma TopTriples(tiles: multiset<Card>, items: seq<KindItem>, kings: int, lists: seq<seq<KindItem>>, isSpecEat: bool)
    requires AllTriples(items, isSpecEat) && AllTops(tiles, items, kings, lists)
    ensures forall i :: 0 <= i < |lists| ==> AllTriples(lists[i], isSpecEat) && Listed(lists[i]) <= tiles
  {
    forall i | 0 <= i < |lists| ensures AllTriples(lists[i], isSpecEat) && Listed(lists[i]) <= tiles {
      assert TopList(tiles, items, kings, lists[i]);
      var l :| TopChoice(tiles, items, kings, l) && lists[i] == Pick(items, l);
      PickTriples(items, l, isSpecEat);
    }
  }

  /** What a colour costs: whether it can be dealt with, given its number and the
      wildcards at hand, for so many of them. */
  type CostTable = (int, int, int) -> bool

  ghost function Costs(hand: seq<Card>, isSpecEat: bool): CostTable {
    (color, kings, c) => color >= 0 && ColorCosts(hand, color, kings, isSpecEat, c)
  }

  ghost predicate ColorStuck(costs: CostTable, color: nat, kings: int) {
    forall c: int :: !costs(color, kings, c)
  }

  ghost predicate Cheapest(costs: CostTable, color: nat, kings: int, cost: int) {
    forall c: int :: costs(color, kings, c) ==> cost <= c
  }

  lemma LeastCost(hand: seq<Card>, color: nat, kings: int, isSpecEat: bool, lists: seq<seq<KindItem>>, cost: int)
    requires color < 5 && AllTops(ColorTiles(hand, color), HandItems(hand, color, isSpecEat), kings, lists)
    requires AllNoneBelow(ColorTiles(hand, color), lists, |lists|, kings, color, isSpecEat, cost)
    ensures Cheapest(Costs(hand, isSpecEat), color, kings, cost)
    ensures cost >= 255 ==> ColorStuck(Costs(hand, isSpecEat), color, kings)
  {
    forall c: int | c < cost ensures !Costs(hand, isSpecEat)(color, kings, c) {
      NoCosts(hand, color, kings, isSpecEat, lists, cost, c);
    }
  }

  /** The tiles of a colour and its largest free choices (lines 464-538). */
  method ColorLists(allCardIdx: Counts, color: nat, leftKingCount: int, isSpecEat: bool, ghost hand: seq<Card>)
    returns (cardIdx: Counts, curTypeList: seq<seq<KindItem>>)
    requires color < 5 && TableOf(allCardIdx, multiset(hand)) && ValidCounts(allCardIdx) && leftKingCount >= 0
    ensures ValidCounts(cardIdx) && KING_IDX !in cardIdx && Held(cardIdx) == ColorTiles(hand, color)
    ensures AllTops(ColorTiles(hand, color), HandItems(hand, color, isSpecEat), leftKingCount, curTypeList)
    ensures forall i :: 0 <= i < |curTypeList| ==>
              AllTriples(curTypeList[i], isSpecEat) && Listed(curTypeList[i]) <= Held(cardIdx)
  {
    var allNum;
    cardIdx, allNum := GetSubPokerIdx(allCardIdx, color, hand);
    assert ColorTiles(hand, color) == Held(cardIdx);
    var kindItems := CollectFreeItems(allCardIdx, allNum, color, isSpecEat, multiset(hand));
    FreeItemsLegal(multiset(hand), color, isSpecEat, PokerNum(color));
    curTypeList := LargestFree(cardIdx, allNum, kindItems, leftKingCount, isSpecEat);
    TopTriples(Held(cardIdx), kindItems, leftKingCount, curTypeList, isSpecEat);
  }

  /** One colour of the hand (lines 464-563): it is dealt with whenever that can
      be done for less than 255 wildcards after a largest free choice, and for the
      fewest of them that any such choice leads to. */
  method SolveColor(allCardIdx: Counts, color: nat, leftKingCount: int, isSpecEat: bool, ghost hand: seq<Card>)
    returns (finalList: Option<seq<KindItem>>, minUseKingCount: int)
    requires color < 5 && TableOf(allCardIdx, multiset(hand)) && ValidCounts(allCardIdx) && leftKingCount >= 0
    ensures finalList.Some? ==> 0 <= minUseKingCount <= leftKingCount
    ensures finalList.Some? ==> Decomposes(ColorTiles(hand, color), minUseKingCount, finalList.value, isSpecEat)
    ensures finalList.Some? ==> Costs(hand, isSpecEat)(color, leftKingCount, minUseKingCount)
    ensures finalList.Some? ==> Cheapest(Costs(hand, isSpecEat), color, leftKingCount, minUseKingCount)
    ensures finalList == None ==> ColorStuck(Costs(hand, isSpecEat), color, leftKingCount)
  {
    var cardIdx, curTypeList := ColorLists(allCardIdx, color, leftKingCount, isSpecEat, hand);
    finalList, minUseKingCount := CheapestRest(cardIdx, curTypeList, leftKingCount, color, isSpecEat);
    if finalList.Some? {
      CostsOfTop(hand, color, leftKingCount, isSpecEat, curTypeList, minUseKingCount);
    }
    LeastCost(hand, color, leftKingCount, isSpecEat, curTypeList, minUseKingCount);
  }

  // ----- The whole hand -----

  /** What a winning answer promises: legal items, the right number of pairs,
      every real tile of the hand accounted for, and as many tiles in all as the
      real tiles and the wildcards, rounded up to the size of a full hand. */
  ghost predicate Wins(hand: seq<Card>, kingNum: nat, huList: seq<KindItem>, isSpecEat: bool) {
    var tiles := RealTiles(hand, 5);
    var left := (|hand| + kingNum) % 3;
    Assembly.Hu(huList, tiles, if left == 2 then 1 else 0, Assembly.RoundUp(|tiles| + kingNum, left), isSpecEat)
  }

  function Sum(s: seq<int>): int {
    if s == [] then 0 else Sum(s[..|s| - 1]) + s[|s| - 1]
  }

  lemma SumSnoc(s: seq<int>, x: int)
    ensures Sum(s + [x]) == Sum(s) + x
  {
    assert (s + [x])[..|s|] == s;
  }

  ghost predicate ColorSplit(hand: seq<Card>, color: nat, use: int, list: seq<KindItem>, isSpecEat: bool) {
    Decomposes(ColorTiles(hand, color), use, list, isSpecEat)
  }

  /** Each colour in the table is split with the wildcards noted for it. */
  ghost predicate ColorsSplit(hand: seq<Card>, table: map<nat, seq<KindItem>>, used: seq<int>, isSpecEat: bool) {
    forall c: nat :: c < |used| ==> c in table && ColorSplit(hand, c, used[c], table[c], isSpecEat)
  }

  lemma ColorsSplitMore(hand: seq<Card>, table: map<nat, seq<KindItem>>, used: seq<int>, list: seq<KindItem>, use: int,
                        isSpecEat: bool)
    requires ColorsSplit(hand, table, used, isSpecEat)
    requires Decomposes(ColorTiles(hand, |used|), use, list, isSpecEat)
    ensures ColorsSplit(hand, table[|used| := list], used + [use], isSpecEat)
  {
    var table', used' := table[|used| := list], used + [use];
    forall c: nat | c < |used'| ensures c in table' && ColorSplit(hand, c, used'[c], table'[c], isSpecEat) {
      if c < |used| {
        assert used'[c] == used[c] && table'[c] == table[c] && ColorSplit(hand, c, used[c], table[c], isSpecEat);
      } else {
        assert used'[c] == use && table'[c] == list;
      }
    }
  }

  /** The list taken so far splits the first colours and accounts for the
      wildcards spent on them. */
  ghost predicate ColorsDone(hand: seq<Card>, colors: nat, spent: int, huList: seq<KindItem>, duiList: seq<KindItem>,
                             isSpecEat: bool) {
    var tiles := RealTiles(hand, colors);
    && Assembly.HuTriples(huList, isSpecEat)
    && Assembly.HuPairs(duiList)
    && tiles <= Listed(huList) + Listed(duiList)
    && 3 * |huList| + 2 * |duiList| == |tiles| + spent
  }

  ghost predicate SameTiles(hu: seq<KindItem>, dui: seq<KindItem>, hu0: seq<KindItem>, dui0: seq<KindItem>,
                            added: seq<KindItem>) {
    Listed(hu) + Listed(dui) == Listed(hu0) + Listed(dui0) + Listed(added)
  }

  lemma AddBoth(a: multiset<Card>, b: multiset<Card>, c: multiset<Card>, d: multiset<Card>, x: multiset<Card>)
    requires a + b == c + d
    ensures (a + x) + b == c + (d + x) && a + (b + x) == c + (d + x)
  {
    assert (a + x) + b == (a + b) + x;
    assert a + (b + x) == (a + b) + x;
  }

  lemma SameTilesStep(hu: seq<KindItem>, dui: seq<KindItem>, hu0: seq<KindItem>, dui0: seq<KindItem>,
                      added: seq<KindItem>, v: KindItem)
    requires SameTiles(hu, dui, hu0, dui0, added)
    ensures SameTiles(hu + [v], dui, hu0, dui0, added + [v])
    ensures SameTiles(hu, dui + [v], hu0, dui0, added + [v])
  {
    ListedSnoc(hu, v);
    ListedSnoc(dui, v);
    ListedSnoc(added, v);
    AddBoth(Listed(hu), Listed(dui), Listed(hu0) + Listed(dui0), Listed(added), multiset(v.cardIdx));
  }

  /** Sorts the items of one colour into triples and pairs (lines 569-575). */
  method SplitPairs(list: seq<KindItem>, huList0: seq<KindItem>, duiList0: seq<KindItem>, ghost isSpecEat: bool)
    returns (huList: seq<KindItem>, leftDuiList: seq<KindItem>)
    requires AllLegal(list, isSpecEat)
    requires Assembly.HuTriples(huList0, isSpecEat) && Assembly.HuPairs(duiList0)
    ensures Assembly.HuTriples(huList, isSpecEat) && Assembly.HuPairs(leftDuiList)
    ensures SameTiles(huList, leftDuiList, huList0, duiList0, list) && |leftDuiList| == |duiList0| + PairCount(list)
  {
    huList, leftDuiList := huList0, duiList0;
    for i := 0 to |list|
      invariant |leftDuiList| == |duiList0| + PairCount(list[..i])
      invariant Assembly.HuTriples(huList, isSpecEat) && Assembly.HuPairs(leftDuiList)
      invariant SameTiles(huList, leftDuiList, huList0, duiList0, list[..i])
    {
      var v := list[i];
      Sequences.SplitAt(list, i);
      PairCountConcat(list[..i], [v]);
      SameTilesStep(huList, leftDuiList, huList0, duiList0, list[..i], v);
      assert LegalItem(v, isSpecEat);
      if v.kindType != Dui {
        Assembly.TriplesSnoc(huList, v, isSpecEat);
        huList := huList + [v];
      } else {
        leftDuiList := leftDuiList + [v];
      }
    }
    Sequences.Whole(list);
  }

  lemma SameSizes(hu: seq<KindItem>, dui: seq<KindItem>, hu0: seq<KindItem>, dui0: seq<KindItem>, added: seq<KindItem>,
                  isSpecEat: bool)
    requires SameTiles(hu, dui, hu0, dui0, added)
    requires Assembly.HuTriples(hu, isSpecEat) && Assembly.HuPairs(dui)
    requires Assembly.HuTriples(hu0, isSpecEat) && Assembly.HuPairs(dui0)
    ensures 3 * |hu| + 2 * |dui| == 3 * |hu0| + 2 * |dui0| + |Listed(added)|
  {
    Assembly.TripleSizes(hu, isSpecEat);
    Assembly.TripleSizes(hu0, isSpecEat);
    Assembly.PairSizes(dui);
    Assembly.PairSizes(dui0);
    assert |Listed(hu) + Listed(dui)| == |Listed(hu0) + Listed(dui0) + Listed(added)|;
  }

  lemma ColorTilesAdd(hand: seq<Card>, color: nat)
    ensures RealTiles(hand, color + 1) == RealTiles(hand, color) + ColorTiles(hand, color)
    ensures |RealTiles(hand, color + 1)| == |RealTiles(hand, color)| + |ColorTiles(hand, color)|
  {
    var a, b := RealTiles(hand, color), RealTiles(hand, color + 1);
    assert a <= b;
    CardSub(a, b);
  }

  /** Whether a pair is left when a colour is dealt with for so many
      wildcards. */
  ghost function PairOfColor(hand: seq<Card>, color: nat, used: int): nat {
    if (|ColorTiles(hand, color)| + used) % 3 == 2 then 1 else 0
  }

  /** The pairs that the colours leave. */
  ghost function PairColors(hand: seq<Card>, used: seq<int>): nat {
    if used == [] then 0 else PairColors(hand, used[..|used| - 1]) + PairOfColor(hand, |used| - 1, used[|used| - 1])
  }

  /** The wildcards are spent colour after colour, each colour with those that
      the earlier ones left over, and with as few of them as it can. */
  ghost predicate Spent(costs: CostTable, kingNum: nat, used: seq<int>) {
    used == [] ||
    (var init, c := used[..|used| - 1], |used| - 1;
     Spent(costs, kingNum, init) && costs(c, kingNum - Sum(init), used[c])
       && Cheapest(costs, c, kingNum - Sum(init), used[c]))
  }

  lemma {:induction false} SpentMore(costs: CostTable, kingNum: nat, used: seq<int>, use: int)
    requires Spent(costs, kingNum, used) && costs(|used|, kingNum - Sum(used), use)
    requires Cheapest(costs, |used|, kingNum - Sum(used), use)
    ensures Spent(costs, kingNum, used + [use])
  {
    assert (used + [use])[..|used|] == used;
  }

  ghost predicate SpentSoFar(costs: CostTable, kingNum: nat, used: seq<int>, left: int) {
    0 <= left == kingNum - Sum(used) <= kingNum && Spent(costs, kingNum, used)
  }

  lemma {:induction false} SpentOn(costs: CostTable, kingNum: nat, used: seq<int>, left: int, use: int)
    requires SpentSoFar(costs, kingNum, used, left) && 0 <= use <= left
    requires costs(|used|, left, use) && Cheapest(costs, |used|, left, use)
    ensures SpentSoFar(costs, kingNum, used + [use], left - use)
  {
    SumSnoc(used, use);
    SpentMore(costs, kingNum, used, use);
  }

  ghost predicate Fails(hand: seq<Card>, costs: CostTable, kingNum: nat, used: seq<int>) {
    var left := kingNum - Sum(used);
    if |used| < 5 then ColorStuck(costs, |used|, left)
    else PairColors(hand, used) > left + if (|hand| + kingNum) % 3 == 2 then 1 else 0
  }

  /** Why there is no winning hand: the wildcards spent on the first colours leave
      too few to deal with the next one, or all colours are dealt with and leave
      more pairs than the remaining wildcards can fill up. */
  ghost predicate Loses(hand: seq<Card>, kingNum: nat, isSpecEat: bool) {
    exists used: seq<int> ::
      |used| <= 5 && Spent(Costs(hand, isSpecEat), kingNum, used) && Fails(hand, Costs(hand, isSpecEat), kingNum, used)
  }

  /** What is spent on the first colours is settled by the hand. */
  lemma {:induction false} SpentOnce(costs: CostTable, kingNum: nat, a: seq<int>, b: seq<int>)
    requires Spent(costs, kingNum, a) && Spent(costs, kingNum, b) && |a| <= |b|
    ensures a == b[..|a|]
    decreases |b|
  {
    if |a| < |b| {
      SpentOnce(costs, kingNum, a, b[..|b| - 1]);
      assert b[..|b| - 1][..|a|] == b[..|a|];
    } else if a != [] {
      var a', b' := a[..|a| - 1], b[..|b| - 1];
      SpentOnce(costs, kingNum, a', b');
      assert b'[..|a'|] == b';
      assert a == a' + [a[|a| - 1]] && b == b' + [b[|b| - 1]];
      assert b[..|a|] == b;
    }
  }

  /** What is spent on the first n colours is not enough to be stuck there when
      more colours follow. */
  lemma {:induction false} SpentBefore(costs: CostTable, kingNum: nat, used: seq<int>, n: nat)
    requires Spent(costs, kingNum, used) && n < |used|
    ensures !ColorStuck(costs, n, kingNum - Sum(used[..n]))
  {
    if n < |used| - 1 {
      SpentBefore(costs, kingNum, used[..|used| - 1], n);
      assert used[..|used| - 1][..n] == used[..n];
    }
  }

  lemma NoOtherReason(hand: seq<Card>, costs: CostTable, kingNum: nat, used: seq<int>, other: seq<int>)
    requires |used| == 5 && Spent(costs, kingNum, used) && !Fails(hand, costs, kingNum, used)
    requires |other| <= 5 && Spent(costs, kingNum, other)
    ensures !Fails(hand, costs, kingNum, other)
  {
    SpentOnce(costs, kingNum, other, used);
    if |other| < 5 {
      SpentBefore(costs, kingNum, used, |other|);
    } else {
      assert other == used;
    }
  }

  /** A hand whose colours are all dealt with, and leave few enough pairs, has no
      reason to lose. */
  lemma NoReason(hand: seq<Card>, kingNum: nat, isSpecEat: bool, used: seq<int>)
    requires |used| == 5 && Spent(Costs(hand, isSpecEat), kingNum, used)
             && !Fails(hand, Costs(hand, isSpecEat), kingNum, used)
    ensures !Loses(hand, kingNum, isSpecEat)
  {
    forall other: seq<int> | |other| <= 5 && Spent(Costs(hand, isSpecEat), kingNum, other)
      ensures !Fails(hand, Costs(hand, isSpecEat), kingNum, other)
    {
      NoOtherReason(hand, Costs(hand, isSpecEat), kingNum, used, other);
    }
  }

  lemma PairModulo(h: int, h0: int, d: int, d0: int, size: int, pairs: int)
    requires 3 * h + 2 * d == 3 * h0 + 2 * d0 + size && d == d0 + pairs && 0 <= pairs <= 1
    ensures pairs == if size % 3 == 2 then 1 else 0
  {
  }

  lemma {:induction false} ColorAdded(hand: seq<Card>, color: nat, spent: int, list: seq<KindItem>, used: int,
                   hu0: seq<KindItem>, dui0: seq<KindItem>, hu: seq<KindItem>, dui: seq<KindItem>, isSpecEat: bool)
    requires ColorsDone(hand, color, spent, hu0, dui0, isSpecEat)
    requires Decomposes(ColorTiles(hand, color), used, list, isSpecEat)
    requires Assembly.HuTriples(hu, isSpecEat) && Assembly.HuPairs(dui)
    requires SameTiles(hu, dui, hu0, dui0, list) && |dui| == |dui0| + PairCount(list)
    ensures ColorsDone(hand, color + 1, spent + used, hu, dui, isSpecEat)
    ensures |dui| == |dui0| + PairOfColor(hand, color, used)
  {
    ColorTilesAdd(hand, color);
    SameSizes(hu, dui, hu0, dui0, list, isSpecEat);
    PairModulo(|hu|, |hu0|, |dui|, |dui0|, |Listed(list)|, PairCount(list));
  }

  lemma StuckFails(hand: seq<Card>, costs: CostTable, kingNum: nat, used: seq<int>, left: int)
    requires |used| < 5 && left == kingNum - Sum(used)
    ensures ColorStuck(costs, |used|, left) ==> Fails(hand, costs, kingNum, used)
  {
  }

  /** The next colour, with the wildcards that the earlier ones left over. */
  method SplitNext(pokerList: seq<Card>, allCardIdx: Counts, ghost kingNum: nat, isSpecEat: bool,
                   color: nat, table0: map<nat, seq<KindItem>>, left0: int, ghost used0: seq<int>)
    returns (ok: bool, table: map<nat, seq<KindItem>>, leftKingCount: int, ghost used: seq<int>)
    requires TableOf(allCardIdx, multiset(pokerList)) && |used0| == color < 5
    requires SpentSoFar(Costs(pokerList, isSpecEat), kingNum, used0, left0)
             && ColorsSplit(pokerList, table0, used0, isSpecEat)
    ensures ok ==> |used| == color + 1 && SpentSoFar(Costs(pokerList, isSpecEat), kingNum, used, leftKingCount)
    ensures ok ==> ColorsSplit(pokerList, table, used, isSpecEat)
    ensures !ok ==> used == used0 && Fails(pokerList, Costs(pokerList, isSpecEat), kingNum, used)
  {
    ok, table, leftKingCount, used := false, table0, left0, used0;
    var finalList, minUseKingCount := SolveColor(allCardIdx, color, leftKingCount, isSpecEat, pokerList);
    if finalList == None {
      StuckFails(pokerList, Costs(pokerList, isSpecEat), kingNum, used, leftKingCount);
    } else {
      SpentOn(Costs(pokerList, isSpecEat), kingNum, used, leftKingCount, minUseKingCount);
      ColorsSplitMore(pokerList, table, used, finalList.value, minUseKingCount, isSpecEat);
      used := used + [minUseKingCount];
      leftKingCount := leftKingCount - minUseKingCount;
      table := table[color := finalList.value];
      ok := true;
    }
  }

  /** Splits the colours one after another, each with the wildcards the earlier
      ones left over (lines 463-564). */
  method SplitColors(pokerList: seq<Card>, allCardIdx: Counts, kingNum: nat, isSpecEat: bool)
    returns (combineTypeTable: Option<map<nat, seq<KindItem>>>, leftKingCount: int, ghost used: seq<int>)
    requires TableOf(allCardIdx, multiset(pokerList))
    ensures combineTypeTable.Some? ==>
              |used| == 5 && ColorsSplit(pokerList, combineTypeTable.value, used, isSpecEat)
    ensures combineTypeTable.Some? ==> SpentSoFar(Costs(pokerList, isSpecEat), kingNum, used, leftKingCount)
    ensures combineTypeTable == None ==>
              |used| < 5 && Spent(Costs(pokerList, isSpecEat), kingNum, used)
                && Fails(pokerList, Costs(pokerList, isSpecEat), kingNum, used)
  {
    leftKingCount, used := kingNum, [];
    var table: map<nat, seq<KindItem>> := map[];
    for color := 0 to 5
      invariant |used| == color && SpentSoFar(Costs(pokerList, isSpecEat), kingNum, used, leftKingCount)
      invariant ColorsSplit(pokerList, table, used, isSpecEat)
    {
      var ok;
      ok, table, leftKingCount, used :=
        SplitNext(pokerList, allCardIdx, kingNum, isSpecEat, color, table, leftKingCount, used);
      if !ok {
        return None, leftKingCount, used;
      }
    }
    combineTypeTable := Some(table);
  }

  /** Gathers the triples and the pairs of one colour. */
  method GatherColor(ghost pokerList: seq<Card>, ghost color: nat, list: seq<KindItem>, ghost spent: int,
                     ghost use: int,
                     huList0: seq<KindItem>, duiList0: seq<KindItem>, ghost isSpecEat: bool)
    returns (huList: seq<KindItem>, leftDuiList: seq<KindItem>)
    requires ColorsDone(pokerList, color, spent, huList0, duiList0, isSpecEat)
             && ColorSplit(pokerList, color, use, list, isSpecEat)
    ensures ColorsDone(pokerList, color + 1, spent + use, huList, leftDuiList, isSpecEat)
    ensures |leftDuiList| == |duiList0| + PairOfColor(pokerList, color, use)
  {
    huList, leftDuiList := SplitPairs(list, huList0, duiList0, isSpecEat);
    ColorAdded(pokerList, color, spent, list, use, huList0, duiList0, huList, leftDuiList, isSpecEat);
  }

  lemma SumNext(hand: seq<Card>, used: seq<int>, i: nat)
    requires i < |used|
    ensures Sum(used[..i + 1]) == Sum(used[..i]) + used[i]
    ensures PairColors(hand, used[..i + 1]) == PairColors(hand, used[..i]) + PairOfColor(hand, i, used[i])
  {
    assert used[..i + 1][..i] == used[..i];
  }

  /** Gathers the triples and the pairs of all colours (lines 566-576). */
  method GatherItems(ghost pokerList: seq<Card>, combineTypeTable: map<nat, seq<KindItem>>, ghost used: seq<int>,
                     ghost isSpecEat: bool)
    returns (huList: seq<KindItem>, leftDuiList: seq<KindItem>)
    requires |used| == 5 && ColorsSplit(pokerList, combineTypeTable, used, isSpecEat)
    ensures ColorsDone(pokerList, 5, Sum(used), huList, leftDuiList, isSpecEat)
    ensures |leftDuiList| == PairColors(pokerList, used)
  {
    huList, leftDuiList := [], [];
    RealTilesSize(pokerList, 0);
    for i := 0 to 5
      invariant |leftDuiList| == PairColors(pokerList, used[..i])
      invariant ColorsDone(pokerList, i, Sum(used[..i]), huList, leftDuiList, isSpecEat)
    {
      huList, leftDuiList := GatherColor(pokerList, i, combineTypeTable[i], Sum(used[..i]), used[i], huList,
        leftDuiList, isSpecEat);
      SumNext(pokerList, used, i);
    }
    Sequences.Whole(used);
  }

  /** Turns pairs and spare wildcards into the rest of the hand (lines 578-665). */
  method FinishHand(ghost pokerList: seq<Card>, ghost kingNum: nat, checkCanFull: bool, huList: seq<KindItem>,
                    leftDuiList: seq<KindItem>,
                    leftKingCount: int, kingPoker: Card, ghost isSpecEat: bool)
    returns (r: Option<(bool, seq<KindItem>, seq<int>)>)
    requires leftKingCount >= 0 && ColorsDone(pokerList, 5, kingNum - leftKingCount, huList, leftDuiList, isSpecEat)
    requires (|pokerList| + kingNum) % 3 == if checkCanFull then 0 else 2
    ensures r.Some? ==> r.value.0 && r.value.2 == [] && Wins(pokerList, kingNum, r.value.1, isSpecEat)
    ensures r == None <==> |leftDuiList| > leftKingCount + if checkCanFull then 0 else 1
  {
    ghost var tiles := RealTiles(pokerList, 5);
    assert Assembly.SumOf(huList, leftDuiList, leftKingCount) == |tiles| + kingNum;
    if checkCanFull {
      if leftKingCount >= |leftDuiList| {
        var list := Assembly.FinishFull(huList, leftDuiList, leftKingCount, kingPoker, tiles, isSpecEat);
        assert Wins(pokerList, kingNum, list, isSpecEat);
        return Some((true, list, []));
      }
    } else {
      if leftKingCount + 1 >= |leftDuiList| {
        var list := Assembly.FinishWithPair(huList, leftDuiList, leftKingCount, kingPoker, tiles, isSpecEat);
        assert Wins(pokerList, kingNum, list, isSpecEat);
        return Some((true, list, []));
      }
    }
    r := None;
  }

  /** Decides whether the hand, with `kingNum` wildcards, wins. Whenever it
      answers with a list, the list is a winning hand made of the tiles and the
      wildcards; and it answers with one exactly when there is no reason to
      lose. */
  method CheckCanHu(pokerList: seq<Card>, kingNum: nat, kingPoker: Card, isSpecEat: bool)
    returns (r: Option<(bool, seq<KindItem>, seq<int>)>)
    ensures r.Some? ==> r.value.0 && r.value.2 == [] && Wins(pokerList, kingNum, r.value.1, isSpecEat)
    ensures (|pokerList| + kingNum) % 3 == 1 ==> r == None
    ensures (|pokerList| + kingNum) % 3 != 1 ==> (r == None <==> Loses(pokerList, kingNum, isSpecEat))
  {
    var left := (|pokerList| + kingNum) % 3;
    if left != 0 && left != 2 {
      return None;
    }
    var checkCanFull := left == 0;
    var allCardIdx := CountPokers(pokerList);
    var combineTypeTable, leftKingCount;
    ghost var used;
    combineTypeTable, leftKingCount, used := SplitColors(pokerList, allCardIdx, kingNum, isSpecEat);
    if combineTypeTable == None {
      return None;
    }
    var huList, leftDuiList := GatherItems(pokerList, combineTypeTable.value, used, isSpecEat);
    r := FinishHand(pokerList, kingNum, checkCanFull, huList, leftDuiList, leftKingCount, kingPoker, isSpecEat);
    if r.Some? {
      NoReason(pokerList, kingNum, isSpecEat, used);
    }
  }

  lemma RoundUpFakes(len: nat, known: nat, kings: nat, size: int)
    requires known <= len && size == Assembly.RoundUp(known + kings, (len + kings) % 3)
    ensures size == known + kings + (len - known) % 3
    ensures size == len + kings <==> len - known < 3
  {
    var left := (len + kings) % 3;
    assert (left - (known + kings)) % 3 == (len - known) % 3;
  }

  /** How many tiles a winning list has: codes that are no tile count modulo
      three, so it is as many as the hand and its wildcards exactly when the
      hand has fewer than three such codes. */
  lemma WinSize(hand: seq<Card>, kingNum: nat, huList: seq<KindItem>, isSpecEat: bool)
    requires Wins(hand, kingNum, huList, isSpecEat)
    ensures var fakes := |hand| - |RealTiles(hand, 5)|;
            && fakes >= 0
            && |Listed(huList)| == |hand| + kingNum - fakes + fakes % 3
            && (|Listed(huList)| == |hand| + kingNum <==> fakes < 3)
  {
    RealTilesSize(hand, 5);
    RoundUpFakes(|hand|, |RealTiles(hand, 5)|, kingNum, |Listed(huList)|);
  }

  lemma SizesOfWin(hand: seq<Card>, tiles: multiset<Card>, listed: multiset<Card>)
    requires tiles == multiset(hand) && tiles <= listed
    ensures |listed - multiset(hand)| == |listed| - |hand| && |tiles| == |hand|
  {
    CardSub(tiles, listed);
  }

  /** On a hand of real tiles nothing is lost and nothing is added but the
      wildcards. */
  lemma WinOfRealTiles(hand: seq<Card>, kingNum: nat, huList: seq<KindItem>, isSpecEat: bool)
    requires Wins(hand, kingNum, huList, isSpecEat)
    requires forall i :: 0 <= i < |hand| ==> RealTile(hand[i])
    ensures multiset(hand) <= Listed(huList) && |Listed(huList)| == |hand| + kingNum
    ensures |Listed(huList) - multiset(hand)| == kingNum
  {
    AllTilesReal(hand);
    WinSize(hand, kingNum, huList, isSpecEat);
    SizesOfWin(hand, RealTiles(hand, 5), Listed(huList));
  }

  // ----- When there is no reason to lose -----

  lemma RealTilesGrow(hand: seq<Card>, m: nat, n: nat)
    requires m <= n
    ensures RealTiles(hand, m) <= RealTiles(hand, n)
  {
  }

  lemma NoTilesNoColor(hand: seq<Card>, color: nat)
    requires RealTiles(hand, 5) == multiset{} && color < 5
    ensures ColorTiles(hand, color) == multiset{}
  {
    RealTilesGrow(hand, color + 1, 5);
  }

  lemma OnlyEmptyChoice(tiles: multiset<Card>, l: seq<nat>)
    requires tiles == multiset{} && FreeChoice(tiles, [], l)
    ensures l == [] && tiles - Listed(Pick([], l)) == multiset{}
  {
    Combine.SubsetSize(l, 0);
  }

  /** A colour without tiles costs nothing, and nothing but that. */
  lemma EmptyColorCosts(hand: seq<Card>, color: nat, kings: int, isSpecEat: bool, c: int)
    requires color < 5 && ColorTiles(hand, color) == multiset{} && kings >= 0
    ensures ColorCosts(hand, color, kings, isSpecEat, c) <==> c == 0
  {
    var tiles, items := ColorTiles(hand, color), HandItems(hand, color, isSpecEat);
    assert items == [] && FreeChoice(tiles, items, []);
    forall k | FreeChoice(tiles, items, k) ensures |k| <= 0 { OnlyEmptyChoice(tiles, k); }
    assert TopChoice(tiles, items, kings, []);
    OnlyEmptyChoice(tiles, []);
    if ColorCosts(hand, color, kings, isSpecEat, c) {
      var l :| TopChoice(tiles, items, kings, l)
        && Completes(tiles - Listed(Pick(items, l)), kings, color, isSpecEat, c);
      OnlyEmptyChoice(tiles, l);
    }
  }

  lemma {:induction false} NothingSpent(costs: CostTable, kingNum: nat, used: seq<int>)
    requires |used| <= 5 && Spent(costs, kingNum, used)
    requires forall color, c :: 0 <= color < 5 && costs(color, kingNum, c) ==> c == 0
    ensures Sum(used) == 0 && forall i :: 0 <= i < |used| ==> used[i] == 0
  {
    if used != [] {
      NothingSpent(costs, kingNum, used[..|used| - 1]);
    }
  }

  lemma {:induction false} NoPairsLeft(hand: seq<Card>, used: seq<int>)
    requires RealTiles(hand, 5) == multiset{} && |used| <= 5 && forall i :: 0 <= i < |used| ==> used[i] == 0
    ensures PairColors(hand, used) == 0
  {
    if used != [] {
      NoPairsLeft(hand, used[..|used| - 1]);
      NoTilesNoColor(hand, |used| - 1);
    }
  }

  lemma EmptyCosts(hand: seq<Card>, kingNum: nat, isSpecEat: bool)
    requires RealTiles(hand, 5) == multiset{}
    ensures forall color, c :: 0 <= color < 5 ==> (Costs(hand, isSpecEat)(color, kingNum, c) <==> c == 0)
  {
    forall color, c | 0 <= color < 5 ensures Costs(hand, isSpecEat)(color, kingNum, c) <==> c == 0 {
      NoTilesNoColor(hand, color);
      EmptyColorCosts(hand, color, kingNum, isSpecEat, c);
    }
  }

  lemma NeverFails(hand: seq<Card>, costs: CostTable, kingNum: nat, used: seq<int>)
    requires RealTiles(hand, 5) == multiset{} && |used| <= 5 && Spent(costs, kingNum, used)
    requires forall color, c :: 0 <= color < 5 ==> (costs(color, kingNum, c) <==> c == 0)
    ensures !Fails(hand, costs, kingNum, used)
  {
    NothingSpent(costs, kingNum, used);
    NoPairsLeft(hand, used);
    assert |used| < 5 ==> costs(|used|, kingNum, 0);
  }

  /** Wildcards alone, of a number that makes a full hand, never lose. */
  lemma WildcardsWin(hand: seq<Card>, kingNum: nat, isSpecEat: bool)
    requires RealTiles(hand, 5) == multiset{}
    ensures !Loses(hand, kingNum, isSpecEat)
  {
    EmptyCosts(hand, kingNum, isSpecEat);
    var costs := Costs(hand, isSpecEat);
    forall used: seq<int> ensures !(|used| <= 5 && Spent(costs, kingNum, used) && Fails(hand, costs, kingNum, used)) {
      if |used| <= 5 && Spent(costs, kingNum, used) {
        NeverFails(hand, costs, kingNum, used);
      }
    }
  }

  lemma NoRealTiles(hand: seq<Card>)
    requires forall i :: 0 <= i < |hand| ==> !RealTile(hand[i])
    ensures RealTiles(hand, 5) == multiset{}
  {
    forall c: Card ensures RealTiles(hand, 5)[c] == 0 { assert RealTile(c) ==> c !in hand; }
  }

  /** Three codes that are no tile win by themselves, with a list of no tiles. */
  lemma ThreeFakesWin(huList: seq<KindItem>, isSpecEat: bool)
    ensures !Loses([0, 0, 0], 0, isSpecEat)
    ensures Wins([0, 0, 0], 0, huList, isSpecEat) ==> |Listed(huList)| == 0
  {
    var hand: seq<Card> := [0, 0, 0];
    NoRealTiles(hand);
    if Wins(hand, 0, huList, isSpecEat) {
      WinSize(hand, 0, huList, isSpecEat);
    }
    WildcardsWin(hand, 0, isSpecEat);
  }
}
