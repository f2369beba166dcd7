/** `check_can_hu` of src/game/majiang.rs without wildcards: it finds a winning
    hand whenever there is one that has no triple of one tile twice. */
module Completeness {
  import opened Tiles
  import opened KingSearch
  import opened HuCheck
  import opened SearchBounds
  import Assembly
  import Combine

  // ----- Triples of one tile -----

  predicate IsPeng(item: KindItem, c: Card) {
    item.kindType == Peng && item.cardIdx == [c, c, c]
  }

  /** How many triples of a tile are in a list. */
  function Pengs(list: seq<KindItem>, c: Card): nat {
    if list == [] then 0 else Pengs(list[..|list| - 1], c) + if IsPeng(list[|list| - 1], c) then 1 else 0
  }

  /** No tile has two triples of its own. */
  ghost predicate PengsOnce(list: seq<KindItem>) {
    forall c: Card :: Pengs(list, c) <= 1
  }

  lemma {:induction false} PengsHeld(list: seq<KindItem>, c: Card)
    ensures 3 * Pengs(list, c) <= Listed(list)[c]
  {
    if list != [] {
      PengsHeld(list[..|list| - 1], c);
      assert multiset([c, c, c])[c] == 3;
    }
  }

  lemma PengsLast(list: seq<KindItem>, x: KindItem, c: Card)
    ensures Pengs(list + [x], c) == Pengs(list, c) + if IsPeng(x, c) then 1 else 0
  {
    assert (list + [x])[..|list|] == list;
  }

  lemma {:induction false} PengsConcat(a: seq<KindItem>, b: seq<KindItem>, c: Card)
    ensures Pengs(a + b, c) == Pengs(a, c) + Pengs(b, c)
  {
    if b == [] {
      assert a + b == a;
    } else {
      var init := b[..|b| - 1];
      assert a + b == (a + init) + [b[|b| - 1]];
      PengsConcat(a, init, c);
      PengsLast(a + init, b[|b| - 1], c);
    }
  }

  lemma LastPengs(items: seq<KindItem>, l: seq<nat>, n: nat, c: Card)
    requires |items| == n + 1 && Combine.Subset(l, n + 1, |l|) && l != [] && l[|l| - 1] == n
    ensures Combine.Subset(l[..|l| - 1], n, |l| - 1)
    ensures Pengs(Pick(items, l), c) == Pengs(Pick(items[..n], l[..|l| - 1]), c) + if IsPeng(items[n], c) then 1 else 0
  {
    var l' := l[..|l| - 1];
    assert l == l' + [n];
    PickMore(items, l', n);
    PickFront(items, l', n);
    PengsLast(Pick(items, l'), items[n], c);
  }

  lemma {:induction false} PickPengs(items: seq<KindItem>, l: seq<nat>, c: Card)
    requires Combine.Subset(l, |items|, |l|)
    ensures Pengs(Pick(items, l), c) <= Pengs(items, c)
    decreases |items|
  {
    if items != [] {
      var n := |items| - 1;
      if l != [] && l[|l| - 1] == n {
        LastPengs(items, l, n, c);
        PickPengs(items[..n], l[..|l| - 1], c);
      } else {
        LastNotChosen(items, l, n);
        PickPengs(items[..n], l, c);
      }
    }
  }

  // ----- The items that the hand holds -----

  lemma {:induction false} CopiesNoPengs(item: KindItem, c1: nat, c2: nat, c3: nat, c: Card)
    requires item.kindType != Peng
    ensures Pengs(Copies(item, c1, c2, c3), c) == 0
  {
    if c1 > 0 && c2 > 0 && c3 > 0 {
      CopiesNoPengs(item, c1 - 1, c2 - 1, c3 - 1, c);
      PengsConcat([item], Copies(item, c1 - 1, c2 - 1, c3 - 1), c);
      PengsLast([], item, c);
      assert [] + [item] == [item];
    }
  }

  lemma {:induction false} EatsNoPengs(hand: multiset<Card>, eats: seq<seq<Card>>, c: Card)
    requires forall i :: 0 <= i < |eats| ==> |eats[i]| == 3
    ensures Pengs(FreeEats(hand, eats), c) == 0
  {
    if eats != [] {
      var init, eat := eats[..|eats| - 1], eats[|eats| - 1];
      var item := NewByData(eat[0], eat[1], eat[2], Chi);
      EatsNoPengs(hand, init, c);
      CopiesNoPengs(item, hand[eat[0]], hand[eat[1]], hand[eat[2]], c);
      PengsConcat(FreeEats(hand, init), Copies(item, hand[eat[0]], hand[eat[1]], hand[eat[2]]), c);
    }
  }

  lemma FreeAtPengs(hand: multiset<Card>, card: Card, eats: seq<seq<Card>>, c: Card)
    requires forall i :: 0 <= i < |eats| ==> |eats[i]| == 3
    ensures Pengs(FreeAt(hand, card, eats), c) <= if c == card then 1 else 0
  {
    EatsNoPengs(hand, eats, c);
    PengsConcat(FreePeng(hand, card), FreeEats(hand, eats), c);
    PengsLast([], NewByData(card, card, card, Peng), c);
    assert [] + [NewByData(card, card, card, Peng)] == [NewByData(card, card, card, Peng)];
  }

  lemma ItemsAtPengs(hand: multiset<Card>, color: nat, isSpecEat: bool, idx: nat, c: Card)
    requires color < 5 && 1 <= idx < PokerNum(color)
    ensures Pengs(ItemsAt(hand, color, isSpecEat, idx), c) <= if c == 16 * color + idx then 1 else 0
  {
    FreeAtPengs(hand, TileCode(color, idx), CanEat(color, idx, isSpecEat), c);
  }

  /** The free items have one triple of each tile at most. */
  lemma {:induction false} FreeItemsPengs(hand: multiset<Card>, color: nat, isSpecEat: bool, rank: nat, c: Card)
    requires color < 5 && rank <= PokerNum(color)
    ensures Pengs(FreeItems(hand, color, isSpecEat, rank), c) <= 1
    ensures c >= 16 * color + rank ==> Pengs(FreeItems(hand, color, isSpecEat, rank), c) == 0
  {
    if rank > 1 {
      FreeItemsPengs(hand, color, isSpecEat, rank - 1, c);
      ItemsAtPengs(hand, color, isSpecEat, rank - 1, c);
      FreeItemsNext(hand, color, isSpecEat, rank - 1);
      PengsConcat(FreeItems(hand, color, isSpecEat, rank - 1), ItemsAt(hand, color, isSpecEat, rank - 1), c);
    }
  }

  lemma ChosenOnce(hand: seq<Card>, color: nat, isSpecEat: bool, l: seq<nat>)
    requires color < 5 && Combine.Subset(l, |HandItems(hand, color, isSpecEat)|, |l|)
    ensures PengsOnce(Pick(HandItems(hand, color, isSpecEat), l))
  {
    forall c: Card ensures Pengs(Pick(HandItems(hand, color, isSpecEat), l), c) <= 1 {
      PickPengs(HandItems(hand, color, isSpecEat), l, c);
      FreeItemsPengs(multiset(hand), color, isSpecEat, PokerNum(color), c);
    }
  }

  // ----- What a colour costs -----

  /** A free choice that leaves nothing or a pair. */
  ghost predicate LeavesPair(tiles: multiset<Card>, items: seq<KindItem>, l: seq<nat>) {
    FreeChoice(tiles, items, l) && Finishable(tiles - Listed(Pick(items, l)), 0)
  }

  lemma FinishableSize(rest: multiset<Card>)
    requires Finishable(rest, 0)
    ensures |rest| == 0 || |rest| == 2
  {
    assert forall c: Card :: |multiset{c, c}| == 2;
  }

  /** Such a choice is a largest one. */
  lemma PairIsTop(tiles: multiset<Card>, items: seq<KindItem>, isSpecEat: bool, l: seq<nat>)
    requires AllTriples(items, isSpecEat) && LeavesPair(tiles, items, l)
    ensures TopChoice(tiles, items, 0, l)
  {
    FinishableSize(tiles - Listed(Pick(items, l)));
    forall k | FreeChoice(tiles, items, k) ensures 3 * |k| + |tiles - Listed(Pick(items, k))| == |tiles| {
      PickTriples(items, k, isSpecEat);
      TriplesSize(Pick(items, k), isSpecEat);
      CardSub(Listed(Pick(items, k)), tiles);
    }
  }

  lemma PairCompletes(rest: multiset<Card>, color: nat, isSpecEat: bool)
    requires color < 5 && Finishable(rest, 0)
    ensures Completes(rest, 0, color, isSpecEat, 0)
  {
    FinishableSize(rest);
    if rest != multiset{} {
      var h := SearchedHand(rest, 0, color, isSpecEat);
      NoItems(h);
      assert Candidate(h, []) && Pick(h.items, []) == [];
    }
  }

  /** With no wildcards the rest has to be nothing or a pair. */
  lemma CompletesPair(hand: seq<Card>, color: nat, isSpecEat: bool, l: seq<nat>, c: int)
    requires color < 5 && Largest(ColorTiles(hand, color), HandItems(hand, color, isSpecEat), l)
    requires Completes(ColorTiles(hand, color) - Listed(Pick(HandItems(hand, color, isSpecEat), l)), 0, color,
             isSpecEat, c)
    ensures c == 0 && LeavesPair(ColorTiles(hand, color), HandItems(hand, color, isSpecEat), l)
  {
    var rest := ColorTiles(hand, color) - Listed(Pick(HandItems(hand, color, isSpecEat), l));
    if rest != multiset{} {
      var h := SearchedHand(rest, 0, color, isSpecEat);
      var k :| Candidate(h, k) && c == CostOf(h, Pick(h.items, k));
      SearchedLegal(rest, 0, color, isSpecEat);
      RestNoneFree(hand, color, 0, isSpecEat, l);
      PickTriples(h.items, k, isSpecEat);
      PickNoneFree(rest, h.items, k);
      PassingSize(h, Pick(h.items, k), isSpecEat);
      assert k == [] && Pick(h.items, k) == [];
      NoItems(h);
    }
  }

  lemma FreeCosts(hand: seq<Card>, color: nat, isSpecEat: bool, c: int)
    requires color < 5
    ensures ColorCosts(hand, color, 0, isSpecEat, c) <==>
            c == 0 && exists l :: LeavesPair(ColorTiles(hand, color), HandItems(hand, color, isSpecEat), l)
  {
    var tiles, items := ColorTiles(hand, color), HandItems(hand, color, isSpecEat);
    if ColorCosts(hand, color, 0, isSpecEat, c) {
      var l :| TopChoice(tiles, items, 0, l) && Completes(tiles - Listed(Pick(items, l)), 0, color, isSpecEat, c);
      CompletesPair(hand, color, isSpecEat, l, c);
    }
    if l :| LeavesPair(tiles, items, l) {
      HandItemsLegal(hand, color, isSpecEat);
      PairIsTop(tiles, items, isSpecEat, l);
      PairCompletes(tiles - Listed(Pick(items, l)), color, isSpecEat);
    }
  }

  // ----- Splitting a colour -----

  /** Legal items that make up the tiles, with one pair at most. */
  ghost predicate SplitsOnce(tiles: multiset<Card>, list: seq<KindItem>, isSpecEat: bool) {
    AllLegal(list, isSpecEat) && PairCount(list) <= 1 && Listed(list) == tiles && PengsOnce(list)
  }

  lemma WithPair(chosen: seq<KindItem>, c: Card, isSpecEat: bool)
    requires AllTriples(chosen, isSpecEat) && PengsOnce(chosen)
    ensures SplitsOnce(Listed(chosen) + multiset{c, c}, chosen + [KindItem([c, c], Dui, 0)], isSpecEat)
  {
    var pair := KindItem([c, c], Dui, 0);
    LegalWithPair(chosen, pair, isSpecEat, multiset{c, c});
    ListedSnoc(chosen, pair);
    forall d: Card ensures Pengs(chosen + [pair], d) <= 1 { PengsLast(chosen, pair, d); }
  }

  lemma SplitFound(hand: seq<Card>, color: nat, isSpecEat: bool, l: seq<nat>) returns (list: seq<KindItem>)
    requires color < 5 && LeavesPair(ColorTiles(hand, color), HandItems(hand, color, isSpecEat), l)
    ensures SplitsOnce(ColorTiles(hand, color), list, isSpecEat)
  {
    var tiles, chosen := ColorTiles(hand, color), Pick(HandItems(hand, color, isSpecEat), l);
    HandItemsLegal(hand, color, isSpecEat);
    PickTriples(HandItems(hand, color, isSpecEat), l, isSpecEat);
    ChosenOnce(hand, color, isSpecEat, l);
    var rest := tiles - Listed(chosen);
    assert tiles == Listed(chosen) + rest;
    if rest == multiset{} {
      TriplesLegal(chosen, isSpecEat);
      list := chosen;
    } else {
      FinishableSize(rest);
      var c: Card :| rest == multiset{c, c};
      WithPair(chosen, c, isSpecEat);
      list := chosen + [KindItem([c, c], Dui, 0)];
    }
  }

  /** The list without its pairs, and without a note of wildcards. */
  function Frees(list: seq<KindItem>): seq<KindItem> {
    if list == [] then []
    else
      var init, x := Frees(list[..|list| - 1]), list[|list| - 1];
      if x.kindType == Dui then init else init + [x.(useKingCount := 0)]
  }

  lemma PairTiles(x: KindItem)
    requires Assembly.IsPair(x)
    ensures Finishable(multiset(x.cardIdx), 0)
  {
    assert x.cardIdx == [x.cardIdx[0], x.cardIdx[0]];
    assert multiset(x.cardIdx) == multiset{x.cardIdx[0], x.cardIdx[0]};
  }

  lemma PlusSwap(a: multiset<Card>, b: multiset<Card>, c: multiset<Card>)
    ensures a + b + c == a + c + b
  {
  }

  lemma {:induction false} FreesRest(list: seq<KindItem>, isSpecEat: bool) returns (rest: multiset<Card>)
    requires AllLegal(list, isSpecEat) && PairCount(list) <= 1
    ensures Listed(list) == Listed(Frees(list)) + rest && Finishable(rest, 0)
    ensures PairCount(list) == 0 ==> rest == multiset{}
  {
    if list == [] {
      rest := multiset{};
    } else {
      var init, x := list[..|list| - 1], list[|list| - 1];
      rest := FreesRest(init, isSpecEat);
      assert LegalItem(x, isSpecEat);
      if x.kindType == Dui {
        PairTiles(x);
        assert Listed(init) == Listed(Frees(init));
        rest := multiset(x.cardIdx);
      } else {
        ListedSnoc(Frees(init), x.(useKingCount := 0));
        PlusSwap(Listed(Frees(init)), rest, multiset(x.cardIdx));
      }
    }
  }

  lemma {:induction false} FreesPengs(list: seq<KindItem>, c: Card)
    ensures Pengs(Frees(list), c) == Pengs(list, c)
  {
    if list != [] {
      FreesPengs(list[..|list| - 1], c);
      PengsLast(Frees(list[..|list| - 1]), list[|list| - 1].(useKingCount := 0), c);
    }
  }

  /** An item of the game that takes no wildcard. */
  predicate Plain(y: KindItem, isSpecEat: bool) {
    y.kindType != Dui && y.useKingCount == 0 && LegalItem(y, isSpecEat)
  }

  lemma {:induction false} FreesPlain(list: seq<KindItem>, isSpecEat: bool, y: KindItem)
    requires AllLegal(list, isSpecEat) && y in Frees(list)
    ensures Plain(y, isSpecEat)
  {
    var init, x := list[..|list| - 1], list[|list| - 1];
    assert LegalItem(x, isSpecEat);
    if y in Frees(init) {
      FreesPlain(init, isSpecEat, y);
    }
  }

  lemma {:induction false} OccursPengs(list: seq<KindItem>, y: KindItem, c: Card)
    requires IsPeng(y, c)
    ensures Occurs(list, y) <= Pengs(list, c)
  {
    if list != [] {
      OccursPengs(list[..|list| - 1], y, c);
    }
  }

  lemma TakenOne<T>(list: seq<T>, j: nat)
    requires j < |list|
    ensures multiset(list) == multiset(list[..j] + list[j + 1..]) + multiset{list[j]}
  {
    assert list == list[..j] + [list[j]] + list[j + 1..];
  }

  lemma BothLess<T>(a: multiset<T>, b: multiset<T>, x: T)
    requires a + multiset{x} <= b + multiset{x}
    ensures a <= b
  {
    forall y: T ensures a[y] <= b[y] { assert (a + multiset{x})[y] <= (b + multiset{x})[y]; }
  }

  lemma WithoutOne<T>(list: seq<T>, j: nat, items: seq<T>)
    requires j < |list| && items != [] && list[j] == items[|items| - 1] && multiset(list) <= multiset(items)
    ensures multiset(list[..j] + list[j + 1..]) <= multiset(items[..|items| - 1])
  {
    TakenOne(list, j);
    assert items == items[..|items| - 1] + [list[j]];
    BothLess(multiset(list[..j] + list[j + 1..]), multiset(items[..|items| - 1]), list[j]);
  }

  lemma ListedWithout(list: seq<KindItem>, j: nat)
    requires j < |list|
    ensures Listed(list) == Listed(list[..j] + list[j + 1..]) + multiset(list[j].cardIdx)
  {
    assert list == list[..j] + list[j..];
    ListedConcat(list[..j], list[j..]);
    ListedConcat(list[..j], list[j + 1..]);
    Assembly.ListedDrop(list, j);
  }

  lemma ChosenMore(items: seq<KindItem>, l: seq<nat>, n: nat)
    requires |items| == n + 1 && Combine.Subset(l, n, |l|)
    ensures Combine.Subset(l + [n], n + 1, |l| + 1)
    ensures Listed(Pick(items, l + [n])) == Listed(Pick(items[..n], l)) + multiset(items[n].cardIdx)
  {
    PickFront(items, l, n);
    PickMore(items, l, n);
  }

  /** A list whose items are all among the given ones is a choice of them. */
  lemma {:induction false} Chosen(items: seq<KindItem>, list: seq<KindItem>) returns (l: seq<nat>)
    requires multiset(list) <= multiset(items)
    ensures Combine.Subset(l, |items|, |list|) && Listed(Pick(items, l)) == Listed(list)
    decreases |items|
  {
    if items == [] {
      assert |multiset(list)| == 0;
      l := [];
    } else {
      var n := |items| - 1;
      var x := items[n];
      assert items == items[..n] + [x];
      if x in list {
        var j :| 0 <= j < |list| && list[j] == x;
        WithoutOne(list, j, items);
        ListedWithout(list, j);
        var l' := Chosen(items[..n], list[..j] + list[j + 1..]);
        ChosenMore(items, l', n);
        l := l' + [n];
      } else {
        l := Chosen(items[..n], list);
        PickFront(items, l, n);
      }
    }
  }

  // ----- Splitting a colour is choosing free items -----

  lemma ColorTileOf(hand: seq<Card>, color: nat, c: Card)
    requires c in ColorTiles(hand, color)
    ensures RealTile(c) && c / 16 == color
  {
  }

  lemma ItemListed(list: seq<KindItem>, y: KindItem)
    requires y in list
    ensures multiset(y.cardIdx) <= Listed(list)
  {
    var j :| 0 <= j < |list| && list[j] == y;
    ListedWithout(list, j);
  }

  /** A sequence is among the free items as often as the tiles pay for it. */
  lemma EatAt(hand: multiset<Card>, color: nat, isSpecEat: bool, idx: nat, y: KindItem, m: nat)
    requires color < 5 && 1 <= idx < PokerNum(color) && y.cardIdx in CanEat(color, idx, isSpecEat)
    requires y.kindType == Chi && y.useKingCount == 0
    requires 0 < m && forall c :: c in y.cardIdx ==> m <= hand[c]
    ensures Occurs(FreeItems(hand, color, isSpecEat, PokerNum(color)), y) >= m
  {
    var eat, eats := y.cardIdx, CanEat(color, idx, isSpecEat);
    EatStartsAt(color, idx, isSpecEat, eat);
    assert y == NewByData(eat[0], eat[1], eat[2], Chi);
    FreeAtCount(hand, eat[0], eats, eat, m);
    OccursIs(ItemsAt(hand, color, isSpecEat, idx), y);
    ItemsInside(hand, color, isSpecEat, idx, y);
    OccursIs(FreeItems(hand, color, isSpecEat, PokerNum(color)), y);
  }

  /** A triple of one tile is among them once. */
  lemma PengAt(hand: multiset<Card>, color: nat, isSpecEat: bool, y: KindItem, c: Card)
    requires RealTile(c) && c / 16 == color && hand[c] >= 3 && IsPeng(y, c) && y.useKingCount == 0
    ensures Occurs(FreeItems(hand, color, isSpecEat, PokerNum(color)), y) >= 1
  {
    var idx := c % 16;
    assert y == NewByData(c, c, c, Peng) && TileCode(color, idx) == c;
    assert ItemsAt(hand, color, isSpecEat, idx) == [y] + FreeEats(hand, CanEat(color, idx, isSpecEat));
    ItemsInside(hand, color, isSpecEat, idx, y);
    OccursIs(FreeItems(hand, color, isSpecEat, PokerNum(color)), y);
  }

  lemma PengTiles(y: KindItem, c: Card, hand: multiset<Card>)
    requires y.kindType == Peng && LegalItem(y, true) && c == y.cardIdx[0] && multiset(y.cardIdx) <= hand
    ensures IsPeng(y, c) && hand[c] >= 3
  {
    assert y.cardIdx == [c, c, c];
    assert multiset([c, c, c])[c] == 3;
  }

  /** An item of the list is one of the colour, which has its tiles. */
  lemma ItemOfColor(hand: seq<Card>, color: nat, isSpecEat: bool, list: seq<KindItem>, y: KindItem)
    requires color < 5 && Listed(list) <= ColorTiles(hand, color) && y in list && Plain(y, isSpecEat)
    ensures |y.cardIdx| == 3 && RealTile(y.cardIdx[0]) && y.cardIdx[0] / 16 == color
    ensures HandItems(hand, color, isSpecEat) == FreeItems(multiset(hand), color, isSpecEat, PokerNum(color))
    ensures multiset(y.cardIdx) <= multiset(hand) && Listed(list) <= multiset(hand)
  {
    ItemListed(list, y);
    CardSub(multiset(y.cardIdx), ColorTiles(hand, color));
    assert y.cardIdx[0] in multiset(y.cardIdx);
    ColorTileOf(hand, color, y.cardIdx[0]);
    HandItemsAre(hand, color, isSpecEat);
  }

  lemma EatAmong(hand: seq<Card>, color: nat, isSpecEat: bool, list: seq<KindItem>, y: KindItem)
    requires color < 5 && Listed(list) <= ColorTiles(hand, color) && y in list && Plain(y, isSpecEat)
             && y.kindType == Chi
    ensures Occurs(list, y) <= Occurs(HandItems(hand, color, isSpecEat), y)
  {
    ItemOfColor(hand, color, isSpecEat, list, y);
    OccursIs(list, y);
    forall c | c in y.cardIdx ensures Occurs(list, y) <= multiset(hand)[c] { CopiesListed(list, y, c); }
    EatAt(multiset(hand), color, isSpecEat, y.cardIdx[0] % 16, y, Occurs(list, y));
  }

  lemma PengAmong(hand: seq<Card>, color: nat, isSpecEat: bool, list: seq<KindItem>, y: KindItem)
    requires color < 5 && Listed(list) <= ColorTiles(hand, color) && y in list && Plain(y, isSpecEat)
             && y.kindType == Peng
    requires PengsOnce(list)
    ensures Occurs(list, y) <= Occurs(HandItems(hand, color, isSpecEat), y)
  {
    var c := y.cardIdx[0];
    ItemOfColor(hand, color, isSpecEat, list, y);
    PengTiles(y, c, multiset(hand));
    OccursPengs(list, y, c);
    PengAt(multiset(hand), color, isSpecEat, y, c);
  }

  lemma AllAmong(hand: seq<Card>, color: nat, isSpecEat: bool, list: seq<KindItem>)
    requires color < 5 && Listed(list) <= ColorTiles(hand, color) && PengsOnce(list)
    requires forall y :: y in list ==> Plain(y, isSpecEat)
    ensures multiset(list) <= multiset(HandItems(hand, color, isSpecEat))
  {
    forall y ensures multiset(list)[y] <= multiset(HandItems(hand, color, isSpecEat))[y] {
      if y in list {
        if y.kindType == Chi {
          EatAmong(hand, color, isSpecEat, list, y);
        } else {
          PengAmong(hand, color, isSpecEat, list, y);
        }
        OccursIs(list, y);
        OccursIs(HandItems(hand, color, isSpecEat), y);
      }
    }
  }

  lemma SplitChosen(hand: seq<Card>, color: nat, isSpecEat: bool, list: seq<KindItem>) returns (l: seq<nat>)
    requires color < 5 && SplitsOnce(ColorTiles(hand, color), list, isSpecEat)
    ensures LeavesPair(ColorTiles(hand, color), HandItems(hand, color, isSpecEat), l)
  {
    var free := Frees(list);
    var rest := FreesRest(list, isSpecEat);
    forall c: Card ensures Pengs(free, c) <= 1 { FreesPengs(list, c); }
    forall y | y in free ensures Plain(y, isSpecEat) { FreesPlain(list, isSpecEat, y); }
    AllAmong(hand, color, isSpecEat, free);
    l := Chosen(HandItems(hand, color, isSpecEat), free);
    assert Listed(free) + rest - Listed(free) == rest;
  }

  /** A colour can be split up without a wildcard. */
  ghost predicate Splittable(hand: seq<Card>, color: nat, isSpecEat: bool) {
    exists list :: SplitsOnce(ColorTiles(hand, color), list, isSpecEat)
  }

  /** Without wildcards a colour can be dealt with exactly when it can be split
      up at all, with no tile in two triples of its own. */
  lemma ColorFree(hand: seq<Card>, color: nat, isSpecEat: bool, c: int)
    requires color < 5
    ensures ColorCosts(hand, color, 0, isSpecEat, c) <==> c == 0 && Splittable(hand, color, isSpecEat)
  {
    FreeCosts(hand, color, isSpecEat, c);
    if l :| LeavesPair(ColorTiles(hand, color), HandItems(hand, color, isSpecEat), l) {
      var list := SplitFound(hand, color, isSpecEat, l);
    }
    if list :| SplitsOnce(ColorTiles(hand, color), list, isSpecEat) {
      var l := SplitChosen(hand, color, isSpecEat, list);
    }
  }

  // ----- All colours -----

  function Zeros(n: nat): seq<int> {
    seq(n, _ => 0)
  }

  lemma {:induction false} ZerosSpent(costs: CostTable, n: nat)
    requires forall k: nat :: k < n ==> costs(k, 0, 0)
    requires forall k: nat, c: int :: k < n && costs(k, 0, c) ==> c == 0
    ensures Spent(costs, 0, Zeros(n)) && Sum(Zeros(n)) == 0
  {
    if n > 0 {
      ZerosSpent(costs, n - 1);
      assert Zeros(n)[..n - 1] == Zeros(n - 1);
    }
  }

  ghost predicate AllSplittable(hand: seq<Card>, isSpecEat: bool, n: nat) {
    forall k: nat :: k < n ==> Splittable(hand, k, isSpecEat)
  }

  /** The wildcards spent on the first colours: none. */
  lemma NoneSpent(hand: seq<Card>, isSpecEat: bool, n: nat)
    requires n <= 5 && AllSplittable(hand, isSpecEat, n)
    ensures Spent(Costs(hand, isSpecEat), 0, Zeros(n)) && Sum(Zeros(n)) == 0
  {
    var costs := Costs(hand, isSpecEat);
    forall k: nat, c: int | k < n ensures costs(k, 0, c) <==> c == 0 { ColorFree(hand, k, isSpecEat, c); }
    ZerosSpent(costs, n);
  }

  lemma Losing(hand: seq<Card>, kingNum: nat, isSpecEat: bool, used: seq<int>)
    requires |used| <= 5 && Spent(Costs(hand, isSpecEat), kingNum, used)
             && Fails(hand, Costs(hand, isSpecEat), kingNum, used)
    ensures Loses(hand, kingNum, isSpecEat)
  {
  }

  lemma StuckThere(hand: seq<Card>, isSpecEat: bool, n: nat)
    requires n < 5 && AllSplittable(hand, isSpecEat, n) && !Splittable(hand, n, isSpecEat)
    ensures Loses(hand, 0, isSpecEat)
  {
    var costs := Costs(hand, isSpecEat);
    NoneSpent(hand, isSpecEat, n);
    forall c: int ensures !costs(n, 0, c) { ColorFree(hand, n, isSpecEat, c); }
    StuckFails(hand, costs, 0, Zeros(n), 0);
    Losing(hand, 0, isSpecEat, Zeros(n));
  }

  lemma {:induction false} FirstStuck(hand: seq<Card>, isSpecEat: bool, n: nat)
    requires n <= 5 && !AllSplittable(hand, isSpecEat, n)
    ensures Loses(hand, 0, isSpecEat)
  {
    if AllSplittable(hand, isSpecEat, n - 1) {
      StuckThere(hand, isSpecEat, n - 1);
    } else {
      FirstStuck(hand, isSpecEat, n - 1);
    }
  }

  /** So many tiles have one pair among them, or none. */
  function PairsOf(size: int): nat {
    if size % 3 == 2 then 1 else 0
  }

  lemma NotLosing(hand: seq<Card>, isSpecEat: bool)
    ensures !Loses(hand, 0, isSpecEat) <==>
            AllSplittable(hand, isSpecEat, 5) && PairColors(hand, Zeros(5)) <= PairsOf(|hand|)
  {
    var costs := Costs(hand, isSpecEat);
    if AllSplittable(hand, isSpecEat, 5) {
      NoneSpent(hand, isSpecEat, 5);
      assert Fails(hand, costs, 0, Zeros(5)) <==> PairColors(hand, Zeros(5)) > PairsOf(|hand|);
      if PairColors(hand, Zeros(5)) <= PairsOf(|hand|) {
        NoReason(hand, 0, isSpecEat, Zeros(5));
      }
    } else {
      FirstStuck(hand, isSpecEat, 5);
    }
  }

  // ----- From the colours to a winning hand -----

  lemma {:induction false} LegalSize(list: seq<KindItem>, isSpecEat: bool)
    requires AllLegal(list, isSpecEat)
    ensures |Listed(list)| + PairCount(list) == 3 * |list|
  {
    if list != [] {
      LegalSize(list[..|list| - 1], isSpecEat);
      assert LegalItem(list[|list| - 1], isSpecEat);
    }
  }

  /** How many pairs there are is settled by the number of tiles. */
  lemma PairBySize(tiles: nat, items: nat, pairs: nat)
    requires tiles + pairs == 3 * items && pairs <= 1
    ensures pairs == PairsOf(tiles)
  {
    assert tiles == 3 * (items - pairs) + 2 * pairs;
  }

  lemma LegalConcat(a: seq<KindItem>, b: seq<KindItem>, isSpecEat: bool)
    requires AllLegal(a, isSpecEat) && AllLegal(b, isSpecEat)
    ensures AllLegal(a + b, isSpecEat)
  {
    forall i | 0 <= i < |a + b| ensures LegalItem((a + b)[i], isSpecEat) {
      assert i < |a| ==> LegalItem(a[i], isSpecEat);
      assert i >= |a| ==> LegalItem(b[i - |a|], isSpecEat);
    }
  }

  /** Triples of one tile do not meet when the tiles are of different colours. */
  lemma PengsApart(hand: seq<Card>, n: nat, a: seq<KindItem>, b: seq<KindItem>)
    requires Listed(a) == RealTiles(hand, n) && Listed(b) == ColorTiles(hand, n) && PengsOnce(a) && PengsOnce(b)
    ensures PengsOnce(a + b)
  {
    forall c: Card ensures Pengs(a + b, c) <= 1 {
      PengsConcat(a, b, c);
      PengsHeld(a, c);
      PengsHeld(b, c);
      if Pengs(b, c) > 0 {
        ColorTileOf(hand, n, c);
      }
    }
  }

  lemma PairsOfSplit(hand: seq<Card>, color: nat, list: seq<KindItem>, isSpecEat: bool)
    requires AllLegal(list, isSpecEat) && PairCount(list) <= 1 && Listed(list) == ColorTiles(hand, color)
    ensures PairCount(list) == PairOfColor(hand, color, 0)
  {
    LegalSize(list, isSpecEat);
    PairBySize(|Listed(list)|, |list|, PairCount(list));
  }

  lemma PairsNext(hand: seq<Card>, n: nat)
    ensures PairColors(hand, Zeros(n + 1)) == PairColors(hand, Zeros(n)) + PairOfColor(hand, n, 0)
  {
    assert Zeros(n + 1)[..n] == Zeros(n);
  }

  /** The splits of the first colours, put together. */
  lemma {:induction false} Joined(hand: seq<Card>, isSpecEat: bool, n: nat) returns (list: seq<KindItem>)
    requires AllSplittable(hand, isSpecEat, n)
    ensures AllLegal(list, isSpecEat) && Listed(list) == RealTiles(hand, n) && PengsOnce(list)
    ensures PairCount(list) == PairColors(hand, Zeros(n))
  {
    if n == 0 {
      RealTilesSize(hand, 0);
      list := [];
    } else {
      var init := Joined(hand, isSpecEat, n - 1);
      assert Splittable(hand, n - 1, isSpecEat);
      var next :| SplitsOnce(ColorTiles(hand, n - 1), next, isSpecEat);
      LegalConcat(init, next, isSpecEat);
      ListedConcat(init, next);
      ColorTilesAdd(hand, n - 1);
      PengsApart(hand, n - 1, init, next);
      PairCountConcat(init, next);
      PairsOfSplit(hand, n - 1, next, isSpecEat);
      PairsNext(hand, n - 1);
      list := init + next;
    }
  }

  // ----- From a winning hand to the colours -----

  predicate StartsBetween(item: KindItem, a: int, b: int) {
    item.cardIdx != [] && a <= item.cardIdx[0] / 16 < b
  }

  /** The items of the colours from a up to b. */
  function Between(list: seq<KindItem>, a: int, b: int): seq<KindItem> {
    if list == [] then []
    else
      var init, x := Between(list[..|list| - 1], a, b), list[|list| - 1];
      if StartsBetween(x, a, b) then init + [x] else init
  }

  lemma OneColor(item: KindItem, isSpecEat: bool, c: Card)
    requires LegalItem(item, isSpecEat)
    ensures item.cardIdx != [] && (multiset(item.cardIdx)[c] > 0 ==> c / 16 == item.cardIdx[0] / 16)
  {
    if c in multiset(item.cardIdx) {
      assert c in item.cardIdx;
    }
  }

  lemma BetweenLast(list: seq<KindItem>, a: int, b: int, c: Card)
    requires list != []
    ensures var init, x := list[..|list| - 1], list[|list| - 1];
            && Listed(list)[c] == Listed(init)[c] + multiset(x.cardIdx)[c]
            && Listed(Between(list, a, b))[c] ==
               Listed(Between(init, a, b))[c] + if StartsBetween(x, a, b) then multiset(x.cardIdx)[c] else 0
  {
    ListedSnoc(Between(list[..|list| - 1], a, b), list[|list| - 1]);
  }

  lemma {:induction false} BetweenListed(list: seq<KindItem>, a: int, b: int, isSpecEat: bool, c: Card)
    requires AllLegal(list, isSpecEat)
    ensures Listed(Between(list, a, b))[c] == if a <= c / 16 < b then Listed(list)[c] else 0
  {
    if list != [] {
      var x := list[|list| - 1];
      BetweenListed(list[..|list| - 1], a, b, isSpecEat, c);
      BetweenLast(list, a, b, c);
      assert LegalItem(x, isSpecEat);
      OneColor(x, isSpecEat, c);
    }
  }

  lemma {:induction false} BetweenPengs(list: seq<KindItem>, a: int, b: int, c: Card)
    ensures Pengs(Between(list, a, b), c) <= Pengs(list, c)
  {
    if list != [] {
      BetweenPengs(list[..|list| - 1], a, b, c);
      PengsLast(Between(list[..|list| - 1], a, b), list[|list| - 1], c);
    }
  }

  lemma {:induction false} BetweenLegal(list: seq<KindItem>, a: int, b: int, isSpecEat: bool)
    requires AllLegal(list, isSpecEat)
    ensures AllLegal(Between(list, a, b), isSpecEat)
  {
    if list != [] {
      BetweenLegal(list[..|list| - 1], a, b, isSpecEat);
      assert LegalItem(list[|list| - 1], isSpecEat);
      LegalSnoc(Between(list[..|list| - 1], a, b), list[|list| - 1], isSpecEat);
    }
  }

  lemma {:induction false} BetweenPairs(list: seq<KindItem>, a: int, b: int, n: int)
    requires a <= b <= n
    ensures PairCount(Between(list, a, n)) == PairCount(Between(list, a, b)) + PairCount(Between(list, b, n))
    ensures PairCount(Between(list, a, n)) <= PairCount(list)
  {
    if list != [] {
      var init, x := list[..|list| - 1], list[|list| - 1];
      BetweenPairs(init, a, b, n);
      PairCountSnoc(Between(init, a, n), x);
      PairCountSnoc(Between(init, a, b), x);
      PairCountSnoc(Between(init, b, n), x);
    }
  }

  lemma ColorOfWin(hand: seq<Card>, list: seq<KindItem>, isSpecEat: bool, k: nat)
    requires k < 5 && AllLegal(list, isSpecEat) && PairCount(list) <= 1 && Listed(list) == RealTiles(hand, 5)
    ensures var part := Between(list, k, k + 1);
            AllLegal(part, isSpecEat) && PairCount(part) <= 1 && Listed(part) == ColorTiles(hand, k)
  {
    var part := Between(list, k, k + 1);
    BetweenLegal(list, k, k + 1, isSpecEat);
    BetweenPairs(list, k, k, k + 1);
    forall c: Card ensures Listed(part)[c] == ColorTiles(hand, k)[c] {
      BetweenListed(list, k, k + 1, isSpecEat, c);
    }
  }

  lemma ColorSplits(hand: seq<Card>, list: seq<KindItem>, isSpecEat: bool, k: nat)
    requires k < 5 && AllLegal(list, isSpecEat) && PairCount(list) <= 1 && Listed(list) == RealTiles(hand, 5)
    requires PengsOnce(list)
    ensures Splittable(hand, k, isSpecEat)
  {
    ColorOfWin(hand, list, isSpecEat, k);
    var part := Between(list, k, k + 1);
    forall c: Card ensures Pengs(part, c) <= 1 { BetweenPengs(list, k, k + 1, c); }
    assert SplitsOnce(ColorTiles(hand, k), part, isSpecEat);
  }

  lemma {:induction false} PairsOfWin(hand: seq<Card>, list: seq<KindItem>, isSpecEat: bool, n: nat)
    requires n <= 5 && AllLegal(list, isSpecEat) && PairCount(list) <= 1 && Listed(list) == RealTiles(hand, 5)
    ensures PairColors(hand, Zeros(n)) == PairCount(Between(list, 0, n)) <= PairCount(list)
  {
    BetweenPairs(list, 0, 0, n);
    if n > 0 {
      PairsOfWin(hand, list, isSpecEat, n - 1);
      ColorOfWin(hand, list, isSpecEat, n - 1);
      PairsOfSplit(hand, n - 1, Between(list, n - 1, n), isSpecEat);
      PairsNext(hand, n - 1);
      BetweenPairs(list, 0, n - 1, n);
    }
  }

  // ----- Winning hands are found -----

  lemma SameSize(x: multiset<Card>, y: multiset<Card>)
    requires x <= y && |x| == |y|
    ensures x == y
  {
    CardSub(x, y);
    NothingLeft(y, x);
  }

  /** A winning hand of real tiles without wildcards is a split of the hand. */
  lemma WinIsSplit(hand: seq<Card>, huList: seq<KindItem>, isSpecEat: bool)
    requires forall i :: 0 <= i < |hand| ==> RealTile(hand[i])
    ensures Wins(hand, 0, huList, isSpecEat) <==>
            AllLegal(huList, isSpecEat) && PairCount(huList) == PairsOf(|hand|) && Listed(huList) == RealTiles(hand, 5)
  {
    AllTilesReal(hand);
    assert Assembly.RoundUp(|hand|, |hand| % 3) == |hand|;
    if Wins(hand, 0, huList, isSpecEat) {
      SameSize(RealTiles(hand, 5), Listed(huList));
    }
  }

  lemma WinJoined(hand: seq<Card>, isSpecEat: bool) returns (list: seq<KindItem>)
    requires forall i :: 0 <= i < |hand| ==> RealTile(hand[i])
    requires AllSplittable(hand, isSpecEat, 5) && PairColors(hand, Zeros(5)) <= PairsOf(|hand|)
    ensures Wins(hand, 0, list, isSpecEat) && PengsOnce(list)
  {
    list := Joined(hand, isSpecEat, 5);
    LegalSize(list, isSpecEat);
    AllTilesReal(hand);
    PairBySize(|hand|, |list|, PairCount(list));
    WinIsSplit(hand, list, isSpecEat);
  }

  lemma WinSplits(hand: seq<Card>, isSpecEat: bool, list: seq<KindItem>)
    requires forall i :: 0 <= i < |hand| ==> RealTile(hand[i])
    requires Wins(hand, 0, list, isSpecEat) && PengsOnce(list)
    ensures AllSplittable(hand, isSpecEat, 5) && PairColors(hand, Zeros(5)) <= PairsOf(|hand|)
  {
    WinIsSplit(hand, list, isSpecEat);
    forall k: nat | k < 5 ensures Splittable(hand, k, isSpecEat) { ColorSplits(hand, list, isSpecEat, k); }
    PairsOfWin(hand, list, isSpecEat, 5);
  }

  /** Without wildcards a hand of real tiles wins exactly when it can be split
      up into a winning hand that has no triple of one tile twice. */
  lemma FoundWithoutWildcards(hand: seq<Card>, isSpecEat: bool)
    requires forall i :: 0 <= i < |hand| ==> RealTile(hand[i])
    ensures !Loses(hand, 0, isSpecEat) <==> exists huList :: Wins(hand, 0, huList, isSpecEat) && PengsOnce(huList)
  {
    NotLosing(hand, isSpecEat);
    if !Loses(hand, 0, isSpecEat) {
      var list := WinJoined(hand, isSpecEat);
    }
    if list :| Wins(hand, 0, list, isSpecEat) && PengsOnce(list) {
      WinSplits(hand, isSpecEat, list);
    }
  }

  /** With at most five copies of every tile nothing is missed at all. */
  lemma NoWinMissed(hand: seq<Card>, isSpecEat: bool)
    requires forall i :: 0 <= i < |hand| ==> RealTile(hand[i])
    requires forall c: Card :: multiset(hand)[c] <= 5
    ensures !Loses(hand, 0, isSpecEat) <==> exists huList :: Wins(hand, 0, huList, isSpecEat)
  {
    FoundWithoutWildcards(hand, isSpecEat);
    if list :| Wins(hand, 0, list, isSpecEat) {
      WinIsSplit(hand, list, isSpecEat);
      AllTilesReal(hand);
      forall c: Card ensures Pengs(list, c) <= 1 { PengsHeld(list, c); }
    }
  }

  /** Only one tile is in the item. */
  ghost predicate Only(item: KindItem, c: Card) {
    forall i :: 0 <= i < |item.cardIdx| ==> item.cardIdx[i] == c
  }

  lemma {:induction false} OnlyPengs(list: seq<KindItem>, c: Card, isSpecEat: bool)
    requires AllLegal(list, isSpecEat) && PairCount(list) == 0 && forall i :: 0 <= i < |list| ==> Only(list[i], c)
    ensures Pengs(list, c) == |list|
  {
    if list != [] {
      var x := list[|list| - 1];
      assert LegalItem(x, isSpecEat) && Only(x, c);
      OnlyPengs(list[..|list| - 1], c, isSpecEat);
    }
  }

  lemma TileOnly(list: seq<KindItem>, c: Card, i: nat)
    requires i < |list| && forall d: Card :: d in Listed(list) ==> d == c
    ensures Only(list[i], c)
  {
    ItemListed(list, list[i]);
    forall j | 0 <= j < |list[i].cardIdx| ensures list[i].cardIdx[j] == c {
      assert list[i].cardIdx[j] in multiset(list[i].cardIdx);
    }
  }

  lemma TwoPengs(c: Card, isSpecEat: bool)
    requires c != KING_IDX
    ensures var two := [NewByData(c, c, c, Peng), NewByData(c, c, c, Peng)];
            AllLegal(two, isSpecEat) && PairCount(two) == 0 && Listed(two) == multiset([c, c, c]) + multiset([c, c, c])
  {
    var peng := NewByData(c, c, c, Peng);
    TriplesLegal([peng, peng], isSpecEat);
    assert [peng, peng][..1] == [peng] && [peng][..0] == [];
    assert Listed([peng]) == multiset([c, c, c]);
  }

  lemma SixWin(hand: seq<Card>, c: Card, isSpecEat: bool)
    requires RealTile(c) && |hand| == 6 && forall i :: 0 <= i < 6 ==> hand[i] == c
    ensures Wins(hand, 0, [NewByData(c, c, c, Peng), NewByData(c, c, c, Peng)], isSpecEat)
  {
    TwoPengs(c, isSpecEat);
    AllTilesReal(hand);
    assert hand == [c, c, c] + [c, c, c];
    WinIsSplit(hand, [NewByData(c, c, c, Peng), NewByData(c, c, c, Peng)], isSpecEat);
  }

  lemma SixTwice(list: seq<KindItem>, c: Card, isSpecEat: bool)
    requires AllLegal(list, isSpecEat) && PairCount(list) == 0 && |Listed(list)| == 6
    requires forall d: Card :: d in Listed(list) ==> d == c
    ensures Pengs(list, c) == 2
  {
    forall i | 0 <= i < |list| ensures Only(list[i], c) { TileOnly(list, c, i); }
    OnlyPengs(list, c, isSpecEat);
    LegalSize(list, isSpecEat);
  }

  lemma WinOfSix(hand: seq<Card>, c: Card, list: seq<KindItem>, isSpecEat: bool)
    requires RealTile(c) && |hand| == 6 && (forall i :: 0 <= i < 6 ==> hand[i] == c) && Wins(hand, 0, list, isSpecEat)
    ensures Pengs(list, c) == 2
  {
    AllTilesReal(hand);
    WinIsSplit(hand, list, isSpecEat);
    forall d: Card | d in Listed(list) ensures d == c { assert d in hand; }
    SixTwice(list, c, isSpecEat);
  }

  /** Six copies of a tile are two triples, and they are not found. */
  lemma SixCopies(hand: seq<Card>, c: Card, isSpecEat: bool)
    requires RealTile(c) && |hand| == 6 && forall i :: 0 <= i < 6 ==> hand[i] == c
    ensures Wins(hand, 0, [NewByData(c, c, c, Peng), NewByData(c, c, c, Peng)], isSpecEat) && Loses(hand, 0, isSpecEat)
  {
    SixWin(hand, c, isSpecEat);
    FoundWithoutWildcards(hand, isSpecEat);
    forall list | Wins(hand, 0, list, isSpecEat) ensures Pengs(list, c) == 2 { WinOfSix(hand, c, list, isSpecEat); }
  }
}
