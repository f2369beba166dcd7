/** The bounds that `calc_ttt_combine` and `check_can_hu` put on their searches
    turn away nothing that could succeed. */
module SearchBounds {
  import opened Tiles
  import opened KingSearch
  import opened HuCheck
  import Combine

  // ----- Choices of items none of which is free -----

  /** None of the items is held as it is, so each takes a wildcard. */
  ghost predicate NoneFree(held: multiset<Card>, items: seq<KindItem>) {
    forall i :: 0 <= i < |items| ==> !(multiset(items[i].cardIdx) <= held)
  }

  /** Three tiles of which not all are held take at most two off. */
  lemma TakesTwo(held: multiset<Card>, g: multiset<Card>, x: seq<Card>)
    requires g <= held && |x| == 3 && !(multiset(x) <= held)
    ensures |g| - |g - multiset(x)| <= 2
  {
    ShortfallBalance(g, multiset(x));
    if |multiset(x) - g| == 0 {
      NothingLeft(multiset(x), g);
    }
  }

  lemma {:induction false} TakeTwoEach(held: multiset<Card>, list: seq<KindItem>, isSpecEat: bool)
    requires AllTriples(list, isSpecEat) && NoneFree(held, list)
    ensures |held| - |held - Listed(list)| <= 2 * |list|
  {
    if list != [] {
      var init, x := list[..|list| - 1], list[|list| - 1];
      TakeTwoEach(held, init, isSpecEat);
      TripleShape(x, isSpecEat);
      TakesTwo(held, held - Listed(init), x.cardIdx);
      MinusTwice(held, Listed(init), multiset(x.cardIdx));
    }
  }

  /** The source's estimate of half the tiles, 1.51 / 3 of them, is no more than
      the half rounded up, for as many as 301 tiles. */
  lemma Estimate(sum: nat, n: nat)
    requires sum <= 301 && sum - 2 <= 2 * n
    ensures MinItemNum(sum) <= n
  {
    var y := sum - 2;
    assert (1.51 / 3.0) * (y as real) < (n + 1) as real;
  }

  /** A choice that passes takes a wildcard for every item, and leaves two tiles
      at most. */
  lemma PassingSize(h: Hand, chosen: seq<KindItem>, isSpecEat: bool)
    requires AllTriples(chosen, isSpecEat) && NoneFree(h.held, chosen) && Passes(h, chosen)
    ensures |chosen| <= CostOf(h, chosen) <= h.kings
    ensures |h.held| <= 2 * |chosen| + 2
    ensures 3 * |chosen| <= |h.held| + h.kings
  {
    TakeTwoEach(h.held, chosen, isSpecEat);
    TriplesSize(chosen, isSpecEat);
    ShortfallBalance(h.held, Listed(chosen));
    FinishedCost(h, chosen);
    assert forall c: Card :: |multiset{c, c}| == 2;
  }

  lemma PickNoneFree(held: multiset<Card>, items: seq<KindItem>, l: seq<nat>)
    requires NoneFree(held, items) && Combine.Below(l, |items|)
    ensures NoneFree(held, Pick(items, l))
  {
  }

  /** So the search goes through every choice that passes. */
  lemma AllSearched(h: Hand, l: seq<nat>, isSpecEat: bool)
    requires AllTriples(h.items, isSpecEat) && NoneFree(h.held, h.items)
    requires Combine.Subset(l, |h.items|, |l|) && Passes(h, Pick(h.items, l))
    requires CostOf(h, Pick(h.items, l)) <= 255 && |h.held| <= 301
    ensures Candidate(h, l)
  {
    PickTriples(h.items, l, isSpecEat);
    PickNoneFree(h.held, h.items, l);
    PassingSize(h, Pick(h.items, l), isSpecEat);
    Estimate(|h.held|, |l|);
  }

  // ----- After a largest free choice nothing is free -----

  /** The list with k put in its place. */
  function With(l: seq<nat>, k: nat): seq<nat> {
    if l == [] || l[|l| - 1] < k then l + [k] else With(l[..|l| - 1], k) + [l[|l| - 1]]
  }

  lemma {:induction false} WithSubset(l: seq<nat>, k: nat, n: nat)
    requires Combine.Subset(l, n, |l|) && k < n && k !in l
    ensures Combine.Subset(With(l, k), n, |l| + 1)
    ensures forall x :: x in With(l, k) <==> x in l || x == k
  {
    if l != [] && l[|l| - 1] >= k {
      var init, last := l[..|l| - 1], l[|l| - 1];
      assert l == init + [last];
      WithSubset(init, k, n);
      forall i | 0 <= i < |init| + 1 ensures With(init, k)[i] < last {
        assert With(init, k)[i] in With(init, k);
      }
    }
  }

  lemma PickMore(items: seq<KindItem>, l: seq<nat>, k: nat)
    requires Combine.Below(l, |items|) && k < |items|
    ensures Combine.Below(l + [k], |items|) && Pick(items, l + [k]) == Pick(items, l) + [items[k]]
    ensures Listed(Pick(items, l + [k])) == Listed(Pick(items, l)) + multiset(items[k].cardIdx)
  {
    assert Pick(items, l + [k]) == Pick(items, l) + [items[k]];
    ListedSnoc(Pick(items, l), items[k]);
  }

  lemma {:induction false} WithListed(items: seq<KindItem>, l: seq<nat>, k: nat)
    requires Combine.Below(l, |items|) && k < |items|
    ensures Combine.Below(With(l, k), |items|)
    ensures Listed(Pick(items, With(l, k))) == Listed(Pick(items, l)) + multiset(items[k].cardIdx)
  {
    if l == [] || l[|l| - 1] < k {
      PickMore(items, l, k);
    } else {
      var init, last := l[..|l| - 1], l[|l| - 1];
      assert l == init + [last];
      WithListed(items, init, k);
      PickMore(items, With(init, k), last);
      PickMore(items, init, last);
    }
  }

  lemma PickFront(items: seq<KindItem>, l: seq<nat>, n: nat)
    requires n <= |items| && Combine.Below(l, n)
    ensures Pick(items, l) == Pick(items[..n], l)
  {
  }

  /** How often an item is in a list. */
  ghost function Occurs(list: seq<KindItem>, y: KindItem): nat {
    if list == [] then 0 else Occurs(list[..|list| - 1], y) + if list[|list| - 1] == y then 1 else 0
  }

  lemma OccursLast(list: seq<KindItem>, x: KindItem, y: KindItem)
    ensures Occurs(list + [x], y) == Occurs(list, y) + if x == y then 1 else 0
  {
    assert (list + [x])[..|list|] == list;
  }

  lemma {:induction false} OccursConcat(a: seq<KindItem>, b: seq<KindItem>, y: KindItem)
    ensures Occurs(a + b, y) == Occurs(a, y) + Occurs(b, y)
  {
    if b == [] {
      assert a + b == a;
    } else {
      var init := b[..|b| - 1];
      assert a + b == (a + init) + [b[|b| - 1]];
      OccursConcat(a, init, y);
      OccursLast(a + init, b[|b| - 1], y);
    }
  }

  lemma LastChosen(items: seq<KindItem>, l: seq<nat>, n: nat, y: KindItem)
    requires |items| == n + 1 && Combine.Subset(l, n + 1, |l|) && l != [] && l[|l| - 1] == n
    ensures Combine.Subset(l[..|l| - 1], n, |l| - 1)
    ensures Occurs(Pick(items, l), y) == Occurs(Pick(items[..n], l[..|l| - 1]), y) + if items[n] == y then 1 else 0
  {
    var l' := l[..|l| - 1];
    assert l == l' + [n];
    PickMore(items, l', n);
    PickFront(items, l', n);
    OccursLast(Pick(items, l'), items[n], y);
  }

  lemma LastNotChosen(items: seq<KindItem>, l: seq<nat>, n: nat)
    requires |items| == n + 1 && Combine.Subset(l, n + 1, |l|) && (l != [] ==> l[|l| - 1] != n)
    ensures Combine.Subset(l, n, |l|) && n !in l && Pick(items, l) == Pick(items[..n], l)
  {
    PickFront(items, l, n);
  }

  /** Of an item that the list of items has more often than the choice, one copy
      is not chosen. */
  lemma {:induction false} OneNotChosen(items: seq<KindItem>, l: seq<nat>, y: KindItem) returns (k: nat)
    requires Combine.Subset(l, |items|, |l|) && Occurs(Pick(items, l), y) < Occurs(items, y)
    ensures k < |items| && k !in l && items[k] == y
    decreases |items|
  {
    var n := |items| - 1;
    if l != [] && l[|l| - 1] == n {
      LastChosen(items, l, n, y);
      k := OneNotChosen(items[..n], l[..|l| - 1], y);
    } else {
      LastNotChosen(items, l, n);
      if items[n] == y {
        k := n;
      } else {
        k := OneNotChosen(items[..n], l, y);
      }
    }
  }

  lemma {:induction false} CopiesListed(list: seq<KindItem>, y: KindItem, c: Card)
    requires c in y.cardIdx
    ensures Listed(list)[c] >= Occurs(list, y)
  {
    if list != [] {
      CopiesListed(list[..|list| - 1], y, c);
      if list[|list| - 1] == y {
        assert multiset(y.cardIdx)[c] >= 1;
      }
    }
  }

  lemma {:induction false} CopiesCount(y: KindItem, c1: nat, c2: nat, c3: nat, m: nat)
    requires m <= c1 && m <= c2 && m <= c3
    ensures Occurs(Copies(y, c1, c2, c3), y) >= m
  {
    if m > 0 {
      CopiesCount(y, c1 - 1, c2 - 1, c3 - 1, m - 1);
      OccursConcat([y], Copies(y, c1 - 1, c2 - 1, c3 - 1), y);
      OccursLast([], y, y);
      assert [] + [y] == [y];
    }
  }

  /** There are as many copies of a sequence among the free items as the hand can
      pay for one by one. */
  lemma {:induction false} FreeEatsCount(hand: multiset<Card>, eats: seq<seq<Card>>, eat: seq<Card>, m: nat)
    requires forall i :: 0 <= i < |eats| ==> |eats[i]| == 3
    requires eat in eats && m <= hand[eat[0]] && m <= hand[eat[1]] && m <= hand[eat[2]]
    ensures Occurs(FreeEats(hand, eats), NewByData(eat[0], eat[1], eat[2], Chi)) >= m
  {
    var init, last := eats[..|eats| - 1], eats[|eats| - 1];
    OccursConcat(FreeEats(hand, init),
      Copies(NewByData(last[0], last[1], last[2], Chi), hand[last[0]], hand[last[1]], hand[last[2]]),
                 NewByData(eat[0], eat[1], eat[2], Chi));
    if last == eat {
      CopiesCount(NewByData(eat[0], eat[1], eat[2], Chi), hand[eat[0]], hand[eat[1]], hand[eat[2]], m);
    } else {
      assert eats == init + [last];
      FreeEatsCount(hand, init, eat, m);
    }
  }

  lemma EatStartsAt(color: nat, idx: nat, isSpecEat: bool, eat: seq<Card>)
    requires color < 5 && idx < 16 && eat in CanEat(color, idx, isSpecEat)
    ensures |eat| == 3 && eat[0] == TileCode(color, idx)
    ensures NewByData(eat[0], eat[1], eat[2], Chi).cardIdx == eat
  {
  }

  /** What starts at a tile of a colour. */
  function ItemsAt(hand: multiset<Card>, color: nat, isSpecEat: bool, idx: nat): seq<KindItem>
    requires color < 5 && 1 <= idx < PokerNum(color)
  {
    FreeAt(hand, TileCode(color, idx), CanEat(color, idx, isSpecEat))
  }

  lemma {:induction false} OccursIs(list: seq<KindItem>, y: KindItem)
    ensures Occurs(list, y) == multiset(list)[y]
  {
    if list != [] {
      OccursIs(list[..|list| - 1], y);
      assert list == list[..|list| - 1] + [list[|list| - 1]];
    }
  }

  /** The items of one rank after another. */
  ghost function Gather(at: nat -> seq<KindItem>, rank: nat): seq<KindItem> {
    if rank <= 1 then [] else Gather(at, rank - 1) + at(rank - 1)
  }

  lemma {:induction false} GatherHas(at: nat -> seq<KindItem>, idx: nat, rank: nat, y: KindItem)
    requires 1 <= idx < rank
    ensures multiset(Gather(at, rank))[y] >= multiset(at(idx))[y]
    decreases rank
  {
    if idx < rank - 1 {
      GatherHas(at, idx, rank - 1, y);
    }
  }

  lemma FreeItemsNext(hand: multiset<Card>, color: nat, isSpecEat: bool, rank: nat)
    requires color < 5 && 1 <= rank < PokerNum(color)
    ensures FreeItems(hand, color, isSpecEat, rank + 1)
            == FreeItems(hand, color, isSpecEat, rank) + ItemsAt(hand, color, isSpecEat, rank)
  {
  }

  lemma {:induction false} FreeIsGathered(hand: multiset<Card>, color: nat, isSpecEat: bool, at: nat -> seq<KindItem>,
                                          rank: nat)
    requires color < 5 && rank <= PokerNum(color)
    requires forall r: nat :: 1 <= r < PokerNum(color) ==> at(r) == ItemsAt(hand, color, isSpecEat, r)
    ensures FreeItems(hand, color, isSpecEat, rank) == Gather(at, rank)
  {
    if rank > 1 {
      FreeIsGathered(hand, color, isSpecEat, at, rank - 1);
      FreeItemsNext(hand, color, isSpecEat, rank - 1);
    }
  }

  /** It is among the free items of the colour. */
  lemma ItemsInside(hand: multiset<Card>, color: nat, isSpecEat: bool, idx: nat, y: KindItem)
    requires color < 5 && 1 <= idx < PokerNum(color)
    ensures multiset(FreeItems(hand, color, isSpecEat, PokerNum(color)))[y]
            >= multiset(ItemsAt(hand, color, isSpecEat, idx))[y]
  {
    var at := (r: nat) => if 1 <= r < PokerNum(color) then ItemsAt(hand, color, isSpecEat, r) else [];
    FreeIsGathered(hand, color, isSpecEat, at, PokerNum(color));
    GatherHas(at, idx, PokerNum(color), y);
  }

  lemma FreeAtCount(hand: multiset<Card>, card: Card, eats: seq<seq<Card>>, eat: seq<Card>, m: nat)
    requires forall i :: 0 <= i < |eats| ==> |eats[i]| == 3
    requires eat in eats && card == eat[0] && 0 < m <= hand[eat[0]] && m <= hand[eat[1]] && m <= hand[eat[2]]
    ensures Occurs(FreeAt(hand, card, eats), NewByData(eat[0], eat[1], eat[2], Chi)) >= m
  {
    FreeEatsCount(hand, eats, eat, m);
    OccursConcat(FreePeng(hand, card), FreeEats(hand, eats), NewByData(eat[0], eat[1], eat[2], Chi));
  }

  /** A free choice as large as any, whatever the wildcards at hand. */
  ghost predicate Largest(tiles: multiset<Card>, items: seq<KindItem>, l: seq<nat>) {
    FreeChoice(tiles, items, l) && forall k :: FreeChoice(tiles, items, k) ==> |k| <= |l|
  }

  /** A copy that a free choice leaves out cannot be free after a largest one. */
  lemma LargestLeavesNone(tiles: multiset<Card>, items: seq<KindItem>, l: seq<nat>, k: nat)
    requires Largest(tiles, items, l) && k < |items| && k !in l
    ensures !(multiset(items[k].cardIdx) <= tiles - Listed(Pick(items, l)))
  {
    if multiset(items[k].cardIdx) <= tiles - Listed(Pick(items, l)) {
      WithSubset(l, k, |items|);
      WithListed(items, l, k);
      assert FreeChoice(tiles, items, With(l, k));
    }
  }

  /** After a free choice that leaves a sequence, the tiles would pay for one
      more copy of it than were chosen. */
  lemma OneMoreCopy(tiles: multiset<Card>, chosen: seq<KindItem>, y: KindItem, c: Card)
    requires c in y.cardIdx && Listed(chosen) <= tiles && multiset(y.cardIdx) <= tiles - Listed(chosen)
    ensures Occurs(chosen, y) + 1 <= tiles[c]
  {
    CopiesListed(chosen, y, c);
    assert c in multiset(y.cardIdx);
    assert (tiles - Listed(chosen))[c] >= 1;
  }

  lemma RestHasThree(tiles: multiset<Card>, taken: multiset<Card>, eat: seq<Card>)
    requires |eat| == 3 && taken <= tiles && multiset(eat) <= tiles - taken
    ensures |tiles| >= 3
  {
    CardSub(multiset(eat), tiles - taken);
    CardSub(taken, tiles);
  }

  lemma CopyLeft(hand: multiset<Card>, tiles: multiset<Card>, items: seq<KindItem>, l: seq<nat>,
                 card: Card, eats: seq<seq<Card>>, eat: seq<Card>, y: KindItem)
    requires (forall i :: 0 <= i < |eats| ==> |eats[i]| == 3) && eat in eats
    requires eat[0] == card && y == NewByData(eat[0], eat[1], eat[2], Chi) && y.cardIdx == eat
    requires tiles <= hand && Largest(tiles, items, l)
    requires multiset(items)[y] >= multiset(FreeAt(hand, card, eats))[y]
    ensures !(multiset(eat) <= tiles - Listed(Pick(items, l)))
  {
    var chosen := Pick(items, l);
    if multiset(eat) <= tiles - Listed(chosen) {
      OneMoreCopy(tiles, chosen, y, eat[0]);
      OneMoreCopy(tiles, chosen, y, eat[1]);
      OneMoreCopy(tiles, chosen, y, eat[2]);
      FreeAtCount(hand, card, eats, eat, Occurs(chosen, y) + 1);
      OccursIs(FreeAt(hand, card, eats), y);
      OccursIs(items, y);
      var k := OneNotChosen(items, l, y);
      LargestLeavesNone(tiles, items, l, k);
    }
  }

  lemma HandItemsAre(hand: seq<Card>, color: nat, isSpecEat: bool)
    requires color < 5 && |ColorTiles(hand, color)| >= 3
    ensures HandItems(hand, color, isSpecEat) == FreeItems(multiset(hand), color, isSpecEat, PokerNum(color))
    ensures ColorTiles(hand, color) <= multiset(hand)
  {
    RealTilesSize(hand, color + 1);
  }

  lemma EatInColor(hand: seq<Card>, color: nat, isSpecEat: bool, items: seq<KindItem>, l: seq<nat>, idx: nat,
                   eat: seq<Card>)
    requires color < 5 && 1 <= idx < PokerNum(color) && eat in CanEat(color, idx, isSpecEat)
    requires items == HandItems(hand, color, isSpecEat) && Largest(ColorTiles(hand, color), items, l)
    ensures !(multiset(eat) <= ColorTiles(hand, color) - Listed(Pick(items, l)))
  {
    var tiles := ColorTiles(hand, color);
    EatStartsAt(color, idx, isSpecEat, eat);
    if multiset(eat) <= tiles - Listed(Pick(items, l)) {
      RestHasThree(tiles, Listed(Pick(items, l)), eat);
      HandItemsAre(hand, color, isSpecEat);
      var card, eats, y := TileCode(color, idx), CanEat(color, idx, isSpecEat), NewByData(eat[0], eat[1], eat[2], Chi);
      ItemsInside(multiset(hand), color, isSpecEat, idx, y);
      CopyLeft(multiset(hand), tiles, items, l, card, eats, eat, y);
    }
  }

  // ----- None of the items of the search is free -----

  lemma {:induction false} EatItemsAre(eat: seq<Card>, c1: nat, c2: nat, c3: nat, kings: int)
    requires |eat| == 3
    ensures forall i ::
              0 <= i < |EatItems(eat, c1, c2, c3, kings)| ==> EatItems(eat, c1, c2, c3, kings)[i].cardIdx == eat
    decreases c1 + c2 + c3
  {
    if c1 + c2 + c3 + kings >= 3 && c1 + c2 != 0 && c1 + c3 != 0 && c2 + c3 != 0 {
      EatItemsAre(eat, Less(c1), Less(c2), Less(c3), kings - (Missing(c1) + Missing(c2) + Missing(c3)));
      assert [eat[0], eat[1], eat[2]] == eat;
    }
  }

  ghost predicate NoFreeAt(tiles: multiset<Card>, eats: seq<seq<Card>>) {
    forall i :: 0 <= i < |eats| ==> !(multiset(eats[i]) <= tiles)
  }

  lemma {:induction false} AllEatItemsAre(tiles: multiset<Card>, kings: int, eats: seq<seq<Card>>)
    requires forall i :: 0 <= i < |eats| ==> |eats[i]| == 3
    ensures NoFreeAt(tiles, eats) ==> NoneFree(tiles, AllEatItems(tiles, kings, eats))
  {
    if eats != [] && NoFreeAt(tiles, eats) {
      var eat := eats[|eats| - 1];
      AllEatItemsAre(tiles, kings, eats[..|eats| - 1]);
      EatItemsAre(eat, tiles[eat[0]], tiles[eat[1]], tiles[eat[2]], kings);
    }
  }

  lemma PengItemsTake(tiles: multiset<Card>, kings: int, card: Card)
    ensures NoneFree(tiles, PengItems(tiles, kings, card))
  {
    assert multiset([card, card, card])[card] == 3;
  }

  /** No sequence of the colour is held as it is. */
  ghost predicate NoFreeEat(tiles: multiset<Card>, color: nat, isSpecEat: bool)
    requires color < 5
  {
    forall idx: nat :: 1 <= idx < PokerNum(color) ==> NoFreeAt(tiles, CanEat(color, idx, isSpecEat))
  }

  lemma NoneFreeConcat(tiles: multiset<Card>, a: seq<KindItem>, b: seq<KindItem>)
    requires NoneFree(tiles, a) && NoneFree(tiles, b)
    ensures NoneFree(tiles, a + b)
  {
  }

  lemma KingItemsStep(tiles: multiset<Card>, kings: int, color: nat, isSpecEat: bool, rank: nat)
    requires color < 5 && 1 < rank <= PokerNum(color)
             && NoneFree(tiles, KingItems(tiles, kings, color, isSpecEat, rank - 1))
    ensures NoFreeAt(tiles, CanEat(color, rank - 1, isSpecEat))
            ==> NoneFree(tiles, KingItems(tiles, kings, color, isSpecEat, rank))
  {
    if NoFreeAt(tiles, CanEat(color, rank - 1, isSpecEat)) {
      var lower := KingItems(tiles, kings, color, isSpecEat, rank - 1);
      var pengs := PengItems(tiles, kings, TileCode(color, rank - 1));
      PengItemsTake(tiles, kings, TileCode(color, rank - 1));
      AllEatItemsAre(tiles, kings, CanEat(color, rank - 1, isSpecEat));
      NoneFreeConcat(tiles, lower, pengs);
      NoneFreeConcat(tiles, lower + pengs, AllEatItems(tiles, kings, CanEat(color, rank - 1, isSpecEat)));
    }
  }

  lemma {:induction false} KingItemsTake(tiles: multiset<Card>, kings: int, color: nat, isSpecEat: bool, rank: nat)
    requires color < 5 && rank <= PokerNum(color) && NoFreeEat(tiles, color, isSpecEat)
    ensures NoneFree(tiles, KingItems(tiles, kings, color, isSpecEat, rank))
  {
    if rank > 1 {
      KingItemsTake(tiles, kings, color, isSpecEat, rank - 1);
      KingItemsStep(tiles, kings, color, isSpecEat, rank);
    }
  }

  lemma NoEatLeft(hand: seq<Card>, color: nat, isSpecEat: bool, l: seq<nat>)
    requires color < 5 && Largest(ColorTiles(hand, color), HandItems(hand, color, isSpecEat), l)
    ensures NoFreeEat(ColorTiles(hand, color) - Listed(Pick(HandItems(hand, color, isSpecEat), l)), color, isSpecEat)
  {
    var items := HandItems(hand, color, isSpecEat);
    var rest := ColorTiles(hand, color) - Listed(Pick(items, l));
    forall idx: nat | 1 <= idx < PokerNum(color) ensures NoFreeAt(rest, CanEat(color, idx, isSpecEat)) {
      forall i | 0 <= i < |CanEat(color, idx, isSpecEat)|
        ensures !(multiset(CanEat(color, idx, isSpecEat)[i]) <= rest) {
        EatInColor(hand, color, isSpecEat, items, l, idx, CanEat(color, idx, isSpecEat)[i]);
      }
    }
  }

  lemma RestNoneFree(hand: seq<Card>, color: nat, kings: int, isSpecEat: bool, l: seq<nat>)
    requires color < 5 && Largest(ColorTiles(hand, color), HandItems(hand, color, isSpecEat), l)
    ensures var rest := ColorTiles(hand, color) - Listed(Pick(HandItems(hand, color, isSpecEat), l));
            NoneFree(rest, SearchedHand(rest, kings, color, isSpecEat).items)
  {
    NoEatLeft(hand, color, isSpecEat, l);
    KingItemsTake(ColorTiles(hand, color) - Listed(Pick(HandItems(hand, color, isSpecEat), l)), kings, color, isSpecEat,
      PokerNum(color));
  }

  // ----- The bounds lose nothing -----

  /** The tiles can be split up with c of the wildcards, by any choice at all. */
  ghost predicate Splits(tiles: multiset<Card>, kings: int, color: nat, isSpecEat: bool, c: int)
    requires color < 5
  {
    if tiles == multiset{} then c == 0
    else
      var h := SearchedHand(tiles, kings, color, isSpecEat);
      exists l :: Combine.Subset(l, |h.items|, |l|) && Passes(h, Pick(h.items, l)) && c == CostOf(h, Pick(h.items, l))
  }

  /** A colour can be dealt with for c wildcards: some largest free choice leaves
      tiles that can be split up for so many. */
  ghost predicate CanBeDealtWith(hand: seq<Card>, color: nat, kings: int, isSpecEat: bool, c: int)
    requires color < 5
  {
    exists l :: Largest(ColorTiles(hand, color), HandItems(hand, color, isSpecEat), l)
                && Splits(ColorTiles(hand, color) - Listed(Pick(HandItems(hand, color, isSpecEat), l)), kings, color,
                   isSpecEat, c)
  }

  lemma RestSplits(hand: seq<Card>, color: nat, kings: int, isSpecEat: bool, l: seq<nat>, c: int)
    requires color < 5 && Largest(ColorTiles(hand, color), HandItems(hand, color, isSpecEat), l)
    requires kings >= 0 && |ColorTiles(hand, color)| <= 301
    ensures var rest := ColorTiles(hand, color) - Listed(Pick(HandItems(hand, color, isSpecEat), l));
            && (c < 255 ==> (Splits(rest, kings, color, isSpecEat, c) <==> Completes(rest, kings, color, isSpecEat, c)))
            && (Splits(rest, kings, color, isSpecEat, c) ==> 0 <= c <= kings && |rest| <= 2 * kings + 2)
  {
    var chosen := Pick(HandItems(hand, color, isSpecEat), l);
    var rest := ColorTiles(hand, color) - Listed(chosen);
    var h := SearchedHand(rest, kings, color, isSpecEat);
    CardSub(Listed(chosen), ColorTiles(hand, color));
    SearchedLegal(rest, kings, color, isSpecEat);
    RestNoneFree(hand, color, kings, isSpecEat, l);
    forall k | Combine.Subset(k, |h.items|, |k|) && Passes(h, Pick(h.items, k))
      ensures CostOf(h, Pick(h.items, k)) < 255 ==> Candidate(h, k)
      ensures CostOf(h, Pick(h.items, k)) <= kings && |rest| <= 2 * kings + 2
    {
      PickTriples(h.items, k, isSpecEat);
      PickNoneFree(rest, h.items, k);
      PassingSize(h, Pick(h.items, k), isSpecEat);
      if CostOf(h, Pick(h.items, k)) < 255 {
        AllSearched(h, k, isSpecEat);
      }
    }
  }

  lemma HandItemsLegal(hand: seq<Card>, color: nat, isSpecEat: bool)
    requires color < 5
    ensures AllTriples(HandItems(hand, color, isSpecEat), isSpecEat)
  {
    FreeItemsLegal(multiset(hand), color, isSpecEat, PokerNum(color));
  }

  /** For up to 301 tiles of a colour only one bound of the search matters, that
      of 255 wildcards: a colour is dealt with for c wildcards exactly when c is
      less and that can be done after some largest free choice by any choice of
      items. */
  lemma BoundsLoseNothing(hand: seq<Card>, color: nat, kings: int, isSpecEat: bool, c: int)
    requires color < 5 && kings >= 0 && |ColorTiles(hand, color)| <= 301
    ensures ColorCosts(hand, color, kings, isSpecEat, c) <==>
            c < 255 && CanBeDealtWith(hand, color, kings, isSpecEat, c)
  {
    var tiles, items := ColorTiles(hand, color), HandItems(hand, color, isSpecEat);
    forall l | Largest(tiles, items, l)
      ensures c < 255 ==>
                (Splits(tiles - Listed(Pick(items, l)), kings, color, isSpecEat, c) <==>
                 Completes(tiles - Listed(Pick(items, l)), kings, color, isSpecEat, c))
      ensures Splits(tiles - Listed(Pick(items, l)), kings, color, isSpecEat, c) ==>
                c >= 0 && TopChoice(tiles, items, kings, l)
    {
      RestSplits(hand, color, kings, isSpecEat, l, c);
      HandItemsLegal(hand, color, isSpecEat);
      PickTriples(items, l, isSpecEat);
      TriplesSize(Pick(items, l), isSpecEat);
      CardSub(Listed(Pick(items, l)), tiles);
    }
    if ColorCosts(hand, color, kings, isSpecEat, c) {
      var l :| TopChoice(tiles, items, kings, l)
        && Completes(tiles - Listed(Pick(items, l)), kings, color, isSpecEat, c);
      assert Largest(tiles, items, l);
    }
  }
}
