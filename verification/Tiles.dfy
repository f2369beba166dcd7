/** Tile codes, hand items and count tables of src/game/majiang.rs, with the
    multisets that the proofs reason about. */
module Tiles {

  type Card = c: int | 0 <= c < 256

  const KING_IDX: Card := 255

  datatype Kind = Null | Chi | Peng | Dui

  datatype KindItem = KindItem(cardIdx: seq<Card>, kindType: Kind, useKingCount: int)

  type Counts = map<Card, int>

  /** A count table that is changed in place. */
  class CardIdx {
    var m: Counts

    constructor (m: Counts)
      ensures this.m == m
    {
      this.m := m;
    }
  }

  function NewByData(card1: Card, card2: Card, card3: Card, kindType: Kind): KindItem {
    KindItem([card1, card2, card3], kindType, 0)
  }

  // ----- Ranks and sequences -----

  /** One more than the highest rank of a colour. */
  function PokerNum(color: nat): nat
    requires color < 5
  {
    if color < 3 then 10 else if color == 3 then 5 else 4
  }

  function TileCode(color: nat, rank: nat): Card
    requires color < 8 && rank < 16
  {
    color * 16 + rank
  }

  /** A tile that exists in the game. */
  predicate RealTile(c: Card) {
    c / 16 < 5 && 1 <= c % 16 < PokerNum(c / 16)
  }

  /** The sequences that may start at a tile. */
  function CanEat(color: nat, idx: nat, isSpecEat: bool): (r: seq<seq<Card>>)
    requires idx < 16
    ensures forall i :: 0 <= i < |r| ==> |r[i]| == 3 && forall j :: 0 <= j < 3 ==> r[i][j] < 100
  {
    if !isSpecEat && color >= 3 then []
    else if color > 7 then []
    else
      var first := TileCode(color, idx);
      if color < 3 then [[first, first + 1, first + 2]]
      else if color == 3 then
        if idx == 1 then
          [[first, first + 1, first + 2], [first, first + 1, first + 3], [first, first + 2, first + 3]]
        else if idx == 2 then [[first, first + 1, first + 2]]
        else []
      else if color == 4 then [[first, first + 1, first + 2]]
      else []
  }

  /** A sequence that the rules allow at its first tile. */
  predicate IsEat(cards: seq<Card>, isSpecEat: bool) {
    && |cards| == 3
    && cards[0] / 16 < 5
    && 1 <= cards[0] % 16 < PokerNum(cards[0] / 16)
    && cards in CanEat(cards[0] / 16, cards[0] % 16, isSpecEat)
  }

  /** An item a hand may be split into: a triple or a pair of one tile, or a
      sequence that the rules allow. */
  predicate LegalItem(item: KindItem, isSpecEat: bool) {
    match item.kindType
    case Null => false
    case Peng => |item.cardIdx| == 3 && item.cardIdx[0] == item.cardIdx[1] == item.cardIdx[2]
    case Dui => |item.cardIdx| == 2 && item.cardIdx[0] == item.cardIdx[1]
    case Chi => IsEat(item.cardIdx, isSpecEat)
  }

  predicate LegalTriple(item: KindItem, isSpecEat: bool) {
    item.kindType != Dui && LegalItem(item, isSpecEat) && KING_IDX !in item.cardIdx
  }

  lemma TripleShape(item: KindItem, isSpecEat: bool)
    requires LegalTriple(item, isSpecEat)
    ensures |item.cardIdx| == 3 && KING_IDX !in item.cardIdx
  {
  }

  // ----- Tables and lists as multisets -----

  ghost predicate ValidCounts(m: Counts) {
    forall c <- m :: m[c] >= 0
  }

  ghost function Kings(m: Counts): int {
    if KING_IDX in m then m[KING_IDX] else 0
  }

  ghost predicate IsHeld(m: Counts, tiles: multiset<Card>) {
    forall c: Card :: tiles[c] == if c in m && c != KING_IDX then m[c] else 0
  }

  lemma HeldExists(m: Counts) returns (tiles: multiset<Card>)
    requires ValidCounts(m)
    ensures IsHeld(m, tiles)
    decreases |m|
  {
    if m == map[] {
      tiles := multiset{};
    } else {
      var k :| k in m;
      tiles := HeldExists(m - {k});
      if k != KING_IDX {
        tiles := tiles[k := m[k]];
      }
    }
  }

  /** The ordinary tiles a table holds. */
  ghost function Held(m: Counts): (r: multiset<Card>)
    requires ValidCounts(m)
    ensures IsHeld(m, r)
  {
    assert exists tiles :: IsHeld(m, tiles) by { var tiles := HeldExists(m); }
    var tiles :| IsHeld(m, tiles);
    tiles
  }

  /** The tiles of a list of items, in order. */
  function HuPokers(list: seq<KindItem>): seq<Card> {
    if list == [] then [] else HuPokers(list[..|list| - 1]) + list[|list| - 1].cardIdx
  }

  /** The tiles of a list of items, as a multiset. */
  ghost function Listed(list: seq<KindItem>): multiset<Card> {
    if list == [] then multiset{} else Listed(list[..|list| - 1]) + multiset(list[|list| - 1].cardIdx)
  }

  lemma {:induction false} ListedIsHuPokers(list: seq<KindItem>)
    ensures multiset(HuPokers(list)) == Listed(list)
  {
    if list != [] {
      ListedIsHuPokers(list[..|list| - 1]);
    }
  }

  lemma ListedSnoc(list: seq<KindItem>, item: KindItem)
    ensures Listed(list + [item]) == Listed(list) + multiset(item.cardIdx)
  {
    assert (list + [item])[..|list|] == list;
  }

  lemma {:induction false} ListedConcat(a: seq<KindItem>, b: seq<KindItem>)
    ensures Listed(a + b) == Listed(a) + Listed(b)
  {
    if b == [] {
      assert a + b == a;
    } else {
      var b', x := b[..|b| - 1], b[|b| - 1];
      assert a + b == (a + b') + [x] && b == b' + [x];
      ListedConcat(a, b');
      ListedSnoc(a + b', x);
      ListedSnoc(b', x);
    }
  }

  lemma {:induction false} ListedThrees(list: seq<KindItem>)
    requires forall i :: 0 <= i < |list| ==> |list[i].cardIdx| == 3
    ensures |Listed(list)| == 3 * |list|
  {
    if list != [] {
      ListedThrees(list[..|list| - 1]);
    }
  }

  lemma CardSub<T>(x: multiset<T>, y: multiset<T>)
    requires x <= y
    ensures |x| <= |y| && |y - x| == |y| - |x|
  {
    assert y == x + (y - x);
  }

  // ----- Charging tiles to a table -----

  /** How many wildcards it takes to fill `need` from `held`. */
  ghost function Shortfall(held: multiset<Card>, need: multiset<Card>): nat {
    |need - held|
  }

  /** Charging one list after another costs what charging them together costs. */
  lemma ShortfallAdds(held: multiset<Card>, a: multiset<Card>, b: multiset<Card>)
    ensures Shortfall(held, a + b) == Shortfall(held, a) + Shortfall(held - a, b)
    ensures held - (a + b) == held - a - b
  {
    assert a + b - held == (a - held) + (b - (held - a));
  }

  lemma ShortfallMonotone(held: multiset<Card>, a: multiset<Card>, b: multiset<Card>)
    requires a <= b
    ensures Shortfall(held, a) <= Shortfall(held, b)
  {
    CardSub(a - held, b - held);
  }

  /** Sizes balance: what is listed is what was held, less what is left over,
      plus the wildcards. */
  lemma ShortfallBalance(held: multiset<Card>, need: multiset<Card>)
    ensures |need| + |held - need| == |held| + Shortfall(held, need)
  {
    assert need + (held - need) == held + (need - held);
  }

  /** The table after charging `need` to a table that could afford it. */
  ghost predicate Charged(before: Counts, need: multiset<Card>, after: Counts)
    requires ValidCounts(before)
  {
    && ValidCounts(after)
    && Held(after) == Held(before) - need
    && Kings(after) == Kings(before) - Shortfall(Held(before), need)
    && (KING_IDX in after <==> KING_IDX in before)
  }

  lemma TakeTile(m: Counts, c: Card)
    requires ValidCounts(m) && c != KING_IDX && c in m && m[c] > 0
    ensures ValidCounts(m[c := m[c] - 1]) && Held(m[c := m[c] - 1]) == Held(m) - multiset{c}
    ensures Charged(m, multiset{c}, m[c := m[c] - 1]) && Shortfall(Held(m), multiset{c}) == 0
  {
    assert multiset{c} - Held(m) == multiset{};
  }

  lemma TakeKing(m: Counts, c: Card)
    requires ValidCounts(m) && c != KING_IDX && (c !in m || m[c] == 0)
    ensures Shortfall(Held(m), multiset{c}) == 1
    ensures Kings(m) > 0 ==> Charged(m, multiset{c}, m[KING_IDX := m[KING_IDX] - 1])
  {
    assert multiset{c} - Held(m) == multiset{c};
    if Kings(m) > 0 {
      var m' := m[KING_IDX := m[KING_IDX] - 1];
      assert Held(m') == Held(m) == Held(m) - multiset{c};
    }
  }

  /** Take one tile from the table, or a wildcard when that tile is used up. */
  method CostOneCard(temp: CardIdx, card: Card) returns (ok: bool)
    requires ValidCounts(temp.m) && card != KING_IDX
    modifies temp
    ensures ValidCounts(temp.m)
    ensures ok <==> Shortfall(old(Held(temp.m)), multiset{card}) <= old(Kings(temp.m))
    ensures ok ==> Charged(old(temp.m), multiset{card}, temp.m)
    ensures !ok ==> temp.m == old(temp.m)
  {
    var m := temp.m;
    if card in m && m[card] != 0 {
      if m[card] <= 0 {
        return false;
      }
      TakeTile(m, card);
      assert Kings(m) >= 0;
      temp.m := m[card := m[card] - 1];
    } else {
      TakeKing(m, card);
      if KING_IDX !in m {
        return false;
      }
      if m[KING_IDX] <= 0 {
        return false;
      }
      temp.m := m[KING_IDX := m[KING_IDX] - 1];
    }
    ok := true;
  }

  lemma ChargeStep(before: Counts, cards: seq<Card>, i: nat, now: Counts, after: Counts, ok: bool)
    requires ValidCounts(before) && i < |cards| && Charged(before, multiset(cards[..i]), now)
    requires ok <==> Shortfall(Held(now), multiset{cards[i]}) <= Kings(now)
    requires ok ==> Charged(now, multiset{cards[i]}, after)
    ensures ok ==> Charged(before, multiset(cards[..i + 1]), after)
    ensures !ok ==> Shortfall(Held(before), multiset(cards)) > Kings(before)
  {
    var done, last := multiset(cards[..i]), multiset{cards[i]};
    assert cards[..i + 1] == cards[..i] + [cards[i]];
    ShortfallAdds(Held(before), done, last);
    if !ok {
      assert cards == cards[..i + 1] + cards[i + 1..];
      ShortfallMonotone(Held(before), done + last, multiset(cards));
    }
  }

  /** Charge the three tiles of an item. Success depends only on the total
      shortfall; on failure the table may be partly charged. */
  method CostOneItems(temp: CardIdx, item: KindItem) returns (ok: bool)
    requires ValidCounts(temp.m)
    requires |item.cardIdx| == 3 && KING_IDX !in item.cardIdx
    modifies temp
    ensures ok <==> Shortfall(old(Held(temp.m)), multiset(item.cardIdx)) <= old(Kings(temp.m))
    ensures ok ==> Charged(old(temp.m), multiset(item.cardIdx), temp.m)
  {
    var cards := item.cardIdx;
    ghost var before := temp.m;
    for i := 0 to 3
      invariant Charged(before, multiset(cards[..i]), temp.m)
    {
      ghost var now := temp.m;
      ok := CostOneCard(temp, cards[i]);
      ChargeStep(before, cards, i, now, temp.m, ok);
      if !ok {
        return;
      }
    }
    assert cards[..3] == cards;
    ok := true;
  }

  // ----- Taking listed tiles out of a table -----

  method CalcHuPokers(list: seq<KindItem>) returns (resultList: seq<Card>)
    ensures resultList == HuPokers(list)
  {
    resultList := [];
    for i := 0 to |list|
      invariant resultList == HuPokers(list[..i])
    {
      assert list[..i + 1][..i] == list[..i];
      resultList := resultList + list[i].cardIdx;
    }
    assert list[..|list|] == list;
  }

  /** One listed tile taken out; an entry that reaches zero is dropped. */
  function RemoveOne(m: Counts, c: Card): Counts {
    if c !in m then m
    else
      var count := if m[c] >= 1 then m[c] - 1 else m[c];
      var m' := if m[c] >= 1 then m[c := count] else m;
      if count == 0 then m' - {c} else m'
  }

  method SubOnePoker(cardIdx: Counts, poker: Card) returns (newCardIdx: Counts)
    ensures newCardIdx == RemoveOne(cardIdx, poker)
  {
    newCardIdx := cardIdx;
    if poker !in newCardIdx {
      return;
    }
    var count := newCardIdx[poker];
    if count >= 1 {
      count := count - 1;
      newCardIdx := newCardIdx[poker := count];
    }
    if count == 0 {
      newCardIdx := newCardIdx - {poker};
    }
  }

  ghost predicate Removed(before: Counts, gone: multiset<Card>, after: Counts)
    requires ValidCounts(before)
  {
    && ValidCounts(after)
    && Held(after) == Held(before) - gone
    && (KING_IDX in after <==> KING_IDX in before)
    && Kings(after) == Kings(before)
  }

  lemma MinusTwice(x: multiset<Card>, a: multiset<Card>, b: multiset<Card>)
    ensures x - a - b == x - (a + b)
  {
  }

  lemma RemoveOneHeld(m: Counts, c: Card)
    requires ValidCounts(m) && c != KING_IDX
    ensures Removed(m, multiset{c}, RemoveOne(m, c))
  {
    var after := RemoveOne(m, c);
    assert forall k :: k in after <==> k in m && (k != c || m[c] > 1);
    assert ValidCounts(after);
    assert Held(after) == Held(m) - multiset{c};
  }

  lemma RemoveStep(before: Counts, cards: seq<Card>, i: nat, now: Counts)
    requires ValidCounts(before) && i < |cards| && cards[i] != KING_IDX
    requires Removed(before, multiset(cards[..i]), now)
    ensures Removed(before, multiset(cards[..i + 1]), RemoveOne(now, cards[i]))
  {
    RemoveOneHeld(now, cards[i]);
    assert cards[..i + 1] == cards[..i] + [cards[i]];
    MinusTwice(Held(before), multiset(cards[..i]), multiset{cards[i]});
  }

  method SubNumPokers(cardIdx: Counts, list: seq<KindItem>) returns (newCardIdx: Counts)
    requires ValidCounts(cardIdx) && KING_IDX !in HuPokers(list)
    ensures Removed(cardIdx, Listed(list), newCardIdx)
  {
    var pokerList := CalcHuPokers(list);
    newCardIdx := cardIdx;
    for i := 0 to |pokerList|
      invariant Removed(cardIdx, multiset(pokerList[..i]), newCardIdx)
    {
      assert pokerList[i] in pokerList;
      RemoveStep(cardIdx, pokerList, i, newCardIdx);
      newCardIdx := SubOnePoker(newCardIdx, pokerList[i]);
    }
    assert pokerList[..|pokerList|] == pokerList;
    ListedIsHuPokers(list);
  }

  /** Hash-map iteration: the tables are walked in an arbitrary order. */
  method GetPokerIdxSum(pokerIdx: Counts) returns (sum: int)
    requires ValidCounts(pokerIdx)
    ensures sum == |Held(pokerIdx)| + Kings(pokerIdx)
  {
    sum := 0;
    var left := pokerIdx.Keys;
    ghost var seen: Counts := map[];
    while left != {}
      invariant left <= pokerIdx.Keys
      invariant seen == pokerIdx - left
      invariant ValidCounts(seen) && sum == |Held(seen)| + Kings(seen)
      decreases left
    {
      var key :| key in left;
      ghost var was := Held(seen);
      left := left - {key};
      sum := sum + pokerIdx[key];
      seen := pokerIdx - left;
      if key == KING_IDX {
        assert Held(seen) == was;
      } else {
        assert Held(seen) == was[key := pokerIdx[key]];
      }
    }
    assert seen == pokerIdx;
  }

  method PushCopies(list: seq<Card>, key: Card, n: nat) returns (r: seq<Card>)
    requires key !in list
    ensures multiset(r) == multiset(list)[key := n]
  {
    r := list;
    for i := 0 to n
      invariant multiset(r) == multiset(list)[key := i]
    {
      r := r + [key];
    }
  }

  lemma HeldInsert(m: Counts, seen: Counts, key: Card)
    requires ValidCounts(m) && ValidCounts(seen) && key in m && key !in seen
    ensures ValidCounts(seen[key := m[key]])
    ensures Held(seen[key := m[key]]) == if key == KING_IDX then Held(seen) else Held(seen)[key := m[key]]
    ensures key !in Held(seen)
  {
  }

  method IdxToList(pokerIdx: Counts) returns (pokerList: seq<Card>)
    requires ValidCounts(pokerIdx)
    ensures multiset(pokerList) == Held(pokerIdx)
  {
    pokerList := [];
    var left := pokerIdx.Keys;
    ghost var seen: Counts := map[];
    while left != {}
      invariant left <= pokerIdx.Keys
      invariant seen == pokerIdx - left
      invariant ValidCounts(seen) && multiset(pokerList) == Held(seen)
      decreases left
    {
      var key :| key in left;
      HeldInsert(pokerIdx, seen, key);
      left := left - {key};
      if key != KING_IDX {
        pokerList := PushCopies(pokerList, key, pokerIdx[key]);
      }
      seen := seen[key := pokerIdx[key]];
      assert seen == pokerIdx - left;
    }
    assert seen == pokerIdx;
  }
}
