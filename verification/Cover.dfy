/** What a largest free choice leaves of a colour in mahjong: the search of
    `calc_ttt_combine` in src/game/majiang.rs finds nothing worse than any split
    of it. */
module Cover {
  import opened Tiles
  import opened KingSearch
  import opened HuCheck
  import opened SearchBounds
  import opened Completeness
  import Combine

  // ----- Covering tiles with triples -----

  /** What a largest free choice leaves of a colour: no tile is there three times,
      and no sequence. */
  ghost predicate Sparse(tiles: multiset<Card>, color: nat, isSpecEat: bool)
    requires color < 5
  {
    && (forall c: Card :: tiles[c] <= 2 && (tiles[c] > 0 ==> RealTile(c) && c / 16 == color))
    && NoFreeEat(tiles, color, isSpecEat)
  }

  /** At how many of its places a sequence finds a tile. */
  ghost function Hits(tiles: multiset<Card>, eat: seq<Card>): nat
    requires |eat| == 3
  {
    (if tiles[eat[0]] > 0 then 1 else 0) + (if tiles[eat[1]] > 0 then 1 else 0) + if tiles[eat[2]] > 0 then 1 else 0
  }

  /** A sequence of the colour that takes two tiles and one wildcard. */
  ghost predicate Useful(tiles: multiset<Card>, y: KindItem, color: nat, isSpecEat: bool) {
    && y.kindType == Chi && y.useKingCount == 1
    && IsEat(y.cardIdx, isSpecEat) && y.cardIdx[0] / 16 == color && Hits(tiles, y.cardIdx) == 2
  }

  /** The held tiles are covered by sequences, each of which takes two tiles, and
      by triples of one tile. */
  ghost predicate Covers(tiles: multiset<Card>, held: multiset<Card>, eats: seq<KindItem>, pengs: set<Card>, color: nat,
                         isSpecEat: bool) {
    && (forall y :: y in eats ==> Useful(tiles, y, color, isSpecEat))
    && (forall y: KindItem, c: Card :: c in y.cardIdx && tiles[c] > 0 ==> Occurs(eats, y) <= held[c])
    && (forall c: Card :: c in pengs ==> tiles[c] > 0)
    && (forall c: Card :: held[c] <= Listed(eats)[c] + if c in pengs then 3 else 0)
  }

  lemma InTriple(x: seq<Card>, c: Card)
    requires |x| == 3
    ensures multiset(x)[c] == (if x[0] == c then 1 else 0) + (if x[1] == c then 1 else 0) + if x[2] == c then 1 else 0
  {
    assert x == [x[0], x[1], x[2]];
  }

  lemma EatShape(eat: seq<Card>, isSpecEat: bool)
    requires IsEat(eat, isSpecEat)
    ensures eat[0] < eat[1] < eat[2] && eat[1] / 16 == eat[0] / 16 && eat[2] / 16 == eat[0] / 16
  {
    var first, idx := eat[0], eat[0] % 16;
    assert TileCode(first / 16, idx) == first;
    assert first + 1 == 16 * (first / 16) + (idx + 1) && first + 2 == 16 * (first / 16) + (idx + 2);
    assert first / 16 == 3 && idx == 1 ==> first + 3 == 16 * (first / 16) + (idx + 3);
  }

  lemma WhollyHeld(tiles: multiset<Card>, eat: seq<Card>)
    requires |eat| == 3 && eat[0] < eat[1] < eat[2] && Hits(tiles, eat) == 3
    ensures multiset(eat) <= tiles
  {
    forall d: Card ensures multiset(eat)[d] <= tiles[d] { InTriple(eat, d); }
  }

  lemma EatHits(tiles: multiset<Card>, color: nat, isSpecEat: bool, eat: seq<Card>)
    requires color < 5 && Sparse(tiles, color, isSpecEat) && IsEat(eat, isSpecEat)
    ensures Hits(tiles, eat) <= 2
    ensures Hits(tiles, eat) > 0 ==> eat[0] / 16 == color
  {
    EatShape(eat, isSpecEat);
    if Hits(tiles, eat) == 3 {
      assert tiles[eat[0]] > 0;
      assert NoFreeAt(tiles, CanEat(color, eat[0] % 16, isSpecEat));
      WhollyHeld(tiles, eat);
    }
  }

  lemma SameHits(held: multiset<Card>, tiles: multiset<Card>, x: seq<Card>, c: Card)
    requires |x| == 3 && held <= tiles && Hits(held, x) == Hits(tiles, x) && c in x && tiles[c] > 0
    ensures held[c] > 0
  {
  }

  /** Every copy of a sequence takes its own tiles. */
  lemma CopyTakes(tiles: multiset<Card>, held: multiset<Card>, eats: seq<KindItem>, y: KindItem, z: KindItem, c: Card)
    requires |y.cardIdx| == 3 && held <= tiles && Hits(held, y.cardIdx) == Hits(tiles, y.cardIdx)
    requires c in z.cardIdx && tiles[c] > 0 && Occurs(eats, z) <= (held - multiset(y.cardIdx))[c]
    ensures Occurs(eats + [y], z) <= held[c]
  {
    OccursLast(eats, y, z);
    if z == y {
      SameHits(held, tiles, y.cardIdx, c);
      assert multiset(y.cardIdx)[c] > 0;
    }
  }

  /** One more sequence, which takes two of the tiles. */
  lemma CoverEat(tiles: multiset<Card>, held: multiset<Card>, eats: seq<KindItem>, pengs: set<Card>, color: nat,
                 isSpecEat: bool, y: KindItem)
    requires color < 5 && held <= tiles && Useful(tiles, y, color, isSpecEat) && Hits(held, y.cardIdx) == 2
    requires Covers(tiles, held - multiset(y.cardIdx), eats, pengs, color, isSpecEat)
    ensures Covers(tiles, held, eats + [y], pengs, color, isSpecEat)
  {
    var less := held - multiset(y.cardIdx);
    forall z: KindItem, c: Card | c in z.cardIdx && tiles[c] > 0 ensures Occurs(eats + [y], z) <= held[c] {
      CopyTakes(tiles, held, eats, y, z, c);
    }
    forall c: Card ensures held[c] <= Listed(eats + [y])[c] + if c in pengs then 3 else 0 {
      assert less[c] <= Listed(eats)[c] + if c in pengs then 3 else 0;
      ListedSnoc(eats, y);
    }
  }

  /** One triple more of a tile. */
  lemma CoverPeng(tiles: multiset<Card>, held: multiset<Card>, taken: multiset<Card>, eats: seq<KindItem>,
                  pengs: set<Card>,
                  color: nat, isSpecEat: bool, t: Card)
    requires color < 5 && held <= tiles && Sparse(tiles, color, isSpecEat) && held[t] > 0
    requires Covers(tiles, held - taken, eats, pengs, color, isSpecEat)
    requires forall c: Card :: held[c] > 0 && taken[c] > 0 ==> c == t
    ensures Covers(tiles, held, eats, pengs + {t}, color, isSpecEat)
  {
    var less := held - taken;
    forall z: KindItem, c: Card | c in z.cardIdx && tiles[c] > 0 ensures Occurs(eats, z) <= held[c] {
      assert Occurs(eats, z) <= less[c] <= held[c];
    }
    forall c: Card ensures held[c] <= Listed(eats)[c] + if c in pengs + {t} then 3 else 0 {
      assert less[c] <= Listed(eats)[c] + if c in pengs then 3 else 0;
      assert held[c] <= tiles[c] <= 2;
    }
  }

  lemma OneHit(held: multiset<Card>, x: seq<Card>) returns (t: Card)
    requires |x| == 3 && Hits(held, x) > 0 && (Hits(held, x) == 1 || x[0] == x[1] == x[2])
    ensures held[t] > 0 && forall c: Card :: held[c] > 0 && multiset(x)[c] > 0 ==> c == t
  {
    t := if held[x[0]] > 0 then x[0] else if held[x[1]] > 0 then x[1] else x[2];
    forall c: Card | held[c] > 0 && multiset(x)[c] > 0 ensures c == t { InTriple(x, c); }
  }

  lemma NoHit(held: multiset<Card>, x: seq<Card>)
    requires |x| == 3 && Hits(held, x) == 0
    ensures held - multiset(x) == held
  {
    forall c: Card ensures (held - multiset(x))[c] == held[c] { InTriple(x, c); }
  }

  lemma HitsGrow(held: multiset<Card>, tiles: multiset<Card>, x: seq<Card>)
    requires |x| == 3 && held <= tiles
    ensures Hits(held, x) <= Hits(tiles, x)
  {
  }

  lemma CoverMore(tiles: multiset<Card>, held: multiset<Card>, eats0: seq<KindItem>, pengs0: set<Card>, color: nat,
                  isSpecEat: bool, x: KindItem)
    returns (eats: seq<KindItem>, pengs: set<Card>)
    requires color < 5 && Sparse(tiles, color, isSpecEat) && held <= tiles && Plain(x, isSpecEat)
    requires Covers(tiles, held - multiset(x.cardIdx), eats0, pengs0, color, isSpecEat)
    ensures Covers(tiles, held, eats, pengs, color, isSpecEat) && |eats| + |pengs| <= |eats0| + |pengs0| + 1
  {
    eats, pengs := eats0, pengs0;
    if x.kindType == Chi && Hits(held, x.cardIdx) >= 2 {
      var y := x.(useKingCount := 1);
      EatHits(tiles, color, isSpecEat, x.cardIdx);
      HitsGrow(held, tiles, x.cardIdx);
      CoverEat(tiles, held, eats, pengs, color, isSpecEat, y);
      eats := eats + [y];
    } else if Hits(held, x.cardIdx) == 0 {
      NoHit(held, x.cardIdx);
    } else {
      var t := OneHit(held, x.cardIdx);
      CoverPeng(tiles, held, multiset(x.cardIdx), eats, pengs, color, isSpecEat, t);
      pengs := pengs + {t};
    }
  }

  /** Of the tiles that a list of triples holds, as many triples of the kinds that
      are searched hold as many. */
  lemma {:induction false} Covered(tiles: multiset<Card>, held: multiset<Card>, list: seq<KindItem>, color: nat,
                                   isSpecEat: bool)
    returns (eats: seq<KindItem>, pengs: set<Card>)
    requires color < 5 && Sparse(tiles, color, isSpecEat) && held <= tiles && held <= Listed(list)
    requires forall y :: y in list ==> Plain(y, isSpecEat)
    ensures Covers(tiles, held, eats, pengs, color, isSpecEat) && |eats| + |pengs| <= |list|
  {
    if list == [] {
      eats, pengs := [], {};
    } else {
      var x := list[|list| - 1];
      assert Plain(x, isSpecEat);
      var less := held - multiset(x.cardIdx);
      eats, pengs := Covered(tiles, less, list[..|list| - 1], color, isSpecEat);
      eats, pengs := CoverMore(tiles, held, eats, pengs, color, isSpecEat, x);
    }
  }

  // ----- The cover is searched -----

  function PengOf(tiles: multiset<Card>, t: Card): KindItem {
    var n: int := tiles[t];
    KindItem([t, t, t], Peng, 3 - n)
  }

  predicate IsPengOf(tiles: multiset<Card>, pengs: set<Card>, y: KindItem) {
    y.cardIdx != [] && y.cardIdx[0] in pengs && y == PengOf(tiles, y.cardIdx[0])
  }

  lemma {:induction false} PengList(tiles: multiset<Card>, pengs: set<Card>) returns (list: seq<KindItem>)
    ensures |list| == |pengs| && forall y :: y in list ==> IsPengOf(tiles, pengs, y)
    ensures forall c: Card :: Listed(list)[c] == if c in pengs then 3 else 0
    decreases |pengs|
  {
    if pengs == {} {
      list := [];
    } else {
      var t :| t in pengs;
      var rest := PengList(tiles, pengs - {t});
      var x := PengOf(tiles, t);
      list := rest + [x];
      forall c: Card ensures Listed(list)[c] == if c in pengs then 3 else 0 {
        ListedSnoc(rest, x);
        InTriple(x.cardIdx, c);
      }
    }
  }

  // ----- What the search has to choose from -----

  lemma {:induction false} EatsCount(eat: seq<Card>, c1: nat, c2: nat, c3: nat, kings: int, m: nat)
    requires |eat| == 3 && m <= kings
    requires (c1 == 0 && m <= c2 && m <= c3) || (c2 == 0 && m <= c1 && m <= c3) || (c3 == 0 && m <= c1 && m <= c2)
    ensures Occurs(EatItems(eat, c1, c2, c3, kings), KindItem([eat[0], eat[1], eat[2]], Chi, 1)) >= m
    decreases m
  {
    if m > 0 {
      var y := KindItem([eat[0], eat[1], eat[2]], Chi, 1);
      EatsCount(eat, Less(c1), Less(c2), Less(c3), kings - 1, m - 1);
      EatItemsNext(eat, c1, c2, c3, kings);
      OccursConcat([y], EatItems(eat, Less(c1), Less(c2), Less(c3), kings - 1), y);
      OccursLast([], y, y);
      assert [] + [y] == [y];
    }
  }

  lemma {:induction false} AllEatsCount(tiles: multiset<Card>, kings: int, eats: seq<seq<Card>>, eat: seq<Card>,
                                        y: KindItem)
    requires (forall i :: 0 <= i < |eats| ==> |eats[i]| == 3) && eat in eats
    ensures Occurs(AllEatItems(tiles, kings, eats), y)
            >= Occurs(EatItems(eat, tiles[eat[0]], tiles[eat[1]], tiles[eat[2]], kings), y)
  {
    var init, last := eats[..|eats| - 1], eats[|eats| - 1];
    OccursConcat(AllEatItems(tiles, kings, init), EatItems(last, tiles[last[0]], tiles[last[1]], tiles[last[2]], kings),
      y);
    if last != eat {
      assert eats == init + [last];
      AllEatsCount(tiles, kings, init, eat, y);
    }
  }

  /** What the search builds at one rank. */
  function BuiltAt(tiles: multiset<Card>, kings: int, color: nat, isSpecEat: bool, idx: nat): seq<KindItem>
    requires color < 5 && 1 <= idx < PokerNum(color)
  {
    PengItems(tiles, kings, TileCode(color, idx)) + AllEatItems(tiles, kings, CanEat(color, idx, isSpecEat))
  }

  lemma BuiltNext(tiles: multiset<Card>, kings: int, color: nat, isSpecEat: bool, rank: nat)
    requires color < 5 && 1 <= rank < PokerNum(color)
    ensures KingItems(tiles, kings, color, isSpecEat, rank + 1) ==
            KingItems(tiles, kings, color, isSpecEat, rank) + BuiltAt(tiles, kings, color, isSpecEat, rank)
  {
  }

  lemma {:induction false} BuiltIsGathered(tiles: multiset<Card>, kings: int, color: nat, isSpecEat: bool,
                                           at: nat -> seq<KindItem>, rank: nat)
    requires color < 5 && rank <= PokerNum(color)
    requires forall r: nat :: 1 <= r < PokerNum(color) ==> at(r) == BuiltAt(tiles, kings, color, isSpecEat, r)
    ensures KingItems(tiles, kings, color, isSpecEat, rank) == Gather(at, rank)
  {
    if rank > 1 {
      BuiltIsGathered(tiles, kings, color, isSpecEat, at, rank - 1);
      BuiltNext(tiles, kings, color, isSpecEat, rank - 1);
    }
  }

  lemma BuiltInside(tiles: multiset<Card>, kings: int, color: nat, isSpecEat: bool, idx: nat, y: KindItem)
    requires color < 5 && 1 <= idx < PokerNum(color)
    ensures Occurs(KingItems(tiles, kings, color, isSpecEat, PokerNum(color)), y)
            >= Occurs(BuiltAt(tiles, kings, color, isSpecEat, idx), y)
  {
    var at := (r: nat) => if 1 <= r < PokerNum(color) then BuiltAt(tiles, kings, color, isSpecEat, r) else [];
    BuiltIsGathered(tiles, kings, color, isSpecEat, at, PokerNum(color));
    GatherHas(at, idx, PokerNum(color), y);
    OccursIs(KingItems(tiles, kings, color, isSpecEat, PokerNum(color)), y);
    OccursIs(BuiltAt(tiles, kings, color, isSpecEat, idx), y);
  }

  lemma EatBuilt(tiles: multiset<Card>, kings: int, color: nat, isSpecEat: bool, y: KindItem, m: nat)
    requires color < 5 && Useful(tiles, y, color, isSpecEat) && m <= kings
    requires forall c :: c in y.cardIdx && tiles[c] > 0 ==> m <= tiles[c]
    ensures Occurs(KingItems(tiles, kings, color, isSpecEat, PokerNum(color)), y) >= m
  {
    var eat, idx := y.cardIdx, y.cardIdx[0] % 16;
    assert y == KindItem([eat[0], eat[1], eat[2]], Chi, 1);
    EatsCount(eat, tiles[eat[0]], tiles[eat[1]], tiles[eat[2]], kings, m);
    AllEatsCount(tiles, kings, CanEat(color, idx, isSpecEat), eat, y);
    OccursConcat(PengItems(tiles, kings, TileCode(color, idx)),
      AllEatItems(tiles, kings, CanEat(color, idx, isSpecEat)), y);
    BuiltInside(tiles, kings, color, isSpecEat, idx, y);
  }

  lemma PengBuilt(tiles: multiset<Card>, kings: int, color: nat, isSpecEat: bool, t: Card)
    requires RealTile(t) && t / 16 == color && 1 <= tiles[t] <= 2 && kings >= 3 - tiles[t] as int
    ensures Occurs(KingItems(tiles, kings, color, isSpecEat, PokerNum(color)), PengOf(tiles, t)) >= 1
  {
    var y, idx := PengOf(tiles, t), t % 16;
    assert TileCode(color, idx) == t && PengItems(tiles, kings, t) == [y];
    OccursLast([], y, y);
    assert [] + [y] == [y];
    OccursConcat(PengItems(tiles, kings, t), AllEatItems(tiles, kings, CanEat(color, idx, isSpecEat)), y);
    BuiltInside(tiles, kings, color, isSpecEat, idx, y);
  }

  /** The triples of a cover as a list. */
  ghost predicate IsCover(tiles: multiset<Card>, eats: seq<KindItem>, three: seq<KindItem>, pengs: set<Card>,
                          color: nat, isSpecEat: bool) {
    && (forall y :: y in eats ==> Useful(tiles, y, color, isSpecEat))
    && (forall y: KindItem, c: Card :: c in y.cardIdx && tiles[c] > 0 ==> Occurs(eats, y) <= tiles[c])
    && (forall c: Card :: c in pengs ==> tiles[c] > 0)
    && (forall y :: y in three ==> IsPengOf(tiles, pengs, y))
    && (forall c: Card :: Listed(three)[c] == if c in pengs then 3 else 0)
  }

  lemma {:induction false} OccursSize(list: seq<KindItem>, y: KindItem)
    ensures Occurs(list, y) <= |list|
  {
    if list != [] {
      OccursSize(list[..|list| - 1], y);
    }
  }

  lemma EatAmongBuilt(tiles: multiset<Card>, kings: int, eats: seq<KindItem>, three: seq<KindItem>, pengs: set<Card>,
                      color: nat, isSpecEat: bool, y: KindItem)
    requires color < 5 && IsCover(tiles, eats, three, pengs, color, isSpecEat) && y in eats && |eats| <= kings
    ensures Occurs(eats + three, y) <= Occurs(KingItems(tiles, kings, color, isSpecEat, PokerNum(color)), y)
  {
    OccursConcat(eats, three, y);
    OccursIs(three, y);
    assert y.kindType == Chi && y !in three;
    OccursSize(eats, y);
    EatBuilt(tiles, kings, color, isSpecEat, y, Occurs(eats, y));
  }

  lemma TripleShort(tiles: multiset<Card>, t: Card)
    requires tiles[t] <= 2
    ensures Shortfall(tiles, multiset([t, t, t])) == 3 - tiles[t] as int
  {
    var n: nat := 3 - tiles[t] as int;
    var none: multiset<Card> := multiset{};
    assert multiset([t, t, t]) - tiles == none[t := n];
  }

  lemma PengAmongBuilt(tiles: multiset<Card>, kings: int, eats: seq<KindItem>, three: seq<KindItem>, pengs: set<Card>,
                       color: nat, isSpecEat: bool, y: KindItem)
    requires color < 5 && Sparse(tiles, color, isSpecEat) && IsCover(tiles, eats, three, pengs, color, isSpecEat)
    requires y in three && Shortfall(tiles, Listed(eats + three)) <= kings
    ensures Occurs(eats + three, y) <= Occurs(KingItems(tiles, kings, color, isSpecEat, PokerNum(color)), y)
  {
    var t := y.cardIdx[0];
    OccursConcat(eats, three, y);
    OccursIs(eats, y);
    assert y.kindType == Peng && y !in eats;
    OccursPengs(three, y, t);
    PengsHeld(three, t);
    ItemListed(eats + three, y);
    ShortfallMonotone(tiles, multiset(y.cardIdx), Listed(eats + three));
    TripleShort(tiles, t);
    PengBuilt(tiles, kings, color, isSpecEat, t);
  }

  lemma CoverAmong(tiles: multiset<Card>, kings: int, eats: seq<KindItem>, three: seq<KindItem>, pengs: set<Card>,
                   color: nat, isSpecEat: bool, y: KindItem)
    requires color < 5 && Sparse(tiles, color, isSpecEat) && IsCover(tiles, eats, three, pengs, color, isSpecEat)
    requires Shortfall(tiles, Listed(eats + three)) <= kings && |eats| <= kings && y in eats + three
    ensures Occurs(eats + three, y) <= Occurs(KingItems(tiles, kings, color, isSpecEat, PokerNum(color)), y)
  {
    if y in eats {
      EatAmongBuilt(tiles, kings, eats, three, pengs, color, isSpecEat, y);
    } else {
      PengAmongBuilt(tiles, kings, eats, three, pengs, color, isSpecEat, y);
    }
  }

  lemma AllOccur(list: seq<KindItem>, items: seq<KindItem>)
    requires forall y :: y in list ==> Occurs(list, y) <= Occurs(items, y)
    ensures multiset(list) <= multiset(items)
  {
    forall y ensures multiset(list)[y] <= multiset(items)[y] {
      OccursIs(list, y);
      OccursIs(items, y);
    }
  }

  /** All of it is among what the search has to choose from. */
  lemma CoverBuilt(tiles: multiset<Card>, kings: int, eats: seq<KindItem>, three: seq<KindItem>, pengs: set<Card>,
                   color: nat, isSpecEat: bool)
    requires color < 5 && Sparse(tiles, color, isSpecEat) && IsCover(tiles, eats, three, pengs, color, isSpecEat)
    requires Shortfall(tiles, Listed(eats + three)) <= kings && |eats| <= kings
    ensures multiset(eats + three) <= multiset(KingItems(tiles, kings, color, isSpecEat, PokerNum(color)))
  {
    var list, items := eats + three, KingItems(tiles, kings, color, isSpecEat, PokerNum(color));
    forall y | y in list ensures Occurs(list, y) <= Occurs(items, y) {
      CoverAmong(tiles, kings, eats, three, pengs, color, isSpecEat, y);
    }
    AllOccur(list, items);
  }

  // ----- Any split of what is left is found -----

  lemma UsefulTriple(tiles: multiset<Card>, color: nat, isSpecEat: bool, y: KindItem)
    requires color < 5 && Useful(tiles, y, color, isSpecEat)
    ensures LegalTriple(y, isSpecEat) && !(multiset(y.cardIdx) <= tiles)
  {
    var x := y.cardIdx;
    assert x[0] in multiset(x) && x[1] in multiset(x) && x[2] in multiset(x);
  }

  lemma PengTriple(tiles: multiset<Card>, pengs: set<Card>, color: nat, isSpecEat: bool, y: KindItem)
    requires color < 5 && Sparse(tiles, color, isSpecEat) && IsPengOf(tiles, pengs, y) && tiles[y.cardIdx[0]] > 0
    ensures LegalTriple(y, isSpecEat) && !(multiset(y.cardIdx) <= tiles)
  {
    var t := y.cardIdx[0];
    InTriple(y.cardIdx, t);
    assert RealTile(t);
  }

  lemma CoverLegal(tiles: multiset<Card>, eats: seq<KindItem>, three: seq<KindItem>, pengs: set<Card>, color: nat,
                   isSpecEat: bool)
    requires color < 5 && Sparse(tiles, color, isSpecEat) && IsCover(tiles, eats, three, pengs, color, isSpecEat)
    ensures AllTriples(eats + three, isSpecEat) && NoneFree(tiles, eats + three)
  {
    var list := eats + three;
    forall i | 0 <= i < |list| ensures LegalTriple(list[i], isSpecEat) && !(multiset(list[i].cardIdx) <= tiles) {
      var y := list[i];
      if i < |eats| {
        assert y in eats;
        UsefulTriple(tiles, color, isSpecEat, y);
      } else {
        assert y in three;
        PengTriple(tiles, pengs, color, isSpecEat, y);
      }
    }
  }

  /** A choice of triples that covers all tiles but two at most, which are alike,
      passes if there are wildcards enough; what it costs depends on its size. */
  lemma CoverPasses(h: Hand, list: seq<KindItem>, isSpecEat: bool, pair: multiset<Card>, c: int)
    requires AllTriples(list, isSpecEat) && Finishable(pair, 0) && h.held <= Listed(list) + pair
    requires 3 * |list| + |pair| - |h.held| <= c <= h.kings
    ensures Passes(h, list) && CostOf(h, list) <= c
  {
    var rest := h.held - Listed(list);
    TriplesSize(list, isSpecEat);
    ShortfallBalance(h.held, Listed(list));
    FinishableSize(pair);
    CardSub(rest, pair);
    if |rest| == 2 {
      SameSize(rest, pair);
    }
  }

  lemma CoverOf(tiles: multiset<Card>, frees: seq<KindItem>, pair: multiset<Card>, color: nat, isSpecEat: bool)
    returns (eats: seq<KindItem>, three: seq<KindItem>, pengs: set<Card>)
    requires color < 5 && Sparse(tiles, color, isSpecEat) && tiles <= Listed(frees) + pair
    requires forall y :: y in frees ==> Plain(y, isSpecEat)
    ensures IsCover(tiles, eats, three, pengs, color, isSpecEat) && |eats + three| <= |frees|
    ensures tiles <= Listed(eats + three) + pair
  {
    var held := tiles - pair;
    eats, pengs := Covered(tiles, held, frees, color, isSpecEat);
    three := PengList(tiles, pengs);
    forall y: KindItem, c: Card | c in y.cardIdx && tiles[c] > 0 ensures Occurs(eats, y) <= tiles[c] {
      assert Occurs(eats, y) <= held[c];
    }
    ListedConcat(eats, three);
    forall c: Card ensures tiles[c] <= (Listed(eats + three) + pair)[c] {
      assert held[c] <= Listed(eats)[c] + Listed(three)[c];
    }
  }

  lemma SameListed(h: Hand, a: seq<KindItem>, b: seq<KindItem>)
    requires Listed(a) == Listed(b)
    ensures Passes(h, a) == Passes(h, b) && CostOf(h, a) == CostOf(h, b)
  {
  }

  lemma CoverChosen(tiles: multiset<Card>, kings: int, color: nat, isSpecEat: bool,
                    eats: seq<KindItem>, three: seq<KindItem>, pengs: set<Card>, c: int)
    returns (l: seq<nat>)
    requires color < 5 && Sparse(tiles, color, isSpecEat) && IsCover(tiles, eats, three, pengs, color, isSpecEat)
    requires var h := SearchedHand(tiles, kings, color, isSpecEat);
             Passes(h, eats + three) && CostOf(h, eats + three) <= c <= kings
    ensures var h := SearchedHand(tiles, kings, color, isSpecEat);
            Combine.Subset(l, |h.items|, |l|) && Passes(h, Pick(h.items, l)) && CostOf(h, Pick(h.items, l)) <= c
  {
    var h, list := SearchedHand(tiles, kings, color, isSpecEat), eats + three;
    CoverLegal(tiles, eats, three, pengs, color, isSpecEat);
    PassingSize(h, list, isSpecEat);
    CoverBuilt(tiles, kings, eats, three, pengs, color, isSpecEat);
    assert |tiles| + kings < 3 ==> list == [];
    l := Chosen(h.items, list);
    SameListed(h, Pick(h.items, l), list);
  }

  lemma CoverSplits(tiles: multiset<Card>, kings: int, color: nat, isSpecEat: bool,
                    eats: seq<KindItem>, three: seq<KindItem>, pengs: set<Card>, pair: multiset<Card>, c: int)
    returns (cost: int)
    requires color < 5 && Sparse(tiles, color, isSpecEat) && IsCover(tiles, eats, three, pengs, color, isSpecEat)
    requires Finishable(pair, 0) && tiles <= Listed(eats + three) + pair
    requires 3 * |eats + three| + |pair| - |tiles| <= c <= kings
    ensures cost <= c && Splits(tiles, kings, color, isSpecEat, cost)
  {
    cost := 0;
    if tiles != multiset{} {
      var h := SearchedHand(tiles, kings, color, isSpecEat);
      CoverLegal(tiles, eats, three, pengs, color, isSpecEat);
      CoverPasses(h, eats + three, isSpecEat, pair, c);
      var l := CoverChosen(tiles, kings, color, isSpecEat, eats, three, pengs, c);
      cost := CostOf(h, Pick(h.items, l));
    }
  }

  lemma FreesSize(list: seq<KindItem>, isSpecEat: bool)
    requires forall y :: y in list ==> Plain(y, isSpecEat)
    ensures |Listed(list)| == 3 * |list|
  {
    forall i | 0 <= i < |list| ensures |list[i].cardIdx| == 3 { assert list[i] in list; }
    ListedThrees(list);
  }

  /** The search finds nothing worse than any split of the tiles. */
  lemma SplitFinds(tiles: multiset<Card>, kings: int, color: nat, isSpecEat: bool, list: seq<KindItem>, c: int)
    returns (cost: int)
    requires color < 5 && Sparse(tiles, color, isSpecEat) && Decomposes(tiles, c, list, isSpecEat) && c <= kings
    ensures cost <= c && Splits(tiles, kings, color, isSpecEat, cost)
  {
    var frees := Frees(list);
    var pair := FreesRest(list, isSpecEat);
    forall y | y in frees ensures Plain(y, isSpecEat) { FreesPlain(list, isSpecEat, y); }
    FreesSize(frees, isSpecEat);
    var eats, three, pengs := CoverOf(tiles, frees, pair, color, isSpecEat);
    cost := CoverSplits(tiles, kings, color, isSpecEat, eats, three, pengs, pair, c);
  }
}
