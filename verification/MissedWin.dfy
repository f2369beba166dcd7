/** A winning hand with wildcards that `check_can_hu` of src/game/majiang.rs does
    not find. */
module MissedWin {
  import opened Tiles
  import opened KingSearch
  import opened HuCheck
  import opened SearchBounds
  import opened Completeness
  import opened Cover
  import Assembly

  /** One, three, two fours, five and seven of the first colour. */
  const GAPS: seq<Card> := [1, 3, 4, 4, 5, 7]

  function GapCount(c: Card): nat {
    if c == 4 then 2 else if c == 1 || c == 3 || c == 5 || c == 7 then 1 else 0
  }

  ghost predicate IsGaps(tiles: multiset<Card>) {
    forall c: Card :: tiles[c] == GapCount(c)
  }

  lemma GapTiles()
    ensures IsGaps(multiset(GAPS)) && RealTiles(GAPS, 5) == multiset(GAPS)
  {
    assert multiset(GAPS) == multiset{1, 3, 4, 4, 5, 7};
    AllTilesReal(GAPS);
  }

  lemma GapColor()
    ensures ColorTiles(GAPS, 0) == multiset(GAPS)
  {
    GapTiles();
    forall c: Card ensures ColorTiles(GAPS, 0)[c] == GapCount(c) { assert multiset(GAPS)[c] == GapCount(c); }
  }

  /** What a triple of the suits looks like. */
  lemma LowTriple(y: KindItem, isSpecEat: bool)
    requires LegalTriple(y, isSpecEat) && y.cardIdx != [] && y.cardIdx[0] < 48
    ensures var c := y.cardIdx[0]; y.cardIdx == [c, c, c] || y.cardIdx == [c, c + 1, c + 2]
  {
    var c := y.cardIdx[0];
    if y.kindType == Peng {
      assert y.cardIdx == [c, c, c];
    } else {
      assert 16 * (c / 16) + c % 16 == c;
    }
  }

  lemma HighTriple(y: KindItem, isSpecEat: bool, i: nat)
    requires LegalTriple(y, isSpecEat) && i < |y.cardIdx|
    ensures y.cardIdx[0] <= y.cardIdx[i]
  {
    var c := y.cardIdx[0];
    assert 16 * (c / 16) + c % 16 == c;
  }

  /** The only triple that these tiles pay for. */
  lemma OnlyTriple(y: KindItem, isSpecEat: bool, tiles: multiset<Card>)
    requires LegalTriple(y, isSpecEat) && multiset(y.cardIdx) <= tiles && IsGaps(tiles)
    ensures y.cardIdx == [3, 4, 5]
  {
    TripleShape(y, isSpecEat);
    var x := y.cardIdx;
    InTriple(x, x[0]);
    InTriple(x, x[1]);
    InTriple(x, x[2]);
    LowTriple(y, isSpecEat);
    assert tiles[x[0]] == GapCount(x[0]) && tiles[x[1]] == GapCount(x[1]) && tiles[x[2]] == GapCount(x[2]);
  }

  /** Of two tiles three ranks apart a triple takes one at most. */
  lemma TakesOne(y: KindItem, isSpecEat: bool, a: Card, b: Card)
    requires LegalTriple(y, isSpecEat) && a + 3 <= b < 48
    ensures multiset(y.cardIdx)[a] == 0 || multiset(y.cardIdx)[b] == 0
  {
    TripleShape(y, isSpecEat);
    InTriple(y.cardIdx, a);
    InTriple(y.cardIdx, b);
    HighTriple(y, isSpecEat, 1);
    HighTriple(y, isSpecEat, 2);
    if y.cardIdx[0] < 48 {
      LowTriple(y, isSpecEat);
    }
  }

  lemma TwoLeft(rest: multiset<Card>, a: Card, b: Card)
    requires a != b && rest[a] == 1 && rest[b] == 1
    ensures |rest| >= 2 && forall d: Card :: rest != multiset{d, d}
  {
    CardSub(multiset{a, b}, rest);
    assert forall d: Card :: multiset{d, d}[d] == 2;
    assert forall d: Card :: rest == multiset{d, d} ==> rest[d] == 2 && (d == a || rest[a] == 0);
  }

  /** No triple takes two of the tiles that it leaves over. */
  lemma NoneFinishes(y: KindItem, isSpecEat: bool, held: multiset<Card>, kings: int)
    requires LegalTriple(y, isSpecEat) && held[1] == held[4] == held[7] == 1
    ensures !Finishable(held - multiset(y.cardIdx), kings)
  {
    var rest := held - multiset(y.cardIdx);
    TakesOne(y, isSpecEat, 1, 4);
    TakesOne(y, isSpecEat, 1, 7);
    TakesOne(y, isSpecEat, 4, 7);
    if multiset(y.cardIdx)[1] > 0 {
      TwoLeft(rest, 4, 7);
    } else if multiset(y.cardIdx)[4] > 0 {
      TwoLeft(rest, 1, 7);
    } else {
      TwoLeft(rest, 1, 4);
    }
  }

  lemma {:induction false} ManyTriples(list: seq<KindItem>, c: Card)
    requires forall i :: 0 <= i < |list| ==> list[i].cardIdx == [3, 4, 5]
    ensures Listed(list)[c] == if 3 <= c <= 5 then |list| else 0
  {
    if list != [] {
      ManyTriples(list[..|list| - 1], c);
      InTriple(list[|list| - 1].cardIdx, c);
    }
  }

  /** The hand holds that triple. */
  lemma TripleHeld(isSpecEat: bool)
    ensures Occurs(HandItems(GAPS, 0, isSpecEat), NewByData(3, 4, 5, Chi)) >= 1
  {
    var y := NewByData(3, 4, 5, Chi);
    GapTiles();
    GapColor();
    assert forall c: Card :: multiset(GAPS)[c] == GapCount(c);
    assert y.cardIdx in CanEat(0, 3, isSpecEat);
    EatAt(multiset(GAPS), 0, isSpecEat, 3, y, 1);
  }

  lemma TripleFree(tiles: multiset<Card>, items: seq<KindItem>) returns (l: seq<nat>)
    requires IsGaps(tiles) && Occurs(items, NewByData(3, 4, 5, Chi)) >= 1
    ensures FreeChoice(tiles, items, l) && |l| == 1
  {
    var y := NewByData(3, 4, 5, Chi);
    OccursIs(items, y);
    var k :| 0 <= k < |items| && items[k] == y;
    l := [k];
    var chosen := Pick(items, l);
    forall c: Card ensures Listed(chosen)[c] <= tiles[c] {
      assert tiles[c] == GapCount(c);
      ManyTriples(chosen, c);
    }
  }

  lemma AllTheTriple(tiles: multiset<Card>, list: seq<KindItem>, isSpecEat: bool, i: nat)
    requires IsGaps(tiles) && AllTriples(list, isSpecEat) && Listed(list) <= tiles && i < |list|
    ensures list[i].cardIdx == [3, 4, 5]
  {
    ItemListed(list, list[i]);
    assert LegalTriple(list[i], isSpecEat);
    OnlyTriple(list[i], isSpecEat, tiles);
  }

  /** One, four and seven. */
  ghost predicate IsLeft(rest: multiset<Card>) {
    forall c: Card :: rest[c] == if c == 1 || c == 4 || c == 7 then 1 else 0
  }

  lemma ChosenTriple(tiles: multiset<Card>, items: seq<KindItem>, isSpecEat: bool, l: seq<nat>)
    requires IsGaps(tiles) && AllTriples(items, isSpecEat) && Occurs(items, NewByData(3, 4, 5, Chi)) >= 1
    requires Largest(tiles, items, l)
    ensures IsLeft(tiles - Listed(Pick(items, l)))
  {
    var chosen := Pick(items, l);
    PickTriples(items, l, isSpecEat);
    forall i | 0 <= i < |chosen| ensures chosen[i].cardIdx == [3, 4, 5] { AllTheTriple(tiles, chosen, isSpecEat, i); }
    var one := TripleFree(tiles, items);
    assert tiles[3] == GapCount(3);
    ManyTriples(chosen, 3);
    assert |chosen| == 1;
    forall c: Card ensures (tiles - Listed(chosen))[c] == if c == 1 || c == 4 || c == 7 then 1 else 0 {
      assert tiles[c] == GapCount(c);
      ManyTriples(chosen, c);
    }
  }

  lemma NonePasses(h: Hand)
    requires |h.held| >= 3
    ensures !Passes(h, [])
  {
    assert h.held - Listed([]) == h.held;
    assert forall d: Card :: |multiset{d, d}| == 2;
  }

  lemma OneFails(h: Hand, isSpecEat: bool, y: KindItem)
    requires h.held[1] == h.held[4] == h.held[7] == 1 && LegalTriple(y, isSpecEat)
    ensures !Passes(h, [y])
  {
    assert [y][..0] == [] && Listed([y]) == multiset(y.cardIdx);
    NoneFinishes(y, isSpecEat, h.held, h.kings - Shortfall(h.held, multiset(y.cardIdx)));
  }

  /** With two wildcards only one triple is tried. */
  lemma NoCandidate(h: Hand, isSpecEat: bool, k: seq<nat>)
    requires AllTriples(h.items, isSpecEat) && |h.held| == 3 && h.kings == 2
    requires h.held[1] == h.held[4] == h.held[7] == 1
    ensures !Candidate(h, k)
  {
    if Candidate(h, k) {
      if k == [] {
        assert Pick(h.items, k) == [];
        NonePasses(h);
      } else {
        var y := h.items[k[0]];
        assert LegalTriple(y, isSpecEat) && Pick(h.items, k) == [y];
        OneFails(h, isSpecEat, y);
      }
    }
  }

  lemma NotCompleted(rest: multiset<Card>, isSpecEat: bool, c: int)
    requires IsLeft(rest)
    ensures !Completes(rest, 2, 0, isSpecEat, c)
  {
    assert rest == multiset{1, 4, 7};
    var h := SearchedHand(rest, 2, 0, isSpecEat);
    SearchedLegal(rest, 2, 0, isSpecEat);
    forall k ensures !Candidate(h, k) { NoCandidate(h, isSpecEat, k); }
  }

  lemma TopStuck(tiles: multiset<Card>, items: seq<KindItem>, isSpecEat: bool, l: seq<nat>, c: int)
    requires IsGaps(tiles) && AllTriples(items, isSpecEat) && Occurs(items, NewByData(3, 4, 5, Chi)) >= 1
    requires TopChoice(tiles, items, 2, l)
    ensures !Completes(tiles - Listed(Pick(items, l)), 2, 0, isSpecEat, c)
  {
    ChosenTriple(tiles, items, isSpecEat, l);
    NotCompleted(tiles - Listed(Pick(items, l)), isSpecEat, c);
  }

  lemma ColorStuckThere(hand: seq<Card>, isSpecEat: bool, c: int)
    requires IsGaps(ColorTiles(hand, 0)) && Occurs(HandItems(hand, 0, isSpecEat), NewByData(3, 4, 5, Chi)) >= 1
    ensures !ColorCosts(hand, 0, 2, isSpecEat, c)
  {
    var tiles, items := ColorTiles(hand, 0), HandItems(hand, 0, isSpecEat);
    HandItemsLegal(hand, 0, isSpecEat);
    forall l | TopChoice(tiles, items, 2, l) ensures !Completes(tiles - Listed(Pick(items, l)), 2, 0, isSpecEat, c) {
      TopStuck(tiles, items, isSpecEat, l, c);
    }
  }

  /** What is left over cannot be finished with two wildcards. */
  lemma GapStuck(isSpecEat: bool, c: int)
    ensures !ColorCosts(GAPS, 0, 2, isSpecEat, c)
  {
    GapTiles();
    GapColor();
    TripleHeld(isSpecEat);
    ColorStuckThere(GAPS, isSpecEat, c);
  }

  /** 123, 567 and 44. */
  const GAPS_WIN: seq<KindItem> := [NewByData(1, 2, 3, Chi), NewByData(5, 6, 7, Chi), KindItem([4, 4], Dui, 0)]

  lemma WinLegal(isSpecEat: bool)
    ensures AllLegal(GAPS_WIN, isSpecEat) && PairCount(GAPS_WIN) == 1
  {
    var a, b, pair := NewByData(1, 2, 3, Chi), NewByData(5, 6, 7, Chi), KindItem([4, 4], Dui, 0);
    TriplesLegal([a, b], isSpecEat);
    LegalSnoc([a, b], pair, isSpecEat);
    PairCountSnoc([a, b], pair);
    assert [a, b] + [pair] == GAPS_WIN;
  }

  lemma ThreeListed(x: KindItem, y: KindItem, z: KindItem)
    ensures Listed([x, y, z]) == multiset(x.cardIdx) + multiset(y.cardIdx) + multiset(z.cardIdx)
  {
    ListedSnoc([], x);
    ListedSnoc([x], y);
    ListedSnoc([x, y], z);
    assert [] + [x] == [x] && [x] + [y] == [x, y] && [x, y] + [z] == [x, y, z];
  }

  lemma InPair(x: seq<Card>, c: Card)
    requires |x| == 2
    ensures multiset(x)[c] == (if x[0] == c then 1 else 0) + if x[1] == c then 1 else 0
  {
    assert x == [x[0], x[1]];
  }

  lemma GapsInWin()
    ensures multiset(GAPS) <= multiset([1, 2, 3]) + multiset([5, 6, 7]) + multiset([4, 4])
  {
    GapTiles();
    forall c: Card ensures multiset(GAPS)[c] <= (multiset([1, 2, 3]) + multiset([5, 6, 7]) + multiset([4, 4]))[c] {
      assert multiset(GAPS)[c] == GapCount(c);
      InTriple([1, 2, 3], c);
      InTriple([5, 6, 7], c);
      InPair([4, 4], c);
    }
  }

  lemma GapWins(isSpecEat: bool)
    ensures Wins(GAPS, 2, GAPS_WIN, isSpecEat)
  {
    WinLegal(isSpecEat);
    LegalSize(GAPS_WIN, isSpecEat);
    ThreeListed(GAPS_WIN[0], GAPS_WIN[1], GAPS_WIN[2]);
    GapsInWin();
    GapTiles();
    assert |multiset(GAPS)| == 6 && Assembly.RoundUp(8, 2) == 8;
  }

  /** With two wildcards these tiles are a winning hand, 123, 567 and 44; but they
      lose, because 345 is taken off first. */
  lemma WildcardsMissWin(isSpecEat: bool)
    ensures Wins(GAPS, 2, GAPS_WIN, isSpecEat) && Loses(GAPS, 2, isSpecEat)
  {
    GapWins(isSpecEat);
    var costs := Costs(GAPS, isSpecEat);
    forall c: int ensures !costs(0, 2, c) { GapStuck(isSpecEat, c); }
    StuckFails(GAPS, costs, 2, [], 2);
    Losing(GAPS, 2, isSpecEat, []);
  }
}
