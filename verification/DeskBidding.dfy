/** Dealing and bidding at the landlord table. */
module DeskBidding {
  import opened Wrappers
  import opened DeskState
  import opened DeskProofs
  import opened Powers

  // ----- Putting the table away -----

  /** As nobody is ever marked offline, ending a game leaves everyone seated. */
  lemma ClearKeepsSeats(d: Desk)
    requires TableOk(d)
    ensures SameSeats(d, ClearAllStatus(d)) && Inv(ClearAllStatus(d))
  {
    var d' := ClearAllStatus(d);
    assert forall k :: 0 <= k < 3 ==> !Offline(d, d.wheels[k].rid);
    assert d'.users == d.users;
    SameSeatsTable(d, d');
  }

  lemma NobodyIsOffline(d: Desk)
    requires TableOk(d)
    ensures !SomeoneOffline(d)
  {
  }

  // ----- Dealing -----

  lemma {:induction false} DistinctCount(s: seq<Card>, c: Card)
    requires Distinct(s)
    ensures multiset(s)[c] == if c in s then 1 else 0
  {
    if s != [] {
      var init := s[..|s| - 1];
      DistinctCount(init, c);
      assert s == init + [s[|s| - 1]];
    }
  }

  /** How often c is among the first n cards. */
  ghost function Count(s: seq<Card>, n: nat, c: Card): nat
    requires n <= |s|
  {
    if n == 0 then 0 else Count(s, n - 1, c) + if s[n - 1] == c then 1 else 0
  }

  lemma {:induction false} CountIs(s: seq<Card>, n: nat, c: Card)
    requires n <= |s|
    ensures multiset(s[..n])[c] == Count(s, n, c)
  {
    if n > 0 {
      CountIs(s, n - 1, c);
      assert s[..n] == s[..n - 1] + [s[n - 1]];
    }
  }

  lemma CountAll(s: seq<Card>, c: Card)
    ensures multiset(s)[c] == Count(s, |s|, c)
  {
    CountIs(s, |s|, c);
    assert s[..|s|] == s;
  }

  lemma CountThree(s: seq<Card>, n: nat, c: Card)
    requires n + 3 <= |s|
    ensures Count(s, n + 3, c) == Count(s, n, c) + (if s[n] == c then 1 else 0) + (if s[n + 1] == c then 1 else 0)
            + (if s[n + 2] == c then 1 else 0)
  {
    assert Count(s, n + 2, c) == Count(s, n + 1, c) + if s[n + 1] == c then 1 else 0;
  }

  /** Three hands that take every third card in turn take every card. */
  lemma {:induction false} DealtSoFar(deck: seq<Card>, x: seq<Card>, y: seq<Card>, z: seq<Card>, n: nat, c: Card)
    requires n <= |x| == |y| == |z| && 3 * |x| <= |deck|
    requires forall j :: 0 <= j < |x| ==> x[j] == deck[3 * j] && y[j] == deck[3 * j + 1] && z[j] == deck[3 * j + 2]
    ensures Count(deck, 3 * n, c) == Count(x, n, c) + Count(y, n, c) + Count(z, n, c)
  {
    if n > 0 {
      DealtSoFar(deck, x, y, z, n - 1, c);
      CountThree(deck, 3 * (n - 1), c);
      assert x[n - 1] == deck[3 * (n - 1)];
    }
  }

  /** Dealing hands out every card of the deck once. */
  lemma DealtAll(deck: seq<Card>, c: Card)
    requires |deck| == 54
    ensures multiset(DealtTo(deck, 1))[c] + multiset(DealtTo(deck, 2))[c] + multiset(DealtTo(deck, 3))[c]
            + multiset(deck[51..])[c] == multiset(deck)[c]
  {
    var x, y, z := DealtTo(deck, 1), DealtTo(deck, 2), DealtTo(deck, 3);
    DealtSoFar(deck, x, y, z, 17, c);
    CountAll(x, c);
    CountAll(y, c);
    CountAll(z, c);
    CountIs(deck, 51, c);
    assert deck == deck[..51] + deck[51..];
  }

  lemma {:induction false} SameTwice(s: seq<Card>, i: nat, j: nat)
    requires i < j < |s| && s[i] == s[j]
    ensures multiset(s)[s[i]] >= 2
  {
    assert s == s[..j] + [s[j]] + s[j + 1..];
    assert s[i] in s[..j];
  }

  lemma SortedSize(r: Rules, s: seq<Card>)
    requires ValidRules(r)
    ensures multiset(r.sorted(s)) == multiset(s) && |r.sorted(s)| == |s|
  {
    assert |multiset(r.sorted(s))| == |multiset(s)|;
  }

  /** Dealing neither loses nor adds a card. */
  lemma DealConserves(r: Rules, d: Desk, deck: seq<Card>)
    requires ValidRules(r) && |d.wheels| == 3 && |deck| == 54
    ensures var d' := DealCards(r, d, deck);
            && |d'.wheels| == 3 && |d'.downPoker| == 3
            && (forall k :: 0 <= k < 3 ==> |d'.wheels[k].pokerList| == 17)
            && HandCards(d'.wheels) + multiset(d'.downPoker) == multiset(deck)
  {
    SortedSize(r, DealtTo(deck, 1));
    SortedSize(r, DealtTo(deck, 2));
    SortedSize(r, DealtTo(deck, 3));
    SortedSize(r, deck[51..]);
    var d' := DealCards(r, d, deck);
    assert d'.wheels[0].pokerList == r.sorted(DealtTo(deck, 1));
    assert d'.wheels[1].pokerList == r.sorted(DealtTo(deck, 2));
    assert d'.wheels[2].pokerList == r.sorted(DealtTo(deck, 3));
    forall c: Card ensures (HandCards(d'.wheels) + multiset(d'.downPoker))[c] == multiset(deck)[c] {
      DealtAll(deck, c);
    }
  }

  lemma DealStep(r: Rules, d: Desk, deck: seq<Card>)
    requires ValidRules(r) && |d.wheels| == 3 && |deck| == 54
    requires d.lordIdx == -1 && d.multiNum == 15 && d.playPokerList == []
    ensures StepOk(DealCards(r, d, deck)) <==> Distinct(deck)
  {
    DealConserves(r, d, deck);
    if Distinct(deck) {
      forall c: Card ensures multiset(deck)[c] <= 1 { DistinctCount(deck, c); }
    } else {
      var i, j :| 0 <= i < j < |deck| && deck[i] == deck[j];
      SameTwice(deck, i, j);
    }
  }

  /** A deal gives 17 cards to each seat and keeps three, and all of them differ
      exactly when those of the deck do. */
  lemma DealInv(r: Rules, d: Desk, deck: seq<Card>)
    requires ValidRules(r) && Inv(d) && d.curStep == Deal && |deck| == 54
    ensures Inv(DealCards(r, d, deck)) <==> Distinct(deck)
    ensures SameSeats(d, DealCards(r, d, deck))
    ensures HandCards(DealCards(r, d, deck).wheels) + multiset(DealCards(r, d, deck).downPoker) == multiset(deck)
  {
    DealConserves(r, d, deck);
    DealStep(r, d, deck);
    SameSeatsTable(d, DealCards(r, d, deck));
  }

  // ----- One bid -----

  lemma YesesSnoc(bids: seq<Bid>, b: Bid)
    ensures Yeses(bids + [b]) == Yeses(bids) + if b.isChoose == 1 then 1 else 0
    ensures LastYes(bids + [b]) == if b.isChoose == 1 then Some(b.idx) else LastYes(bids)
  {
    assert (bids + [b])[..|bids|] == bids;
  }

  lemma BidTurn(bids: seq<Bid>, op: Seat, multiNum: int, c: int)
    requires BiddingOk(bids, op, multiNum) && IsSeat(op)
    ensures var bids' := bids + [Bid(op, c)];
            && InTurn(bids') && |bids'| <= 4
            && (if c == 1 then multiNum * 2 else multiNum) == 15 * Pow2(Yeses(bids'))
  {
    YesesSnoc(bids, Bid(op, c));
  }

  /** Fewer than three bids: the next seat is asked. */
  lemma BidOn(bids: seq<Bid>, op: Seat, multiNum: int, c: int)
    requires BiddingOk(bids, op, multiNum) && IsSeat(op) && |bids| < 2
    ensures BiddingOk(bids + [Bid(op, c)], NextSeat(op), if c == 1 then multiNum * 2 else multiNum)
  {
    BidTurn(bids, op, multiNum, c);
  }

  /** Two yeses or more after three bids: the first to say yes is asked again. */
  lemma BidAgain(bids: seq<Bid>, op: Seat, multiNum: int, c: int)
    requires BiddingOk(bids, op, multiNum) && IsSeat(op) && |bids| == 2 && Yeses(bids + [Bid(op, c)]) >= 2
    ensures var bids' := bids + [Bid(op, c)];
            FirstYes(bids').Some? && BiddingOk(bids', FirstYes(bids').value, if c == 1 then multiNum * 2 else multiNum)
  {
    BidTurn(bids, op, multiNum, c);
    YesSeats(bids + [Bid(op, c)]);
  }

  lemma BidLast(bids: seq<Bid>, op: Seat, multiNum: int, c: int)
    requires BiddingOk(bids, op, multiNum) && IsSeat(op)
    requires |bids| == 3 || (|bids| == 2 && Yeses(bids + [Bid(op, c)]) == 1)
    ensures var bids' := bids + [Bid(op, c)];
            LastYes(bids').Some? && IsSeat(LastYes(bids').value) && LordOk(bids', LastYes(bids').value)
  {
    var bids' := bids + [Bid(op, c)];
    BidTurn(bids, op, multiNum, c);
    YesesSnoc(bids, Bid(op, c));
    YesSeats(bids');
    assert |bids| == 3 ==> bids'[..3] == bids;
    assert |bids| == 2 ==> bids'[..3] == bids';
  }

  // ----- Taking the left-over cards -----

  /** The left-over cards go into the landlord's hand. */
  lemma FinishLordCards(r: Rules, d: Desk, i: Seat, now: int)
    requires ValidRules(r) && |d.wheels| == 3 && IsSeat(i)
    ensures var d' := FinishLord(r, d, i, now);
            && |d'.wheels| == 3 && d'.curStep == Play && d'.lordIdx == i && d'.lordList == d.lordList
            && HandCards(d'.wheels) == HandCards(d.wheels) + multiset(d.downPoker)
            && |d'.wheels[i - 1].pokerList| == |d.wheels[i - 1].pokerList| + |d.downPoker|
  {
    var hand := d.wheels[i - 1].pokerList;
    SortedSize(r, hand + d.downPoker);
    assert multiset(hand + d.downPoker) == multiset(hand) + multiset(d.downPoker);
    var d' := FinishLord(r, d, i, now);
    assert d'.wheels[i - 1].pokerList == r.sorted(hand + d.downPoker);
  }

  lemma FinishLordStep(r: Rules, d: Desk, i: Seat, now: int)
    requires ValidRules(r) && |d.wheels| == 3 && IsSeat(i) && d.playPokerList == []
    requires forall k :: 0 <= k < 3 ==> |d.wheels[k].pokerList| == 17
    requires |d.downPoker| == 3
    requires forall c: Card :: (HandCards(d.wheels) + multiset(d.downPoker))[c] <= 1
    requires LordOk(d.lordList, i)
    ensures var d' := FinishLord(r, d, i, now);
            && StepOk(d') && d'.curStep == Play && d'.lordIdx == i && d'.multiNum == d.multiNum
               && d'.lordList == d.lordList
            && HandCards(d'.wheels) == HandCards(d.wheels) + multiset(d.downPoker)
            && (forall k :: 0 <= k < 3 ==> |d'.wheels[k].pokerList| == if k == i - 1 then 20 else 17)
            && SameSeats(d, d') && d'.retryDealTimes == d.retryDealTimes
  {
    FinishLordCards(r, d, i, now);
    var d' := FinishLord(r, d, i, now);
    assert forall k :: 0 <= k < 3 && k != i - 1 ==> d'.wheels[k] == d.wheels[k];
    assert HandsApart(d'.wheels);
  }

  // ----- Choosing -----

  /** Asking another seat changes nothing but whose turn it is. */
  lemma ChangeOpStep(d: Desk, i: Seat, now: int)
    requires TableOk(d) && IsSeat(i)
    ensures SameSeats(d, ChangeOp(d, i, now)) && TableOk(ChangeOp(d, i, now))
    ensures SameGame(d.(curOpIdx := i), ChangeOp(d, i, now))
  {
    var d' := ChangeOp(d, i, now);
    assert forall k :: 0 <= k < 3 ==>
             d'.wheels[k] == d.wheels[k] || (k == i - 1 && d'.wheels[k] == d.wheels[k].(lastOpTime := now));
    assert SameSeats(d, d');
    SameSeatsTable(d, d');
  }

  /** The table with the new bid in it. */
  function WithBid(d: Desk, c: int): Desk {
    d.(multiNum := if c == 1 then d.multiNum * 2 else d.multiNum, lordList := d.lordList + [Bid(d.curOpIdx, c)])
  }

  /** What a bid leads to, kind by kind. */
  datatype Outcome = AskNext | AskAgain | Redeal | Settled

  ghost function OutcomeOf(d: Desk, c: int): Outcome {
    var bids := d.lordList + [Bid(d.curOpIdx, c)];
    if |bids| < 3 then AskNext
    else if |bids| == 3 && Yeses(bids) == 0 then Redeal
    else if |bids| == 3 && Yeses(bids) >= 2 then AskAgain
    else Settled
  }

  lemma WithBidTable(d: Desk, c: int)
    requires TableOk(d)
    ensures TableOk(WithBid(d, c))
  {
  }

  /** A bid after which seat op is asked. */
  lemma AskedNext(d: Desk, c: int, op: Seat, now: int)
    requires Inv(d) && d.curStep == Lord && IsSeat(op)
    requires BiddingOk(WithBid(d, c).lordList, op, WithBid(d, c).multiNum)
    ensures var d' := ChangeOp(WithBid(d, c), op, now);
            Inv(d') && SameSeats(d, d') && d'.curStep == Lord && d'.lordList == d.lordList + [Bid(d.curOpIdx, c)]
            && d'.retryDealTimes == d.retryDealTimes && d'.curOpIdx == op
  {
    var w := WithBid(d, c);
    WithBidTable(d, c);
    assert StepOk(w.(curOpIdx := op));
    ChangeOpStep(w, op, now);
    SameGameOk(w.(curOpIdx := op), ChangeOp(w, op, now));
  }

  /** The seat asked next, when bidding goes on. */
  ghost function Asked(d: Desk, c: int): (op: Seat)
    requires OutcomeOf(d, c).AskNext? || OutcomeOf(d, c).AskAgain?
    requires IsSeat(d.curOpIdx) && forall i :: 0 <= i < |d.lordList| ==> IsSeat(d.lordList[i].idx)
    ensures IsSeat(op)
  {
    YesSeats(d.lordList + [Bid(d.curOpIdx, c)]);
    if OutcomeOf(d, c).AskNext? then NextSeat(d.curOpIdx) else FirstYes(d.lordList + [Bid(d.curOpIdx, c)]).value
  }

  lemma AsksWhom(r: Rules, d: Desk, c: int, now: int)
    requires |d.wheels| == 3 && IsSeat(d.curOpIdx) && forall i :: 0 <= i < |d.lordList| ==> IsSeat(d.lordList[i].idx)
    requires OutcomeOf(d, c).AskNext? || OutcomeOf(d, c).AskAgain?
    ensures LordChoose(r, d, c, now) == ChangeOp(WithBid(d, c), Asked(d, c), now)
  {
  }

  lemma NextAskedOk(d: Desk, c: int)
    requires BiddingOk(d.lordList, d.curOpIdx, d.multiNum) && IsSeat(d.curOpIdx) && OutcomeOf(d, c).AskNext?
    ensures BiddingOk(WithBid(d, c).lordList, Asked(d, c), WithBid(d, c).multiNum)
  {
    BidOn(d.lordList, d.curOpIdx, d.multiNum, c);
  }

  lemma FirstAskedOk(d: Desk, c: int)
    requires BiddingOk(d.lordList, d.curOpIdx, d.multiNum) && IsSeat(d.curOpIdx) && OutcomeOf(d, c).AskAgain?
    ensures BiddingOk(WithBid(d, c).lordList, Asked(d, c), WithBid(d, c).multiNum)
  {
    BidAgain(d.lordList, d.curOpIdx, d.multiNum, c);
  }

  /** Bidding goes on, with the stake doubled for a yes. */
  lemma BiddingGoesOn(r: Rules, d: Desk, c: int, now: int)
    requires ValidRules(r) && Inv(d) && d.curStep == Lord && IsSeat(d.curOpIdx)
    requires OutcomeOf(d, c).AskNext? || OutcomeOf(d, c).AskAgain?
    ensures var d' := LordChoose(r, d, c, now);
            Inv(d') && SameSeats(d, d') && d'.curStep == Lord && d'.lordList == d.lordList + [Bid(d.curOpIdx, c)]
            && d'.retryDealTimes == d.retryDealTimes && d'.curOpIdx == Asked(d, c)
  {
    if OutcomeOf(d, c).AskNext? {
      NextAskedOk(d, c);
    } else {
      FirstAskedOk(d, c);
    }
    AskedNext(d, c, Asked(d, c), now);
    AsksWhom(r, d, c, now);
  }

  lemma RestartStep(d: Desk)
    requires TableOk(d) && d.curStep == Lord && d.retryDealTimes <= 1
    ensures var d' := TryRestart(d);
            d' == d.(retryDealTimes := d.retryDealTimes + 1, curStep := Deal) && SameSeats(d, d') && TableOk(d')
  {
    NobodyIsOffline(d);
    SameSeatsTable(d, TryRestart(d));
  }

  /** Three noes: a new deal, or the end of the game after two of them. */
  lemma BiddingFails(r: Rules, d: Desk, c: int, now: int)
    requires ValidRules(r) && Inv(d) && d.curStep == Lord && IsSeat(d.curOpIdx) && OutcomeOf(d, c).Redeal?
    ensures var d' := LordChoose(r, d, c, now);
            Inv(d') && SameSeats(d, d')
            && (if d.retryDealTimes > 1 then d'.curStep == NoGame
                else d'.curStep == Deal && d'.retryDealTimes == d.retryDealTimes + 1 && d'.curOpIdx == d.curOpIdx)
  {
    var w := WithBid(d, c);
    BidTurn(d.lordList, d.curOpIdx, d.multiNum, c);
    WithBidTable(d, c);
    assert LordChoose(r, d, c, now) == TryRestart(w);
    if d.retryDealTimes > 1 {
      ClearKeepsSeats(w);
    } else {
      RestartStep(w);
    }
  }

  lemma SettlesOn(r: Rules, d: Desk, c: int, now: int)
    requires |d.wheels| == 3 && IsSeat(d.curOpIdx) && forall i :: 0 <= i < |d.lordList| ==> IsSeat(d.lordList[i].idx)
    requires OutcomeOf(d, c).Settled? && |d.lordList| <= 3 && LastYes(WithBid(d, c).lordList).Some?
             && IsSeat(LastYes(WithBid(d, c).lordList).value)
    ensures LordChoose(r, d, c, now) == FinishLord(r, WithBid(d, c), LastYes(WithBid(d, c).lordList).value, now)
  {
  }

  /** A landlord is found: the last player who said yes. He gets the left-over
      cards, and the stake is 15 doubled for every yes. */
  lemma BiddingSettles(r: Rules, d: Desk, c: int, now: int)
    requires ValidRules(r) && Inv(d) && d.curStep == Lord && IsSeat(d.curOpIdx) && OutcomeOf(d, c).Settled?
    ensures var d' := LordChoose(r, d, c, now);
            && Inv(d') && SameSeats(d, d') && d'.curStep == Play
            && LastYes(d'.lordList) == Some(d'.lordIdx) && 3 <= |d'.lordList| <= 4
            && d'.multiNum == 15 * Pow2(Yeses(d'.lordList))
            && HandCards(d'.wheels) == HandCards(d.wheels) + multiset(d.downPoker)
            && (forall k :: 0 <= k < 3 ==> |d'.wheels[k].pokerList| == if k == d'.lordIdx - 1 then 20 else 17)
            && d'.retryDealTimes == d.retryDealTimes
  {
    var w := WithBid(d, c);
    BidTurn(d.lordList, d.curOpIdx, d.multiNum, c);
    BidLast(d.lordList, d.curOpIdx, d.multiNum, c);
    var i := LastYes(w.lordList).value;
    SettlesOn(r, d, c, now);
    FinishLordStep(r, w, i, now);
    SameSeatsTable(d, FinishLord(r, w, i, now));
  }

  lemma ChooseInv(r: Rules, d: Desk, c: int, now: int)
    requires ValidRules(r) && Inv(d) && d.curStep == Lord && IsSeat(d.curOpIdx)
    ensures Inv(LordChoose(r, d, c, now)) && SameSeats(d, LordChoose(r, d, c, now))
  {
    match OutcomeOf(d, c)
    case AskNext => BiddingGoesOn(r, d, c, now);
    case AskAgain => BiddingGoesOn(r, d, c, now);
    case Redeal => BiddingFails(r, d, c, now);
    case Settled => BiddingSettles(r, d, c, now);
  }

  // ----- Bidding ends -----

  predicate Bidding(d: Desk) { d.curStep == Deal || d.curStep == Lord }

  /** Deals still possible, and what is left to do in this one. */
  function Rank(d: Desk): int {
    7 * (2 - d.retryDealTimes) +
    if d.curStep == Deal then 6 else if d.curOpIdx == -1 then 5 else 4 - |d.lordList|
  }

  /** The events that move dealing and bidding on: the deal itself, choosing who
      starts, and every bid, made or timed out. */
  predicate MovesBidding(d: Desk, e: Event) {
    match e
    case Choose(rid, _, _) => d.curStep == Lord && HasTurn(d, rid)
    case Tick(now, deck, seat) =>
      && |deck| == 54 && IsSeat(seat)
      && (d.curStep == Lord && d.curOpIdx != -1
         ==> IsSeat(d.curOpIdx) && |d.wheels| == 3 && now - d.wheels[d.curOpIdx - 1].lastOpTime > 10)
    case _ => false
  }

  lemma RankBound(d: Desk)
    requires Inv(d) && Bidding(d)
    ensures 1 <= Rank(d) <= 20
  {
  }

  lemma ChooseRank(r: Rules, d: Desk, c: int, now: int)
    requires ValidRules(r) && Inv(d) && d.curStep == Lord && IsSeat(d.curOpIdx)
    ensures var d' := LordChoose(r, d, c, now); Bidding(d') ==> Rank(d') < Rank(d)
  {
    match OutcomeOf(d, c)
    case AskNext => BiddingGoesOn(r, d, c, now);
    case AskAgain => BiddingGoesOn(r, d, c, now);
    case Redeal => BiddingFails(r, d, c, now);
    case Settled => BiddingSettles(r, d, c, now);
  }

  lemma TickRank(r: Rules, d: Desk, now: int, deck: seq<Card>, seat: Seat)
    requires ValidRules(r) && Inv(d) && Usable(d) && Bidding(d) && |deck| == 54 && IsSeat(seat)
    requires d.curStep == Lord && d.curOpIdx != -1 ==> now - d.wheels[d.curOpIdx - 1].lastOpTime > 10
    ensures var d' := TimeUpdate(r, d, now, deck, seat); Bidding(d') ==> Rank(d') < Rank(d)
  {
    if d.curStep == Lord && d.curOpIdx != -1 {
      ChooseRank(r, d, 0, now);
    }
  }

  /** Every such event leaves fewer of them before bidding is over. */
  lemma BiddingProgress(r: Rules, d: Desk, e: Event)
    requires ValidRules(r) && Inv(d) && Bidding(d) && Orderly(d, e) && MovesBidding(d, e)
    ensures Usable(d)
    ensures var d' := Next(r, d, e); Bidding(d') ==> Rank(d') < Rank(d)
  {
    InvUsable(d);
    match e
    case Choose(rid, c, now) => ChooseRank(r, d, c, now);
    case Tick(now, deck, seat) => TickRank(r, d, now, deck, seat);
  }
}
