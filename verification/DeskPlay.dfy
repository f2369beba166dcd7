/** Playing cards at the landlord table, and whole runs of it. */
module DeskPlay {
  import opened Wrappers
  import opened DeskState
  import opened DeskProofs
  import opened DeskBidding
  import opened DeskLateBids

  // ----- Rounds -----

  lemma {:induction false} LastPlayed(plays: seq<Played>)
    ensures LastPokerList(plays) == None <==> forall i :: 0 <= i < |plays| ==> !plays[i].isPlay
  {
    if plays != [] && !plays[|plays| - 1].isPlay {
      LastPlayed(plays[..|plays| - 1]);
    }
  }

  /** When a pass ends the round, the seat that `check_round_end` picks belongs
      to the last player who really played, and it is the seat whose turn it
      would be anyway. */
  lemma RoundEndSeat(plays: seq<Played>, op: Seat)
    requires RoundOk(plays, op) && plays != []
    ensures var plays' := plays + [Played(op, false, [])];
            match RoundEnd(plays')
            case None => RoundOk(plays', NextSeat(op))
            case Some(win) =>
              && |plays| >= 2
              && plays[|plays| - 2].isPlay && plays[|plays| - 2].idx == win && !plays[|plays| - 1].isPlay
              && win == NextSeat(op) && IsSeat(win)
  {
    if |plays| >= 2 && !plays[|plays| - 1].isPlay {
      var before, last := plays[|plays| - 2], plays[|plays| - 1];
      assert before.isPlay && last.idx == NextSeat(before.idx);
    }
  }

  lemma PlayGoesOn(plays: seq<Played>, op: Seat, cards: seq<Card>)
    requires RoundOk(plays, op) && cards != []
    ensures RoundOk(plays + [Played(op, true, cards)], NextSeat(op))
  {
  }

  // ----- Hands -----

  lemma {:induction false} DedupCount(s: seq<Card>, c: Card)
    ensures multiset(Dedup(s))[c] == if c in s then 1 else 0
  {
    if s != [] {
      var init := s[..|s| - 1];
      assert s == init + [s[|s| - 1]];
      DedupCount(init, c);
    }
  }

  lemma {:induction false} WithoutCount(s: seq<Card>, gone: seq<Card>, c: Card)
    ensures multiset(Without(s, gone))[c] == if c in gone then 0 else multiset(s)[c]
  {
    if s != [] {
      var init := s[..|s| - 1];
      assert s == init + [s[|s| - 1]];
      WithoutCount(init, gone, c);
    }
  }

  /** From a hand of different cards exactly the played cards are taken. */
  lemma SubPokerExact(r: Rules, hand: seq<Card>, cards: seq<Card>)
    requires ValidRules(r) && (forall c: Card :: multiset(hand)[c] <= 1) && SubPoker(r, hand, cards).Some?
    ensures multiset(hand) == multiset(SubPoker(r, hand, cards).value) + multiset(cards)
  {
    var left := SubPoker(r, hand, cards).value;
    forall c: Card ensures multiset(hand)[c] == multiset(left)[c] + multiset(cards)[c] {
      DedupCount(hand, c);
      WithoutCount(Dedup(hand), cards, c);
      DistinctCount(cards, c);
    }
  }

  /** A play takes the played cards out of one hand and leaves the others. */
  lemma HandsAfterPlay(r: Rules, ws: seq<Wheel>, i: Seat, cards: seq<Card>)
    requires ValidRules(r) && |ws| == 3 && IsSeat(i) && HandsApart(ws) && SubPoker(r, ws[i - 1].pokerList, cards).Some?
    ensures var ws' := ws[i - 1 := ws[i - 1].(pokerList := SubPoker(r, ws[i - 1].pokerList, cards).value)];
            HandCards(ws) == HandCards(ws') + multiset(cards) && HandsApart(ws')
  {
    var hand := ws[i - 1].pokerList;
    forall c: Card ensures multiset(hand)[c] <= 1 { assert HandCards(ws)[c] <= 1; }
    SubPokerExact(r, hand, cards);
    var ws' := ws[i - 1 := ws[i - 1].(pokerList := SubPoker(r, hand, cards).value)];
    assert HandCards(ws) == HandCards(ws') + multiset(cards);
    forall c: Card ensures HandCards(ws')[c] <= 1 { assert HandCards(ws)[c] <= 1; }
  }

  // ----- One move -----

  /** A pass: nobody's cards change, and the turn passes to the next seat,
      whether the round ends or not. */
  lemma PassInv(r: Rules, d: Desk, now: int)
    requires Inv(d) && d.curStep == Play && d.playPokerList != []
    ensures var d' := Pass(d, now);
            && Inv(d') && SameSeats(d, d') && d'.curStep == Play && d'.curOpIdx == NextSeat(d.curOpIdx)
            && HandCards(d'.wheels) == HandCards(d.wheels) && d'.multiNum == d.multiNum
  {
    RoundEndSeat(d.playPokerList, d.curOpIdx);
    var plays := d.playPokerList + [Played(d.curOpIdx, false, [])];
    var w := d.(playPokerList := if RoundEnd(plays).Some? then [] else plays);
    var op := NextSeat(d.curOpIdx);
    assert Pass(d, now) == ChangeOp(w, op, now);
    ChangeOpStep(w, op, now);
    assert StepOk(w.(curOpIdx := op));
    SameGameOk(w.(curOpIdx := op), ChangeOp(w, op, now));
    assert HandCards(ChangeOp(w, op, now).wheels) == HandCards(d.wheels);
  }

  /** Cards on the table: they were in the player's hand, beat what lies there,
      and leave his hand; an empty hand ends the game and leaves everyone
      seated. */
  ghost predicate CardsPlayed(r: Rules, d: Desk, cards: seq<Card>, d': Desk) {
    var last := LastPokerList(d.playPokerList);
    && |d.wheels| == 3 && |d'.wheels| == 3
    && cards != []
    && (last.Some? ==> r.beats(last.value, cards))
    && HandCards(d.wheels) == HandCards(d'.wheels) + multiset(cards)
    && (d'.curStep == Play || d'.curStep == NoGame)
    && (d'.curStep == Play ==> d'.curOpIdx == NextSeat(d.curOpIdx)
                               && d'.multiNum == if r.doubles(cards) then d.multiNum * 2 else d.multiNum)
  }

  lemma LaidDownTable(r: Rules, d: Desk, cards: seq<Card>, left: seq<Card>)
    requires TableOk(d) && IsSeat(d.curOpIdx)
    ensures TableOk(LaidDown(r, d, cards, left)) && SameSeats(d, LaidDown(r, d, cards, left))
  {
    var w := LaidDown(r, d, cards, left);
    var i := d.curOpIdx;
    assert forall k :: 0 <= k < 3 ==>
             w.wheels[k] == d.wheels[k] || (k == i - 1 && w.wheels[k] == d.wheels[k].(pokerList := left));
    assert SameSeats(d, w);
    SameSeatsTable(d, w);
  }

  /** The last card: the game is over, and nobody loses his seat, not even a
      player who has logged out. */
  lemma WinStep(w: Desk)
    requires TableOk(w) && 0 <= w.retryDealTimes <= 2
    ensures var d' := ChangeStep(w, NoGame);
            Inv(d') && SameSeats(w, d') && HandCards(d'.wheels) == HandCards(w.wheels)
              && d'.retryDealTimes == w.retryDealTimes
  {
    var d' := ChangeStep(w, NoGame);
    assert forall k :: 0 <= k < 3 ==> d'.wheels[k] == w.wheels[k].(isReady := false);
    SameSeatsTable(w, d');
  }

  lemma LaidDownStep(r: Rules, d: Desk, cards: seq<Card>, left: seq<Card>)
    requires ValidRules(r) && Inv(d) && d.curStep == Play && cards != [] && left != []
    requires SubPoker(r, d.wheels[d.curOpIdx - 1].pokerList, cards) == Some(left)
    ensures var w := LaidDown(r, d, cards, left);
            TableOk(w) && SameSeats(d, w) && StepOk(w.(curOpIdx := NextSeat(d.curOpIdx)))
  {
    HandsAfterPlay(r, d.wheels, d.curOpIdx, cards);
    PlayGoesOn(d.playPokerList, d.curOpIdx, cards);
    LaidDownTable(r, d, cards, left);
  }

  /** The turn moves to the given seat. */
  lemma TurnTo(w: Desk, op: Seat, now: int)
    requires TableOk(w) && IsSeat(op) && w.curStep == Play && StepOk(w.(curOpIdx := op)) && 0 <= w.retryDealTimes <= 2
    ensures Inv(ChangeOp(w, op, now)) && SameSeats(w, ChangeOp(w, op, now))
  {
    ChangeOpStep(w, op, now);
    SameGameOk(w.(curOpIdx := op), ChangeOp(w, op, now));
  }

  lemma TurnKeepsHands(w: Desk, op: Seat, now: int)
    requires |w.wheels| == 3 && IsSeat(op)
    ensures HandCards(ChangeOp(w, op, now).wheels) == HandCards(w.wheels)
  {
    var ws := ChangeOp(w, op, now).wheels;
    assert forall k :: 0 <= k < 3 ==> ws[k].pokerList == w.wheels[k].pokerList;
  }

  lemma MorePlayed(r: Rules, d: Desk, cards: seq<Card>, left: seq<Card>, now: int)
    requires ValidRules(r) && |d.wheels| == 3 && IsSeat(d.curOpIdx) && d.curStep == Play && HandsApart(d.wheels)
             && cards != []
    requires SubPoker(r, d.wheels[d.curOpIdx - 1].pokerList, cards) == Some(left)
    requires LastPokerList(d.playPokerList) == None || r.beats(LastPokerList(d.playPokerList).value, cards)
    ensures CardsPlayed(r, d, cards, ChangeOp(LaidDown(r, d, cards, left), NextSeat(d.curOpIdx), now))
  {
    HandsAfterPlay(r, d.wheels, d.curOpIdx, cards);
    TurnKeepsHands(LaidDown(r, d, cards, left), NextSeat(d.curOpIdx), now);
  }

  lemma LastCardsInv(r: Rules, d: Desk, cards: seq<Card>)
    requires ValidRules(r) && Inv(d) && d.curStep == Play && cards != []
    requires SubPoker(r, d.wheels[d.curOpIdx - 1].pokerList, cards) == Some([])
    requires LastPokerList(d.playPokerList) == None || r.beats(LastPokerList(d.playPokerList).value, cards)
    ensures var d' := ChangeStep(LaidDown(r, d, cards, []), NoGame);
            Inv(d') && SameSeats(d, d') && CardsPlayed(r, d, cards, d')
  {
    HandsAfterPlay(r, d.wheels, d.curOpIdx, cards);
    LaidDownTable(r, d, cards, []);
    WinStep(LaidDown(r, d, cards, []));
  }

  lemma MoreCardsInv(r: Rules, d: Desk, cards: seq<Card>, left: seq<Card>, now: int)
    requires ValidRules(r) && Inv(d) && d.curStep == Play && cards != [] && left != []
    requires SubPoker(r, d.wheels[d.curOpIdx - 1].pokerList, cards) == Some(left)
    requires LastPokerList(d.playPokerList) == None || r.beats(LastPokerList(d.playPokerList).value, cards)
    ensures var d' := ChangeOp(LaidDown(r, d, cards, left), NextSeat(d.curOpIdx), now);
            Inv(d') && SameSeats(d, d') && CardsPlayed(r, d, cards, d')
  {
    MorePlayed(r, d, cards, left, now);
    LaidDownStep(r, d, cards, left);
    TurnTo(LaidDown(r, d, cards, left), NextSeat(d.curOpIdx), now);
  }

  lemma PlayCardsIs(r: Rules, d: Desk, cards: seq<Card>, left: seq<Card>, now: int)
    requires |d.wheels| == 3 && IsSeat(d.curOpIdx) && cards != []
    requires SubPoker(r, d.wheels[d.curOpIdx - 1].pokerList, cards) == Some(left)
    requires LastPokerList(d.playPokerList) == None || r.beats(LastPokerList(d.playPokerList).value, cards)
    ensures PlayCards(r, d, cards, now) ==
            if left == [] then ChangeStep(LaidDown(r, d, cards, []), NoGame)
            else ChangeOp(LaidDown(r, d, cards, left), NextSeat(d.curOpIdx), now)
  {
  }

  lemma CardsPlayedInv(r: Rules, d: Desk, cards: seq<Card>, left: seq<Card>, now: int)
    requires ValidRules(r) && Inv(d) && d.curStep == Play && cards != []
    requires SubPoker(r, d.wheels[d.curOpIdx - 1].pokerList, cards) == Some(left)
    requires LastPokerList(d.playPokerList) == None || r.beats(LastPokerList(d.playPokerList).value, cards)
    ensures Inv(PlayCards(r, d, cards, now)) && SameSeats(d, PlayCards(r, d, cards, now))
            && CardsPlayed(r, d, cards, PlayCards(r, d, cards, now))
  {
    PlayCardsIs(r, d, cards, left, now);
    if left == [] {
      LastCardsInv(r, d, cards);
    } else {
      MoreCardsInv(r, d, cards, left, now);
    }
  }

  /** What a call with the given cards comes to: it is refused and changes
      nothing, or it is a pass, or the cards are played. */
  ghost predicate Answered(r: Rules, d: Desk, cards: seq<Card>, now: int, d': Desk)
    requires |d.wheels| == 3 && IsSeat(d.curOpIdx)
  {
    || d' == d
    || (cards == [] && d.playPokerList != [] && d' == Pass(d, now))
    || CardsPlayed(r, d, cards, d')
  }

  /** Every call by the player whose turn it is keeps the invariant and the
      seats. */
  lemma PlayCardsInv(r: Rules, d: Desk, cards: seq<Card>, now: int)
    requires ValidRules(r) && Inv(d) && d.curStep == Play
    ensures Inv(PlayCards(r, d, cards, now)) && SameSeats(d, PlayCards(r, d, cards, now))
    ensures Answered(r, d, cards, now, PlayCards(r, d, cards, now))
  {
    var last := LastPokerList(d.playPokerList);
    if cards == [] {
      if last.Some? {
        PassInv(r, d, now);
      }
    } else {
      var left := SubPoker(r, d.wheels[d.curOpIdx - 1].pokerList, cards);
      if left.Some? && (last == None || r.beats(last.value, cards)) {
        CardsPlayedInv(r, d, cards, left.value, now);
      }
    }
  }

  /** A player who has the lead and lets his time run out still plays: the last
      card of his hand. */
  lemma SlowLeader(r: Rules, d: Desk, now: int)
    requires ValidRules(r) && Inv(d) && d.curStep == Play && d.playPokerList == []
    ensures var hand := d.wheels[d.curOpIdx - 1].pokerList;
            hand != [] && CardsPlayed(r, d, [hand[|hand| - 1]], DealPoker(r, d, None, now))
  {
    var hand := d.wheels[d.curOpIdx - 1].pokerList;
    var cards := [hand[|hand| - 1]];
    assert Chosen(d, None) == cards;
    CardsPlayedInv(r, d, cards, SubPoker(r, hand, cards).value, now);
  }

  // ----- Whole runs -----

  /** While a game is on, every seat keeps its player. */
  ghost predicate SeatsStay(d: Desk, d': Desk) {
    IsPlaying(d) ==>
      && |d.wheels| == |d'.wheels| == 3
      && forall k :: 0 <= k < 3 ==> d.wheels[k].rid.Some? && d'.wheels[k].rid == d.wheels[k].rid
  }

  lemma SameSeatsStay(d: Desk, d': Desk)
    requires Manned(d) && SameSeats(d, d')
    ensures SeatsStay(d, d')
  {
  }

  lemma TickLordInv(r: Rules, d: Desk, now: int, seat: Seat)
    requires ValidRules(r) && Inv(d) && d.curStep == Lord && d.curOpIdx == -1 && IsSeat(seat)
    ensures Inv(ChangeOp(d, seat, now)) && SameSeats(d, ChangeOp(d, seat, now))
  {
    ChangeOpStep(d, seat, now);
    SameGameOk(d.(curOpIdx := seat), ChangeOp(d, seat, now));
  }

  lemma TickBidInv(r: Rules, d: Desk, now: int, deck: seq<Card>, seat: Seat)
    requires ValidRules(r) && Inv(d) && Usable(d) && d.curStep == Lord && |deck| == 54 && IsSeat(seat)
    ensures Inv(TimeUpdate(r, d, now, deck, seat)) && SameSeats(d, TimeUpdate(r, d, now, deck, seat))
  {
    if d.curOpIdx == -1 {
      TickLordInv(r, d, now, seat);
    } else {
      ChooseInv(r, d, 0, now);
    }
  }

  lemma TickPlayInv(r: Rules, d: Desk, now: int, deck: seq<Card>, seat: Seat)
    requires ValidRules(r) && Inv(d) && Usable(d) && d.curStep == Play && |deck| == 54 && IsSeat(seat)
    ensures Inv(TimeUpdate(r, d, now, deck, seat)) && SameSeats(d, TimeUpdate(r, d, now, deck, seat))
  {
    PlayCardsInv(r, d, Chosen(d, None), now);
  }

  lemma TickInv(r: Rules, d: Desk, now: int, deck: seq<Card>, seat: Seat)
    requires ValidRules(r) && Inv(d) && Usable(d) && |deck| == 54 && IsSeat(seat)
    ensures Inv(TimeUpdate(r, d, now, deck, seat)) <==> (d.curStep == Deal ==> Distinct(deck))
    ensures SameSeats(d, TimeUpdate(r, d, now, deck, seat))
  {
    match d.curStep
    case NoGame =>
    case Deal => DealInv(r, d, deck);
    case Lord => TickBidInv(r, d, now, deck, seat);
    case Play => TickPlayInv(r, d, now, deck, seat);
  }

  lemma EnterStays(d: Desk, rid: Rid)
    requires TableOk(d)
    ensures SeatsStay(d, UserEnter(d, rid))
  {
    SeatChosen(d, rid);
    FirstSeatFound(d, rid, 1);
  }

  lemma SeatingInv(r: Rules, d: Desk, e: Event)
    requires Inv(d) && Usable(d) && (e.Enter? || e.Leave? || e.SayReady?)
    ensures Inv(Next(r, d, e)) <==> Orderly(d, e)
    ensures SeatsStay(d, Next(r, d, e))
  {
    match e
    case Enter(rid) => EnterInv(d, rid); EnterStays(d, rid);
    case Leave(rid) => LeaveInv(d, rid);
    case SayReady(rid) => ReadyInv(d, rid);
  }

  lemma BidNext(r: Rules, d: Desk, rid: Rid, c: int, now: int)
    requires ValidRules(r) && Inv(d) && Usable(d)
    ensures var e := Choose(rid, c, now);
            (Inv(Next(r, d, e)) <==> Orderly(d, e)) && (Orderly(d, e) ==> SameSeats(d, Next(r, d, e)))
  {
    if HasTurn(d, rid) {
      BidKeepsInv(r, d, c, now);
    }
  }

  lemma DealPokerInv(r: Rules, d: Desk, cards: Option<seq<Card>>, now: int)
    requires ValidRules(r) && Inv(d) && d.curStep == Play
    ensures Inv(DealPoker(r, d, cards, now)) && SameSeats(d, DealPoker(r, d, cards, now))
  {
    PlayCardsInv(r, d, Chosen(d, cards), now);
  }

  lemma PlayStep(r: Rules, d: Desk, rid: Rid, cards: Option<seq<Card>>, now: int)
    requires Usable(d)
    ensures Next(r, d, DealOp(rid, cards, now))
            == if d.curStep == Play && HasTurn(d, rid) then DealPoker(r, d, cards, now) else d
  {
  }

  lemma PlayNext(r: Rules, d: Desk, rid: Rid, cards: Option<seq<Card>>, now: int)
    requires ValidRules(r) && Inv(d)
    ensures Usable(d) && var d' := Next(r, d, DealOp(rid, cards, now)); Inv(d') && SameSeats(d, d')
  {
    InvUsable(d);
    PlayStep(r, d, rid, cards, now);
    if d.curStep == Play && HasTurn(d, rid) {
      DealPokerInv(r, d, cards, now);
    }
  }

  lemma TickNext(r: Rules, d: Desk, now: int, deck: seq<Card>, seat: Seat)
    requires ValidRules(r) && Inv(d) && Usable(d)
    ensures var e := Tick(now, deck, seat);
            (Inv(Next(r, d, e)) <==> Orderly(d, e)) && SameSeats(d, Next(r, d, e))
  {
    if |deck| == 54 && IsSeat(seat) {
      TickInv(r, d, now, deck, seat);
    }
  }

  lemma GameInv(r: Rules, d: Desk, e: Event)
    requires ValidRules(r) && Inv(d) && Usable(d) && (e.Choose? || e.DealOp? || e.Tick?)
    ensures Inv(Next(r, d, e)) <==> Orderly(d, e)
    ensures Orderly(d, e) ==> SameSeats(d, Next(r, d, e))
  {
    match e
    case Choose(rid, c, now) => BidNext(r, d, rid, c, now);
    case DealOp(rid, cards, now) => PlayNext(r, d, rid, cards, now);
    case Tick(now, deck, seat) => TickNext(r, d, now, deck, seat);
  }

  /** An event keeps the invariant exactly when it is orderly; and while a game
      is on, no orderly event moves a player to another seat or off the table. */
  lemma NextInv(r: Rules, d: Desk, e: Event)
    requires ValidRules(r) && Inv(d)
    ensures Usable(d) && (Inv(Next(r, d, e)) <==> Orderly(d, e))
    ensures Orderly(d, e) ==> SeatsStay(d, Next(r, d, e))
  {
    InvUsable(d);
    if e.Enter? || e.Leave? || e.SayReady? {
      SeatingInv(r, d, e);
    } else {
      GameInv(r, d, e);
      if Orderly(d, e) {
        SameSeatsStay(d, Next(r, d, e));
      }
    }
  }

  /** The tables along a run, the first one first. */
  ghost predicate Run(r: Rules, ds: seq<Desk>, es: seq<Event>) {
    && |ds| == |es| + 1
    && ds[0] == NEW_DESK
    && forall i :: 0 <= i < |es| ==> Usable(ds[i]) && ds[i + 1] == Next(r, ds[i], es[i])
  }

  lemma {:induction false} OrderlyRun(r: Rules, ds: seq<Desk>, es: seq<Event>, n: nat)
    requires ValidRules(r) && Run(r, ds, es) && n < |ds|
    requires forall i :: 0 <= i < n ==> Orderly(ds[i], es[i])
    ensures Inv(ds[n])
  {
    if n == 0 {
      NewDeskInv();
    } else {
      OrderlyRun(r, ds, es, n - 1);
      NextInv(r, ds[n - 1], es[n - 1]);
    }
  }

  /** In a run from an empty table the invariant holds throughout exactly when
      every event of it is orderly. */
  lemma RunInv(r: Rules, ds: seq<Desk>, es: seq<Event>)
    requires ValidRules(r) && Run(r, ds, es)
    ensures (forall n :: 0 <= n < |ds| ==> Inv(ds[n])) <==> (forall i :: 0 <= i < |es| ==> Orderly(ds[i], es[i]))
  {
    if forall i :: 0 <= i < |es| ==> Orderly(ds[i], es[i]) {
      forall n | 0 <= n < |ds| ensures Inv(ds[n]) { OrderlyRun(r, ds, es, n); }
    } else if forall n :: 0 <= n < |ds| ==> Inv(ds[n]) {
      forall i | 0 <= i < |es| ensures Orderly(ds[i], es[i]) {
        assert Inv(ds[i + 1]);
        NextInv(r, ds[i], es[i]);
      }
    }
  }

  lemma IdleChoose(r: Rules, d: Desk, rid: Rid, c: int, now: int)
    requires Inv(d) && Usable(d) && Bidding(d) && Orderly(d, Choose(rid, c, now))
             && !MovesBidding(d, Choose(rid, c, now))
    ensures var d' := Next(r, d, Choose(rid, c, now)); d'.curStep == d.curStep && Rank(d') == Rank(d)
  {
    if HasTurn(d, rid) {
      YesesSnoc(d.lordList, Bid(d.curOpIdx, c));
      YesSeats(d.lordList + [Bid(d.curOpIdx, c)]);
      assert LordChoose(r, d, c, now) == WithBid(d, c);
    }
  }

  /** No other event makes more of the bidding to come. */
  lemma OthersRank(r: Rules, d: Desk, e: Event)
    requires ValidRules(r) && Inv(d) && Usable(d) && Bidding(d) && Orderly(d, e) && !MovesBidding(d, e)
    ensures var d' := Next(r, d, e); Bidding(d') ==> Rank(d') <= Rank(d)
  {
    match e
    case Enter(rid) => if IsRidValid(Some(rid)) { EnterTable(d, rid); }
    case Leave(rid) => LeaveTable(d, rid);
    case SayReady(rid) => ReadyTable(d, rid);
    case Choose(rid, c, now) => IdleChoose(r, d, rid, c, now);
    case DealOp(rid, cards, now) =>
    case Tick(now, deck, seat) =>
  }

  /** How many events of a run move the bidding on. */
  function Moves(ds: seq<Desk>, es: seq<Event>): nat
    requires |ds| == |es| + 1
  {
    if es == [] then 0 else (if MovesBidding(ds[0], es[0]) then 1 else 0) + Moves(ds[1..], es[1..])
  }

  ghost predicate OrderlyStep(r: Rules, d: Desk, e: Event, d': Desk) {
    Usable(d) && Orderly(d, e) && d' == Next(r, d, e)
  }

  /** However many other events come in between, bidding is over after fewer than
      twenty moves: three deals, each with a choice of who starts and at most four
      bids. */
  lemma {:induction false} BiddingEnds(r: Rules, ds: seq<Desk>, es: seq<Event>)
    requires ValidRules(r) && |ds| == |es| + 1 && Inv(ds[0])
    requires forall i :: 0 <= i < |es| ==> OrderlyStep(r, ds[i], es[i], ds[i + 1])
    requires forall i :: 0 <= i < |ds| ==> Bidding(ds[i])
    ensures Moves(ds, es) < Rank(ds[0]) && Moves(ds, es) < 20
    decreases |es|
  {
    RankBound(ds[0]);
    if es != [] {
      assert OrderlyStep(r, ds[0], es[0], ds[0 + 1]);
      NextInv(r, ds[0], es[0]);
      if MovesBidding(ds[0], es[0]) {
        BiddingProgress(r, ds[0], es[0]);
      } else {
        OthersRank(r, ds[0], es[0]);
      }
      var ds', es' := ds[1..], es[1..];
      forall i | 0 <= i < |es'| ensures OrderlyStep(r, ds'[i], es'[i], ds'[i + 1]) {
        assert OrderlyStep(r, ds[i + 1], es[i + 1], ds[(i + 1) + 1]);
      }
      BiddingEnds(r, ds', es');
    }
  }
}
