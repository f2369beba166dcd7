/** Runs in which only the last event is out of order, and the game breaks. */
module DeskWitness {
  import opened Wrappers
  import opened DeskState
  import opened DeskProofs
  import opened DeskBidding
  import opened DeskLateBids
  import opened DeskPlay

  /** Some run leads to the table. */
  ghost predicate Reached(r: Rules, d: Desk) {
    exists ds, es :: Run(r, ds, es) && ds[|es|] == d
  }

  lemma NewReached(r: Rules)
    ensures Reached(r, NEW_DESK)
  {
    assert Run(r, [NEW_DESK], []);
  }

  lemma LongerRun(r: Rules, ds: seq<Desk>, es: seq<Event>, e: Event)
    requires Run(r, ds, es) && Usable(ds[|es|])
    ensures Run(r, ds + [Next(r, ds[|es|], e)], es + [e])
  {
    var ds', es' := ds + [Next(r, ds[|es|], e)], es + [e];
    forall i | 0 <= i < |es'| ensures Usable(ds'[i]) && ds'[i + 1] == Next(r, ds'[i], es'[i]) {
      if i < |es| {
        assert ds'[i] == ds[i] && ds'[i + 1] == ds[i + 1] && es'[i] == es[i];
      }
    }
  }

  lemma NextReached(r: Rules, d: Desk, e: Event)
    requires Reached(r, d) && Usable(d)
    ensures Reached(r, Next(r, d, e))
  {
    var ds, es :| Run(r, ds, es) && ds[|es|] == d;
    LongerRun(r, ds, es, e);
    assert (ds + [Next(r, d, e)])[|es + [e]|] == Next(r, d, e);
  }

  /** Reached by an orderly run. */
  ghost predicate Sound(r: Rules, d: Desk) {
    Reached(r, d) && Inv(d)
  }

  lemma NextSound(r: Rules, d: Desk, e: Event)
    requires ValidRules(r) && Sound(r, d) && Orderly(d, e)
    ensures Usable(d) && Sound(r, Next(r, d, e))
  {
    NextInv(r, d, e);
    NextReached(r, d, e);
  }

  // ----- From an empty table to the first bid -----

  /** Three rids of the right length. */
  function Rids(): seq<Rid> { ["aaaaaaaaaaaa", "bbbbbbbbbbbb", "cccccccccccc"] }

  /** The first n players are seated, and m of them ready. */
  function Seats(n: nat, m: nat): Desk
    requires n <= 3
  {
    NEW_DESK.(users := map i | 0 <= i < n :: Rids()[i] := User(i + 1, false, false),
             wheels := seq(3, i requires 0 <= i < 3 =>
                              if i < n then Wheel(Some(Rids()[i]), i < m, [], 0) else EMPTY_WHEEL))
  }

  lemma {:induction false} FirstFree(n: nat, i: Seat)
    requires n < 3 && 1 <= i <= n + 1
    ensures FirstUnfit(Seats(n, 0), i) == Some(n + 1)
    decreases n + 1 - i
  {
    var w := Seats(n, 0).wheels[i - 1];
    if i <= n {
      assert w.rid == Some(Rids()[i - 1]);
      FirstFree(n, i + 1);
    } else {
      assert w == EMPTY_WHEEL;
    }
  }

  lemma {:induction false} NotSeated(n: nat, i: Seat)
    requires n < 3 && 1 <= i <= 4
    ensures FirstSeatOf(Seats(n, 0), Rids()[n], i) == None
    decreases 4 - i
  {
    if i < 4 {
      assert Seats(n, 0).wheels[i - 1].rid != Some(Rids()[n]);
      NotSeated(n, i + 1);
    }
  }

  lemma SeatsGrow(n: nat)
    requires n < 3
    ensures Seats(n + 1, 0).users == Seats(n, 0).users[Rids()[n] := User(n + 1, false, false)]
    ensures Seats(n + 1, 0).wheels == Seats(n, 0).wheels[n := Wheel(Some(Rids()[n]), false, [], 0)]
  {
    assert forall i :: 0 <= i < n ==> Rids()[i] != Rids()[n];
  }

  lemma OneEnters(n: nat)
    requires n < 3
    ensures UserEnter(Seats(n, 0), Rids()[n]) == Seats(n + 1, 0)
  {
    NotSeated(n, 1);
    FirstFree(n, 1);
    SeatsGrow(n);
    assert Seats(n, 0).wheels[n] == EMPTY_WHEEL;
  }

  lemma OneReady(m: nat)
    requires m < 3
    ensures Ready(Seats(3, m), Rids()[m]) == if m == 2 then ChangeStep(Seats(3, 3), Deal) else Seats(3, m + 1)
  {
    var d, rid := Seats(3, m), Rids()[m];
    var ws := d.wheels[m := d.wheels[m].(isReady := true)];
    assert d.users[rid] == User(m + 1, false, false);
    assert ws == Seats(3, m + 1).wheels;
    assert m < 2 ==> !ws[2].isReady;
  }

  lemma EnterSound(r: Rules, d: Desk, rid: Rid)
    requires ValidRules(r) && Sound(r, d) && IsRidValid(Some(rid))
    ensures Sound(r, UserEnter(d, rid))
  {
    NextSound(r, d, Enter(rid));
  }

  lemma SayReadySound(r: Rules, d: Desk, rid: Rid)
    requires ValidRules(r) && Sound(r, d)
    ensures Sound(r, Ready(d, rid))
  {
    NextSound(r, d, SayReady(rid));
  }

  lemma DealSound(r: Rules, d: Desk, deck: seq<Card>)
    requires ValidRules(r) && Sound(r, d) && d.curStep == Deal && |deck| == 54 && Distinct(deck)
    ensures Sound(r, DealCards(r, d, deck))
  {
    NextSound(r, d, Tick(0, deck, 1));
  }

  lemma StarterSound(r: Rules, d: Desk, deck: seq<Card>)
    requires ValidRules(r) && Sound(r, d) && d.curStep == Lord && d.curOpIdx == -1 && |deck| == 54
    ensures Sound(r, ChangeOp(d, 1, 0))
  {
    NextSound(r, d, Tick(0, deck, 1));
  }

  lemma NoSeats()
    ensures Seats(0, 0) == NEW_DESK
  {
    assert Seats(0, 0).wheels == NEW_DESK.wheels;
    assert Seats(0, 0).users == NEW_DESK.users;
  }

  lemma {:induction false} SeatsSound(r: Rules, n: nat)
    requires ValidRules(r) && n <= 3
    ensures Sound(r, Seats(n, 0))
  {
    if n == 0 {
      NewReached(r);
      NewDeskInv();
      NoSeats();
    } else {
      SeatsSound(r, n - 1);
      OneEnters(n - 1);
      EnterSound(r, Seats(n - 1, 0), Rids()[n - 1]);
    }
  }

  lemma {:induction false} ReadySound(r: Rules, m: nat)
    requires ValidRules(r) && m <= 3
    ensures Sound(r, if m == 3 then ChangeStep(Seats(3, 3), Deal) else Seats(3, m))
  {
    if m == 0 {
      SeatsSound(r, 3);
    } else {
      ReadySound(r, m - 1);
      OneReady(m - 1);
      SayReadySound(r, Seats(3, m - 1), Rids()[m - 1]);
    }
  }

  function Deck(): (deck: seq<Card>)
    ensures |deck| == 54 && Distinct(deck)
  {
    seq(54, i => i)
  }

  /** A table at which the first seat is asked first. */
  lemma OpeningSound(r: Rules) returns (d: Desk)
    requires ValidRules(r)
    ensures Sound(r, d) && d.curStep == Lord && d.lordList == [] && d.curOpIdx == 1 && d.retryDealTimes == 0
  {
    ReadySound(r, 3);
    var d0 := ChangeStep(Seats(3, 3), Deal);
    DealSound(r, d0, Deck());
    StarterSound(r, DealCards(r, d0, Deck()), Deck());
    d := ChangeOp(DealCards(r, d0, Deck()), 1, 0);
  }

  // ----- Bids -----

  /** Whoever is asked can answer. */
  lemma SomebodyAsked(d: Desk) returns (rid: Rid)
    requires Inv(d) && IsPlaying(d) && IsSeat(d.curOpIdx)
    ensures HasTurn(d, rid)
  {
    rid := d.wheels[d.curOpIdx - 1].rid.value;
  }

  lemma BidSound(r: Rules, d: Desk, c: int)
    requires ValidRules(r) && Sound(r, d) && d.curStep == Lord && IsSeat(d.curOpIdx)
    ensures Usable(d) && Sound(r, LordChoose(r, d, c, 0))
  {
    var rid := SomebodyAsked(d);
    NextSound(r, d, Choose(rid, c, 0));
  }

  lemma OneMoreBid(r: Rules, d: Desk, c: int) returns (d': Desk)
    requires ValidRules(r) && Sound(r, d) && d.curStep == Lord && IsSeat(d.curOpIdx) && |d.lordList| < 2
    ensures Sound(r, d') && d'.curStep == Lord && IsSeat(d'.curOpIdx) && d'.retryDealTimes == d.retryDealTimes
    ensures |d'.lordList| == |d.lordList| + 1 && Yeses(d'.lordList) == Yeses(d.lordList) + if c == 1 then 1 else 0
  {
    BidSound(r, d, c);
    BiddingGoesOn(r, d, c, 0);
    YesesSnoc(d.lordList, Bid(d.curOpIdx, c));
    d' := LordChoose(r, d, c, 0);
  }

  /** One more no decides. */
  lemma TwoBids(r: Rules, first: int) returns (d: Desk)
    requires ValidRules(r)
    ensures Sound(r, d) && d.curStep == Lord && IsSeat(d.curOpIdx) && d.retryDealTimes == 0
    ensures OutcomeOf(d, 0) == if first == 1 then Settled else Redeal
  {
    var d0 := OpeningSound(r);
    var d1 := OneMoreBid(r, d0, first);
    d := OneMoreBid(r, d1, 0);
    YesesSnoc(d.lordList, Bid(d.curOpIdx, 0));
  }

  /** A table in the middle of play, before any card is played. */
  lemma PlaySound(r: Rules) returns (d: Desk)
    requires ValidRules(r)
    ensures Sound(r, d) && d.curStep == Play && multiset(d.downPoker) <= HandCards(d.wheels)
  {
    var d0 := TwoBids(r, 1);
    BidSound(r, d0, 0);
    BiddingSettles(r, d0, 0, 0);
    d := LordChoose(r, d0, 0, 0);
  }

  /** A table at which all three have said no. */
  lemma RejectedSound(r: Rules) returns (d: Desk)
    requires ValidRules(r)
    ensures Sound(r, d) && d.curStep == Deal && IsSeat(d.curOpIdx)
  {
    var d0 := TwoBids(r, 0);
    BidSound(r, d0, 0);
    BiddingFails(r, d0, 0, 0);
    d := LordChoose(r, d0, 0, 0);
  }

  /** Some card is in the players' hands twice. */
  ghost predicate CardTwice(d: Desk) {
    |d.wheels| == 3 && exists c: Card :: HandCards(d.wheels)[c] >= 2
  }

  lemma BidTwice(r: Rules, d: Desk, rid: Rid)
    requires ValidRules(r) && Inv(d) && Usable(d) && d.curStep == Play && HasTurn(d, rid)
             && multiset(d.downPoker) <= HandCards(d.wheels)
    ensures CardTwice(Next(r, d, Choose(rid, 1, 0)))
  {
    BidDuringPlay(r, d, 1, 0);
    var c := d.downPoker[0];
    assert multiset(d.downPoker)[c] >= 1;
    assert HandCards(LordChoose(r, d, 1, 0).wheels)[c] >= 2;
  }

  /** A game in which the landlord, who has just taken the left-over cards, sends
      his bid again: he gets them a second time. */
  lemma LateBidDoublesCards(r: Rules)
    requires ValidRules(r)
    ensures exists d, rid ::
              Sound(r, d) && Usable(d) && d.curStep == Play && HasTurn(d, rid)
              && CardTwice(Next(r, d, Choose(rid, 1, 0)))
  {
    var d := PlaySound(r);
    var rid := SomebodyAsked(d);
    InvUsable(d);
    BidTwice(r, d, rid);
  }

  /** A game in which all three say no and the last of them then changes his
      mind before the timer deals again: he is landlord with the old cards. */
  lemma LateYesSkipsDeal(r: Rules)
    requires ValidRules(r)
    ensures exists d, rid :: Sound(r, d) && Usable(d) && d.curStep == Deal && HasTurn(d, rid)
                             && Next(r, d, Choose(rid, 1, 0)).curStep == Play && !Inv(Next(r, d, Choose(rid, 1, 0)))
  {
    var d := RejectedSound(r);
    var rid := SomebodyAsked(d);
    YesBeforeDeal(r, d, 0);
  }
}
