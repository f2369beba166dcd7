/** Bids that arrive when there is no bidding: a bid is checked against the seat
    but not against the step. */
module DeskLateBids {
  import opened Wrappers
  import opened DeskState
  import opened DeskProofs
  import opened DeskBidding

  lemma LateLord(bids: seq<Bid>, lord: Seat, b: Bid)
    requires LordOk(bids, lord) && IsSeat(b.idx)
    ensures var bids' := bids + [b];
            && |bids'| >= 4 && LastYes(bids').Some? && IsSeat(LastYes(bids').value)
            && forall i: Seat :: !LordOk(bids', i)
  {
    YesesSnoc(bids, b);
    YesSeats(bids + [b]);
    YesSeats(bids);
    assert (bids + [b])[..3] == bids[..3];
  }

  /** During play every bid hands out the left-over cards again, and leaves more
      bids than a game can have. */
  lemma BidDuringPlay(r: Rules, d: Desk, c: int, now: int)
    requires ValidRules(r) && Inv(d) && d.curStep == Play
    ensures var d' := LordChoose(r, d, c, now);
            && |d'.wheels| == 3 && HandCards(d'.wheels) == HandCards(d.wheels) + multiset(d.downPoker)
            && |d.downPoker| == 3 && !Inv(d')
  {
    var w := WithBid(d, c);
    LateLord(d.lordList, d.lordIdx, Bid(d.curOpIdx, c));
    FinishLordCards(r, w, LastYes(w.lordList).value, now);
    assert LordChoose(r, d, c, now) == FinishLord(r, w, LastYes(w.lordList).value, now);
  }

  lemma {:induction false} NoYesAmong(bids: seq<Bid>, n: nat)
    requires Yeses(bids) == 0 && n <= |bids|
    ensures Yeses(bids[..n]) == 0
    decreases |bids|
  {
    if n < |bids| {
      NoYesAmong(bids[..|bids| - 1], n);
      assert bids[..|bids| - 1][..n] == bids[..n];
    } else {
      assert bids[..n] == bids;
    }
  }

  /** After three noes and before the next deal a yes makes the bidder landlord
      all the same, with the cards that nobody wanted. */
  lemma YesBeforeDeal(r: Rules, d: Desk, now: int)
    requires ValidRules(r) && Inv(d) && d.curStep == Deal && IsSeat(d.curOpIdx)
    ensures var d' := LordChoose(r, d, 1, now);
            && |d'.wheels| == 3 && HandCards(d'.wheels) == HandCards(d.wheels) + multiset(d.downPoker)
            && d'.curStep == Play && d'.lordIdx == d.curOpIdx && !Inv(d')
  {
    var w := WithBid(d, 1);
    YesesSnoc(d.lordList, Bid(d.curOpIdx, 1));
    FinishLordCards(r, w, d.curOpIdx, now);
    NoYesAmong(d.lordList, 3);
    assert w.lordList[..3] == d.lordList[..3];
    YesSeats(d.lordList[..3]);
  }

  lemma NobodyWantsMore(bids: seq<Bid>, op: Seat, c: int)
    requires NobodyWants(bids, op) && IsSeat(op) && c != 1
    ensures NobodyWants(bids + [Bid(op, c)], op)
  {
    YesesSnoc(bids, Bid(op, c));
  }

  /** Another no before the next deal does no harm. */
  lemma NoBeforeDeal(r: Rules, d: Desk, c: int, now: int)
    requires ValidRules(r) && Inv(d) && d.curStep == Deal && IsSeat(d.curOpIdx) && c != 1
    ensures Inv(LordChoose(r, d, c, now)) && SameSeats(d, LordChoose(r, d, c, now))
  {
    var w := WithBid(d, c);
    YesesSnoc(d.lordList, Bid(d.curOpIdx, c));
    YesSeats(w.lordList);
    assert LordChoose(r, d, c, now) == w;
    NobodyWantsMore(d.lordList, d.curOpIdx, c);
    SameSeatsTable(d, w);
  }

  /** A bid by the seat whose turn it is keeps the game sound exactly while there
      is bidding, or before a deal when it is a no. */
  lemma BidKeepsInv(r: Rules, d: Desk, c: int, now: int)
    requires ValidRules(r) && Inv(d) && IsSeat(d.curOpIdx)
    ensures Inv(LordChoose(r, d, c, now)) <==> d.curStep == Lord || (d.curStep == Deal && c != 1)
    ensures Inv(LordChoose(r, d, c, now)) ==> SameSeats(d, LordChoose(r, d, c, now))
  {
    match d.curStep
    case NoGame =>
    case Deal =>
      if c == 1 {
        YesBeforeDeal(r, d, now);
      } else {
        NoBeforeDeal(r, d, c, now);
      }
    case Lord => ChooseInv(r, d, c, now);
    case Play => BidDuringPlay(r, d, c, now);
  }
}
