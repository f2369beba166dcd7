/** What holds at the landlord table in every run. */
module DeskProofs {
  import opened Wrappers
  import opened DeskState
  import opened Powers

  // ----- The invariant -----

  /** Users and seats name each other, and no rid looks invalid. */
  ghost predicate Seated(d: Desk) {
    && |d.wheels| == 3
    && (forall rid <- d.users :: IsSeat(d.users[rid].idx) && d.wheels[d.users[rid].idx - 1].rid == Some(rid))
    && (forall k :: 0 <= k < 3 && d.wheels[k].rid.Some? ==>
          d.wheels[k].rid.value in d.users && d.users[d.wheels[k].rid.value].idx == k + 1)
  }

  ghost predicate RidsValid(d: Desk) {
    forall i :: 0 <= i < |d.wheels| && d.wheels[i].rid.Some? ==> IsRidValid(d.wheels[i].rid)
  }

  /** Nothing in the repository ever marks a player offline. */
  ghost predicate NobodyOffline(d: Desk) {
    forall rid <- d.users :: !d.users[rid].offlineTime
  }

  /** Only seated players are ready, and a game has three players. */
  ghost predicate Manned(d: Desk) {
    && |d.wheels| == 3
    && (forall i :: 0 <= i < 3 && d.wheels[i].isReady ==> d.wheels[i].rid.Some?)
    && (IsPlaying(d) ==> forall i :: 0 <= i < 3 ==> d.wheels[i].rid.Some?)
  }

  /** Bids go round the table. */
  ghost predicate InTurn(bids: seq<Bid>) {
    && (forall i :: 0 <= i < |bids| ==> IsSeat(bids[i].idx))
    && (forall i :: 0 <= i < |bids| - 1 && i < 2 ==> bids[i + 1].idx == NextSeat(bids[i].idx))
  }

  /** At most three bids are in, the stake counts the yeses among them, and it is
      the turn of the next seat, or after three bids of the first to say yes. */
  ghost predicate BiddingOk(bids: seq<Bid>, op: Seat, multiNum: int) {
    && |bids| <= 3
    && InTurn(bids)
    && multiNum == 15 * Pow2(Yeses(bids))
    && (op == -1 ==> bids == [])
    && (op != -1 ==> IsSeat(op))
    && (1 <= |bids| < 3 ==> op == NextSeat(bids[|bids| - 1].idx))
    && (|bids| == 3 ==> Yeses(bids) >= 2 && FirstYes(bids) == Some(op))
  }

  /** The landlord is the last one who said yes, after three or four bids. */
  ghost predicate LordOk(bids: seq<Bid>, lord: Seat) {
    && 3 <= |bids| <= 4
    && InTurn(bids)
    && LastYes(bids) == Some(lord)
    && (|bids| == 3 <==> Yeses(bids[..3]) == 1)
    && (|bids| == 4 ==> FirstYes(bids[..3]) == Some(bids[3].idx))
  }

  /** A round opens with cards on the table, goes round seat by seat, and never
      has two passes in a row; `op` is the seat after the last one. */
  ghost predicate RoundOk(plays: seq<Played>, op: Seat) {
    && IsSeat(op)
    && (forall i :: 0 <= i < |plays| ==> IsSeat(plays[i].idx) && (plays[i].isPlay ==> plays[i].cards != []))
    && (forall i :: 0 <= i < |plays| - 1 ==> plays[i + 1].idx == NextSeat(plays[i].idx))
    && (forall i :: 0 <= i < |plays| - 1 ==> plays[i].isPlay || plays[i + 1].isPlay)
    && (plays != [] ==> plays[0].isPlay && op == NextSeat(plays[|plays| - 1].idx))
  }

  ghost function HandCards(ws: seq<Wheel>): multiset<Card>
    requires |ws| == 3
  {
    multiset(ws[0].pokerList) + multiset(ws[1].pokerList) + multiset(ws[2].pokerList)
  }

  /** The hands hold different cards. */
  ghost predicate HandsApart(ws: seq<Wheel>)
    requires |ws| == 3
  {
    forall c: Card :: HandCards(ws)[c] <= 1
  }

  /** Before a deal there are no bids, or only the noes to the last deal, which
      are put away with the next one. */
  ghost predicate NobodyWants(bids: seq<Bid>, op: Seat) {
    InTurn(bids) && if bids == [] then op == -1 else |bids| >= 3 && Yeses(bids) == 0
  }

  ghost predicate StepOk(d: Desk)
    requires |d.wheels| == 3
  {
    match d.curStep
    case NoGame => d.curOpIdx == -1 && d.lordIdx == -1 && d.multiNum == 15 && d.playPokerList == [] && d.downPoker == []
      && d.lordList == []
    case Deal => d.lordIdx == -1 && d.multiNum == 15 && d.playPokerList == [] && NobodyWants(d.lordList, d.curOpIdx)
    case Lord =>
      && d.lordIdx == -1 && d.playPokerList == []
      && BiddingOk(d.lordList, d.curOpIdx, d.multiNum)
      && (forall i :: 0 <= i < 3 ==> |d.wheels[i].pokerList| == 17)
      && |d.downPoker| == 3
      && (forall c: Card :: (HandCards(d.wheels) + multiset(d.downPoker))[c] <= 1)
    case Play =>
      && LordOk(d.lordList, d.lordIdx)
      && RoundOk(d.playPokerList, d.curOpIdx)
      && HandsApart(d.wheels)
      && (forall i :: 0 <= i < 3 ==> d.wheels[i].pokerList != [])
      && |d.downPoker| == 3
  }

  /** Everything about players and seats. */
  ghost predicate TableOk(d: Desk) {
    Seated(d) && RidsValid(d) && NobodyOffline(d) && Manned(d)
  }

  ghost predicate Inv(d: Desk) {
    TableOk(d) && StepOk(d) && 0 <= d.retryDealTimes <= 2
  }

  /** What the surroundings of a table have to keep to: nobody is given a seat
      with a rid of the wrong length, decks have different cards, and bids come
      while there is bidding, or are a no before the next deal. */
  predicate Orderly(d: Desk, e: Event)
    requires |d.wheels| == 3
  {
    match e
    case Enter(rid) => IsRidValid(Some(rid)) || CheckUserWheel(d, rid) == None
    case Choose(rid, c, _) => HasTurn(d, rid) ==> d.curStep == Lord || (d.curStep == Deal && c != 1)
    case Tick(_, deck, seat) => d.curStep == Deal && |deck| == 54 && IsSeat(seat) ==> Distinct(deck)
    case _ => true
  }

  lemma InvUsable(d: Desk)
    requires Inv(d)
    ensures Usable(d)
  {
  }

  lemma NewDeskInv()
    ensures Inv(NEW_DESK)
  {
  }

  // ----- Seating -----

  lemma {:induction false} FirstSeatFound(d: Desk, rid: Rid, i: Seat)
    requires |d.wheels| == 3 && 1 <= i <= 4
    ensures FirstSeatOf(d, rid, i).Some?
            ==> i <= FirstSeatOf(d, rid, i).value <= 3 && d.wheels[FirstSeatOf(d, rid, i).value - 1].rid == Some(rid)
    ensures FirstSeatOf(d, rid, i) == None ==> forall k :: i - 1 <= k < 3 ==> d.wheels[k].rid != Some(rid)
    decreases 4 - i
  {
    if i < 4 {
      FirstSeatFound(d, rid, i + 1);
    }
  }

  lemma {:induction false} FirstUnfitFound(d: Desk, i: Seat)
    requires |d.wheels| == 3 && 1 <= i <= 4
    ensures FirstUnfit(d, i).Some? ==>
              i <= FirstUnfit(d, i).value <= 3 && !IsRidValid(d.wheels[FirstUnfit(d, i).value - 1].rid)
    decreases 4 - i
  {
    if i < 4 {
      FirstUnfitFound(d, i + 1);
    }
  }

  /** Seat i is the player's own or empty. */
  predicate FreeFor(d: Desk, rid: Rid, i: Seat)
    requires |d.wheels| == 3
  {
    IsSeat(i) && (d.wheels[i - 1].rid == None || d.wheels[i - 1].rid == Some(rid))
  }

  lemma SeatChosen(d: Desk, rid: Rid)
    requires Seated(d)
    ensures var c := CheckUserWheel(d, rid);
            && (c.Some? ==> IsSeat(c.value))
            && (rid in d.users ==> c == Some(d.users[rid].idx) && FreeFor(d, rid, c.value))
            && (rid !in d.users && c.Some? ==> !IsRidValid(d.wheels[c.value - 1].rid) && !IsPlaying(d))
            && (rid !in d.users && c.Some? && FreeFor(d, rid, c.value) ==> d.wheels[c.value - 1].rid == None)
  {
    FirstSeatFound(d, rid, 1);
    FirstUnfitFound(d, 1);
    if rid in d.users {
      var k := d.users[rid].idx - 1;
      assert d.wheels[k].rid == Some(rid);
      var own := FirstSeatOf(d, rid, 1);
      assert own.Some?;
      assert d.wheels[own.value - 1].rid == Some(rid);
    } else {
      assert forall k :: 0 <= k < 3 ==> d.wheels[k].rid != Some(rid);
    }
  }

  lemma OthersSeat(d: Desk, rid: Rid, i: Seat, r: Rid)
    requires Seated(d) && FreeFor(d, rid, i) && r in d.users && r != rid
    ensures IsSeat(d.users[r].idx) && d.users[r].idx != i && d.wheels[d.users[r].idx - 1].rid == Some(r)
  {
  }

  /** Putting a player on his own or an empty seat. */
  lemma SeatPlayer(d: Desk, rid: Rid, i: Seat, u: User, w: Wheel, d': Desk)
    requires Seated(d) && FreeFor(d, rid, i) && (rid in d.users ==> d.users[rid].idx == i)
    requires u.idx == i && w.rid == Some(rid)
    requires d'.users == d.users[rid := u] && d'.wheels == d.wheels[i - 1 := w]
    ensures Seated(d')
  {
    forall r <- d'.users ensures IsSeat(d'.users[r].idx) && d'.wheels[d'.users[r].idx - 1].rid == Some(r) {
      if r != rid {
        OthersSeat(d, rid, i, r);
      }
    }
    forall k | 0 <= k < 3 && d'.wheels[k].rid.Some?
      ensures d'.wheels[k].rid.value in d'.users && d'.users[d'.wheels[k].rid.value].idx == k + 1
    {
      if k != i - 1 {
        assert d.wheels[k].rid.value in d.users;
      }
    }
  }

  lemma EnterFree(d: Desk, rid: Rid)
    requires Seated(d) && CheckUserWheel(d, rid).Some? && FreeFor(d, rid, CheckUserWheel(d, rid).value)
    ensures Seated(UserEnter(d, rid))
  {
    SeatChosen(d, rid);
    var i := CheckUserWheel(d, rid).value;
    SeatPlayer(d, rid, i, User(i, false, false), d.wheels[i - 1].(rid := Some(rid), isReady := false),
      UserEnter(d, rid));
  }

  lemma EnterTaken(d: Desk, rid: Rid)
    requires Seated(d) && CheckUserWheel(d, rid).Some? && !FreeFor(d, rid, CheckUserWheel(d, rid).value)
    ensures !Seated(UserEnter(d, rid))
  {
    SeatChosen(d, rid);
    var i := CheckUserWheel(d, rid).value;
    var was := d.wheels[i - 1].rid.value;
    var d' := UserEnter(d, rid);
    assert was in d'.users && d'.users[was].idx == i;
  }

  /** Entering keeps users and seats in step exactly when the seat handed out is
      the player's own or is empty: a seat whose rid merely looks invalid is
      handed out although somebody sits there. */
  lemma EnterKeepsSeats(d: Desk, rid: Rid)
    requires Seated(d)
    ensures Seated(UserEnter(d, rid)) <==>
            CheckUserWheel(d, rid) == None || FreeFor(d, rid, CheckUserWheel(d, rid).value)
  {
    SeatChosen(d, rid);
    if CheckUserWheel(d, rid).Some? {
      if FreeFor(d, rid, CheckUserWheel(d, rid).value) {
        EnterFree(d, rid);
      } else {
        EnterTaken(d, rid);
      }
    }
  }

  /** With rids of 18 characters, as `get_rid` makes them, the second player to
      enter is put on the first one's seat. */
  lemma LongRidsCollide(a: Rid, b: Rid)
    requires |a| == 18 && |b| == 18 && a != b
    ensures var d := UserEnter(UserEnter(NEW_DESK, a), b);
            d.users == map[a := User(1, false, false), b := User(1, false, false)] && d.wheels[0].rid == Some(b)
              && !Seated(d)
  {
    var d1 := UserEnter(NEW_DESK, a);
    FirstSeatFound(NEW_DESK, a, 1);
    assert FirstUnfit(NEW_DESK, 1) == Some(1);
    FirstSeatFound(d1, b, 1);
    assert FirstUnfit(d1, 1) == Some(1);
    var d := UserEnter(d1, b);
    assert d.wheels[d.users[a].idx - 1].rid != Some(a);
  }

  /** The same game; who sits where may differ, and outside a deal so may the
      hands. */
  ghost predicate SameGame(d: Desk, d': Desk) {
    && |d.wheels| == |d'.wheels| == 3
    && d' == d.(users := d'.users, wheels := d'.wheels)
    && (d.curStep == Lord || d.curStep == Play
       ==> forall k :: 0 <= k < 3 ==> d'.wheels[k].pokerList == d.wheels[k].pokerList)
  }

  lemma SameGameOk(d: Desk, d': Desk)
    requires SameGame(d, d') && StepOk(d)
    ensures StepOk(d')
  {
    if d.curStep == Lord || d.curStep == Play {
      assert HandCards(d'.wheels) == HandCards(d.wheels);
    }
  }

  lemma EnterSeated(d: Desk, rid: Rid)
    requires Seated(d) && RidsValid(d) && IsRidValid(Some(rid))
    ensures Seated(UserEnter(d, rid))
  {
    SeatChosen(d, rid);
    if CheckUserWheel(d, rid).Some? {
      EnterFree(d, rid);
    }
  }

  /** Entering changes at most one wheel, which ends up not ready and taken by a
      player with a valid rid; hands stay as they are. */
  lemma EnterWheels(d: Desk, rid: Rid)
    requires |d.wheels| == 3 && RidsValid(d) && IsRidValid(Some(rid))
    ensures var d' := UserEnter(d, rid);
            && |d'.wheels| == 3 && RidsValid(d') && SameGame(d, d')
            && forall k :: 0 <= k < 3 ==>
                 d'.wheels[k] == d.wheels[k] || (!d'.wheels[k].isReady && d'.wheels[k].rid.Some?)
  {
    FirstSeatFound(d, rid, 1);
    FirstUnfitFound(d, 1);
  }

  lemma EnterOnline(d: Desk, rid: Rid)
    requires NobodyOffline(d) && |d.wheels| == 3
    ensures NobodyOffline(UserEnter(d, rid))
  {
  }

  lemma MannedAgain(d: Desk, d': Desk)
    requires Manned(d) && |d'.wheels| == 3 && d'.curStep == d.curStep
    requires forall k :: 0 <= k < 3 ==> d'.wheels[k] == d.wheels[k] || (!d'.wheels[k].isReady && d'.wheels[k].rid.Some?)
    ensures Manned(d')
  {
  }

  lemma EnterTable(d: Desk, rid: Rid)
    requires TableOk(d) && IsRidValid(Some(rid))
    ensures TableOk(UserEnter(d, rid)) && SameGame(d, UserEnter(d, rid))
  {
    EnterSeated(d, rid);
    EnterWheels(d, rid);
    MannedAgain(d, UserEnter(d, rid));
    EnterOnline(d, rid);
  }

  lemma LeaveSeat(d: Desk, rid: Rid)
    requires TableOk(d) && rid in d.users && !IsPlaying(d)
    ensures TableOk(UserLeave(d, rid)) && SameGame(d, UserLeave(d, rid))
  {
    var d' := UserLeave(d, rid);
    var idx := d.users[rid].idx;
    forall k | 0 <= k < 3 && d'.wheels[k].rid.Some?
      ensures d'.wheels[k].rid.value in d'.users && d'.users[d'.wheels[k].rid.value].idx == k + 1
    {
      assert k != idx - 1 && d.wheels[k].rid == d'.wheels[k].rid;
    }
    forall r <- d'.users ensures d'.wheels[d'.users[r].idx - 1].rid == Some(r) {
      assert d'.users[r].idx != idx;
    }
  }

  lemma LeaveLater(d: Desk, rid: Rid)
    requires TableOk(d) && (rid !in d.users || IsPlaying(d))
    ensures TableOk(UserLeave(d, rid)) && SameGame(d, UserLeave(d, rid))
  {
    var d' := UserLeave(d, rid);
    assert d'.wheels == d.wheels && d'.users.Keys == d.users.Keys;
    assert forall r <- d.users :: d'.users[r].idx == d.users[r].idx;
  }

  lemma LeaveTable(d: Desk, rid: Rid)
    requires TableOk(d)
    ensures TableOk(UserLeave(d, rid)) && SameGame(d, UserLeave(d, rid))
  {
    if rid in d.users && !IsPlaying(d) {
      LeaveSeat(d, rid);
    } else {
      LeaveLater(d, rid);
    }
  }

  /** The same people on the same seats. */
  ghost predicate SameSeats(d: Desk, d': Desk) {
    d'.users == d.users && |d'.wheels| == |d.wheels|
      && forall k :: 0 <= k < |d.wheels| ==> d'.wheels[k].rid == d.wheels[k].rid
  }

  lemma SameSeatsTable(d: Desk, d': Desk)
    requires TableOk(d) && SameSeats(d, d')
    requires forall k :: 0 <= k < 3 && d'.wheels[k].isReady ==> d.wheels[k].rid.Some?
    requires IsPlaying(d') ==> forall k :: 0 <= k < 3 ==> d.wheels[k].rid.Some?
    ensures TableOk(d')
  {
  }

  lemma ReadyWheels(d: Desk, rid: Rid)
    requires Seated(d)
    ensures var d' := Ready(d, rid);
            && SameSeats(d, d') && d' == d.(wheels := d'.wheels, curStep := d'.curStep)
            && (d'.curStep == d.curStep || (d.curStep == NoGame && d'.curStep == Deal && AllReady(d'.wheels)))
            && forall j :: 0 <= j < 3 ==>
                 d'.wheels[j] == d.wheels[j] || (d.wheels[j].rid.Some? && d'.wheels[j] == d.wheels[j].(isReady := true))
  {
    if rid in d.users && !IsPlaying(d) {
      var k := d.users[rid].idx - 1;
      assert d.wheels[k].rid == Some(rid);
      if !d.wheels[k].isReady {
        assert Ready(d, rid).wheels == d.wheels[k := d.wheels[k].(isReady := true)];
      }
    }
  }

  /** Saying ready marks one wheel, and may start the game. */
  lemma ReadyTable(d: Desk, rid: Rid)
    requires TableOk(d)
    ensures TableOk(Ready(d, rid)) && SameSeats(d, Ready(d, rid))
    ensures var d' := Ready(d, rid);
            SameGame(d, d') || (d.curStep == NoGame && SameGame(d.(curStep := Deal), d'))
  {
    var d' := Ready(d, rid);
    ReadyWheels(d, rid);
    SameSeatsTable(d, d');
  }

  /** Entering keeps the invariant exactly when no seat is given to a rid of the
      wrong length. */
  lemma EnterInv(d: Desk, rid: Rid)
    requires Inv(d)
    ensures Inv(UserEnter(d, rid)) <==> IsRidValid(Some(rid)) || CheckUserWheel(d, rid) == None
  {
    SeatChosen(d, rid);
    if IsRidValid(Some(rid)) {
      EnterTable(d, rid);
      SameGameOk(d, UserEnter(d, rid));
    } else if CheckUserWheel(d, rid).Some? {
      var i := CheckUserWheel(d, rid).value;
      assert UserEnter(d, rid).wheels[i - 1].rid == Some(rid);
    }
  }

  lemma LeaveInv(d: Desk, rid: Rid)
    requires Inv(d)
    ensures Inv(UserLeave(d, rid))
  {
    LeaveTable(d, rid);
    SameGameOk(d, UserLeave(d, rid));
  }

  lemma ReadyInv(d: Desk, rid: Rid)
    requires Inv(d)
    ensures Inv(Ready(d, rid))
  {
    ReadyTable(d, rid);
    if SameGame(d, Ready(d, rid)) {
      SameGameOk(d, Ready(d, rid));
    } else {
      SameGameOk(d.(curStep := Deal), Ready(d, rid));
    }
  }
}
