/** The landlord table as the source keeps it: an object whose methods change its
    fields. Every method is proved to do what the state machine of DeskState does,
    so what is proved of every run holds of the object. */
module DdzDesks {
  import opened Wrappers
  import opened DeskState
  import DeskProofs
  import DeskPlay

  lemma {:induction false} FirstYesSnoc(bids: seq<Bid>, b: Bid)
    ensures FirstYes(bids + [b])
            == if FirstYes(bids).Some? then FirstYes(bids) else if b.isChoose == 1 then Some(b.idx) else None
  {
    if bids == [] {
      assert [b][1..] == [];
    } else {
      FirstYesSnoc(bids[1..], b);
      assert (bids + [b])[1..] == bids[1..] + [b];
    }
  }

  lemma YesStep(bids: seq<Bid>, k: nat)
    requires k < |bids|
    ensures Yeses(bids[..k + 1]) == Yeses(bids[..k]) + if bids[k].isChoose == 1 then 1 else 0
    ensures LastYes(bids[..k + 1]) == if bids[k].isChoose == 1 then Some(bids[k].idx) else LastYes(bids[..k])
    ensures FirstYes(bids[..k + 1]) == if FirstYes(bids[..k]).Some? then FirstYes(bids[..k])
                                       else if bids[k].isChoose == 1 then Some(bids[k].idx) else None
  {
    assert bids[..k + 1] == bids[..k] + [bids[k]];
    assert bids[..k + 1][..k] == bids[..k];
    FirstYesSnoc(bids[..k], bids[k]);
  }

  lemma Follow(r: Rules, d: Desk, e: Event)
    requires Usable(d)
    ensures ValidRules(r) && DeskProofs.Inv(d) && DeskProofs.Orderly(d, e) ==>
              DeskProofs.Inv(Next(r, d, e)) && DeskPlay.SeatsStay(d, Next(r, d, e))
  {
    if ValidRules(r) && DeskProofs.Inv(d) && DeskProofs.Orderly(d, e) {
      DeskPlay.NextInv(r, d, e);
    }
  }

  class DdzDesk {
    const rules: Rules
    var users: map<Rid, User>
    var wheels: seq<Wheel>
    var curStep: Step
    var curOpIdx: Seat
    var lordIdx: Seat
    var multiNum: int
    var retryDealTimes: int
    var downPoker: seq<Card>
    var lordList: seq<Bid>
    var playPokerList: seq<Played>

    ghost function State(): Desk
      reads this
    {
      Desk(users, wheels, curStep, curOpIdx, lordIdx, multiNum, retryDealTimes, downPoker, lordList, playPokerList)
    }

    constructor (rules: Rules)
      ensures State() == NEW_DESK && this.rules == rules
    {
      this.rules := rules;
      users, wheels := map[], [EMPTY_WHEEL, EMPTY_WHEEL, EMPTY_WHEEL];
      curStep, curOpIdx, lordIdx, multiNum, retryDealTimes := NoGame, -1, -1, 15, 0;
      downPoker, lordList, playPokerList := [], [], [];
    }

    // ----- Seating -----

    method CheckUserWheel(rid: Rid) returns (idx: Option<Seat>)
      requires |wheels| == 3
      ensures idx == DeskState.CheckUserWheel(State(), rid)
    {
      var fixEmptyIdx: Option<Seat> := None;
      var i := 1;
      while i <= 3
        invariant 1 <= i <= 4
        invariant FirstSeatOf(State(), rid, 1) == FirstSeatOf(State(), rid, i)
        invariant FirstUnfit(State(), 1) == if fixEmptyIdx.Some? then fixEmptyIdx else FirstUnfit(State(), i)
      {
        if wheels[i - 1].rid == Some(rid) { return Some(i); }
        if !IsRidValid(wheels[i - 1].rid) && fixEmptyIdx == None { fixEmptyIdx := Some(i); }
        i := i + 1;
      }
      if curStep != NoGame { return None; }
      return fixEmptyIdx;
    }

    method UserEnter(rid: Rid)
      requires |wheels| == 3
      modifies `users, `wheels
      ensures State() == DeskState.UserEnter(old(State()), rid)
    {
      var idx := CheckUserWheel(rid);
      DeskProofs.FirstSeatFound(State(), rid, 1);
      DeskProofs.FirstUnfitFound(State(), 1);
      if idx.Some? {
        users := users[rid := User(idx.value, false, false)];
        wheels := wheels[idx.value - 1 := wheels[idx.value - 1].(rid := Some(rid), isReady := false)];
      }
      if rid in users {
        users := users[rid := users[rid].(lastLogoutTime := false)];
      }
    }

    method UserLeave(rid: Rid)
      requires |wheels| == 3
      modifies `users, `wheels
      ensures State() == DeskState.UserLeave(old(State()), rid)
    {
      if rid !in users { return; }
      users := users[rid := users[rid].(lastLogoutTime := true)];
      if curStep != NoGame { return; }
      var idx := users[rid].idx;
      users := users - {rid};
      if IsSeat(idx) {
        wheels := wheels[idx - 1 := EMPTY_WHEEL];
      }
    }

    // ----- Steps -----

    method ChangeCurStep(newStep: Step)
      modifies this
      ensures State() == ChangeStep(old(State()), newStep)
    {
      curStep := newStep;
      if newStep == NoGame {
        var i := 0;
        while i < |wheels|
          invariant i <= |wheels| == |old(wheels)|
          invariant forall k :: 0 <= k < |wheels| ==>
                      wheels[k] == if k < i then old(wheels)[k].(isReady := false) else old(wheels)[k]
          invariant State() == old(State()).(curStep := newStep, wheels := wheels)
        {
          wheels := wheels[i := wheels[i].(isReady := false)];
          i := i + 1;
        }
        curOpIdx, lordIdx, multiNum := -1, -1, 15;
        playPokerList, downPoker, lordList := [], [], [];
      }
    }

    method ChangeCurOpIdx(newOpIdx: Seat, now: int)
      requires |wheels| == 3 && IsSeat(newOpIdx)
      modifies `curOpIdx, `wheels
      ensures State() == ChangeOp(old(State()), newOpIdx, now)
    {
      curOpIdx := newOpIdx;
      wheels := wheels[curOpIdx - 1 := wheels[curOpIdx - 1].(lastOpTime := now)];
    }

    method CheckAllReady()
      requires |wheels| == 3
      modifies this
      ensures State() == if AllReady(old(wheels)) then ChangeStep(old(State()), Deal) else old(State())
    {
      var i := 0;
      while i < 3
        invariant i <= 3 && State() == old(State())
        invariant forall k :: 0 <= k < i ==> wheels[k].isReady
      {
        if !wheels[i].isReady { return; }
        i := i + 1;
      }
      ChangeCurStep(Deal);
    }

    method Ready(rid: Rid)
      requires |wheels| == 3
      modifies this
      ensures State() == DeskState.Ready(old(State()), rid)
    {
      if rid !in users || !IsSeat(users[rid].idx) { return; }
      var idx := users[rid].idx;
      if curStep != NoGame || wheels[idx - 1].isReady { return; }
      wheels := wheels[idx - 1 := wheels[idx - 1].(isReady := true)];
      CheckAllReady();
    }

    // ----- Bidding -----

    method FinishLord(idx: Seat, now: int)
      requires |wheels| == 3 && IsSeat(idx)
      modifies this
      ensures State() == DeskState.FinishLord(rules, old(State()), idx, now)
    {
      ChangeCurStep(Play);
      lordIdx := idx;
      var wheel := wheels[lordIdx - 1];
      wheels := wheels[lordIdx - 1 := wheel.(pokerList := rules.sorted(wheel.pokerList + downPoker))];
      ChangeCurOpIdx(lordIdx, now);
    }

    method IsSomeoneOffline() returns (found: bool)
      ensures found == SomeoneOffline(State())
    {
      var i := 0;
      while i < |wheels|
        invariant i <= |wheels|
        invariant forall k :: 0 <= k < i ==> !Offline(State(), wheels[k].rid)
      {
        if wheels[i].rid.Some? && wheels[i].rid.value in users && users[wheels[i].rid.value].offlineTime {
          return true;
        }
        i := i + 1;
      }
      return false;
    }

    method ClearAllStatus()
      modifies this
      ensures State() == DeskState.ClearAllStatus(old(State()))
    {
      ghost var d := State();
      var i := 0;
      while i < |wheels|
        invariant i <= |wheels| == |d.wheels|
        invariant forall k :: 0 <= k < |wheels| ==> wheels[k] == if k < i then ClearedWheel(d, k) else d.wheels[k]
        invariant users == ClearedUsers(d, i)
        invariant State() == d.(wheels := wheels, users := users)
      {
        var rid := wheels[i].rid;
        wheels := wheels[i := wheels[i].(isReady := false, pokerList := [])];
        if rid.Some? && rid.value in users && users[rid.value].offlineTime {
          users := users - {rid.value};
          wheels := wheels[i := EMPTY_WHEEL];
        }
        i := i + 1;
      }
      assert wheels == seq(|d.wheels|, k requires 0 <= k < |d.wheels| => ClearedWheel(d, k));
      ChangeCurStep(NoGame);
      retryDealTimes := 0;
    }

    method TryRestartGame()
      modifies this
      ensures State() == TryRestart(old(State()))
    {
      var offline := IsSomeoneOffline();
      if retryDealTimes > 1 || offline {
        ClearAllStatus();
        return;
      }
      retryDealTimes := retryDealTimes + 1;
      ChangeCurStep(Deal);
    }

    /** How many of the bids are a yes, and whose the first and the last of those
        are. */
    method CountChoices() returns (chooseNum: nat, lastChoose: Option<Seat>, firstChoose: Option<Seat>)
      ensures chooseNum == Yeses(lordList) && lastChoose == LastYes(lordList) && firstChoose == FirstYes(lordList)
    {
      chooseNum, lastChoose, firstChoose := 0, None, None;
      var i := 0;
      while i < |lordList|
        invariant i <= |lordList|
        invariant chooseNum == Yeses(lordList[..i]) && lastChoose == LastYes(lordList[..i])
                  && firstChoose == FirstYes(lordList[..i])
      {
        YesStep(lordList, i);
        if lordList[i].isChoose == 1 {
          chooseNum := chooseNum + 1;
          lastChoose := Some(lordList[i].idx);
          firstChoose := if firstChoose.Some? then firstChoose else Some(lordList[i].idx);
        }
        i := i + 1;
      }
      assert lordList[..|lordList|] == lordList;
    }

    /** The seat of the last yes, looked for from the end. */
    method LatestChoice() returns (idx: Option<Seat>)
      ensures idx == LastYes(lordList)
    {
      var i := |lordList|;
      assert lordList[..i] == lordList;
      while i > 0
        invariant 0 <= i <= |lordList|
        invariant LastYes(lordList) == LastYes(lordList[..i])
      {
        YesStep(lordList, i - 1);
        if lordList[i - 1].isChoose == 1 { return Some(lordList[i - 1].idx); }
        i := i - 1;
      }
      return None;
    }

    method DecideAfterThree(now: int)
      requires |wheels| == 3
      requires forall i :: 0 <= i < |lordList| ==> IsSeat(lordList[i].idx)
      modifies this
      ensures State() == AfterThree(rules, old(State()), now)
    {
      YesSeats(lordList);
      var chooseNum, lastChoose, firstChoose := CountChoices();
      if chooseNum == 0 {
        TryRestartGame();
      } else if chooseNum == 1 {
        FinishLord(lastChoose.value, now);
      } else {
        ChangeCurOpIdx(firstChoose.value, now);
      }
    }

    method DecideAfterFour(now: int)
      requires |wheels| == 3
      requires forall i :: 0 <= i < |lordList| ==> IsSeat(lordList[i].idx)
      modifies this
      ensures State() == AfterFour(rules, old(State()), now)
    {
      YesSeats(lordList);
      var idx := LatestChoice();
      if idx.Some? {
        FinishLord(idx.value, now);
      }
    }

    method CurLordChoose(isChoose: int, now: int)
      requires |wheels| == 3 && IsSeat(curOpIdx)
      requires forall i :: 0 <= i < |lordList| ==> IsSeat(lordList[i].idx)
      modifies this
      ensures State() == LordChoose(rules, old(State()), isChoose, now)
    {
      if isChoose == 1 {
        multiNum := multiNum * 2;
      }
      lordList := lordList + [Bid(curOpIdx, isChoose)];
      if |lordList| < 3 {
        ChangeCurOpIdx(NextSeat(curOpIdx), now);
      } else if |lordList| == 3 {
        DecideAfterThree(now);
      } else {
        DecideAfterFour(now);
      }
    }

    // ----- Playing -----

    method GetLastPokerList() returns (cards: Option<seq<Card>>)
      ensures cards == LastPokerList(playPokerList)
    {
      var i := |playPokerList|;
      assert playPokerList[..i] == playPokerList;
      while i > 0
        invariant 0 <= i <= |playPokerList|
        invariant LastPokerList(playPokerList) == LastPokerList(playPokerList[..i])
      {
        var data := playPokerList[i - 1];
        assert playPokerList[..i][..i - 1] == playPokerList[..i - 1];
        if data.isPlay { return Some(data.cards); }
        i := i - 1;
      }
      return None;
    }

    /** Seats one to three are told the result; a player who has logged out is
        asked to leave, which a game that is still on does not let him do. */
    method WinByIdx()
      requires |wheels| == 3 && curStep != NoGame
      modifies this
      ensures State() == ChangeStep(old(State()), NoGame)
    {
      var i := 0;
      while i < 3
        invariant i <= 3 && State() == old(State())
      {
        var rid := wheels[i].rid;
        if rid.Some? && rid.value in users && users[rid.value].lastLogoutTime {
          UserLeave(rid.value);
          assert users == old(users);
        }
        i := i + 1;
      }
      ChangeCurStep(NoGame);
    }

    method PassTurn(now: int)
      requires |wheels| == 3 && IsSeat(curOpIdx)
      modifies this
      ensures State() == Pass(old(State()), now)
    {
      playPokerList := playPokerList + [Played(curOpIdx, false, [])];
      var len := |playPokerList|;
      if len >= 3 && !playPokerList[len - 1].isPlay && !playPokerList[len - 2].isPlay {
        var winIdx := playPokerList[len - 3].idx;
        playPokerList := [];
        if IsSeat(winIdx) {
          ChangeCurOpIdx(winIdx, now);
        } else {
          curOpIdx := winIdx;
        }
      } else {
        ChangeCurOpIdx(NextSeat(curOpIdx), now);
      }
    }

    /** The cards are on the table and out of the hand. */
    method LayDown(cards: seq<Card>, left: seq<Card>, now: int)
      requires |wheels| == 3 && IsSeat(curOpIdx) && curStep == Play
      modifies this
      ensures var d := LaidDown(rules, old(State()), cards, left);
              State() == if left == [] then ChangeStep(d, NoGame) else ChangeOp(d, NextSeat(d.curOpIdx), now)
    {
      if rules.doubles(cards) {
        multiNum := multiNum * 2;
      }
      playPokerList := playPokerList + [Played(curOpIdx, true, cards)];
      wheels := wheels[curOpIdx - 1 := wheels[curOpIdx - 1].(pokerList := left)];
      if left == [] {
        WinByIdx();
      } else {
        ChangeCurOpIdx(NextSeat(curOpIdx), now);
      }
    }

    /** The cards are settled: the call is refused, a pass, or a play. */
    method PlayOrPass(cards: seq<Card>, last: Option<seq<Card>>, now: int)
      requires |wheels| == 3 && IsSeat(curOpIdx) && curStep == Play && last == LastPokerList(playPokerList)
      modifies this
      ensures State() == PlayCards(rules, old(State()), cards, now)
    {
      if last == None && cards == [] { return; }
      if cards == [] {
        PassTurn(now);
        return;
      }
      var left := SubPoker(rules, wheels[curOpIdx - 1].pokerList, cards);
      if left == None { return; }
      if last.Some? && !rules.beats(last.value, cards) { return; }
      LayDown(cards, left.value, now);
    }

    method DealPoker(sent: Option<seq<Card>>, now: int)
      requires |wheels| == 3 && IsSeat(curOpIdx) && curStep == Play
      modifies this
      ensures State() == DeskState.DealPoker(rules, old(State()), sent, now)
    {
      var hand := wheels[curOpIdx - 1].pokerList;
      var last := GetLastPokerList();
      var cards := if sent.Some? then sent.value else if last == None && hand != [] then [hand[|hand| - 1]] else [];
      assert cards == Chosen(State(), sent);
      PlayOrPass(cards, last, now);
    }

    // ----- The timer and the players' calls -----

    method DealHands(deck: seq<Card>)
      requires |wheels| == 3 && |deck| == 54
      modifies this
      ensures State() == DealCards(rules, old(State()), deck)
    {
      var i := 0;
      while i < 3
        invariant i <= 3 && |wheels| == 3
        invariant forall k :: 0 <= k < 3 ==>
          wheels[k] == if k < i then old(wheels)[k].(pokerList := rules.sorted(DealtTo(deck, k + 1)))
            else old(wheels)[k]
        invariant State() == old(State()).(wheels := wheels)
      {
        wheels := wheels[i := wheels[i].(pokerList := rules.sorted(DealtTo(deck, i + 1)))];
        i := i + 1;
      }
      downPoker, curOpIdx, lordList := rules.sorted(deck[51..]), -1, [];
      ChangeCurStep(Lord);
    }

    method TimeUpdate(now: int, deck: seq<Card>, seat: Seat)
      requires |wheels| == 3 && |deck| == 54 && IsSeat(seat)
      requires forall i :: 0 <= i < |lordList| ==> IsSeat(lordList[i].idx)
      modifies this
      ensures State() == DeskState.TimeUpdate(rules, old(State()), now, deck, seat)
    {
      if curStep == Deal {
        DealHands(deck);
      } else if curStep == Lord {
        if curOpIdx == -1 {
          ChangeCurOpIdx(seat, now);
        } else if IsSeat(curOpIdx) && now - wheels[curOpIdx - 1].lastOpTime > 10 {
          CurLordChoose(0, now);
        }
      } else if curStep == Play {
        if IsSeat(curOpIdx) && now - wheels[curOpIdx - 1].lastOpTime > 30 {
          DealPoker(None, now);
        }
      }
    }

    method OpChoose(rid: Rid, isChoose: int, now: int)
      requires Usable(State())
      modifies this
      ensures State() == Next(rules, old(State()), Choose(rid, isChoose, now))
    {
      if rid in users && users[rid].idx == curOpIdx && IsSeat(curOpIdx) {
        CurLordChoose(isChoose, now);
      }
    }

    method OpDealPoker(rid: Rid, cards: Option<seq<Card>>, now: int)
      requires Usable(State())
      modifies this
      ensures State() == Next(rules, old(State()), DealOp(rid, cards, now))
    {
      if curStep == Play && rid in users && users[rid].idx == curOpIdx && IsSeat(curOpIdx) {
        DealPoker(cards, now);
      }
    }

    method OpTick(now: int, deck: seq<Card>, seat: Seat)
      requires Usable(State())
      modifies this
      ensures State() == Next(rules, old(State()), Tick(now, deck, seat))
    {
      if |deck| == 54 && IsSeat(seat) {
        TimeUpdate(now, deck, seat);
      }
    }

    method Step(e: Event)
      requires Usable(State())
      modifies this
      ensures State() == Next(rules, old(State()), e)
    {
      match e
      case Enter(rid) => UserEnter(rid);
      case Leave(rid) => UserLeave(rid);
      case SayReady(rid) => Ready(rid);
      case Choose(rid, isChoose, now) => OpChoose(rid, isChoose, now);
      case DealOp(rid, cards, now) => OpDealPoker(rid, cards, now);
      case Tick(now, deck, seat) => OpTick(now, deck, seat);
    }

    /** Whatever happens at a table, the object takes the step of the state
        machine; and if the surroundings keep to their part, the invariant of the
        game holds again and no player of a running game loses his seat. */
    method Handle(e: Event)
      requires Usable(State())
      modifies this
      ensures State() == Next(rules, old(State()), e)
      ensures ValidRules(rules) && DeskProofs.Inv(old(State())) && DeskProofs.Orderly(old(State()), e) ==>
                DeskProofs.Inv(State()) && DeskPlay.SeatsStay(old(State()), State())
    {
      ghost var d := State();
      Step(e);
      Follow(rules, d, e);
    }
  }
}
