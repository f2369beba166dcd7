/** The landlord (Dou Dizhu) table of scripts/server/clone/rooms/desk.lua and
    ddz_desk.lua as a state machine: its state, and what each call does to it.
    Clocks, shuffles and random seats are parameters; so are the card ranking
    and the sorting of hands, which take no part in what is proved. */
module DeskState {
  import opened Wrappers

  type Card = int
  type Rid = string
  type Seat = int

  datatype Step = NoGame | Deal | Lord | Play

  datatype User = User(idx: Seat, offlineTime: bool, lastLogoutTime: bool)

  datatype Wheel = Wheel(rid: Option<Rid>, isReady: bool, pokerList: seq<Card>, lastOpTime: int)

  datatype Bid = Bid(idx: Seat, isChoose: int)

  datatype Played = Played(idx: Seat, isPlay: bool, cards: seq<Card>)

  /** Card ranking (`compare_card`), the hands that double the stake
      (`get_card_type` of a bomb or a missile), and the sorting of a hand. */
  datatype Rules = Rules(beats: (seq<Card>, seq<Card>) -> bool, doubles: seq<Card> -> bool,
                         sorted: seq<Card> -> seq<Card>)

  ghost predicate ValidRules(r: Rules) {
    forall s: seq<Card> :: multiset(r.sorted(s)) == multiset(s)
  }

  datatype Desk = Desk(users: map<Rid, User>, wheels: seq<Wheel>, curStep: Step, curOpIdx: Seat, lordIdx: Seat,
                       multiNum: int,
                       retryDealTimes: int, downPoker: seq<Card>, lordList: seq<Bid>, playPokerList: seq<Played>)

  const EMPTY_WHEEL := Wheel(None, false, [], 0)

  const NEW_DESK := Desk(map[], [EMPTY_WHEEL, EMPTY_WHEEL, EMPTY_WHEEL], NoGame, -1, -1, 15, 0, [], [], [])

  predicate IsSeat(i: Seat) { 1 <= i <= 3 }

  predicate IsRidValid(rid: Option<Rid>) {
    rid.Some? && |rid.value| == 12
  }

  // ----- Seating -----

  function SetWheel(d: Desk, i: Seat, w: Wheel): Desk
    requires |d.wheels| == 3 && IsSeat(i)
  {
    d.(wheels := d.wheels[i - 1 := w])
  }

  function FirstSeatOf(d: Desk, rid: Rid, i: Seat): Option<Seat>
    requires |d.wheels| == 3 && 1 <= i <= 4
    decreases 4 - i
  {
    if i == 4 then None
    else if d.wheels[i - 1].rid == Some(rid) then Some(i)
    else FirstSeatOf(d, rid, i + 1)
  }

  function FirstUnfit(d: Desk, i: Seat): Option<Seat>
    requires |d.wheels| == 3 && 1 <= i <= 4
    decreases 4 - i
  {
    if i == 4 then None
    else if !IsRidValid(d.wheels[i - 1].rid) then Some(i)
    else FirstUnfit(d, i + 1)
  }

  predicate IsPlaying(d: Desk) { d.curStep != NoGame }

  /** The seat a player may take: his own, or between games the first one whose
      rid does not look valid. */
  function CheckUserWheel(d: Desk, rid: Rid): Option<Seat>
    requires |d.wheels| == 3
  {
    var own := FirstSeatOf(d, rid, 1);
    if own.Some? then own
    else if IsPlaying(d) then None
    else FirstUnfit(d, 1)
  }

  function UserEnter(d: Desk, rid: Rid): Desk
    requires |d.wheels| == 3
  {
    match CheckUserWheel(d, rid)
    case None => if rid in d.users then d.(users := d.users[rid := d.users[rid].(lastLogoutTime := false)]) else d
    case Some(idx) =>
      if !IsSeat(idx) then d
      else
        var d' := d.(users := d.users[rid := User(idx, false, false)]);
        SetWheel(d', idx, d.wheels[idx - 1].(rid := Some(rid), isReady := false))
  }

  function UserLeave(d: Desk, rid: Rid): Desk
    requires |d.wheels| == 3
  {
    if rid !in d.users then d
    else if IsPlaying(d) then d.(users := d.users[rid := d.users[rid].(lastLogoutTime := true)])
    else
      var idx := d.users[rid].idx;
      var d' := d.(users := d.users - {rid});
      if IsSeat(idx) then SetWheel(d', idx, EMPTY_WHEEL) else d'
  }

  // ----- Steps -----

  function Unready(ws: seq<Wheel>): (r: seq<Wheel>)
    ensures |r| == |ws|
  {
    seq(|ws|, i requires 0 <= i < |ws| => ws[i].(isReady := false))
  }

  function ChangeStep(d: Desk, s: Step): Desk {
    if s == NoGame then
      d.(curStep := NoGame, wheels := Unready(d.wheels), curOpIdx := -1, lordIdx := -1, multiNum := 15,
         playPokerList := [], downPoker := [], lordList := [])
    else d.(curStep := s)
  }

  function ChangeOp(d: Desk, i: Seat, now: int): Desk
    requires |d.wheels| == 3 && IsSeat(i)
  {
    SetWheel(d, i, d.wheels[i - 1].(lastOpTime := now)).(curOpIdx := i)
  }

  function NextSeat(i: Seat): Seat {
    var n := (i + 1) % 3;
    if n == 0 then 3 else n
  }

  function AllReady(ws: seq<Wheel>): bool {
    forall i :: 0 <= i < |ws| ==> ws[i].isReady
  }

  function Ready(d: Desk, rid: Rid): Desk
    requires |d.wheels| == 3
  {
    if rid !in d.users || !IsSeat(d.users[rid].idx) then d
    else
      var idx := d.users[rid].idx;
      if IsPlaying(d) || d.wheels[idx - 1].isReady then d
      else
        var d' := SetWheel(d, idx, d.wheels[idx - 1].(isReady := true));
        if AllReady(d'.wheels) then ChangeStep(d', Deal) else d'
  }

  // ----- Dealing and bidding -----

  /** Every third card of the first 51. */
  function DealtTo(deck: seq<Card>, i: Seat): seq<Card>
    requires |deck| == 54 && IsSeat(i)
  {
    seq(17, j requires 0 <= j < 17 => deck[3 * j + i - 1])
  }

  function DealCards(r: Rules, d: Desk, deck: seq<Card>): Desk
    requires |d.wheels| == 3 && |deck| == 54
  {
    var ws := seq(3, i requires 0 <= i < 3 => d.wheels[i].(pokerList := r.sorted(DealtTo(deck, i + 1))));
    ChangeStep(d.(wheels := ws, downPoker := r.sorted(deck[51..]), curOpIdx := -1, lordList := []), Lord)
  }

  /** The landlord takes the three cards that were left over. */
  function FinishLord(r: Rules, d: Desk, i: Seat, now: int): Desk
    requires |d.wheels| == 3 && IsSeat(i)
  {
    var d' := ChangeStep(d, Play).(lordIdx := i);
    var w := d.wheels[i - 1];
    ChangeOp(SetWheel(d', i, w.(pokerList := r.sorted(w.pokerList + d.downPoker))), i, now)
  }

  function Yeses(bids: seq<Bid>): nat {
    if bids == [] then 0 else Yeses(bids[..|bids| - 1]) + if bids[|bids| - 1].isChoose == 1 then 1 else 0
  }

  /** The seat of the last bid that was a yes. */
  function LastYes(bids: seq<Bid>): Option<Seat> {
    if bids == [] then None
    else if bids[|bids| - 1].isChoose == 1 then Some(bids[|bids| - 1].idx)
    else LastYes(bids[..|bids| - 1])
  }

  function FirstYes(bids: seq<Bid>): Option<Seat> {
    if bids == [] then None
    else if bids[0].isChoose == 1 then Some(bids[0].idx)
    else FirstYes(bids[1..])
  }

  predicate SomeoneOffline(d: Desk) {
    exists i :: 0 <= i < |d.wheels| && d.wheels[i].rid.Some? && d.wheels[i].rid.value in d.users
      && d.users[d.wheels[i].rid.value].offlineTime
  }

  predicate Offline(d: Desk, rid: Option<Rid>) {
    rid.Some? && rid.value in d.users && d.users[rid.value].offlineTime
  }

  /** Seat i + 1 after a game. The first seat of an offline player is emptied. */
  function ClearedWheel(d: Desk, i: nat): Wheel
    requires i < |d.wheels|
  {
    if Offline(d, d.wheels[i].rid) && forall k :: 0 <= k < i ==> d.wheels[k].rid != d.wheels[i].rid then EMPTY_WHEEL
    else d.wheels[i].(isReady := false, pokerList := [])
  }

  predicate SitsBefore(d: Desk, rid: Rid, n: nat)
    requires n <= |d.wheels|
  {
    exists k :: 0 <= k < n && d.wheels[k].rid == Some(rid)
  }

  /** The users left once the first n seats are put away. */
  function ClearedUsers(d: Desk, n: nat): map<Rid, User>
    requires n <= |d.wheels|
  {
    map rid <- d.users | !(d.users[rid].offlineTime && SitsBefore(d, rid, n)) :: d.users[rid]
  }

  /** Ends the game: hands are put away and offline players lose their seats. */
  function ClearAllStatus(d: Desk): Desk {
    var ws := seq(|d.wheels|, i requires 0 <= i < |d.wheels| => ClearedWheel(d, i));
    ChangeStep(d.(wheels := ws, users := ClearedUsers(d, |d.wheels|)), NoGame).(retryDealTimes := 0)
  }

  function TryRestart(d: Desk): Desk {
    if d.retryDealTimes > 1 || SomeoneOffline(d) then ClearAllStatus(d)
    else ChangeStep(d.(retryDealTimes := d.retryDealTimes + 1), Deal)
  }

  lemma {:induction false} YesesFront(bids: seq<Bid>)
    requires bids != []
    ensures Yeses(bids) == Yeses(bids[1..]) + if bids[0].isChoose == 1 then 1 else 0
  {
    if |bids| > 1 {
      YesesFront(bids[..|bids| - 1]);
      assert bids[1..][..|bids| - 2] == bids[..|bids| - 1][1..];
    } else {
      assert bids[..0] == [] && bids[1..] == [];
    }
  }

  lemma {:induction false} YesSeats(bids: seq<Bid>)
    requires forall i :: 0 <= i < |bids| ==> IsSeat(bids[i].idx)
    ensures LastYes(bids).Some? <==> Yeses(bids) > 0
    ensures FirstYes(bids).Some? <==> Yeses(bids) > 0
    ensures LastYes(bids).Some? ==> IsSeat(LastYes(bids).value)
    ensures FirstYes(bids).Some? ==> IsSeat(FirstYes(bids).value)
  {
    if bids != [] {
      YesSeats(bids[..|bids| - 1]);
      if |bids| > 1 {
        YesSeats(bids[1..]);
        YesesFront(bids);
      }
    }
  }

  /** All three have been asked once. */
  function AfterThree(r: Rules, d: Desk, now: int): Desk
    requires |d.wheels| == 3
    requires forall i :: 0 <= i < |d.lordList| ==> IsSeat(d.lordList[i].idx)
  {
    YesSeats(d.lordList);
    if Yeses(d.lordList) == 0 then TryRestart(d)
    else if Yeses(d.lordList) == 1 then FinishLord(r, d, LastYes(d.lordList).value, now)
    else ChangeOp(d, FirstYes(d.lordList).value, now)
  }

  /** The first to say yes has been asked again. */
  function AfterFour(r: Rules, d: Desk, now: int): Desk
    requires |d.wheels| == 3
    requires forall i :: 0 <= i < |d.lordList| ==> IsSeat(d.lordList[i].idx)
  {
    YesSeats(d.lordList);
    match LastYes(d.lordList)
    case None => d
    case Some(i) => FinishLord(r, d, i, now)
  }

  /** The current player says whether he wants to be landlord. */
  function LordChoose(r: Rules, d: Desk, isChoose: int, now: int): Desk
    requires |d.wheels| == 3 && IsSeat(d.curOpIdx)
    requires forall i :: 0 <= i < |d.lordList| ==> IsSeat(d.lordList[i].idx)
  {
    var bids := d.lordList + [Bid(d.curOpIdx, isChoose)];
    var d' := d.(multiNum := if isChoose == 1 then d.multiNum * 2 else d.multiNum, lordList := bids);
    if |bids| < 3 then ChangeOp(d', NextSeat(d.curOpIdx), now)
    else if |bids| == 3 then AfterThree(r, d', now)
    else AfterFour(r, d', now)
  }

  // ----- Playing cards -----

  /** The cards of the last real play of the round. */
  function LastPokerList(plays: seq<Played>): Option<seq<Card>> {
    if plays == [] then None
    else if plays[|plays| - 1].isPlay then Some(plays[|plays| - 1].cards)
    else LastPokerList(plays[..|plays| - 1])
  }

  function RoundEnd(plays: seq<Played>): Option<Seat> {
    var len := |plays|;
    if len < 3 then None
    else if !plays[len - 1].isPlay && !plays[len - 2].isPlay then Some(plays[len - 3].idx)
    else None
  }

  predicate Distinct(s: seq<Card>) {
    forall i, j :: 0 <= i < j < |s| ==> s[i] != s[j]
  }

  function Dedup(s: seq<Card>): seq<Card> {
    if s == [] then []
    else
      var init, c := s[..|s| - 1], s[|s| - 1];
      if c in init then Dedup(init) else Dedup(init) + [c]
  }

  function Without(s: seq<Card>, gone: seq<Card>): seq<Card> {
    if s == [] then []
    else
      var init, c := s[..|s| - 1], s[|s| - 1];
      if c in gone then Without(init, gone) else Without(init, gone) + [c]
  }

  /** The hand without the given cards; `None` when one of them is missing or
      named twice. The source turns the hand into a set first. */
  function SubPoker(r: Rules, hand: seq<Card>, cards: seq<Card>): Option<seq<Card>> {
    if Distinct(cards) && forall c <- cards :: c in hand then Some(r.sorted(Without(Dedup(hand), cards))) else None
  }

  /** The current player passes. */
  function Pass(d: Desk, now: int): Desk
    requires |d.wheels| == 3 && IsSeat(d.curOpIdx)
  {
    var plays := d.playPokerList + [Played(d.curOpIdx, false, [])];
    match RoundEnd(plays)
    case Some(win) =>
      if IsSeat(win) then ChangeOp(d.(playPokerList := []), win, now) else d.(playPokerList := [], curOpIdx := win)
    case None => ChangeOp(d.(playPokerList := plays), NextSeat(d.curOpIdx), now)
  }

  /** The cards a call stands for: those sent, or for a slow player the last
      card of his hand when he has to open the round and none otherwise. */
  function Chosen(d: Desk, cards: Option<seq<Card>>): seq<Card>
    requires |d.wheels| == 3 && IsSeat(d.curOpIdx)
  {
    var hand := d.wheels[d.curOpIdx - 1].pokerList;
    if cards.Some? then cards.value
    else if LastPokerList(d.playPokerList) == None && hand != [] then [hand[|hand| - 1]]
    else []
  }

  /** The table right after the cards are laid down. */
  function LaidDown(r: Rules, d: Desk, cards: seq<Card>, left: seq<Card>): Desk
    requires |d.wheels| == 3 && IsSeat(d.curOpIdx)
  {
    SetWheel(d, d.curOpIdx, d.wheels[d.curOpIdx - 1].(pokerList := left)).(
      multiNum := if r.doubles(cards) then d.multiNum * 2 else d.multiNum,
      playPokerList := d.playPokerList + [Played(d.curOpIdx, true, cards)])
  }

  /** The current player plays cards, or passes (no cards). */
  function PlayCards(r: Rules, d: Desk, cards: seq<Card>, now: int): Desk
    requires |d.wheels| == 3 && IsSeat(d.curOpIdx)
  {
    var last := LastPokerList(d.playPokerList);
    if cards == [] then (if last == None then d else Pass(d, now))
    else match SubPoker(r, d.wheels[d.curOpIdx - 1].pokerList, cards)
      case None => d
      case Some(left) =>
        if last.Some? && !r.beats(last.value, cards) then d
        else
          var d' := LaidDown(r, d, cards, left);
          if left == [] then ChangeStep(d', NoGame) else ChangeOp(d', NextSeat(d.curOpIdx), now)
  }

  /** The current player plays, passes, or has been too slow (`None`). */
  function DealPoker(r: Rules, d: Desk, cards: Option<seq<Card>>, now: int): Desk
    requires |d.wheels| == 3 && IsSeat(d.curOpIdx)
  {
    PlayCards(r, d, Chosen(d, cards), now)
  }

  // ----- The timer -----

  function TimeUpdate(r: Rules, d: Desk, now: int, deck: seq<Card>, seat: Seat): Desk
    requires |d.wheels| == 3 && |deck| == 54 && IsSeat(seat)
    requires forall i :: 0 <= i < |d.lordList| ==> IsSeat(d.lordList[i].idx)
  {
    match d.curStep
    case NoGame => d
    case Deal => DealCards(r, d, deck)
    case Lord =>
      if d.curOpIdx == -1 then ChangeOp(d, seat, now)
      else if IsSeat(d.curOpIdx) && now - d.wheels[d.curOpIdx - 1].lastOpTime > 10 then LordChoose(r, d, 0, now)
      else d
    case Play =>
      if IsSeat(d.curOpIdx) && now - d.wheels[d.curOpIdx - 1].lastOpTime > 30 then DealPoker(r, d, None, now) else d
  }

  // ----- Events -----

  datatype Event =
    | Enter(rid: Rid)
    | Leave(rid: Rid)
    | SayReady(rid: Rid)
    | Choose(rid: Rid, isChoose: int, now: int)
    | DealOp(rid: Rid, cards: Option<seq<Card>>, now: int)
    | Tick(now: int, deck: seq<Card>, seat: Seat)

  predicate Usable(d: Desk) {
    && |d.wheels| == 3
    && (forall i :: 0 <= i < |d.lordList| ==> IsSeat(d.lordList[i].idx))
  }

  predicate HasTurn(d: Desk, rid: Rid) {
    rid in d.users && d.users[rid].idx == d.curOpIdx && IsSeat(d.curOpIdx)
  }

  /** What an event does to the table. A player who is not at the table makes
      the source raise an error, which changes nothing. */
  function Next(r: Rules, d: Desk, e: Event): Desk
    requires Usable(d)
  {
    match e
    case Enter(rid) => UserEnter(d, rid)
    case Leave(rid) => UserLeave(d, rid)
    case SayReady(rid) => Ready(d, rid)
    case Choose(rid, c, now) => if HasTurn(d, rid) then LordChoose(r, d, c, now) else d
    case DealOp(rid, cards, now) => if d.curStep == Play && HasTurn(d, rid) then DealPoker(r, d, cards, now) else d
    case Tick(now, deck, seat) => if |deck| == 54 && IsSeat(seat) then TimeUpdate(r, d, now, deck, seat) else d
  }
}
