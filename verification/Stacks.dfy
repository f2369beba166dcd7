/** What a bag of scripts/server/clone/container.lua holds, as a value: stacks of
    items by position. How much more of a class fits, how a received amount is
    spread over the slots, and how much there is of a class in all. */
module Stacks {
  import opened Wrappers

  const OB_TYPE_ITEM := 2
  const OB_TYPE_EQUIP := 3

  /** A page and a slot on it; the source writes the two into one string. */
  datatype Pos = Pos(page: int, slot: int)

  datatype Stack = Stack(classId: int, amount: int)

  type Bag = map<Pos, Stack>

  datatype ClassInfo = ClassInfo(obType: int, overLap: Option<int>)

  /** The most one slot holds. */
  function MaxAmount(info: ClassInfo): int {
    if info.overLap.Some? then info.overLap.value else 1
  }

  /** What the item tables keep to: a slot holds at least one, and pieces of
      equipment are never stacked. */
  predicate Regular(info: ClassInfo) {
    1 <= MaxAmount(info) && (info.obType == OB_TYPE_EQUIP ==> MaxAmount(info) == 1)
  }

  predicate CanStack(info: ClassInfo) {
    info.obType != OB_TYPE_EQUIP && info.overLap.Some? && info.overLap.value > 1
  }

  function Max(a: int, b: int): int { if a < b then b else a }

  function Min(a: int, b: int): int { if a < b then a else b }

  predicate Positive(s: Bag) {
    forall p <- s :: s[p].amount >= 1
  }

  // ----- How much there is of a class -----

  function Own(st: Stack, c: int): int {
    if st.classId == c then st.amount else 0
  }

  ghost function Pick(s: Bag): (p: Pos)
    requires s != map[]
    ensures p in s
  {
    var p :| p in s; p
  }

  ghost function Total(s: Bag, c: int): int
    decreases |s|
  {
    if s == map[] then 0 else Own(s[Pick(s)], c) + Total(s - {Pick(s)}, c)
  }

  lemma {:induction false} TotalRemove(s: Bag, p: Pos, c: int)
    requires p in s
    ensures Total(s, c) == Own(s[p], c) + Total(s - {p}, c)
    decreases |s|
  {
    var q := Pick(s);
    if q != p {
      TotalRemove(s - {q}, p, c);
      TotalRemove(s - {p}, q, c);
      assert s - {q} - {p} == s - {p} - {q};
    }
  }

  lemma TotalUpdate(s: Bag, p: Pos, st: Stack, c: int)
    ensures Total(s[p := st], c) == Total(s, c) - (if p in s then Own(s[p], c) else 0) + Own(st, c)
  {
    TotalRemove(s[p := st], p, c);
    assert s[p := st] - {p} == s - {p};
    if p in s {
      TotalRemove(s, p, c);
    } else {
      assert s - {p} == s;
    }
  }

  // ----- Spreading a received amount -----

  datatype Gain = Gain(pos: Pos, amount: int)

  function SumGains(gains: seq<Gain>): int {
    if gains == [] then 0 else gains[0].amount + SumGains(gains[1..])
  }

  /** How much more of class c the position takes. */
  function FreeAt(s: Bag, c: int, max: int, p: Pos): int {
    if p !in s then max
    else if s[p].classId == c then Max(0, max - s[p].amount)
    else 0
  }

  /** How much more of class c the slots from i up to the last one take. */
  function Room(s: Bag, c: int, max: int, page: int, i: int, size: int): int
    decreases size - i
  {
    if i >= size then 0 else FreeAt(s, c, max, Pos(page, i)) + Room(s, c, max, page, i + 1, size)
  }

  /** The stacks of the class are filled up in the order of the slots, as long as
      something is left. */
  function StackGains(s: Bag, c: int, max: int, page: int, i: int, size: int, left: int): seq<Gain>
    decreases size - i
  {
    var p := Pos(page, i);
    if i >= size then []
    else if p !in s || s[p].classId != c then StackGains(s, c, max, page, i + 1, size, left)
    else if FreeAt(s, c, max, p) == 0 then (if left <= 0 then [] else StackGains(s, c, max, page, i + 1, size, left))
    else
      var g := Min(FreeAt(s, c, max, p), left);
      [Gain(p, g)] + if left - g <= 0 then [] else StackGains(s, c, max, page, i + 1, size, left - g)
  }

  function EmptySlots(s: Bag, page: int, i: int, size: int): seq<Pos>
    decreases size - i
  {
    if i >= size then []
    else if Pos(page, i) !in s then [Pos(page, i)] + EmptySlots(s, page, i + 1, size)
    else EmptySlots(s, page, i + 1, size)
  }

  /** What is left after that goes into the empty slots. */
  function EmptyGains(slots: seq<Pos>, max: int, left: int): seq<Gain> {
    if slots == [] || left <= 0 then []
    else [Gain(slots[0], Min(max, left))] + EmptyGains(slots[1..], max, left - Min(max, left))
  }

  /** What goes into the empty slots. */
  function Rest(s: Bag, c: int, max: int, page: int, size: int, amount: int): seq<Gain> {
    EmptyGains(EmptySlots(s, page, 1, size), max, amount - SumGains(StackGains(s, c, max, page, 1, size, amount)))
  }

  function Gains(s: Bag, c: int, max: int, page: int, size: int, amount: int): seq<Gain> {
    StackGains(s, c, max, page, 1, size, amount) + Rest(s, c, max, page, size, amount)
  }

  function Filled(s: Bag, c: int, g: Gain): Bag {
    s[g.pos := Stack(c, Max(0, g.amount) + if g.pos in s then s[g.pos].amount else 0)]
  }

  function Applied(s: Bag, c: int, gains: seq<Gain>): Bag {
    if gains == [] then s else Filled(Applied(s, c, gains[..|gains| - 1]), c, gains[|gains| - 1])
  }

  // ----- What the plan is worth -----

  lemma {:induction false} SumAppend(a: seq<Gain>, b: seq<Gain>)
    ensures SumGains(a + b) == SumGains(a) + SumGains(b)
  {
    if a == [] {
      assert a + b == b;
    } else {
      SumAppend(a[1..], b);
      assert (a + b)[1..] == a[1..] + b;
    }
  }

  /** One gain fits where it goes. */
  predicate Fits(s: Bag, c: int, max: int, page: int, i: int, size: int, left: int, g: Gain) {
    && g.pos.page == page && i <= g.pos.slot < size
    && (g.pos in s ==> s[g.pos].classId == c)
    && g.amount <= FreeAt(s, c, max, g.pos)
    && (left > 0 ==> g.amount >= 1)
    && (left <= 0 ==> g.pos in s && g.amount <= 0 && FreeAt(s, c, max, g.pos) > 0)
  }

  ghost predicate InOrder(gains: seq<Gain>) {
    forall j, k :: 0 <= j < k < |gains| ==> gains[j].pos.slot < gains[k].pos.slot
  }

  lemma {:induction false} StackGainsFit(s: Bag, c: int, max: int, page: int, i: int, size: int, left: int)
    requires max >= 1
    ensures var gains := StackGains(s, c, max, page, i, size, left);
            && (forall k :: 0 <= k < |gains| ==> gains[k].pos in s && Fits(s, c, max, page, i, size, left, gains[k]))
            && InOrder(gains)
    decreases size - i
  {
    if i < size {
      var p := Pos(page, i);
      var g := Min(FreeAt(s, c, max, p), left);
      var rest := StackGains(s, c, max, page, i + 1, size, left - g);
      StackGainsFit(s, c, max, page, i + 1, size, left);
      StackGainsFit(s, c, max, page, i + 1, size, left - g);
      if p in s && s[p].classId == c && FreeAt(s, c, max, p) > 0 && left - g > 0 {
        assert StackGains(s, c, max, page, i, size, left) == [Gain(p, g)] + rest;
      }
    }
  }

  /** What the stacks of the class take from slot i on. */
  function StackRoom(s: Bag, c: int, max: int, page: int, i: int, size: int): int
    decreases size - i
  {
    if i >= size then 0
    else (if Pos(page, i) in s then FreeAt(s, c, max, Pos(page, i)) else 0) + StackRoom(s, c, max, page, i + 1, size)
  }

  function EmptyRoom(slots: seq<Pos>, max: int): int {
    if slots == [] then 0 else max + EmptyRoom(slots[1..], max)
  }

  lemma {:induction false} RoomSplit(s: Bag, c: int, max: int, page: int, i: int, size: int)
    ensures Room(s, c, max, page, i, size)
            == StackRoom(s, c, max, page, i, size) + EmptyRoom(EmptySlots(s, page, i, size), max)
    decreases size - i
  {
    if i < size {
      RoomSplit(s, c, max, page, i + 1, size);
      var slots := EmptySlots(s, page, i + 1, size);
      assert ([Pos(page, i)] + slots)[1..] == slots;
    }
  }

  lemma {:induction false} StackRoomNonneg(s: Bag, c: int, max: int, page: int, i: int, size: int)
    requires max >= 1
    ensures StackRoom(s, c, max, page, i, size) >= 0
    decreases size - i
  {
    if i < size {
      StackRoomNonneg(s, c, max, page, i + 1, size);
    }
  }

  lemma {:induction false} EmptyRoomNonneg(slots: seq<Pos>, max: int)
    requires max >= 1
    ensures EmptyRoom(slots, max) >= 0
  {
    if slots != [] {
      EmptyRoomNonneg(slots[1..], max);
    }
  }

  lemma {:induction false} StackGainsSum(s: Bag, c: int, max: int, page: int, i: int, size: int, left: int)
    requires max >= 1 && left > 0
    ensures SumGains(StackGains(s, c, max, page, i, size, left)) == Min(left, StackRoom(s, c, max, page, i, size))
    decreases size - i
  {
    if i < size {
      var p := Pos(page, i);
      StackRoomNonneg(s, c, max, page, i + 1, size);
      if p !in s || s[p].classId != c || FreeAt(s, c, max, p) == 0 {
        StackGainsSum(s, c, max, page, i + 1, size, left);
      } else {
        var g := Min(FreeAt(s, c, max, p), left);
        if left - g > 0 {
          StackGainsSum(s, c, max, page, i + 1, size, left - g);
          var rest := StackGains(s, c, max, page, i + 1, size, left - g);
          assert ([Gain(p, g)] + rest)[1..] == rest;
        } else {
          assert SumGains([Gain(p, g)]) == g;
        }
      }
    }
  }

  lemma {:induction false} EmptyGainsSum(slots: seq<Pos>, max: int, left: int)
    requires max >= 1 && left >= 0
    ensures SumGains(EmptyGains(slots, max, left)) == Min(left, EmptyRoom(slots, max))
  {
    if slots != [] {
      EmptyRoomNonneg(slots[1..], max);
      EmptyRoomNonneg(slots, max);
      if left > 0 {
        var g := Min(max, left);
        EmptyGainsSum(slots[1..], max, left - g);
        var rest := EmptyGains(slots[1..], max, left - g);
        assert ([Gain(slots[0], g)] + rest)[1..] == rest;
      }
    }
  }

  predicate FreeSlot(s: Bag, page: int, i: int, size: int, p: Pos) {
    p !in s && p.page == page && i <= p.slot < size
  }

  ghost predicate FreeSlots(s: Bag, page: int, i: int, size: int, slots: seq<Pos>) {
    && (forall k :: 0 <= k < |slots| ==> FreeSlot(s, page, i, size, slots[k]))
    && (forall j, k :: 0 <= j < k < |slots| ==> slots[j].slot < slots[k].slot)
  }

  lemma FreeSlotsFront(s: Bag, page: int, i: int, size: int, rest: seq<Pos>)
    requires i < size && Pos(page, i) !in s && FreeSlots(s, page, i + 1, size, rest)
    ensures FreeSlots(s, page, i, size, [Pos(page, i)] + rest)
  {
    var slots := [Pos(page, i)] + rest;
    forall k | 0 <= k < |slots| ensures FreeSlot(s, page, i, size, slots[k]) {
      if k > 0 { assert FreeSlot(s, page, i + 1, size, rest[k - 1]); }
    }
    forall j, k | 0 <= j < k < |slots| ensures slots[j].slot < slots[k].slot {
      assert FreeSlot(s, page, i + 1, size, rest[k - 1]);
    }
  }

  lemma {:induction false} EmptySlotsFree(s: Bag, page: int, i: int, size: int)
    ensures FreeSlots(s, page, i, size, EmptySlots(s, page, i, size))
    decreases size - i
  {
    if i < size {
      EmptySlotsFree(s, page, i + 1, size);
      if Pos(page, i) !in s {
        FreeSlotsFront(s, page, i, size, EmptySlots(s, page, i + 1, size));
      }
    }
  }

  lemma {:induction false} EmptyGainsFit(slots: seq<Pos>, max: int, left: int)
    requires max >= 1
    ensures var gains := EmptyGains(slots, max, left);
            && |gains| <= |slots|
            && (forall k :: 0 <= k < |gains| ==> gains[k].pos == slots[k] && 1 <= gains[k].amount <= max && left > 0)
  {
    if slots != [] && left > 0 {
      EmptyGainsFit(slots[1..], max, left - Min(max, left));
    }
  }

  ghost predicate Apart(gains: seq<Gain>) {
    forall j, k :: 0 <= j < k < |gains| ==> gains[j].pos != gains[k].pos
  }

  /** A request for nothing, or for less than nothing, never reaches the empty
      slots. */
  lemma {:induction false} NothingPlanned(s: Bag, c: int, max: int, page: int, i: int, size: int, left: int)
    requires max >= 1 && left <= 0
    ensures left <= SumGains(StackGains(s, c, max, page, i, size, left))
    decreases size - i
  {
    if i < size {
      NothingPlanned(s, c, max, page, i + 1, size, left);
      assert SumGains([Gain(Pos(page, i), left)]) == left;
    }
  }

  lemma RestFit(s: Bag, c: int, max: int, page: int, size: int, amount: int)
    requires max >= 1
    ensures var gains := Rest(s, c, max, page, size, amount);
            && (forall k :: 0 <= k < |gains| ==> gains[k].pos !in s && Fits(s, c, max, page, 1, size, amount, gains[k]))
            && InOrder(gains)
  {
    var slots := EmptySlots(s, page, 1, size);
    var left := amount - SumGains(StackGains(s, c, max, page, 1, size, amount));
    var gains := EmptyGains(slots, max, left);
    EmptySlotsFree(s, page, 1, size);
    EmptyGainsFit(slots, max, left);
    if amount <= 0 {
      NothingPlanned(s, c, max, page, 1, size, amount);
    }
    forall k | 0 <= k < |gains| ensures gains[k].pos !in s && Fits(s, c, max, page, 1, size, amount, gains[k]) {
      assert gains[k].pos == slots[k] && FreeSlot(s, page, 1, size, slots[k]);
    }
    forall j, k | 0 <= j < k < |gains| ensures gains[j].pos.slot < gains[k].pos.slot {
      assert gains[j].pos == slots[j] && gains[k].pos == slots[k];
    }
  }

  lemma ApartConcat(s: Bag, a: seq<Gain>, b: seq<Gain>)
    requires InOrder(a) && InOrder(b)
    requires forall k :: 0 <= k < |a| ==> a[k].pos in s
    requires forall k :: 0 <= k < |b| ==> b[k].pos !in s
    ensures Apart(a + b)
  {
    forall j, k | 0 <= j < k < |a + b| ensures (a + b)[j].pos != (a + b)[k].pos {
      if j < |a| && k >= |a| {
        assert a[j].pos in s && b[k - |a|].pos !in s;
      } else if j >= |a| {
        assert b[j - |a|].pos.slot < b[k - |a|].pos.slot;
      }
    }
  }

  /** Every gain of the plan goes to a different slot and fits there. */
  lemma GainsFit(s: Bag, c: int, max: int, page: int, size: int, amount: int)
    requires max >= 1
    ensures var gains := Gains(s, c, max, page, size, amount);
            && (forall k :: 0 <= k < |gains| ==> Fits(s, c, max, page, 1, size, amount, gains[k]))
            && Apart(gains)
  {
    var stacked, rest := StackGains(s, c, max, page, 1, size, amount), Rest(s, c, max, page, size, amount);
    StackGainsFit(s, c, max, page, 1, size, amount);
    RestFit(s, c, max, page, size, amount);
    ApartConcat(s, stacked, rest);
    assert forall k ::
             0 <= k < |stacked + rest| ==> (stacked + rest)[k] == if k < |stacked| then stacked[k]
             else rest[k - |stacked|];
  }

  /** The plan takes as much of the amount as there is room for. */
  lemma GainsWorth(s: Bag, c: int, max: int, page: int, size: int, amount: int)
    requires max >= 1 && amount > 0
    ensures SumGains(Gains(s, c, max, page, size, amount)) == Min(amount, Room(s, c, max, page, 1, size))
  {
    var stacked := StackGains(s, c, max, page, 1, size, amount);
    var slots := EmptySlots(s, page, 1, size);
    StackGainsSum(s, c, max, page, 1, size, amount);
    StackRoomNonneg(s, c, max, page, 1, size);
    EmptyRoomNonneg(slots, max);
    EmptyGainsSum(slots, max, amount - SumGains(stacked));
    RoomSplit(s, c, max, page, 1, size);
    SumAppend(stacked, EmptyGains(slots, max, amount - SumGains(stacked)));
  }

  lemma RoomNonneg(s: Bag, c: int, max: int, page: int, size: int)
    requires max >= 1
    ensures Room(s, c, max, page, 1, size) >= 0
  {
    RoomSplit(s, c, max, page, 1, size);
    StackRoomNonneg(s, c, max, page, 1, size);
    EmptyRoomNonneg(EmptySlots(s, page, 1, size), max);
  }

  /** Something is left over exactly when there is not enough room. */
  lemma LeftOver(s: Bag, c: int, max: int, page: int, size: int, amount: int)
    requires max >= 1
    ensures amount - SumGains(Gains(s, c, max, page, size, amount)) > 0 <==> amount > Room(s, c, max, page, 1, size)
  {
    RoomNonneg(s, c, max, page, size);
    if amount > 0 {
      GainsWorth(s, c, max, page, size, amount);
    } else {
      NothingPlanned(s, c, max, page, 1, size, amount);
      assert Gains(s, c, max, page, size, amount) == StackGains(s, c, max, page, 1, size, amount);
    }
  }

  // ----- What carrying it out does -----

  /** A slot that is in no gain keeps what it has. */
  lemma {:induction false} AppliedAt(s: Bag, c: int, gains: seq<Gain>, p: Pos)
    requires forall k :: 0 <= k < |gains| ==> gains[k].pos != p
    ensures p in Applied(s, c, gains) <==> p in s
    ensures p in s ==> Applied(s, c, gains)[p] == s[p]
  {
    if gains != [] {
      AppliedAt(s, c, gains[..|gains| - 1], p);
    }
  }

  /** The gains add up in the class's total, and leave the other classes alone. */
  lemma {:induction false} TotalApplied(s: Bag, c: int, gains: seq<Gain>, d: int)
    requires Apart(gains)
    requires forall k ::
               0 <= k < |gains| ==> gains[k].amount >= 0 && (gains[k].pos in s ==> s[gains[k].pos].classId == c)
    ensures Total(Applied(s, c, gains), d) == Total(s, d) + if d == c then SumGains(gains) else 0
  {
    if gains != [] {
      var init, g := gains[..|gains| - 1], gains[|gains| - 1];
      TotalApplied(s, c, init, d);
      SumAppend(init, [g]);
      assert gains == init + [g] && SumGains([g]) == g.amount;
      AppliedAt(s, c, init, g.pos);
      TotalUpdate(Applied(s, c, init), g.pos, Filled(Applied(s, c, init), c, g)[g.pos], d);
    }
  }

  /** A slot that is in a gain has that much more. */
  lemma {:induction false} AppliedGain(s: Bag, c: int, gains: seq<Gain>, k: nat)
    requires Apart(gains) && k < |gains|
    ensures gains[k].pos in Applied(s, c, gains)
    ensures Applied(s, c, gains)[gains[k].pos] == Filled(s, c, gains[k])[gains[k].pos]
  {
    var init, g := gains[..|gains| - 1], gains[|gains| - 1];
    if k < |init| {
      AppliedGain(s, c, init, k);
      assert gains[k].pos != g.pos;
    } else {
      AppliedAt(s, c, init, g.pos);
    }
  }

  /** Nothing or less than nothing changes nothing. */
  lemma {:induction false} AppliedNothing(s: Bag, c: int, gains: seq<Gain>)
    requires forall k :: 0 <= k < |gains| ==> gains[k].amount <= 0 && gains[k].pos in s && s[gains[k].pos].classId == c
    ensures Applied(s, c, gains) == s
  {
    if gains != [] {
      AppliedNothing(s, c, gains[..|gains| - 1]);
      var g := gains[|gains| - 1];
      assert s[g.pos] == Stack(c, 0 + s[g.pos].amount);
    }
  }

  /** Receiving an amount of a class. */
  function Received(s: Bag, c: int, max: int, page: int, size: int, amount: int): Bag {
    Applied(s, c, Gains(s, c, max, page, size, amount))
  }

  /** The class grows by the amount, or by the room there is if that is less;
      every other class stays as it is. */
  lemma ReceivedTotal(s: Bag, c: int, max: int, page: int, size: int, amount: int, d: int)
    requires max >= 1
    ensures Total(Received(s, c, max, page, size, amount), d)
            == Total(s, d) + if d == c then Max(0, Min(amount, Room(s, c, max, page, 1, size))) else 0
  {
    var gains := Gains(s, c, max, page, size, amount);
    GainsFit(s, c, max, page, size, amount);
    RoomNonneg(s, c, max, page, size);
    if amount > 0 {
      GainsWorth(s, c, max, page, size, amount);
      TotalApplied(s, c, gains, d);
    } else {
      AppliedNothing(s, c, gains);
    }
  }

  predicate SameAt(s: Bag, s': Bag, p: Pos) {
    if p in s then p in s' && s'[p] == s[p] else p !in s'
  }

  /** Slot by slot: a slot outside the page or slot zero, and one with another
      class, stays as it is; no slot loses anything or goes past the limit. */
  lemma ReceivedSlots(s: Bag, c: int, max: int, page: int, size: int, amount: int, p: Pos)
    requires max >= 1
    ensures var s' := Received(s, c, max, page, size, amount);
            && (p in s ==> p in s')
            && (p in s && p in s' && s[p] != s'[p]
               ==> s'[p].classId == s[p].classId == c && s[p].amount < s'[p].amount <= max)
            && (p !in s && p in s' ==> s'[p].classId == c && 1 <= s'[p].amount <= max)
            && (SameAt(s, s', p) || (p.page == page && 1 <= p.slot < size))
  {
    var gains := Gains(s, c, max, page, size, amount);
    GainsFit(s, c, max, page, size, amount);
    if k :| 0 <= k < |gains| && gains[k].pos == p {
      AppliedGain(s, c, gains, k);
      assert Fits(s, c, max, page, 1, size, amount, gains[k]);
    } else {
      AppliedAt(s, c, gains, p);
    }
  }

  /** Every stack of the class is full before an empty slot is used. */
  lemma {:induction false} StacksFirst(s: Bag, c: int, max: int, page: int, i: int, size: int, left: int, p: Pos)
    requires max >= 1 && left > SumGains(StackGains(s, c, max, page, i, size, left))
    requires p in s && s[p].classId == c && p.page == page && i <= p.slot < size && s[p].amount < max
    ensures exists k ::
              0 <= k < |StackGains(s, c, max, page, i, size, left)|
              && StackGains(s, c, max, page, i, size, left)[k] == Gain(p, max - s[p].amount)
    decreases size - i
  {
    var q := Pos(page, i);
    var gains := StackGains(s, c, max, page, i, size, left);
    if q !in s || s[q].classId != c || FreeAt(s, c, max, q) == 0 {
      assert q != p;
      if left <= 0 {
        NothingPlanned(s, c, max, page, i, size, left);
      }
      StacksFirst(s, c, max, page, i + 1, size, left, p);
    } else {
      var g := Min(FreeAt(s, c, max, q), left);
      if left - g <= 0 {
        assert false;
      } else {
        var rest := StackGains(s, c, max, page, i + 1, size, left - g);
        assert gains == [Gain(q, g)] + rest && gains[1..] == rest;
        if q == p {
          assert gains[0] == Gain(p, max - s[p].amount);
        } else {
          StacksFirst(s, c, max, page, i + 1, size, left - g, p);
          var k :| 0 <= k < |rest| && rest[k] == Gain(p, max - s[p].amount);
          assert gains[k + 1] == rest[k];
        }
      }
    }
  }

  /** When a new stack is begun, every old one of the class on the page is full. */
  lemma ReceivedFillsFirst(s: Bag, c: int, max: int, page: int, size: int, amount: int, begun: Pos, p: Pos)
    requires max >= 1 && begun !in s && begun in Received(s, c, max, page, size, amount)
    requires p in s && s[p].classId == c && p.page == page && 1 <= p.slot < size
    ensures p in Received(s, c, max, page, size, amount) && Received(s, c, max, page, size, amount)[p].amount >= max
  {
    var stacked := StackGains(s, c, max, page, 1, size, amount);
    var gains := Gains(s, c, max, page, size, amount);
    GainsFit(s, c, max, page, size, amount);
    if amount <= SumGains(stacked) {
      StackGainsFit(s, c, max, page, 1, size, amount);
      assert gains == stacked;
      AppliedAt(s, c, gains, begun);
      assert false;
    }
    if s[p].amount < max {
      StacksFirst(s, c, max, page, 1, size, amount, p);
      var k :| 0 <= k < |stacked| && stacked[k] == Gain(p, max - s[p].amount);
      assert gains[k] == stacked[k];
      AppliedGain(s, c, gains, k);
    } else {
      ReceivedSlots(s, c, max, page, size, amount, p);
    }
  }
}
