/** The bag object of scripts/server/clone/container.lua and the item object of
    scripts/global/clone/item.lua. What the bag holds is read off as a value of
    module Stacks, and every method is proved to change that value as stated. */
module Containers {
  import opened Wrappers
  import opened Stacks
  import RidGen

  /** Classes by number. */
  type ClassTable = map<int, ClassInfo>

  /** An item whose class is in no table does not stack. */
  function InfoOf(classes: ClassTable, c: int): ClassInfo {
    if c in classes then classes[c] else ClassInfo(0, None)
  }

  predicate RegularTable(classes: ClassTable) {
    forall c <- classes :: Regular(classes[c])
  }

  /** An item read from the database is dropped only if its rid has 12
      characters; for any other one the call ends in an error. */
  predicate Droppable(saved: bool, rid: string) {
    !saved || |rid| == 12
  }

  class Item {
    const classId: int
    const info: ClassInfo
    const rid: string
    const saved: bool
    var amount: int
    var pos: Option<Pos>
    var inside: bool
    var destructed: bool

    /** Equipment has no amount of its own and counts as one. */
    constructor (classId: int, info: ClassInfo, amount: int, rid: string, saved: bool)
      ensures this.classId == classId && this.info == info && this.rid == rid && this.saved == saved
      ensures this.amount == if info.obType == OB_TYPE_EQUIP then 1 else amount
      ensures pos == None && !inside && !destructed
    {
      this.classId, this.info, this.rid, this.saved := classId, info, rid, saved;
      this.amount := if info.obType == OB_TYPE_EQUIP then 1 else amount;
      pos, inside, destructed := None, false, false;
    }

    function AsStack(): Stack
      reads `amount
    {
      Stack(classId, amount)
    }

    /** More than the limit is refused without a word. */
    method AddAmount(count: int)
      modifies `amount
      ensures amount == if count <= 0 || old(amount) + count > MaxAmount(info) then old(amount) else old(amount) + count
    {
      if count <= 0 { return; }
      var sum := amount + count;
      if sum > MaxAmount(info) { return; }
      amount := sum;
    }

    method CanCombine(ob: Item) returns (ok: bool)
      ensures ok == (this != ob && CanStack(info) && CanStack(ob.info) && classId == ob.classId
              && amount + ob.amount <= MaxAmount(ob.info))
    {
      if info.obType == OB_TYPE_EQUIP || ob.info.obType == OB_TYPE_EQUIP { return false; }
      if info.overLap == None || ob.info.overLap == None || info.overLap.value <= 1 || ob.info.overLap.value <= 1 {
        return false;
      }
      if this == ob || classId != ob.classId { return false; }
      if amount + ob.amount > MaxAmount(ob.info) { return false; }
      return true;
    }
  }

  // ----- Loading, as a change of the bag's value -----

  /** An item that is to be loaded. Its position is the one it was last put at:
      taking an item out does not clear it. */
  datatype Loaded = Loaded(stack: Stack, pos: Option<Pos>, inside: bool, droppable: bool)

  /** Done, turned down, or ended by the error that dropping raises. */
  datatype Answer = Accepted | Refused | Raised

  function TakenOut(s: Bag, q: Loaded): Bag {
    if q.inside && q.pos.Some? then s - {q.pos.value} else s
  }

  predicate Mergeable(info: ClassInfo, a: Stack, b: Stack) {
    CanStack(info) && a.classId == b.classId && a.amount + b.amount <= MaxAmount(info)
  }

  function LastPos(p: Option<Pos>): set<Pos> {
    if p.Some? then {p.value} else {}
  }

  /** The stack at the position grows by the item. */
  function Grown(s: Bag, q: Loaded, dst: Pos): Bag
    requires dst in s
  {
    s[dst := Stack(s[dst].classId, s[dst].amount + Max(0, q.stack.amount))]
  }

  /** The item goes into the stack at the position and is then dropped, if it can
      be, and whatever is at its last position with it. */
  function Merged(s: Bag, q: Loaded, dst: Pos): Bag
    requires dst in s
  {
    if q.droppable then Grown(s, q, dst) - LastPos(q.pos) else Grown(s, q, dst)
  }

  function MergeAnswer(q: Loaded): Answer {
    if q.droppable then Accepted else Raised
  }

  /** The item goes to a free position, or into the stack it finds there. */
  function Load(info: ClassInfo, s: Bag, q: Loaded, dst: Pos): Bag {
    var base := TakenOut(s, q);
    if dst !in base then base[dst := q.stack]
    else if Mergeable(info, base[dst], q.stack) then Merged(base, q, dst)
    else base
  }

  function LoadAnswer(info: ClassInfo, s: Bag, q: Loaded, dst: Pos): Answer {
    var base := TakenOut(s, q);
    if dst !in base then Accepted
    else if Mergeable(info, base[dst], q.stack) then MergeAnswer(q)
    else Refused
  }

  /** Merging without taking the item out first; not with itself. */
  predicate CanMerge(info: ClassInfo, s: Bag, q: Loaded, dst: Pos) {
    dst in s && !(q.inside && q.pos == Some(dst)) && Mergeable(info, s[dst], q.stack)
  }

  function Combined(info: ClassInfo, s: Bag, q: Loaded, dst: Pos): Bag {
    if dst !in s then Load(info, s, q, dst)
    else if CanMerge(info, s, q, dst) then Merged(s, q, dst)
    else s
  }

  function CombineAnswer(info: ClassInfo, s: Bag, q: Loaded, dst: Pos): Answer {
    if dst !in s then Accepted
    else if CanMerge(info, s, q, dst) then MergeAnswer(q)
    else Refused
  }

  lemma CombinedIs(info: ClassInfo, s: Bag, q: Loaded, dst: Pos)
    requires CanMerge(info, s, q, dst)
    ensures Combined(info, s, q, dst) == Merged(s, q, dst) && CombineAnswer(info, s, q, dst) == MergeAnswer(q)
  {
  }

  lemma CombineOutside(info: ClassInfo, s: Bag, q: Loaded, dst: Pos)
    requires !q.inside
    ensures CombineAnswer(info, s, q, dst) == LoadAnswer(info, s, q, dst)
    ensures Combined(info, s, q, dst) == Load(info, s, q, dst)
  {
  }

  /** Taking the item out first comes to the same as loading it from outside. */
  lemma LoadFromOutside(info: ClassInfo, s: Bag, q: Loaded, dst: Pos)
    ensures Load(info, s, q, dst) == Load(info, TakenOut(s, q), q.(inside := false), dst)
    ensures LoadAnswer(info, s, q, dst) == LoadAnswer(info, TakenOut(s, q), q.(inside := false), dst)
  {
  }

  /** An item that is in the bag is where it says. */
  predicate Placed(s: Bag, q: Loaded) {
    q.stack.amount >= 1 && (q.inside ==> q.pos.Some? && q.pos.value in s && s[q.pos.value] == q.stack)
  }

  /** A load that is refused has no effect, unless the item was in the bag: then
      it has left the bag all the same. */
  lemma LoadRefused(info: ClassInfo, s: Bag, q: Loaded, dst: Pos)
    requires Placed(s, q) && LoadAnswer(info, s, q, dst) == Refused
    ensures Load(info, s, q, dst) == s <==> !q.inside
  {
  }

  /** How much of a class an item adds that is not in the bag. */
  function Beside(outside: bool, q: Loaded, c: int): int {
    if outside then Own(q.stack, c) else 0
  }

  /** Of what the bag and the item hold together, nothing is lost and nothing
      doubled. Unless the load is accepted the item is left over. */
  ghost predicate LoadBalances(info: ClassInfo, s: Bag, q: Loaded, dst: Pos, c: int) {
    Total(Load(info, s, q, dst), c) + Beside(LoadAnswer(info, s, q, dst) != Accepted, q, c)
    == Total(s, c) + Beside(!q.inside, q, c)
  }

  /** If there is a stack it goes into, the item can be dropped, and nothing lies
      at the position it was last put at. */
  predicate GoesSafely(info: ClassInfo, s: Bag, q: Loaded, dst: Pos) {
    var base := TakenOut(s, q);
    dst in base && Mergeable(info, base[dst], q.stack) ==> q.droppable && base.Keys !! LastPos(q.pos)
  }

  lemma GrownTotal(s: Bag, q: Loaded, dst: Pos, c: int)
    requires dst in s && s[dst].classId == q.stack.classId && q.stack.amount >= 1
    ensures Total(Grown(s, q, dst), c) == Total(s, c) + Own(q.stack, c)
  {
    TotalUpdate(s, dst, Grown(s, q, dst)[dst], c);
  }

  lemma TakenOutTotal(s: Bag, q: Loaded, c: int)
    requires Placed(s, q)
    ensures Total(TakenOut(s, q), c) + Beside(q.inside, q, c) == Total(s, c)
  {
    if q.inside {
      TotalRemove(s, q.pos.value, c);
    }
  }

  lemma LoadKeepsTotal(info: ClassInfo, s: Bag, q: Loaded, dst: Pos, c: int)
    requires Placed(s, q) && GoesSafely(info, s, q, dst)
    ensures LoadBalances(info, s, q, dst, c)
  {
    var base := TakenOut(s, q);
    TakenOutTotal(s, q, c);
    if dst !in base {
      TotalUpdate(base, dst, q.stack, c);
    } else if Mergeable(info, base[dst], q.stack) {
      GrownTotal(base, q, dst, c);
      assert Merged(base, q, dst) == Grown(base, q, dst);
    }
  }

  /** What lies at the last position goes with the item; and an item that cannot
      be dropped is still there beside what the stack has grown by. */
  lemma LoadUnbalanced(info: ClassInfo, s: Bag, q: Loaded, dst: Pos)
    requires Positive(s) && Placed(s, q) && !GoesSafely(info, s, q, dst)
    ensures !LoadBalances(info, s, q, dst, if q.droppable then TakenOut(s, q)[q.pos.value].classId else q.stack.classId)
  {
    var base := TakenOut(s, q);
    var c := if q.droppable then base[q.pos.value].classId else q.stack.classId;
    TakenOutTotal(s, q, c);
    GrownTotal(base, q, dst, c);
    if q.droppable {
      TotalRemove(Grown(base, q, dst), q.pos.value, c);
    }
  }

  /** The two directions together. */
  lemma LoadConserves(info: ClassInfo, s: Bag, q: Loaded, dst: Pos)
    requires Positive(s) && Placed(s, q)
    ensures (forall c: int :: LoadBalances(info, s, q, dst, c)) <==> GoesSafely(info, s, q, dst)
  {
    if GoesSafely(info, s, q, dst) {
      forall c: int ensures LoadBalances(info, s, q, dst, c) {
        LoadKeepsTotal(info, s, q, dst, c);
      }
    } else {
      LoadUnbalanced(info, s, q, dst);
    }
  }

  lemma CombineTotal(info: ClassInfo, s: Bag, q: Loaded, dst: Pos, c: int)
    requires Placed(s, q) && q.inside
    ensures var doubled := CanMerge(info, s, q, dst) && !q.droppable;
            Total(Combined(info, s, q, dst), c) == Total(s, c) + Beside(doubled, q, c)
  {
    if dst !in s {
      LoadKeepsTotal(info, s, q, dst, c);
    } else if CanMerge(info, s, q, dst) {
      GrownTotal(s, q, dst, c);
      if q.droppable {
        TotalRemove(Grown(s, q, dst), q.pos.value, c);
      }
    }
  }

  /** Combining an item of the bag keeps every total exactly when it does not go
      into a stack or can be dropped: then what is dropped is the item itself. */
  lemma CombineConserves(info: ClassInfo, s: Bag, q: Loaded, dst: Pos)
    requires Placed(s, q) && q.inside
    ensures (forall c: int :: Total(Combined(info, s, q, dst), c) == Total(s, c)) <==>
            CanMerge(info, s, q, dst) ==> q.droppable
  {
    var doubled := CanMerge(info, s, q, dst) && !q.droppable;
    if doubled {
      CombineTotal(info, s, q, dst, q.stack.classId);
      assert Total(Combined(info, s, q, dst), q.stack.classId) != Total(s, q.stack.classId);
    } else {
      forall c: int ensures Total(Combined(info, s, q, dst), c) == Total(s, c) {
        CombineTotal(info, s, q, dst, c);
      }
    }
  }

  /** Saved under a rid that the server makes, an item of two that is combined
      with one of three stays in the bag beside the five. */
  lemma CombineDoubles(p: Pos, r: Pos, time: int, server: nat, flag: nat, sequence: nat)
    requires p != r
    ensures var info := ClassInfo(OB_TYPE_ITEM, Some(10));
            var bag := map[p := Stack(7, 3), r := Stack(7, 2)];
            var item := Loaded(Stack(7, 2), Some(r), true, Droppable(true, RidGen.Rid(time, server, flag, sequence)));
            && CombineAnswer(info, bag, item, p) == Raised
            && Combined(info, bag, item, p) == map[p := Stack(7, 5), r := Stack(7, 2)]
  {
  }

  /** An item of two is put at a position and taken out, one of three is put
      there, and then the first is loaded onto it: the bag is empty. */
  lemma MergeLosesStack(p: Pos)
    ensures var info := ClassInfo(OB_TYPE_ITEM, Some(10));
            var one := Load(info, map[], Loaded(Stack(7, 2), None, false, true), p);
            var none := TakenOut(one, Loaded(Stack(7, 2), Some(p), true, true));
            var other := Load(info, none, Loaded(Stack(7, 3), None, false, true), p);
            other == map[p := Stack(7, 3)] && Load(info, other, Loaded(Stack(7, 2), Some(p), false, true), p) == map[]
  {
  }

  /** Loading a piece of equipment onto another one takes it out of the bag. */
  lemma RefusedLoadTakesOut(p: Pos, q: Pos)
    requires p != q
    ensures var info := ClassInfo(OB_TYPE_EQUIP, None);
            var bag := map[p := Stack(7, 1), q := Stack(7, 1)];
            var item := Loaded(Stack(7, 1), Some(q), true, true);
            LoadAnswer(info, bag, item, p) == Refused && Load(info, bag, item, p) == map[p := Stack(7, 1)]
  {
  }

  /** A fitting gain of the plan is a load that is accepted. */
  lemma FillIsLoad(info: ClassInfo, s: Bag, c: int, page: int, size: int, amount: int, g: Gain)
    requires Regular(info) && Positive(s) && Fits(s, c, MaxAmount(info), page, 1, size, amount, g)
    ensures var q := Loaded(Stack(c, if info.obType == OB_TYPE_EQUIP then 1 else g.amount), None, false, true);
            LoadAnswer(info, s, q, g.pos) == Accepted && Load(info, s, q, g.pos) == Filled(s, c, g)
              && (g.pos in s || q.stack.amount >= 1)
  {
    if g.pos in s {
      assert s[g.pos].amount >= 1 && MaxAmount(info) >= 2;
      assert Filled(s, c, g) - {} == Filled(s, c, g);
    }
  }

  /** The gains of a plan do not get in each other's way. */
  lemma ApplyNext(s: Bag, c: int, max: int, page: int, size: int, amount: int, gains: seq<Gain>, k: nat)
    requires Apart(gains) && k < |gains| && Fits(s, c, max, page, 1, size, amount, gains[k])
    ensures Fits(Applied(s, c, gains[..k]), c, max, page, 1, size, amount, gains[k])
    ensures Applied(s, c, gains[..k + 1]) == Filled(Applied(s, c, gains[..k]), c, gains[k])
  {
    AppliedAt(s, c, gains[..k], gains[k].pos);
    assert gains[..k + 1][..k] == gains[..k];
  }

  /** What the plan does at one slot. */
  lemma PlanNext(s: Bag, c: int, max: int, page: int, i: int, size: int, left: int)
    requires i < size
    ensures var p := Pos(page, i); var rest := StackGains(s, c, max, page, i + 1, size, left);
            && EmptySlots(s, page, i, size) == (if p !in s then [p] else []) + EmptySlots(s, page, i + 1, size)
            && (p !in s || s[p].classId != c ==> StackGains(s, c, max, page, i, size, left) == rest)
            && (p in s && s[p].classId == c && max <= s[p].amount ==>
                  StackGains(s, c, max, page, i, size, left) == if left <= 0 then [] else rest)
            && (p in s && s[p].classId == c && max > s[p].amount ==>
                  var g := Min(max - s[p].amount, left);
                  StackGains(s, c, max, page, i, size, left) ==
                  [Gain(p, g)] + if left - g <= 0 then [] else StackGains(s, c, max, page, i + 1, size, left - g))
  {
  }

  // ----- Switching -----

  function Other(p: Pos, a: Pos, b: Pos): Pos {
    if p == a then b else if p == b then a else p
  }

  /** What is at one position goes to the other and the other way round. */
  function Switched<T>(s: map<Pos, T>, a: Pos, b: Pos): map<Pos, T> {
    map p | p in s.Keys + {a, b} && Other(p, a, b) in s :: s[Other(p, a, b)]
  }

  lemma SwitchedAt<T>(s: map<Pos, T>, a: Pos, b: Pos, p: Pos)
    ensures p in Switched(s, a, b) <==> Other(p, a, b) in s
    ensures p in Switched(s, a, b) ==> Switched(s, a, b)[p] == s[Other(p, a, b)]
  {
  }

  /** Switching twice is not switching at all. */
  lemma SwitchedTwice<T>(s: map<Pos, T>, a: Pos, b: Pos)
    ensures Switched(Switched(s, a, b), a, b) == s
  {
    var t := Switched(s, a, b);
    var u := Switched(t, a, b);
    forall p: Pos ensures p in u <==> p in s {
      SwitchedAt(s, a, b, Other(p, a, b));
      SwitchedAt(t, a, b, p);
    }
    forall p | p in u ensures u[p] == s[p] {
      SwitchedAt(s, a, b, Other(p, a, b));
      SwitchedAt(t, a, b, p);
    }
  }

  lemma TotalAround(s: Bag, a: Pos, b: Pos, c: int)
    ensures Total(s, c)
            == Total(s - {a, b}, c)
               + (if a in s then Own(s[a], c) else 0) + if b in s && a != b then Own(s[b], c) else 0
  {
    if a in s { TotalRemove(s, a, c); } else { assert s - {a} == s; }
    if b in s - {a} { TotalRemove(s - {a}, b, c); } else { assert s - {a} - {b} == s - {a}; }
    assert s - {a} - {b} == s - {a, b};
  }

  /** Switching keeps every total. */
  lemma SwitchedTotal(s: Bag, a: Pos, b: Pos, c: int)
    ensures Total(Switched(s, a, b), c) == Total(s, c)
  {
    var rest := s - {a, b};
    var t := Switched(s, a, b);
    TotalAround(s, a, b, c);
    TotalAround(t, a, b, c);
    assert t - {a, b} == rest;
  }

  // ----- The bag -----

  /** Items and equipment each have their page; nothing else has one. */
  function PageOf(info: ClassInfo): Option<int> {
    if info.obType == OB_TYPE_ITEM || info.obType == OB_TYPE_EQUIP then Some(info.obType) else None
  }

  /** One, unless an amount is named. */
  function Wanted(asked: Option<int>): int {
    if asked.Some? then asked.value else 1
  }

  /** The limit of a slot, the page, and its size. */
  datatype Slots = Slots(max: int, page: int, size: int)

  /** Both are taken out, then each is put where the other one was. */
  lemma SwitchedSteps<T>(s: map<Pos, T>, a: Pos, b: Pos)
    ensures var out := s - {a, b};
            var one := if a in s then out[b := s[a]] else out;
            Switched(s, a, b) == if b in s then one[a := s[b]] else one
  {
  }

  class Container {
    const classes: ClassTable
    var carry: map<Pos, Item>
    var containerSize: map<int, int>

    ghost predicate At(p: Pos, q: Item)
      reads q
    {
      q.pos == Some(p) && q.inside && !q.destructed && q.amount >= 1 && q.info == InfoOf(classes, q.classId)
    }

    /** Every item knows where it is, is alive, and counts at least one. */
    ghost predicate Valid()
      reads this, carry.Values
    {
      RegularTable(classes) && forall p <- carry :: At(p, carry[p])
    }

    ghost function Contents(): (s: Bag)
      reads `carry, carry.Values`amount
      ensures s.Keys == carry.Keys
    {
      map p <- carry :: carry[p].AsStack()
    }

    constructor (classes: ClassTable)
      requires RegularTable(classes)
      ensures Valid() && Contents() == map[] && this.classes == classes
    {
      this.classes := classes;
      carry, containerSize := map[], map[];
    }

    function SizeOf(page: int): Option<int>
      reads `containerSize
    {
      if page in containerSize then Some(containerSize[page])
      else if page == OB_TYPE_EQUIP then Some(400)
      else if page == OB_TYPE_ITEM then Some(250)
      else None
    }

    /** How much of a class is in the bag, in whatever order it is looked
        through. */
    method GetPropertyAmount(c: int) returns (amount: int)
      requires Valid()
      ensures amount == Total(Contents(), c)
    {
      amount := 0;
      var todo := carry.Keys;
      ghost var all, left := Contents(), Contents();
      while todo != {}
        invariant todo <= carry.Keys && left.Keys == todo
        invariant forall p <- todo :: left[p] == carry[p].AsStack()
        invariant Total(all, c) == amount + Total(left, c)
        decreases todo
      {
        var p :| p in todo;
        TotalRemove(left, p, c);
        assert left[p] == Stack(carry[p].classId, carry[p].amount);
        left := left - {p};
        if carry[p].classId == c {
          amount := amount + carry[p].amount;
        }
        todo := todo - {p};
      }
    }

    /** The item is in the bag where it says, or not in the bag at all. */
    ghost predicate Knows(q: Item)
      reads this, q
    {
      && !q.destructed
      && q.info == InfoOf(classes, q.classId)
      && if q.inside then q.pos.Some? && q.pos.value in carry && carry[q.pos.value] == q else q !in carry.Values
    }

    ghost function AsLoaded(q: Item): Loaded
      reads q
    {
      Loaded(q.AsStack(), q.pos, q.inside, Droppable(q.saved, q.rid))
    }

    /** Takes the item out, and with it whatever is where it was last put. */
    method UnloadProperty(q: Item)
      requires Valid() && Knows(q)
      modifies this`carry, q`inside
      ensures Valid() && !q.inside && Knows(q)
      ensures carry == old(carry) - LastPos(q.pos) && Contents() == old(Contents()) - LastPos(q.pos)
    {
      q.inside := false;
      if q.pos.Some? {
        carry := carry - {q.pos.value};
      }
    }

    /** Takes the item out for good, unless the check of its rid ends the call
        before anything is done. */
    method Drop(q: Item) returns (ok: bool)
      requires Valid() && Knows(q)
      modifies this`carry, q`inside, q`destructed
      ensures Valid() && ok == q.destructed == Droppable(q.saved, q.rid)
      ensures ok ==> !q.inside && carry == old(carry) - LastPos(q.pos) && Contents() == old(Contents()) - LastPos(q.pos)
      ensures !ok ==> q.inside == old(q.inside) && carry == old(carry) && Contents() == old(Contents())
    {
      if q.saved && |q.rid| != 12 { return false; }
      UnloadProperty(q);
      q.destructed := true;
      ok := true;
    }

    /** Writes the item down at the position. */
    method Put(q: Item, dst: Pos)
      requires Valid() && !q.destructed && q.amount >= 1 && q.info == InfoOf(classes, q.classId)
      requires forall p <- carry :: carry[p] == q ==> p == dst
      modifies this`carry, q`pos, q`inside
      ensures Valid() && carry == old(carry)[dst := q] && Contents() == old(Contents())[dst := q.AsStack()]
    {
      q.pos := Some(dst);
      q.inside := true;
      carry := carry[dst := q];
    }

    /** At login an item comes from the database to the position it is saved
        with; from then on it counts as saved. */
    method InitProperty(c: int, amount: int, rid: string, pos: Pos) returns (r: Answer)
      requires Valid() && amount >= 1
      modifies this`carry
      ensures Valid() && r == if pos in old(carry) then Raised else if c in classes then Accepted else Refused
      ensures r != Accepted ==> carry == old(carry)
      ensures r == Accepted ==>
                && pos in carry && carry - {pos} == old(carry) && carry[pos].saved && carry[pos].rid == rid
                && var count := if classes[c].obType == OB_TYPE_EQUIP then 1 else amount;
                   Contents() == old(Contents())[pos := Stack(c, count)]
    {
      if pos in carry { return Raised; }
      if c !in classes { return Refused; }
      var q := new Item(c, classes[c], amount, rid, true);
      Put(q, pos);
      r := Accepted;
    }

    /** More of the same at a position that has some. */
    method Grow(pre: Item, dst: Pos, count: int)
      requires Valid() && dst in carry && carry[dst] == pre
      modifies pre`amount
      ensures Valid()
      ensures count <= 0 || old(pre.amount) + count <= MaxAmount(pre.info) ==>
                Contents() == old(Contents())[dst := Stack(pre.classId, old(pre.amount) + Max(0, count))]
    {
      assert forall p <- carry :: p != dst ==> carry[p] != pre;
      pre.AddAmount(count);
    }

    /** The item is the one at the position exactly when it says so. */
    lemma IsThere(q: Item, dst: Pos)
      requires Valid() && Knows(q) && dst in carry
      ensures carry[dst] == q <==> q.inside && q.pos == Some(dst)
    {
    }

    /** The stack at the position grows by the item, which is then dropped, unless
        dropping it ends the call. */
    method MergeInto(pre: Item, q: Item, dst: Pos) returns (r: Answer)
      requires Valid() && Knows(q) && dst in carry && carry[dst] == pre && pre != q
      requires q.amount <= 0 || pre.amount + q.amount <= MaxAmount(pre.info)
      modifies this`carry, q`inside, q`destructed, pre`amount
      ensures Valid() && r == MergeAnswer(old(AsLoaded(q))) && q.destructed == (r == Accepted)
      ensures q.inside == if r == Accepted then false else old(q.inside)
      ensures Contents() == Merged(old(Contents()), old(AsLoaded(q)), dst)
      ensures carry == if r == Accepted then old(carry) - LastPos(q.pos) else old(carry)
    {
      ghost var s, l := Contents(), AsLoaded(q);
      assert s[dst] == pre.AsStack();
      Grow(pre, dst, q.amount);
      assert Contents() == Grown(s, l, dst);
      var ok := Drop(q);
      r := if ok then Accepted else Raised;
    }

    /** May the item be merged into the stack at the position? */
    method CheckCombine(pre: Item, q: Item, ghost dst: Pos) returns (ok: bool)
      requires Valid() && Knows(q) && dst in carry && carry[dst] == pre
      ensures ok == CanMerge(q.info, Contents(), AsLoaded(q), dst)
    {
      IsThere(q, dst);
      assert Contents()[dst] == pre.AsStack();
      ok := pre.CanCombine(q);
      if ok && pre.amount + q.amount > MaxAmount(q.info) {
        ok := false;
      }
    }

    /** Merges the item into the stack at the position. */
    method Merge(q: Item, dst: Pos) returns (r: Answer)
      requires Valid() && Knows(q) && dst in carry
      modifies this`carry, q`inside, q`destructed, carry.Values`amount
      ensures Valid() && q.destructed == (r == Accepted) && q.amount == old(q.amount)
      ensures q.inside == if r == Accepted then false else old(q.inside)
      ensures r == CombineAnswer(q.info, old(Contents()), old(AsLoaded(q)), dst)
      ensures Contents() == Combined(q.info, old(Contents()), old(AsLoaded(q)), dst)
      ensures forall p <- carry :: p in old(carry) && carry[p] == old(carry)[p]
    {
      var pre := carry[dst];
      IsThere(q, dst);
      ghost var s, l := Contents(), AsLoaded(q);
      r := Refused;
      var ok := CheckCombine(pre, q, dst);
      if ok {
        r := MergeInto(pre, q, dst);
        CombinedIs(q.info, s, l, dst);
      }
    }

    /** Merges the item into the stack at the position; if there is none, puts it
        there. */
    method CombineToPos(q: Item, dst: Pos) returns (r: Answer)
      requires Valid() && Knows(q) && (dst in carry || q.amount >= 1)
      modifies this`carry, q`pos, q`inside, q`destructed, carry.Values`amount
      ensures Valid() && q.amount == old(q.amount)
      ensures r == CombineAnswer(q.info, old(Contents()), old(AsLoaded(q)), dst)
      ensures Contents() == Combined(q.info, old(Contents()), old(AsLoaded(q)), dst)
      ensures q.destructed == (r == Accepted && dst in old(carry))
      ensures q.inside == if r == Accepted then dst !in old(carry) else old(q.inside)
      ensures forall p <- carry :: carry[p] == if p in old(carry) then old(carry)[p] else q
      decreases if dst in carry then 0 else 3
    {
      if dst in carry {
        r := Merge(q, dst);
      } else {
        r := LoadProperty(q, dst);
      }
    }

    method TakeOut(q: Item)
      requires Valid() && Knows(q)
      modifies this`carry, q`inside
      ensures Valid() && Knows(q) && AsLoaded(q) == old(AsLoaded(q)).(inside := false)
      ensures Contents() == TakenOut(old(Contents()), old(AsLoaded(q)))
      ensures forall p <- carry :: p in old(carry) && carry[p] == old(carry)[p]
    {
      if q.inside {
        UnloadProperty(q);
      }
    }

    /** Puts an item that is not in the bag at the position or into the stack
        there. */
    method LoadFresh(q: Item, dst: Pos) returns (r: Answer)
      requires Valid() && Knows(q) && !q.inside && (dst in carry || q.amount >= 1)
      modifies this`carry, q`pos, q`inside, q`destructed, carry.Values`amount
      ensures Valid() && q.amount == old(q.amount)
      ensures r == LoadAnswer(q.info, old(Contents()), old(AsLoaded(q)), dst)
      ensures Contents() == Load(q.info, old(Contents()), old(AsLoaded(q)), dst)
      ensures q.inside == (r == Accepted && dst !in old(carry)) && q.destructed == (r == Accepted && dst in old(carry))
      ensures forall p <- carry :: carry[p] == if p in old(carry) then old(carry)[p] else q
      decreases 1
    {
      CombineOutside(q.info, Contents(), AsLoaded(q), dst);
      if dst in carry {
        r := CombineToPos(q, dst);
      } else {
        Put(q, dst);
        assert carry[dst] == q;
        r := Accepted;
      }
    }

    /** Puts the item at the position or into the stack there, after taking it
        out if it is already in the bag. The objects that stay are the same. */
    method LoadProperty(q: Item, dst: Pos) returns (r: Answer)
      requires Valid() && Knows(q) && (dst in carry || q.amount >= 1)
      modifies this`carry, q`pos, q`inside, q`destructed, carry.Values`amount
      ensures Valid() && q.amount == old(q.amount)
      ensures r == LoadAnswer(q.info, old(Contents()), old(AsLoaded(q)), dst)
      ensures Contents() == Load(q.info, old(Contents()), old(AsLoaded(q)), dst)
      ensures q.inside == (r == Accepted && dst !in TakenOut(old(Contents()), old(AsLoaded(q))))
      ensures q.destructed == (r == Accepted && !q.inside)
      ensures forall p <- carry :: carry[p] == if p in old(carry) then old(carry)[p] else q
      decreases 2
    {
      LoadFromOutside(q.info, Contents(), AsLoaded(q), dst);
      TakeOut(q);
      r := LoadFresh(q, dst);
    }

    // ----- Receiving -----

    /** The stacks of the class are planned to be filled up first; the empty slots
        met on the way are written down. */
    method PlanStacks(c: int, max: int, page: int, size: int, amount: int)
      returns (gains: seq<Gain>, empties: seq<Pos>, left: int)
      requires Valid() && max >= 1
      ensures gains == StackGains(Contents(), c, max, page, 1, size, amount) && left == amount - SumGains(gains)
      ensures left > 0 ==> empties == EmptySlots(Contents(), page, 1, size)
    {
      ghost var s := Contents();
      gains, empties, left := [], [], amount;
      var i := 1;
      while i <= size - 1
        invariant gains + StackGains(s, c, max, page, i, size, left) == StackGains(s, c, max, page, 1, size, amount)
        invariant empties + EmptySlots(s, page, i, size) == EmptySlots(s, page, 1, size)
        invariant left == amount - SumGains(gains)
        decreases size - i
      {
        var pos := Pos(page, i);
        PlanNext(s, c, max, page, i, size, left);
        if pos !in carry {
          empties := empties + [pos];
        } else if carry[pos].classId == c {
          var free := Max(0, max - carry[pos].amount);
          assert s[pos] == carry[pos].AsStack();
          if free > 0 {
            var got := Min(free, left);
            SumAppend(gains, [Gain(pos, got)]);
            gains := gains + [Gain(pos, got)];
            left := left - got;
          }
          if left <= 0 {
            assert gains == StackGains(s, c, max, page, 1, size, amount);
            return;
          }
        }
        i := i + 1;
      }
    }

    method PlanEmpty(slots: seq<Pos>, max: int, amount: int) returns (gains: seq<Gain>, left: int)
      ensures gains == EmptyGains(slots, max, amount) && left == amount - SumGains(gains)
    {
      gains, left := [], amount;
      if left > 0 {
        var k := 0;
        while k < |slots|
          invariant k <= |slots|
          invariant k < |slots| ==> left > 0
          invariant gains + EmptyGains(slots[k..], max, left) == EmptyGains(slots, max, amount)
          invariant left == amount - SumGains(gains)
        {
          var got := Min(max, left);
          SumAppend(gains, [Gain(slots[k], got)]);
          gains := gains + [Gain(slots[k], got)];
          left := left - got;
          k := k + 1;
          if left <= 0 { break; }
        }
      }
    }

    /** Makes the item for a gain and loads it. */
    method LoadGain(c: int, info: ClassInfo, g: Gain, ghost page: int, ghost size: int, ghost amount: int)
      requires Valid() && info == InfoOf(classes, c) && Regular(info)
      requires Fits(Contents(), c, MaxAmount(info), page, 1, size, amount, g)
      modifies this`carry, carry.Values`amount
      ensures Valid() && Contents() == Filled(old(Contents()), c, g)
      ensures forall p <- old(carry) :: p in carry && carry[p] == old(carry)[p]
      ensures forall p <- carry :: p in old(carry) || fresh(carry[p])
    {
      FillIsLoad(info, Contents(), c, page, size, amount, g);
      var rid: string := *;
      var q := new Item(c, info, g.amount, rid, false);
      var r := LoadProperty(q, g.pos);
    }

    /** Carries the plan out, gain by gain. */
    method LoadAll(c: int, info: ClassInfo, gains: seq<Gain>, ghost page: int, ghost size: int, ghost amount: int)
      requires Valid() && info == InfoOf(classes, c) && Regular(info) && Apart(gains)
      requires forall k :: 0 <= k < |gains| ==> Fits(Contents(), c, MaxAmount(info), page, 1, size, amount, gains[k])
      modifies this`carry, carry.Values`amount
      ensures Valid() && Contents() == Applied(old(Contents()), c, gains)
      ensures forall p <- old(carry) :: p in carry && carry[p] == old(carry)[p]
    {
      ghost var s := Contents();
      var k := 0;
      while k < |gains|
        invariant k <= |gains| && Valid() && Contents() == Applied(s, c, gains[..k])
        invariant forall p <- old(carry) :: p in carry && carry[p] == old(carry)[p]
        invariant forall p <- carry :: p in old(carry) || fresh(carry[p])
      {
        ApplyNext(s, c, MaxAmount(info), page, size, amount, gains, k);
        LoadGain(c, info, gains[k], page, size, amount);
        k := k + 1;
      }
      assert gains[..|gains|] == gains;
    }

    method Plan(c: int, max: int, page: int, size: int, amount: int) returns (gains: seq<Gain>, left: int)
      requires Valid() && max >= 1
      ensures gains == Gains(Contents(), c, max, page, size, amount) && left == amount - SumGains(gains)
    {
      var stacked, empties, more;
      stacked, empties, left := PlanStacks(c, max, page, size, amount);
      more := [];
      if left > 0 {
        more, left := PlanEmpty(empties, max, left);
      }
      SumAppend(stacked, more);
      gains := stacked + more;
    }

    /** Where a class goes: its page, the size of that, and the limit of a slot. */
    function SlotsOf(c: int): Option<Slots>
      reads `containerSize
    {
      if c !in classes || PageOf(classes[c]) == None || SizeOf(PageOf(classes[c]).value) == None then None
      else Some(Slots(MaxAmount(classes[c]), PageOf(classes[c]).value, SizeOf(PageOf(classes[c]).value).value))
    }

    /** Plans for the given slots and carries the plan out, unless all is asked for
        and there is not room for all. */
    method ReceiveInto(c: int, w: Slots, amount: int, checkEnough: bool) returns (ok: bool, gains: seq<Gain>)
      requires Valid() && SlotsOf(c) == Some(w)
      modifies this`carry, carry.Values`amount
      ensures Valid()
      ensures ok <==> checkEnough ==> amount <= Room(old(Contents()), c, w.max, w.page, 1, w.size)
      ensures Contents() == if ok then Received(old(Contents()), c, w.max, w.page, w.size, amount) else old(Contents())
      ensures forall p <- old(carry) :: p in carry && carry[p] == old(carry)[p]
      ensures !ok ==> carry == old(carry)
    {
      ghost var s := Contents();
      GainsFit(s, c, w.max, w.page, w.size, amount);
      LeftOver(s, c, w.max, w.page, w.size, amount);
      var left;
      gains, left := Plan(c, w.max, w.page, w.size, amount);
      if checkEnough && left > 0 { return false, []; }
      LoadAll(c, classes[c], gains, w.page, w.size, amount);
      ok := true;
    }

    /** Puts as much of an amount of a class into the bag as there is room for, in
        new and old stacks; or nothing, if all of it is asked for and there is not
        enough room. What was in the bag stays where it is. */
    method ReceiveProperty(c: int, asked: Option<int>, checkEnough: bool) returns (ok: bool, gains: seq<Gain>)
      requires Valid()
      modifies this`carry, carry.Values`amount
      ensures Valid()
      ensures ok <==> old(SlotsOf(c)).Some? &&
                      var w := old(SlotsOf(c)).value;
                      checkEnough ==> Wanted(asked) <= Room(old(Contents()), c, w.max, w.page, 1, w.size)
      ensures !ok ==> carry == old(carry) && Contents() == old(Contents())
      ensures ok ==>
        var w := old(SlotsOf(c)).value;
        && Contents() == Received(old(Contents()), c, w.max, w.page, w.size, Wanted(asked))
        && Total(Contents(), c) == old(Total(Contents(), c))
           + Max(0, Min(Wanted(asked), Room(old(Contents()), c, w.max, w.page, 1, w.size)))
      ensures forall p <- old(carry) :: p in carry && carry[p] == old(carry)[p]
    {
      if c !in classes { return false, []; }
      var page := PageOf(classes[c]);
      if page == None { return false, []; }
      var size := SizeOf(page.value);
      if size == None { return false, []; }
      var w := Slots(MaxAmount(classes[c]), page.value, size.value);
      ReceivedTotal(Contents(), c, w.max, w.page, w.size, Wanted(asked), c);
      ok, gains := ReceiveInto(c, w, Wanted(asked), checkEnough);
    }

    method ClearBoth(a: Pos, b: Pos)
      requires Valid()
      modifies this`carry
      ensures Valid() && carry == old(carry) - {a, b} && Contents() == old(Contents()) - {a, b}
    {
      carry := carry - {a, b};
    }

    method SwitchPos(a: Pos, b: Pos)
      requires Valid()
      modifies this`carry, carry.Values`pos, carry.Values`inside
      ensures Valid()
      ensures carry == Switched(old(carry), a, b)
      ensures Contents() == Switched(old(Contents()), a, b)
    {
      var before := carry;
      ghost var bag := Contents();
      var srcThere, dstThere := a in carry, b in carry;
      SwitchedSteps(before, a, b);
      SwitchedSteps(bag, a, b);
      ClearBoth(a, b);
      ghost var out := Contents();
      if srcThere {
        assert before[a].AsStack() == bag[a];
        Put(before[a], b);
      }
      ghost var one := Contents();
      assert one == if srcThere then out[b := bag[a]] else out;
      if dstThere {
        assert before[b].AsStack() == bag[b];
        Put(before[b], a);
      }
    }
  }
}
