/** The four-way read behind `load_data_from_db`: whatever order results and
    timeouts come in, a load is called back once. */
module UserLoads {
  import opened Wrappers
  import opened DbRequests

  const ALL_PARTS := {0, 1, 2, 3}

  // ----- Parts that are still open -----

  ghost predicate Open(pending: map<int, Request>, n: nat, p: int) {
    exists c <- pending :: pending[c].target == Part(n, p)
  }

  ghost function OpenParts(pending: map<int, Request>, n: nat): set<int> {
    set p | 0 <= p < 4 && Open(pending, n, p)
  }

  predicate TargetOk(t: Target, loads: nat) {
    t.Part? ==> t.load < loads && 0 <= t.part < 4
  }

  /** No part is asked for twice. */
  ghost predicate TargetsOk(pending: map<int, Request>, loads: nat) {
    && (forall c <- pending :: TargetOk(pending[c].target, loads))
    && (forall c <- pending, d <- pending ::
         pending[c].target.Part? && pending[c].target == pending[d].target ==> c == d)
  }

  lemma OpenRemoved(pending: map<int, Request>, loads: nat, c: int, n: nat)
    requires TargetsOk(pending, loads) && c in pending
    ensures TargetsOk(pending - {c}, loads)
    ensures var t := pending[c].target;
            OpenParts(pending - {c}, n) == OpenParts(pending, n) - if t.Part? && t.load == n then {t.part} else {}
    ensures pending[c].target.Part? ==> pending[c].target.part in OpenParts(pending, pending[c].target.load)
  {
    var rest := pending - {c};
    var t := pending[c].target;
    var gone := if t.Part? && t.load == n then {t.part} else {};
    forall p ensures p in OpenParts(rest, n) <==> p in OpenParts(pending, n) - gone {
      if p in OpenParts(pending, n) - gone {
        var d :| d in pending && pending[d].target == Part(n, p);
        assert d in rest;
      }
      if p in OpenParts(rest, n) {
        var d :| d in rest && rest[d].target == Part(n, p);
        assert pending[d].target == Part(n, p);
      }
    }
  }

  lemma OpenBy(pending: map<int, Request>, c: int)
    requires c in pending && pending[c].target.Part?
    ensures Open(pending, pending[c].target.load, pending[c].target.part)
  {
  }

  lemma OpenAdded(pending: map<int, Request>, loads: nat, c: int, r: Request, n: nat)
    requires TargetsOk(pending, loads) && c !in pending && TargetOk(r.target, loads)
    requires r.target.Part? ==> r.target.part !in OpenParts(pending, r.target.load)
    ensures TargetsOk(pending[c := r], loads)
    ensures OpenParts(pending[c := r], n)
            == OpenParts(pending, n) + if r.target.Part? && r.target.load == n then {r.target.part} else {}
  {
    var more := pending[c := r];
    var t := r.target;
    forall d <- pending ensures t.Part? ==> pending[d].target != t {
      if pending[d].target.Part? {
        OpenBy(pending, d);
      }
    }
    var new_ := if t.Part? && t.load == n then {t.part} else {};
    forall p ensures p in OpenParts(more, n) <==> p in OpenParts(pending, n) + new_ {
      if p in OpenParts(pending, n) {
        var d :| d in pending && pending[d].target == Part(n, p);
        assert more[d].target == Part(n, p);
      }
      if p in new_ {
        assert more[c].target == Part(n, p);
      }
      if p in OpenParts(more, n) {
        var d :| d in more && more[d].target == Part(n, p);
        if d != c { assert pending[d].target == Part(n, p); }
      }
    }
  }

  // ----- Each load is called back once -----

  predicate IsWaiting(st: State, n: nat)
    requires n < |st.loads|
  {
    var c := Cookie(st.loads[n].serial);
    c in st.waiting && st.waiting[c] == n
  }

  predicate Called(st: State, n: nat) {
    exists i :: 0 <= i < |st.calls| && st.calls[i].load == n
  }

  /** A load has as many reads to go as it has open parts; until one fails, the
      others have succeeded; and it waits to be called back as long as
      none has failed and some are open. */
  ghost predicate LoadOk(st: State, n: nat)
    requires n < |st.loads|
  {
    var d := st.loads[n];
    var open := OpenParts(st.pending, n);
    && 1 <= d.serial <= st.made
    && d.readNum == |open|
    && (!d.failed ==> d.got == ALL_PARTS - open)
    && (IsWaiting(st, n) <==> !d.failed && d.readNum > 0)
    && (d.readNum > 0 && Cookie(d.serial) in st.waiting ==> st.waiting[Cookie(d.serial)] == n)
  }

  predicate CallOk(st: State, i: nat)
    requires i < |st.calls|
  {
    st.calls[i].load < |st.loads| && st.calls[i].failed == st.loads[st.calls[i].load].failed
  }

  ghost predicate LoadsOk(st: State) {
    && TargetsOk(st.pending, |st.loads|)
    && (forall n :: 0 <= n < |st.loads| ==> LoadOk(st, n))
    && (forall n :: 0 <= n < |st.loads| ==> (Called(st, n) <==> !IsWaiting(st, n)))
    && (forall i :: 0 <= i < |st.calls| ==> CallOk(st, i))
    && (forall i, j :: 0 <= i < j < |st.calls| ==> st.calls[i].load != st.calls[j].load)
  }

  ghost predicate Inv(st: State) {
    EachOnce(st) && LoadsOk(st)
  }

  // ----- An answer -----

  /** The load after the answer of one of its parts. */
  function After(st: State, c: int, reply: Reply): LoadData
    requires c in st.pending && st.pending[c].target.Part? && st.pending[c].target.load < |st.loads|
  {
    PartAnswered(st.loads[st.pending[c].target.load], st.pending[c].target.part, reply)
  }

  /** What an answer does to a load and to the list of calls: it is called back
      with the first failure, or with the last success if there was no failure. */
  lemma PartSettles(st: State, c: int, reply: Reply)
    requires LoadsOk(st) && c in st.pending && st.pending[c].target.Part?
    ensures var n := st.pending[c].target.load; var st' := Settle(st, c, reply);
            && n < |st.loads|
            && var d := After(st, c, reply);
               && st'.loads == st.loads[n := d]
               && var calls := IsWaiting(st, n) && (d.failed || d.readNum == 0);
                  && st'.calls == (if calls then st.calls + [Call(n, d.failed)] else st.calls)
                  && st'.waiting == (if calls then st.waiting - {Cookie(d.serial)} else st.waiting)
  {
    var n := st.pending[c].target.load;
    assert LoadOk(st, n);
    OpenRemoved(st.pending, |st.loads|, c, n);
    assert st.loads[n].readNum > 0;
  }

  lemma PartGone(open: set<int>, p: int)
    requires p in open && 0 <= p < 4
    ensures |open - {p}| == |open| - 1 && ALL_PARTS - (open - {p}) == ALL_PARTS - open + {p}
  {
  }

  /** The load whose part was answered. */
  lemma AnsweredLoadOk(st: State, c: int, reply: Reply)
    requires LoadsOk(st) && c in st.pending && st.pending[c].target.Part?
    ensures var n := st.pending[c].target.load; var st' := Settle(st, c, reply);
            n < |st'.loads| && LoadOk(st', n)
  {
    var n := st.pending[c].target.load;
    var st' := Settle(st, c, reply);
    PartSettles(st, c, reply);
    AnswerRequests(Removed(st, c), st.pending[c].target, reply);
    assert LoadOk(st, n);
    OpenRemoved(st.pending, |st.loads|, c, n);
    PartGone(OpenParts(st.pending, n), st.pending[c].target.part);
  }

  /** The other loads do not notice. */
  lemma OtherLoadOk(st: State, c: int, reply: Reply, m: nat)
    requires LoadsOk(st) && c in st.pending && m < |st.loads|
    requires st.pending[c].target.Part? ==> st.pending[c].target.load != m
    ensures var st' := Settle(st, c, reply);
            m < |st'.loads| && LoadOk(st', m) && IsWaiting(st', m) == IsWaiting(st, m)
  {
    assert LoadOk(st, m);
    AnswerRequests(Removed(st, c), st.pending[c].target, reply);
    OpenRemoved(st.pending, |st.loads|, c, m);
    if st.pending[c].target.Part? {
      PartSettles(st, c, reply);
    }
  }

  lemma CalledMore(st: State, st': State, m: nat)
    requires st'.calls == st.calls || (st'.calls != [] && st.calls == st'.calls[..|st'.calls| - 1])
    ensures Called(st', m) <==> Called(st, m) || (st'.calls != st.calls && st'.calls[|st'.calls| - 1].load == m)
  {
    if Called(st, m) {
      var i :| 0 <= i < |st.calls| && st.calls[i].load == m;
      assert st'.calls[i].load == m;
    }
    if Called(st', m) {
      var i :| 0 <= i < |st'.calls| && st'.calls[i].load == m;
      if i < |st.calls| { assert st.calls[i].load == m; }
    }
  }

  /** Who has been called is who no longer waits, and nobody is called twice. */
  lemma SettleCalls(st: State, c: int, reply: Reply)
    requires LoadsOk(st) && c in st.pending
    ensures var st' := Settle(st, c, reply);
            && |st'.loads| == |st.loads|
            && (forall m :: 0 <= m < |st'.loads| ==> (Called(st', m) <==> !IsWaiting(st', m)))
            && (forall i :: 0 <= i < |st'.calls| ==> CallOk(st', i))
            && (forall i, j :: 0 <= i < j < |st'.calls| ==> st'.calls[i].load != st'.calls[j].load)
  {
    var st' := Settle(st, c, reply);
    var t := st.pending[c].target;
    if t.Part? {
      PartSettles(st, c, reply);
      AnsweredLoadOk(st, c, reply);
      var n := t.load;
      assert LoadOk(st, n);
      forall m | 0 <= m < |st'.loads| ensures Called(st', m) <==> !IsWaiting(st', m) {
        CalledMore(st, st', m);
        if m != n {
          OtherLoadOk(st, c, reply, m);
        }
      }
      forall i | 0 <= i < |st'.calls| ensures CallOk(st', i) {
        if i < |st.calls| {
          assert CallOk(st, i);
          if st.calls[i].load == n { assert Called(st, n); }
        }
      }
      forall i, j | 0 <= i < j < |st'.calls| ensures st'.calls[i].load != st'.calls[j].load {
        if j == |st.calls| { assert st.calls[i].load == n ==> Called(st, n); }
      }
    } else {
      forall m | 0 <= m < |st'.loads| ensures Called(st', m) <==> !IsWaiting(st', m) {
        OtherLoadOk(st, c, reply, m);
        CalledMore(st, st', m);
      }
      forall i | 0 <= i < |st'.calls| ensures CallOk(st', i) {
        assert CallOk(st, i);
      }
    }
  }

  lemma SettleLoads(st: State, c: int, reply: Reply)
    requires LoadsOk(st) && c in st.pending
    ensures LoadsOk(Settle(st, c, reply))
  {
    var st' := Settle(st, c, reply);
    AnswerRequests(Removed(st, c), st.pending[c].target, reply);
    OpenRemoved(st.pending, |st.loads|, c, 0);
    var t := st.pending[c].target;
    forall m | 0 <= m < |st'.loads| ensures LoadOk(st', m) {
      if t.Part? && t.load == m {
        AnsweredLoadOk(st, c, reply);
      } else {
        OtherLoadOk(st, c, reply, m);
      }
    }
    SettleCalls(st, c, reply);
  }

  // ----- A new load -----

  /** The next k cookies are those of no open request. */
  ghost predicate Free(st: State, k: nat) {
    forall j :: st.made < j <= st.made + k ==> Cookie(j) !in st.pending
  }

  lemma ReadOtherLoad(st: State, now: int, n: nat)
    requires LoadsOk(st) && Cookie(st.made + 1) !in st.pending && n < |st.loads|
    ensures LoadOk(ReadDb(st, Other, now), n)
  {
    assert LoadOk(st, n);
    OpenAdded(st.pending, |st.loads|, Cookie(st.made + 1), Request(st.made + 1, Other, now), n);
  }

  /** Calls and waiting loads stay as they are. */
  lemma LoadsStay(st: State, st': State)
    requires LoadsOk(st) && st'.loads == st.loads && st'.waiting == st.waiting && st'.calls == st.calls
    requires TargetsOk(st'.pending, |st.loads|) && forall n :: 0 <= n < |st.loads| ==> LoadOk(st', n)
    ensures LoadsOk(st')
  {
    forall n | 0 <= n < |st'.loads| ensures Called(st', n) <==> !IsWaiting(st', n) {
      CalledMore(st, st', n);
    }
    forall i | 0 <= i < |st'.calls| ensures CallOk(st', i) {
      assert CallOk(st, i);
    }
  }

  /** A read that belongs to no load does no harm exactly when its cookie is
      free. */
  lemma ReadOtherInv(st: State, now: int)
    requires Inv(st)
    ensures Inv(ReadDb(st, Other, now)) <==> Cookie(st.made + 1) !in st.pending
  {
    ReadDbEachOnce(st, Other, now);
    if Cookie(st.made + 1) !in st.pending {
      var st' := ReadDb(st, Other, now);
      OpenAdded(st.pending, |st.loads|, Cookie(st.made + 1), Request(st.made + 1, Other, now), 0);
      forall n | 0 <= n < |st'.loads| ensures LoadOk(st', n) {
        ReadOtherLoad(st, now, n);
      }
      LoadsStay(st, st');
    }
  }

  function PartsUpTo(k: nat): set<int> {
    if k == 0 then {} else PartsUpTo(k - 1) + {k - 1}
  }

  /** One more read of a load goes out. */
  lemma ReadPartOpen(st: State, n: nat, k: nat, time: int, m: nat)
    requires EachOnce(st) && Cookie(st.made + 1) !in st.pending && TargetsOk(st.pending, |st.loads|)
    requires n < |st.loads| && k < 4 && k !in OpenParts(st.pending, n)
    ensures var st' := ReadDb(st, Part(n, k), time);
            && EachOnce(st') && TargetsOk(st'.pending, |st.loads|)
            && OpenParts(st'.pending, m) == OpenParts(st.pending, m) + (if m == n then {k as int} else {})
  {
    ReadDbEachOnce(st, Part(n, k), time);
    OpenAdded(st.pending, |st.loads|, Cookie(st.made + 1), Request(st.made + 1, Part(n, k), time), m);
  }

  /** All that a few reads leave as it is. */
  ghost predicate SameBut(st: State, st': State, made: nat) {
    && st'.made == st.made + made && st'.loads == st.loads && st'.waiting == st.waiting && st'.calls == st.calls
    && st'.fired == st.fired && st.issued <= st'.issued
    && forall c <- st'.pending ::
         (c in st.pending && st'.pending[c] == st.pending[c]) || st'.pending[c].serial > st.made
  }

  lemma {:induction false} ReadPartsSame(st: State, n: nat, times: seq<int>)
    ensures SameBut(st, ReadParts(st, n, times), |times|)
  {
    if times != [] {
      ReadPartsSame(st, n, times[..|times| - 1]);
    }
  }

  /** The reads made in between have other cookies. */
  lemma FreeLater(st: State, st': State, made: nat)
    requires Free(st, made + 1) && SameBut(st, st', made) && EachOnce(st') && made < 4
    ensures Cookie(st'.made + 1) !in st'.pending
  {
    var c := Cookie(st'.made + 1);
    assert c !in st.pending;
    if c in st'.pending {
      assert RequestOk(st', c);
      SameCookie(st'.pending[c].serial, st'.made + 1);
    }
  }

  lemma {:induction false} PartsBelow(k: nat)
    ensures forall p <- PartsUpTo(k) :: p < k
  {
    if k > 0 {
      PartsBelow(k - 1);
    }
  }

  /** The reads of a load go out one after the other. */
  lemma {:induction false} ReadPartsOpen(st: State, n: nat, times: seq<int>, m: nat)
    requires |times| <= 4 && n < |st.loads|
    requires EachOnce(st) && TargetsOk(st.pending, |st.loads|) && OpenParts(st.pending, n) == {} && Free(st, |times|)
    ensures var st' := ReadParts(st, n, times);
            && EachOnce(st') && TargetsOk(st'.pending, |st.loads|)
            && OpenParts(st'.pending, m) == OpenParts(st.pending, m) + (if m == n then PartsUpTo(|times|) else {})
            && OpenParts(st'.pending, n) == PartsUpTo(|times|)
  {
    if times != [] {
      var k := |times| - 1;
      ReadPartsOpen(st, n, times[..k], m);
      ReadPartsSame(st, n, times[..k]);
      var mid := ReadParts(st, n, times[..k]);
      FreeLater(st, mid, k);
      PartsBelow(k);
      ReadPartOpen(mid, n, k, times[k], m);
      ReadPartOpen(mid, n, k, times[k], n);
    }
  }

  lemma NewLoadEachOnce(st: State)
    requires EachOnce(st)
    ensures EachOnce(NewLoad(st))
  {
    var st' := NewLoad(st);
    forall c <- st'.pending ensures RequestOk(st', c) {
      assert RequestOk(st, c);
    }
    forall k <- st'.issued ensures 1 <= k <= st'.made && (k in st'.fired || Waits(st', k)) {
    }
  }

  lemma NoOpenYet(st: State)
    requires TargetsOk(st.pending, |st.loads|)
    ensures OpenParts(st.pending, |st.loads|) == {}
  {
    forall c <- st.pending ensures st.pending[c].target.Part? ==> st.pending[c].target.load != |st.loads| {
      assert TargetOk(st.pending[c].target, |st.loads|);
    }
  }

  lemma NewLoadTargets(st: State)
    requires TargetsOk(st.pending, |st.loads|)
    ensures TargetsOk(NewLoad(st).pending, |NewLoad(st).loads|)
  {
    var mid := NewLoad(st);
    forall c <- mid.pending ensures TargetOk(mid.pending[c].target, |mid.loads|) {
      assert TargetOk(st.pending[c].target, |st.loads|);
    }
  }

  /** No load with open reads has the cookie that a new load gets, and the four
      cookies after it are free. */
  ghost predicate RoomForLoad(st: State) {
    && (forall n ::
         0 <= n < |st.loads| && st.loads[n].readNum > 0 ==> Cookie(st.loads[n].serial) != Cookie(st.made + 1))
    && Free(NewLoad(st), 4)
  }

  lemma StartLoadEachOnce(st: State, times: seq<int>, m: nat)
    requires Inv(st) && RoomForLoad(st) && |times| == 4
    ensures var st' := StartLoad(st, times); var n := |st.loads|;
            && EachOnce(st') && TargetsOk(st'.pending, |st'.loads|) && st'.made == st.made + 5
            && st'.loads == NewLoad(st).loads && st'.waiting == NewLoad(st).waiting && st'.calls == st.calls
            && OpenParts(st'.pending, n) == ALL_PARTS
            && (m != n ==> OpenParts(st'.pending, m) == OpenParts(st.pending, m))
  {
    var mid := NewLoad(st);
    NewLoadEachOnce(st);
    NoOpenYet(st);
    NewLoadTargets(st);
    ReadPartsOpen(mid, |st.loads|, times, m);
    ReadPartsSame(mid, |st.loads|, times);
    assert PartsUpTo(4) == PartsUpTo(2) + {2, 3} == ALL_PARTS;
  }

  lemma StartLoadOld(st: State, times: seq<int>, m: nat)
    requires Inv(st) && RoomForLoad(st) && |times| == 4 && m < |st.loads|
    ensures m < |StartLoad(st, times).loads|
    ensures LoadOk(StartLoad(st, times), m) && IsWaiting(StartLoad(st, times), m) == IsWaiting(st, m)
  {
    StartLoadEachOnce(st, times, m);
    assert LoadOk(st, m);
  }

  lemma NotCalledYet(st: State)
    requires LoadsOk(st)
    ensures !Called(st, |st.loads|)
  {
    forall i | 0 <= i < |st.calls| ensures st.calls[i].load != |st.loads| {
      assert CallOk(st, i);
    }
  }

  lemma StartLoadNew(st: State, times: seq<int>)
    requires Inv(st) && RoomForLoad(st) && |times| == 4
    ensures var st' := StartLoad(st, times); var n := |st.loads|;
            n < |st'.loads| && LoadOk(st', n) && IsWaiting(st', n)
  {
    StartLoadEachOnce(st, times, |st.loads|);
    assert StartLoad(st, times).loads[|st.loads|] == LoadData(st.made + 1, 4, false, {});
  }

  lemma StartLoadKeeps(st: State, times: seq<int>)
    requires Inv(st) && RoomForLoad(st) && |times| == 4
    ensures Inv(StartLoad(st, times))
  {
    var st', n := StartLoad(st, times), |st.loads|;
    StartLoadEachOnce(st, times, n);
    forall m | 0 <= m < |st'.loads| ensures LoadOk(st', m) && (Called(st', m) <==> !IsWaiting(st', m)) {
      if m < n {
        StartLoadOld(st, times, m);
      } else {
        StartLoadNew(st, times);
        NotCalledYet(st);
      }
      CalledMore(st, st', m);
    }
    forall i | 0 <= i < |st'.calls| ensures CallOk(st', i) {
      assert CallOk(st, i);
    }
  }

  /** A read goes out under the j-th cookie, whatever had it before. */
  lemma {:induction false} ReadPartsTake(st: State, n: nat, times: seq<int>, j: nat)
    requires st.made < j <= st.made + |times|
    ensures var st' := ReadParts(st, n, times);
            Cookie(j) in st'.pending && st'.pending[Cookie(j)].serial > st.made
  {
    ReadPartsSame(st, n, times[..|times| - 1]);
    if j < st.made + |times| {
      ReadPartsTake(st, n, times[..|times| - 1], j);
    }
  }

  /** A request whose cookie one of the reads takes is never answered. */
  lemma ReadPartsLose(st: State, n: nat, times: seq<int>)
    requires EachOnce(st) && !Free(st, |times|)
    ensures !EachOnce(ReadParts(st, n, times))
  {
    var st' := ReadParts(st, n, times);
    var j :| st.made < j <= st.made + |times| && Cookie(j) in st.pending;
    var c := Cookie(j);
    var lost := st.pending[c].serial;
    assert RequestOk(st, c);
    ReadPartsSame(st, n, times);
    ReadPartsTake(st, n, times, j);
    assert lost in st'.issued && lost !in st'.fired && !Waits(st', lost);
  }

  /** A load with open reads whose cookie a new load gets is no longer the one that
      waits under it. */
  lemma CookieTwice(st: State, times: seq<int>, n: nat)
    requires n < |st.loads| && st.loads[n].readNum > 0 && Cookie(st.loads[n].serial) == Cookie(st.made + 1)
    ensures !LoadsOk(StartLoad(st, times))
  {
    var st' := StartLoad(st, times);
    ReadPartsSame(NewLoad(st), |st.loads|, times);
    assert st'.loads[n] == st.loads[n] && !LoadOk(st', n);
  }

  /** A new load does no harm exactly when its cookies are free. */
  lemma StartLoadInv(st: State, times: seq<int>)
    requires Inv(st) && |times| == 4
    ensures Inv(StartLoad(st, times)) <==> RoomForLoad(st)
  {
    if RoomForLoad(st) {
      StartLoadKeeps(st, times);
    } else if Free(NewLoad(st), 4) {
      var n :| 0 <= n < |st.loads| && st.loads[n].readNum > 0 && Cookie(st.loads[n].serial) == Cookie(st.made + 1);
      CookieTwice(st, times, n);
    } else {
      NewLoadEachOnce(st);
      ReadPartsLose(NewLoad(st), |st.loads|, times);
    }
  }

  // ----- Whole runs -----

  lemma FreshInv()
    ensures Inv(FRESH)
  {
  }

  /** The cookies that an event makes are free. */
  ghost predicate Room(st: State, e: Event) {
    match e
    case Loads(_) => RoomForLoad(st)
    case Reads(_) => Cookie(st.made + 1) !in st.pending
    case _ => true
  }

  /** An event keeps the invariant exactly when the cookies it makes are free: so
      do all results, late or repeated ones too, and timeouts, and a new load or
      another request as long as no cookie in use comes round. */
  lemma NextInv(st: State, e: Event)
    requires Inv(st) && Enabled(st, e)
    ensures Inv(Next(st, e)) <==> Room(st, e)
  {
    match e
    case Loads(times) => StartLoadInv(st, times);
    case Reads(now) => ReadOtherInv(st, now);
    case Result(c, reply) =>
      if c in st.pending {
        SettleEachOnce(st, c, reply);
        SettleLoads(st, c, reply);
      }
    case TimeOut(c, now) =>
      SettleEachOnce(st, c, TIMED_OUT);
      SettleLoads(st, c, TIMED_OUT);
  }

  ghost predicate StepOf(st: State, e: Event, st': State) {
    Enabled(st, e) && st' == Next(st, e)
  }

  /** A run from a fresh start. */
  ghost predicate Run(sts: seq<State>, es: seq<Event>) {
    && |sts| == |es| + 1
    && sts[0] == FRESH
    && forall i :: 0 <= i < |es| ==> StepOf(sts[i], es[i], sts[i + 1])
  }

  lemma {:induction false} RoomyRun(sts: seq<State>, es: seq<Event>, n: nat)
    requires Run(sts, es) && n < |sts|
    requires forall i :: 0 <= i < n ==> Room(sts[i], es[i])
    ensures Inv(sts[n])
  {
    if n == 0 {
      FreshInv();
    } else {
      RoomyRun(sts, es, n - 1);
      assert StepOf(sts[n - 1], es[n - 1], sts[n - 1 + 1]);
      NextInv(sts[n - 1], es[n - 1]);
    }
  }

  /** In a run the invariant holds throughout exactly when no cookie comes round
      while it is in use. */
  lemma RunInv(sts: seq<State>, es: seq<Event>)
    requires Run(sts, es)
    ensures (forall n :: 0 <= n < |sts| ==> Inv(sts[n])) <==> (forall i :: 0 <= i < |es| ==> Room(sts[i], es[i]))
  {
    if forall i :: 0 <= i < |es| ==> Room(sts[i], es[i]) {
      forall n | 0 <= n < |sts| ensures Inv(sts[n]) { RoomyRun(sts, es, n); }
    } else if forall n :: 0 <= n < |sts| ==> Inv(sts[n]) {
      forall i | 0 <= i < |es| ensures Room(sts[i], es[i]) {
        assert StepOf(sts[i], es[i], sts[i + 1]) && Inv(sts[i + 1]);
        NextInv(sts[i], es[i]);
      }
    }
  }

  // ----- What a load is told -----

  /** Once none of its reads is on the list any more, a load has been called back,
      and only once; a success means that all four reads succeeded. */
  lemma LoadAnswered(st: State, n: nat)
    requires Inv(st) && n < |st.loads|
    requires forall c <- st.pending :: !(st.pending[c].target.Part? && st.pending[c].target.load == n)
    ensures exists i :: 0 <= i < |st.calls| && st.calls[i] == Call(n, st.loads[n].failed)
                        && forall j :: 0 <= j < |st.calls| && st.calls[j].load == n ==> j == i
    ensures !st.loads[n].failed ==> st.loads[n].got == ALL_PARTS
  {
    assert LoadOk(st, n);
    assert OpenParts(st.pending, n) == {};
    assert Called(st, n);
    var i :| 0 <= i < |st.calls| && st.calls[i].load == n;
    assert CallOk(st, i);
    forall j | 0 <= j < |st.calls| && st.calls[j].load == n ensures j == i {
    }
  }

  /** No load is told of a success before all its four reads have succeeded. */
  lemma SuccessIsWhole(st: State, i: nat)
    requires Inv(st) && i < |st.calls| && !st.calls[i].failed
    ensures st.calls[i].load < |st.loads| && st.loads[st.calls[i].load].got == ALL_PARTS
  {
    assert CallOk(st, i);
    var n := st.calls[i].load;
    assert LoadOk(st, n);
    assert Called(st, n);
    assert |OpenParts(st.pending, n)| == 0;
  }

  /** The first read that fails calls the load back there and then, with the
      failure; reads that come in later do not call it again. */
  lemma FailsAtOnce(st: State, c: int, reply: Reply)
    requires Inv(st) && c in st.pending && st.pending[c].target.Part? && !PartOk(st.pending[c].target.part, reply)
    ensures var n := st.pending[c].target.load; var st' := Settle(st, c, reply);
            n < |st.loads| && st'.calls == if st.loads[n].failed then st.calls else st.calls + [Call(n, true)]
  {
    PartSettles(st, c, reply);
    var n := st.pending[c].target.load;
    assert LoadOk(st, n);
    OpenRemoved(st.pending, |st.loads|, c, n);
  }

  /** A request that is answered is never answered again. */
  lemma AnsweredOnce(st: State, c: int, reply: Reply)
    requires Inv(st) && c in st.pending
    ensures var k := st.pending[c].serial; var st' := Settle(st, c, reply);
            && k !in st.fired && st'.fired == st.fired + [k]
            && forall d <- st'.pending :: st'.pending[d].serial != k
  {
    AnswerRequests(Removed(st, c), st.pending[c].target, reply);
    assert RequestOk(st, c);
    forall d <- st.pending - {c} ensures st.pending[d].serial != st.pending[c].serial {
      assert RequestOk(st, d);
    }
  }

  // ----- The timer -----

  /** The given requests time out one after the other. */
  ghost function ExpireAll(st: State, cs: seq<int>): State {
    if cs == [] then st
    else
      var st' := ExpireAll(st, cs[..|cs| - 1]);
      var c := cs[|cs| - 1];
      if c in st'.pending then Settle(st', c, TIMED_OUT) else st'
  }

  lemma {:induction false} ExpireAllInv(st: State, cs: seq<int>)
    requires Inv(st)
    ensures Inv(ExpireAll(st, cs))
  {
    if cs != [] {
      ExpireAllInv(st, cs[..|cs| - 1]);
      var st' := ExpireAll(st, cs[..|cs| - 1]);
      var c := cs[|cs| - 1];
      if c in st'.pending {
        SettleEachOnce(st', c, TIMED_OUT);
        SettleLoads(st', c, TIMED_OUT);
      }
    }
  }

  /** One more request times out. */
  lemma ExpireMore(st: State, cs: seq<int>, c: int)
    requires c in ExpireAll(st, cs).pending
    ensures ExpireAll(st, cs + [c]) == Notify(ExpireAll(st, cs), c, TIMED_OUT)
    ensures (set d <- cs + [c]) == (set d <- cs) + {c}
  {
    assert (cs + [c])[..|cs|] == cs;
  }

  /** The requests that are too old, among those not yet looked at. */
  ghost function TooOld(st: State, todo: set<int>, now: int): set<int> {
    set c | c in st.pending && c !in todo && st.pending[c].begin + TIMEOUT <= now
  }

  lemma SettleLoadCount(st: State, c: int, reply: Reply)
    requires c in st.pending
    ensures |Settle(st, c, reply).loads| == |st.loads|
  {
  }

  lemma {:induction false} ExpireAllPending(st: State, cs: seq<int>)
    ensures var st' := ExpireAll(st, cs);
            st'.pending == st.pending - (set c <- cs) && |st'.loads| == |st.loads|
  {
    if cs != [] {
      var init, c := cs[..|cs| - 1], cs[|cs| - 1];
      ExpireAllPending(st, init);
      var st' := ExpireAll(st, init);
      assert (set d <- cs) == (set d <- init) + {c} by { assert cs == init + [c]; }
      if c in st'.pending {
        AnswerRequests(Removed(st', c), st'.pending[c].target, TIMED_OUT);
        SettleLoadCount(st', c, TIMED_OUT);
      } else {
        assert st.pending - (set d <- init) - {c} == st.pending - (set d <- init);
      }
    }
  }

  /** After a tick at or past the time limit of its reads, a load has been called
      back, whatever came in and whatever did not. */
  lemma LoadByTick(st: State, cs: seq<int>, now: int, n: nat)
    requires Inv(st) && n < |st.loads|
    requires forall c <- st.pending :: st.pending[c].begin + TIMEOUT <= now ==> c in cs
    requires forall c <- st.pending ::
               st.pending[c].target.Part? && st.pending[c].target.load == n ==> st.pending[c].begin + TIMEOUT <= now
    ensures var st' := ExpireAll(st, cs);
            n < |st'.loads| && exists i :: 0 <= i < |st'.calls| && st'.calls[i] == Call(n, st'.loads[n].failed)
                                           && forall j :: 0 <= j < |st'.calls| && st'.calls[j].load == n ==> j == i
  {
    ExpireAllInv(st, cs);
    ExpireAllPending(st, cs);
    LoadAnswered(ExpireAll(st, cs), n);
  }
}
