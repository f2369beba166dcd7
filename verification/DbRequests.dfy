/** Database requests that are answered later (scripts/server/daemons/dbd.lua) and
    the load of a player that waits for four of them (user_dbd.lua), as steps in
    any order: a request is made, a result comes in, a request times out. */
module DbRequests {
  import opened Wrappers

  const TIMEOUT := 15
  const PERIOD := 0xffff_ffff

  // ----- Cookies -----

  /** One more, within 32 bits and never zero. */
  function NextCookie(c: int): int {
    var n := (c + 1) % 0x1_0000_0000;
    if n == 0 then 1 else n
  }

  /** The k-th cookie that is made. */
  function Cookie(k: nat): int {
    if k == 0 then 0 else NextCookie(Cookie(k - 1))
  }

  lemma NextWithin(c: int)
    requires 1 <= c <= PERIOD
    ensures NextCookie(c) == if c == PERIOD then 1 else c + 1
  {
  }

  lemma {:induction false} CookieRange(k: nat)
    requires k >= 1
    ensures 1 <= Cookie(k) <= PERIOD
  {
    if k > 1 {
      CookieRange(k - 1);
      NextWithin(Cookie(k - 1));
    }
  }

  lemma {:induction false} CookieAfter(k: nat, i: nat)
    requires k >= 1 && i <= PERIOD
    ensures Cookie(k + i) == if Cookie(k) + i <= PERIOD then Cookie(k) + i else Cookie(k) + i - PERIOD
  {
    CookieRange(k);
    if i > 0 {
      CookieAfter(k, i - 1);
      NextWithin(Cookie(k + i - 1));
    }
  }

  /** A cookie comes back after 2^32 - 1 of them and no sooner. */
  lemma SameCookie(j: nat, k: nat)
    requires 1 <= j < k <= j + PERIOD
    ensures Cookie(j) == Cookie(k) <==> k == j + PERIOD
  {
    CookieRange(j);
    CookieAfter(j, k - j);
  }

  // ----- The state -----

  /** Whose callback a request has: that of one of the four parts of a load, or
      some other. */
  datatype Target = Part(load: nat, part: int) | Other

  datatype Request = Request(serial: nat, target: Target, begin: int)

  /** The return code, and the number of rows if there is a result table. */
  datatype Reply = Reply(ret: int, rows: Option<nat>)

  /** `got` holds the parts whose reads succeeded. An empty table counts as success
      for all but the user, though the row of `ddz_info` is then nil. */
  datatype LoadData = LoadData(serial: nat, readNum: int, failed: bool, got: set<int>)

  /** The callback of a load is called. */
  datatype Call = Call(load: nat, failed: bool)

  /** `made` counts cookies; a request's serial is the count at which its cookie
      was made. `fired` lists the requests whose callbacks have been called. */
  datatype State = State(made: nat, pending: map<int, Request>, issued: set<nat>, fired: seq<nat>,
                         loads: seq<LoadData>, waiting: map<int, nat>, calls: seq<Call>)

  const FRESH := State(0, map[], {}, [], [], map[], [])

  function ReadDb(st: State, target: Target, now: int): State {
    var k := st.made + 1;
    st.(made := k, pending := st.pending[Cookie(k) := Request(k, target, now)], issued := st.issued + {k})
  }

  function ReadParts(st: State, n: nat, times: seq<int>): State {
    if times == [] then st
    else ReadDb(ReadParts(st, n, times[..|times| - 1]), Part(n, |times| - 1), times[|times| - 1])
  }

  function NewLoad(st: State): State {
    var k := st.made + 1;
    st.(made := k, loads := st.loads + [LoadData(k, 4, false, {})], waiting := st.waiting[Cookie(k) := |st.loads|])
  }

  /** The four reads of a load go out one after the other. */
  function StartLoad(st: State, times: seq<int>): State {
    ReadParts(NewLoad(st), |st.loads|, times)
  }

  /** The user row must be there; the other three only need an answer that is not
      an error. The user read does not look at the return code. */
  predicate PartOk(part: int, reply: Reply) {
    if part == 0 then reply.rows.Some? && reply.rows.value > 0 else reply.rows.Some? && reply.ret == 0
  }

  function CheckFinish(st: State, n: nat): State
    requires n < |st.loads|
  {
    var d := st.loads[n];
    var c := Cookie(d.serial);
    if (!d.failed && d.readNum > 0) || c !in st.waiting then st
    else st.(waiting := st.waiting - {c}, calls := st.calls + [Call(st.waiting[c], d.failed)])
  }

  function PartAnswered(d: LoadData, part: int, reply: Reply): LoadData {
    if PartOk(part, reply) then d.(readNum := d.readNum - 1, got := d.got + {part})
    else d.(readNum := d.readNum - 1, failed := true)
  }

  function Answer(st: State, target: Target, reply: Reply): State {
    match target
    case Other => st
    case Part(n, part) =>
      if n >= |st.loads| then st
      else CheckFinish(st.(loads := st.loads[n := PartAnswered(st.loads[n], part, reply)]), n)
  }

  function Removed(st: State, c: int): State
    requires c in st.pending
  {
    st.(pending := st.pending - {c}, fired := st.fired + [st.pending[c].serial])
  }

  /** A request is taken off the list and its callback is called. */
  function Settle(st: State, c: int, reply: Reply): State
    requires c in st.pending
  {
    Answer(Removed(st, c), st.pending[c].target, reply)
  }

  /** A result for a request that is not on the list is ignored. */
  function Notify(st: State, c: int, reply: Reply): State {
    if c in st.pending then Settle(st, c, reply) else st
  }

  predicate Due(st: State, c: int, now: int) {
    c in st.pending && st.pending[c].begin + TIMEOUT <= now
  }

  const TIMED_OUT := Reply(-2, None)

  datatype Event =
    | Loads(times: seq<int>)
    | Reads(now: int)
    | Result(cookie: int, reply: Reply)
    | TimeOut(cookie: int, now: int)

  predicate Enabled(st: State, e: Event) {
    match e
    case Loads(times) => |times| == 4
    case TimeOut(c, now) => Due(st, c, now)
    case _ => true
  }

  function Next(st: State, e: Event): State
    requires Enabled(st, e)
  {
    match e
    case Loads(times) => StartLoad(st, times)
    case Reads(now) => ReadDb(st, Other, now)
    case Result(c, reply) => Notify(st, c, reply)
    case TimeOut(c, now) => Settle(st, c, TIMED_OUT)
  }

  // ----- Every callback at most once -----

  predicate Waits(st: State, k: nat) {
    Cookie(k) in st.pending && st.pending[Cookie(k)].serial == k
  }

  predicate RequestOk(st: State, c: int)
    requires c in st.pending
  {
    var k := st.pending[c].serial;
    k in st.issued && Cookie(k) == c && k !in st.fired
  }

  /** Every request that was made either waits or has been answered, once. */
  ghost predicate EachOnce(st: State) {
    && (forall c <- st.pending :: RequestOk(st, c))
    && (forall k <- st.issued :: 1 <= k <= st.made && (k in st.fired || Waits(st, k)))
    && (forall i :: 0 <= i < |st.fired| ==> st.fired[i] in st.issued)
    && (forall i, j :: 0 <= i < j < |st.fired| ==> st.fired[i] != st.fired[j])
  }

  /** A new request keeps this exactly when no request waits under its cookie:
      otherwise the one that does is never answered. */
  lemma ReadDbEachOnce(st: State, target: Target, now: int)
    requires EachOnce(st)
    ensures EachOnce(ReadDb(st, target, now)) <==> Cookie(st.made + 1) !in st.pending
  {
    var k := st.made + 1;
    var c := Cookie(k);
    var st' := ReadDb(st, target, now);
    if c in st.pending {
      var lost := st.pending[c].serial;
      assert RequestOk(st, c);
      assert lost in st'.issued && lost !in st'.fired && !Waits(st', lost);
    } else {
      assert k !in st.issued;
      forall d <- st'.pending ensures RequestOk(st', d) {
        if d != c { assert RequestOk(st, d); }
      }
      forall j <- st'.issued ensures 1 <= j <= st'.made && (j in st'.fired || Waits(st', j)) {
      }
    }
  }

  lemma AnswerRequests(st: State, target: Target, reply: Reply)
    ensures var st' := Answer(st, target, reply);
            st'.made == st.made && st'.pending == st.pending && st'.issued == st.issued && st'.fired == st.fired
  {
  }

  lemma RemovedEachOnce(st: State, c: int)
    requires EachOnce(st) && c in st.pending
    ensures EachOnce(Removed(st, c)) && st.pending[c].serial !in st.fired
  {
    var st' := Removed(st, c);
    var k := st.pending[c].serial;
    assert RequestOk(st, c);
    assert st'.fired[|st.fired|] == k;
    forall d <- st'.pending ensures RequestOk(st', d) {
      assert RequestOk(st, d);
      assert d != c && st.pending[d].serial != k;
    }
    forall j <- st'.issued ensures j in st'.fired || Waits(st', j) {
      if j in st.fired {
        var i :| 0 <= i < |st.fired| && st.fired[i] == j;
        assert st'.fired[i] == j;
      }
    }
  }

  lemma SettleEachOnce(st: State, c: int, reply: Reply)
    requires EachOnce(st) && c in st.pending
    ensures EachOnce(Settle(st, c, reply))
  {
    RemovedEachOnce(st, c);
    AnswerRequests(Removed(st, c), st.pending[c].target, reply);
  }

  // ----- When cookies come round -----

  /** That many reads, none of them answered. */
  ghost function ManyReads(n: nat): State {
    if n == 0 then FRESH else ReadDb(ManyReads(n - 1), Other, 0)
  }

  /** As long as there are cookies, every one of them waits for its answer. */
  lemma {:induction false} ManyReadsWait(n: nat)
    requires n <= PERIOD
    ensures ManyReads(n).made == n && EachOnce(ManyReads(n)) && ManyReads(n).fired == []
    ensures forall k :: 1 <= k <= n ==> k in ManyReads(n).issued
  {
    if n > 0 {
      ManyReadsWait(n - 1);
      var st := ManyReads(n - 1);
      var c := Cookie(n);
      if c in st.pending {
        assert RequestOk(st, c);
        SameCookie(st.pending[c].serial, n);
      }
      ReadDbEachOnce(st, Other, 0);
    }
  }

  /** With a request waiting under every cookie, the next one takes that of the
      first, which is never answered. */
  lemma OneReadTooMany(n: nat)
    requires n == PERIOD
    ensures EachOnce(ManyReads(n)) && !EachOnce(ReadDb(ManyReads(n), Other, 0))
    ensures var st := ReadDb(ManyReads(n), Other, 0); 1 in st.issued && 1 !in st.fired && !Waits(st, 1)
  {
    ManyReadsWait(n);
    SameCookie(1, n + 1);
    var st := ManyReads(n);
    assert 1 in st.issued && Waits(st, 1);
    ReadDbEachOnce(st, Other, 0);
  }
}
