/** The tables of dbd.lua, user_dbd.lua and global_cookie.lua as an object. Every
    method is proved to take the step that DbRequests describes. */
module DbServices {
  import opened Wrappers
  import opened DbRequests
  import UserLoads

  lemma InGone(gone: seq<int>, s: set<int>, k: int)
    requires (set c <- gone) == s
    ensures k in gone <==> k in s
  {
    assert k in gone <==> k in (set c <- gone);
  }

  /** All open reads of the load are too old. */
  ghost predicate AllOld(pending: map<int, Request>, n: nat, now: int) {
    forall c <- pending :: pending[c].target.Part? && pending[c].target.load == n ==> pending[c].begin + TIMEOUT <= now
  }

  ghost predicate CalledOnce(calls: seq<Call>, n: nat, failed: bool) {
    exists i :: 0 <= i < |calls| && calls[i] == Call(n, failed)
      && forall j :: 0 <= j < |calls| && calls[j].load == n ==> j == i
  }

  /** `sCookie` is the counter of `new_cookie`, `pending` the cookie map of DB_D,
      `waiting` that of USER_DBD and `loads` the data tables the reads share.
      `made`, `issued`, `fired` and `calls` record what has happened. */
  class DbService {
    var sCookie: int
    var pending: map<int, Request>
    var waiting: map<int, nat>
    var loads: seq<LoadData>
    var made: nat
    var issued: set<nat>
    var fired: seq<nat>
    var calls: seq<Call>

    ghost predicate Valid()
      reads this
    {
      sCookie == Cookie(made)
    }

    ghost function St(): State
      reads this
    {
      State(made, pending, issued, fired, loads, waiting, calls)
    }

    constructor ()
      ensures Valid() && St() == FRESH
    {
      sCookie, pending, waiting, loads := 0, map[], map[], [];
      made, issued, fired, calls := 0, {}, [], [];
    }

    method MakeCookie() returns (c: int)
      requires Valid()
      modifies `sCookie, `made
      ensures Valid() && made == old(made) + 1 && c == Cookie(made)
    {
      sCookie := (sCookie + 1) % 0x1_0000_0000;
      sCookie := if sCookie == 0 then 1 else sCookie;
      made := made + 1;
      c := sCookie;
    }

    method Read(target: Target, now: int)
      requires Valid()
      modifies `sCookie, `made, `pending, `issued
      ensures Valid() && St() == ReadDb(old(St()), target, now)
    {
      var cookie := MakeCookie();
      pending := pending[cookie := Request(made, target, now)];
      issued := issued + {made};
    }

    method LoadDataFromDb(times: seq<int>)
      requires Valid() && |times| == 4
      modifies this
      ensures Valid() && St() == StartLoad(old(St()), times)
    {
      var n := |loads|;
      var cookie := MakeCookie();
      loads := loads + [LoadData(made, 4, false, {})];
      waiting := waiting[cookie := n];
      ghost var st := St();
      var i := 0;
      while i < 4
        invariant i <= 4 && Valid() && St() == ReadParts(st, n, times[..i])
      {
        Read(Part(n, i), times[i]);
        i := i + 1;
        assert times[..i][..i - 1] == times[..i - 1];
      }
      assert times[..4] == times;
    }

    method Finish(n: nat)
      requires n < |loads|
      modifies `waiting, `calls
      ensures St() == CheckFinish(old(St()), n)
    {
      var data := loads[n];
      if !data.failed && data.readNum > 0 { return; }
      var cookie := Cookie(data.serial);
      if cookie !in waiting { return; }
      var record := waiting[cookie];
      waiting := waiting - {cookie};
      calls := calls + [Call(record, data.failed)];
    }

    method PartCallback(n: nat, part: int, reply: Reply)
      requires n < |loads|
      modifies `loads, `waiting, `calls
      ensures St() == Answer(old(St()), Part(n, part), reply)
    {
      var data := loads[n];
      data := data.(readNum := data.readNum - 1);
      if part == 0 {
        if reply.rows == None || reply.rows.value == 0 {
          data := data.(failed := true);
        } else {
          data := data.(got := data.got + {part});
        }
      } else if reply.rows == None || reply.ret != 0 {
        data := data.(failed := true);
      } else {
        data := data.(got := data.got + {part});
      }
      loads := loads[n := data];
      Finish(n);
    }

    method Callback(target: Target, reply: Reply)
      modifies `loads, `waiting, `calls
      ensures St() == Answer(old(St()), target, reply)
    {
      if target.Part? && target.load < |loads| {
        PartCallback(target.load, target.part, reply);
      }
    }

    method NotifyOperationResult(cookie: int, reply: Reply)
      modifies `pending, `fired, `loads, `waiting, `calls
      ensures St() == Notify(old(St()), cookie, reply)
    {
      if cookie !in pending { return; }
      var oper := pending[cookie];
      pending := pending - {cookie};
      fired := fired + [oper.serial];
      Callback(oper.target, reply);
    }

    /** One request is looked at; the table may give them in any order. */
    method TimerStep(k: int, todo: set<int>, now: int, ghost st: State, ghost gone: seq<int>)
      returns (ghost gone': seq<int>)
      requires k in todo && todo <= st.pending.Keys
      requires St() == UserLoads.ExpireAll(st, gone) && (set c <- gone) == UserLoads.TooOld(st, todo, now)
      modifies `pending, `fired, `loads, `waiting, `calls
      ensures St() == UserLoads.ExpireAll(st, gone') && (set c <- gone') == UserLoads.TooOld(st, todo - {k}, now)
    {
      UserLoads.ExpireAllPending(st, gone);
      InGone(gone, UserLoads.TooOld(st, todo, now), k);
      gone' := gone;
      if pending[k].begin + TIMEOUT <= now {
        UserLoads.ExpireMore(st, gone, k);
        gone' := gone + [k];
        NotifyOperationResult(k, TIMED_OUT);
      }
    }

    /** Lets the requests that are too old time out: exactly these are off the
        list afterwards. */
    method TimerLoop(now: int) returns (ghost gone: seq<int>)
      modifies `pending, `fired, `loads, `waiting, `calls
      ensures St() == UserLoads.ExpireAll(old(St()), gone)
      ensures (set c <- gone) == UserLoads.TooOld(old(St()), {}, now)
      ensures pending == old(pending) - UserLoads.TooOld(old(St()), {}, now)
    {
      ghost var st := St();
      gone := [];
      var todo := pending.Keys;
      while todo != {}
        invariant todo <= st.pending.Keys
        invariant St() == UserLoads.ExpireAll(st, gone)
        invariant (set c <- gone) == UserLoads.TooOld(st, todo, now)
        decreases |todo|
      {
        assert (forall k :: k !in todo) ==> todo == {};
        var k :| k in todo;
        gone := TimerStep(k, todo, now, st, gone);
        todo := todo - {k};
      }
      UserLoads.ExpireAllPending(st, gone);
    }

    /** After a tick no request is older than the limit, and a load whose open
        reads all were has been called back, once. */
    method TimerHandle(now: int)
      requires UserLoads.Inv(St())
      modifies `pending, `fired, `loads, `waiting, `calls
      ensures UserLoads.Inv(St())
      ensures pending == map c <- old(pending) | now < old(pending)[c].begin + TIMEOUT :: old(pending)[c]
      ensures |loads| == |old(loads)|
      ensures forall n: nat :: n < |loads| && AllOld(old(pending), n, now) ==> CalledOnce(calls, n, loads[n].failed)
    {
      ghost var st := St();
      ghost var gone := TimerLoop(now);
      UserLoads.ExpireAllInv(st, gone);
      UserLoads.ExpireAllPending(st, gone);
      forall c <- st.pending ensures st.pending[c].begin + TIMEOUT <= now ==> c in gone {
        assert c in UserLoads.TooOld(st, {}, now) ==> c in (set d <- gone);
      }
      forall n: nat | n < |loads| && AllOld(old(pending), n, now) ensures CalledOnce(calls, n, loads[n].failed) {
        UserLoads.LoadByTick(st, gone, now, n);
      }
    }
  }
}
