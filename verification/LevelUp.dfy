/** Levels and experience (`is_level_up` and `try_level_up` of
    scripts/server/daemons/userd.lua). */
module LevelUp {

  /** The experience that each level asks for. */
  type Table = map<int, nat>

  datatype User = User(lv: int, exp: nat)

  ghost function LevelsFrom(t: Table, lv: int): set<int> {
    set l | l in t && l >= lv
  }

  lemma FewerLevels(t: Table, lv: int)
    requires lv in t
    ensures |LevelsFrom(t, lv + 1)| < |LevelsFrom(t, lv)|
  {
    assert LevelsFrom(t, lv) == LevelsFrom(t, lv + 1) + {lv};
  }

  /** As many levels up as the experience pays for; past the last level of the
      table all that is left of it is lost. */
  ghost function Raised(t: Table, u: User): User
    decreases |LevelsFrom(t, u.lv)|
  {
    if u.lv !in t || u.exp < t[u.lv] then u
    else
      FewerLevels(t, u.lv);
      if u.lv + 1 !in t then User(u.lv + 1, 0) else Raised(t, User(u.lv + 1, u.exp - t[u.lv]))
  }

  /** What a call makes of a player: the levels that the experience pays for, cut
      to the highest level there may be. */
  ghost function Leveled(t: Table, u: User, maxLv: int): User {
    if u.lv !in t || u.exp < t[u.lv] then u
    else
      var v := Raised(t, u);
      User(if v.lv > maxLv then maxLv else v.lv, v.exp)
  }

  class Player {
    var lv: int
    var exp: nat

    ghost function State(): User
      reads this
    {
      User(lv, exp)
    }

    method TryLevelUp(t: Table, maxLv: int) returns (up: bool)
      modifies this
      ensures up == (old(lv) in t && old(exp) >= t[old(lv)])
      ensures State() == Leveled(t, old(State()), maxLv)
    {
      if lv !in t || exp < t[lv] { return false; }
      var rest, curLv := exp, lv;
      while rest >= t[curLv]
        invariant curLv in t && Raised(t, User(curLv, rest)) == Raised(t, old(State()))
        decreases |LevelsFrom(t, curLv)|
      {
        FewerLevels(t, curLv);
        rest := rest - t[curLv];
        curLv := curLv + 1;
        if curLv !in t {
          rest := 0;
          break;
        }
      }
      if curLv > maxLv {
        curLv := maxLv;
      }
      lv, exp := curLv, rest;
      up := true;
    }
  }

  /** The first level from lv on that the table does not have. */
  ghost function End(t: Table, lv: int): (e: int)
    ensures lv <= e && e !in t && forall l :: lv <= l < e ==> l in t
    decreases |LevelsFrom(t, lv)|
  {
    if lv !in t then lv
    else
      FewerLevels(t, lv);
      End(t, lv + 1)
  }

  /** What the levels from one up to another ask for. */
  ghost function Spent(t: Table, a: int, b: int): nat
    requires forall l :: a <= l < b ==> l in t
    decreases b - a
  {
    if a >= b then 0 else t[a] + Spent(t, a + 1, b)
  }

  /** Nothing is left to be raised, and below the end of the table the experience
      that is gone is what the levels passed ask for. */
  lemma {:induction false} RaisedSettles(t: Table, u: User)
    ensures var v := Raised(t, u);
            && Raised(t, v) == v && u.lv <= v.lv
            && (forall l :: u.lv <= l < v.lv ==> l in t)
            && (v.lv in t ==> u.exp == v.exp + Spent(t, u.lv, v.lv))
    decreases |LevelsFrom(t, u.lv)|
  {
    if u.lv in t && u.exp >= t[u.lv] && u.lv + 1 in t {
      FewerLevels(t, u.lv);
      RaisedSettles(t, User(u.lv + 1, u.exp - t[u.lv]));
    }
  }

  /** A player ends up within the table, and there not above level m, exactly when
      his experience does not pay for more. */
  lemma {:induction false} PaysFor(t: Table, u: User, m: int)
    requires u.lv in t && u.lv <= m
    ensures Raised(t, u).lv in t <==> u.exp < Spent(t, u.lv, End(t, u.lv))
    ensures Raised(t, u).lv !in t ==> Raised(t, u) == User(End(t, u.lv), 0)
    ensures Raised(t, u).lv <= m <==> m >= End(t, u.lv) || u.exp < Spent(t, u.lv, m + 1)
    decreases |LevelsFrom(t, u.lv)|
  {
    FewerLevels(t, u.lv);
    assert End(t, u.lv) == End(t, u.lv + 1);
    if u.exp >= t[u.lv] && u.lv + 1 in t {
      var w := User(u.lv + 1, u.exp - t[u.lv]);
      if m > u.lv {
        PaysFor(t, w, m);
      } else {
        PaysFor(t, w, w.lv);
        RaisedSettles(t, w);
      }
    }
  }

  lemma {:induction false} RaisedTwice(t: Table, u: User, b: nat)
    requires u.lv in t
    ensures var v := Raised(t, u);
            Raised(t, User(v.lv, v.exp + b)) == Raised(t, User(u.lv, u.exp + b)) <==> v.lv in t || b == 0
    decreases |LevelsFrom(t, u.lv)|
  {
    if u.exp >= t[u.lv] && u.lv + 1 in t {
      FewerLevels(t, u.lv);
      RaisedTwice(t, User(u.lv + 1, u.exp - t[u.lv]), b);
    }
  }

  /** The experience pays for the levels up to e, which is above m, and not for e
      itself. */
  ghost predicate LeavesAt(t: Table, u: User, m: int, e: int) {
    m < e < End(t, u.lv) && Spent(t, u.lv, e) <= u.exp < Spent(t, u.lv, e + 1)
  }

  lemma {:induction false} SpentMore(t: Table, a: int, b: int, c: int)
    requires a <= b <= c && forall l :: a <= l < c ==> l in t
    ensures Spent(t, a, c) == Spent(t, a, b) + Spent(t, b, c)
    decreases b - a
  {
    if a < b {
      SpentMore(t, a + 1, b, c);
    }
  }

  /** Where a player ends up within the table, and with what. */
  lemma EndsAt(t: Table, u: User, e: int)
    requires u.lv in t && u.lv <= e < End(t, u.lv)
    ensures Raised(t, u).lv == e <==> Spent(t, u.lv, e) <= u.exp < Spent(t, u.lv, e + 1)
    ensures Raised(t, u).lv == e ==> Raised(t, u).exp == u.exp - Spent(t, u.lv, e)
  {
    RaisedSettles(t, u);
    PaysFor(t, u, e);
    if e > u.lv {
      PaysFor(t, u, e - 1);
    }
  }

  lemma InTableBelowEnd(t: Table, a: int, e: int)
    requires a <= e && e in t && forall l :: a <= l < e ==> l in t
    ensures e < End(t, a)
  {
  }

  /** When the levels paid for end above level m, what is left is less than level
      m asks for exactly when that holds at the level where they end. */
  lemma LeftBelow(t: Table, u: User, m: int)
    requires u.lv in t && u.lv <= m && Raised(t, u).lv > m && m in t && t[m] > 0
    ensures Raised(t, u).exp < t[m] <==> forall e :: LeavesAt(t, u, m, e) ==> u.exp - Spent(t, u.lv, e) < t[m]
  {
    var v := Raised(t, u);
    RaisedSettles(t, u);
    PaysFor(t, u, m);
    if v.lv in t {
      InTableBelowEnd(t, u.lv, v.lv);
      EndsAt(t, u, v.lv);
      assert LeavesAt(t, u, m, v.lv);
    }
    forall e | LeavesAt(t, u, m, e) ensures e == v.lv && v.exp == u.exp - Spent(t, u.lv, e) {
      EndsAt(t, u, e);
    }
  }

  lemma {:induction false} LeavesNoMore(t: Table, u: User)
    ensures Raised(t, u).exp <= u.exp
    decreases |LevelsFrom(t, u.lv)|
  {
    if u.lv in t && u.exp >= t[u.lv] && u.lv + 1 in t {
      FewerLevels(t, u.lv);
      LeavesNoMore(t, User(u.lv + 1, u.exp - t[u.lv]));
    }
  }

  lemma SpendsSome(t: Table, u: User)
    requires u.lv in t && u.exp >= t[u.lv] > 0
    ensures Raised(t, u).exp < u.exp
  {
    FewerLevels(t, u.lv);
    RaisedSettles(t, User(u.lv + 1, u.exp - t[u.lv]));
    LeavesNoMore(t, User(u.lv + 1, u.exp - t[u.lv]));
  }

  /** Starting where a call stopped, the next one changes nothing exactly when the
      level was not cut or what is left does not pay for the highest level. */
  lemma CallSettles(t: Table, u: User, m: int)
    requires u.lv in t && u.lv <= m && (m in t ==> t[m] > 0)
    ensures Leveled(t, Leveled(t, u, m), m) == Leveled(t, u, m) <==>
            Raised(t, u).lv <= m || (m in t ==> Raised(t, u).exp < t[m])
  {
    var v := Raised(t, u);
    RaisedSettles(t, u);
    if v.lv > m && v.exp >= t[m] {
      SpendsSome(t, User(m, v.exp));
    }
  }

  /** A second call changes nothing exactly when the experience does not pay for
      more than the highest level, or when what it leaves beyond that does not pay
      for the highest level again. */
  lemma SettledWhen(t: Table, u: User, m: int)
    requires u.lv in t && u.lv <= m && (m in t ==> t[m] > 0)
    ensures Leveled(t, Leveled(t, u, m), m) == Leveled(t, u, m) <==>
            || m >= End(t, u.lv)
            || u.exp < Spent(t, u.lv, m + 1)
            || forall e :: LeavesAt(t, u, m, e) ==> u.exp - Spent(t, u.lv, e) < t[m]
  {
    CallSettles(t, u, m);
    PaysFor(t, u, m);
    if Raised(t, u).lv > m {
      RaisedSettles(t, u);
      LeftBelow(t, u, m);
    }
  }

  /** The experience that a level leaves of an amount. */
  ghost function Left(t: Table, lv: int, exp: nat): nat { Raised(t, User(lv, exp)).exp }

  lemma WithinCap(t: Table, u: User, b: nat, m: int)
    requires u.lv in t && u.lv <= m && Raised(t, u).lv <= m
    ensures var v := Leveled(t, u, m);
            Leveled(t, User(v.lv, v.exp + b), m) == Leveled(t, User(u.lv, u.exp + b), m) <==>
            Raised(t, u).lv in t || b == 0
  {
    RaisedTwice(t, u, b);
    RaisedSettles(t, u);
    assert Leveled(t, u, m) == Raised(t, u);
    RaisedSettles(t, User(u.lv, u.exp + b));
  }

  /** A gain on top of what pays for a level starts from that level. */
  lemma {:induction false} MoreFrom(t: Table, u: User, b: nat)
    requires u.lv in t
    ensures var v := Raised(t, u); var w := Raised(t, User(u.lv, u.exp + b));
            w.lv >= v.lv && if v.lv in t then w == Raised(t, User(v.lv, v.exp + b)) else w == User(v.lv, 0)
    decreases |LevelsFrom(t, u.lv)|
  {
    if u.exp >= t[u.lv] {
      if u.lv + 1 in t {
        FewerLevels(t, u.lv);
        MoreFrom(t, User(u.lv + 1, u.exp - t[u.lv]), b);
      }
    } else {
      RaisedSettles(t, User(u.lv, u.exp + b));
    }
  }

  lemma PastCap(t: Table, u: User, b: nat, m: int)
    requires u.lv in t && u.lv <= m < Raised(t, u).lv
    ensures var v := Leveled(t, u, m); var top := Raised(t, u).lv;
            Leveled(t, User(v.lv, v.exp + b), m) == Leveled(t, User(u.lv, u.exp + b), m) <==>
            Left(t, m, v.exp + b) == if top in t then Left(t, top, v.exp + b) else 0
  {
    RaisedSettles(t, u);
    MoreFrom(t, u, b);
    var v := Leveled(t, u, m);
    RaisedSettles(t, User(m, v.exp + b));
  }

  /** Gaining in two steps, with a call after each, against gaining all at once.
      As long as the first step does not pay for more than the highest level, they
      come to the same exactly when it does not pay for the whole table or the
      second gains nothing. Otherwise what is left after the first step is spent
      from the highest level on instead of from the level paid for, and they come
      to the same exactly when that leaves as much. */
  lemma InTwoSteps(t: Table, u: User, b: nat, maxLv: int)
    requires u.lv in t && u.lv <= maxLv
    ensures var v := Leveled(t, u, maxLv); var top := Raised(t, u).lv;
            Leveled(t, User(v.lv, v.exp + b), maxLv) == Leveled(t, User(u.lv, u.exp + b), maxLv) <==>
            if maxLv >= End(t, u.lv) || u.exp < Spent(t, u.lv, maxLv + 1)
            then u.exp < Spent(t, u.lv, End(t, u.lv)) || b == 0
            else Left(t, maxLv, v.exp + b) == if top in t then Left(t, top, v.exp + b) else 0
  {
    PaysFor(t, u, maxLv);
    if Raised(t, u).lv <= maxLv {
      WithinCap(t, u, b, maxLv);
    } else {
      PastCap(t, u, b, maxLv);
    }
  }

  /** Gained in one step, experience at the end of the table is lost; gained after
      it, it stays. */
  lemma TopLosesGain()
    ensures var t: Table := map[1 := 10];
            Leveled(t, User(1, 10), 9) == User(2, 0) && Leveled(t, User(2, 5), 9) == User(2, 5)
              && Leveled(t, User(1, 15), 9) == User(2, 0)
  {
    var t: Table := map[1 := 10];
    assert Raised(t, User(1, 10)) == User(2, 0);
    assert Raised(t, User(1, 15)) == User(2, 0);
  }

  /** Past the highest level the level is cut but the experience is spent, and the
      next call spends more: at most level one, thirty leave twenty, then ten, then
      none, and that stays. */
  lemma CapSpendsGain()
    ensures var t: Table := map[1 := 10, 2 := 30];
            && Leveled(t, User(1, 30), 1) == User(1, 20) && Leveled(t, User(1, 20), 1) == User(1, 10)
            && Leveled(t, User(1, 10), 1) == User(1, 0) && Leveled(t, User(1, 0), 1) == User(1, 0)
  {
    var t: Table := map[1 := 10, 2 := 30];
    assert Raised(t, User(2, 20)) == User(2, 20);
    assert Raised(t, User(2, 10)) == User(2, 10);
    assert Raised(t, User(2, 0)) == User(2, 0);
    assert Raised(t, User(1, 30)) == User(2, 20);
    assert Raised(t, User(1, 20)) == User(2, 10);
    assert Raised(t, User(1, 10)) == User(2, 0);
  }
}
