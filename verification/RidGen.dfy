/** The generator of unique ids in src/lua_custom/lua_util.rs: a clock that may
    run backwards, a sequence number, and 18 characters of five bits each. */
module RidGen {

  const ENCODE_MAP := "0123456789ACDEFGHJKLMNPQRSTUWXYZ"
  const EPOCH := 1639497600
  const WINDOW := 0x100_0000_0000
  const U64 := 0x1_0000_0000_0000_0000

  type Digit = d: int | 0 <= d < 32

  function Encode(d: Digit): char { ENCODE_MAP[d] }

  lemma {:induction false} NextAscends(d: Digit, e: Digit)
    requires d < e
    ensures ENCODE_MAP[d] < ENCODE_MAP[e]
    decreases e - d
  {
    if d + 1 < e {
      NextAscends(d + 1, e);
    }
  }

  lemma EncodeAscends(d: Digit, e: Digit)
    requires d < e
    ensures Encode(d) < Encode(e)
  {
    NextAscends(d, e);
  }

  // ----- The clock and the sequence -----

  /** The time of the last id and its number within that time. */
  datatype Stamp = Stamp(time: int, sequence: nat)

  /** `x & 0x8FFF` for x of at most 16 bits: bits 12, 13 and 14 are cleared. */
  function Masked(x: nat): nat {
    x / 0x8000 % 2 * 0x8000 + x % 0x1000
  }

  predicate Valid(s: Stamp) {
    s.sequence <= 0xFFF
  }

  /** The stamp of the next id: the clock if it has moved on, and otherwise the
      next number, with the time moved on by one when the numbers run out. */
  function Next(s: Stamp, now: int): Stamp {
    var sequence := Masked(s.sequence + 1);
    var time := if sequence == 0 then s.time + 1 else s.time;
    if now > time then Stamp(now, 0) else Stamp(time, sequence)
  }

  predicate Before(s: Stamp, t: Stamp) {
    s.time < t.time || (s.time == t.time && s.sequence < t.sequence)
  }

  /** Whatever the clock says, the next stamp is a later one; and of the fifteen
      bits kept for the sequence only the lower twelve are ever used. */
  lemma NextIsLater(s: Stamp, now: int)
    requires Valid(s)
    ensures Valid(Next(s, now)) && Before(s, Next(s, now)) && Next(s, now).time >= now
  {
    assert Masked(s.sequence + 1) == if s.sequence == 0xFFF then 0 else s.sequence + 1;
  }

  /** The stamps along a run, the first one being that of the start. */
  ghost predicate Run(stamps: seq<Stamp>, clock: seq<int>) {
    && |stamps| == |clock| + 1
    && stamps[0] == Stamp(0, 0)
    && forall i :: 0 <= i < |clock| ==> stamps[i + 1] == Next(stamps[i], clock[i])
  }

  lemma {:induction false} RunAscends(stamps: seq<Stamp>, clock: seq<int>, i: nat, j: nat)
    requires Run(stamps, clock) && i <= j < |stamps|
    ensures Valid(stamps[i]) && Valid(stamps[j]) && (i < j ==> Before(stamps[i], stamps[j]))
    decreases j
  {
    if i < j {
      RunAscends(stamps, clock, i, j - 1);
      NextIsLater(stamps[j - 1], clock[j - 1]);
    } else if j > 0 {
      RunAscends(stamps, clock, j - 1, j - 1);
      NextIsLater(stamps[j - 1], clock[j - 1]);
    }
  }

  // ----- Eighteen characters -----

  /** k digits of five bits for the lower 5k bits of a number. */
  function Digits(v: nat, k: nat): (s: seq<Digit>)
    ensures |s| == k
  {
    if k == 0 then [] else Digits(v / 32, k - 1) + [v % 32]
  }

  /** A character for every digit. */
  function Encoded(s: seq<Digit>): (r: string)
    ensures |r| == |s|
  {
    seq(|s|, i requires 0 <= i < |s| => Encode(s[i]))
  }

  function Pow32(k: nat): (p: nat)
    ensures p > 0
  {
    if k == 0 then 1 else 32 * Pow32(k - 1)
  }

  /** Milliseconds since the epoch as the source subtracts them, in 64 bits. */
  function Offset(time: int): nat {
    (time - EPOCH) % U64
  }

  /** The four parts, with so many digits for the time, for the server, and
      for the flag and the sequence each. */
  function Joined(time: nat, server: nat, flag: nat, sequence: nat, a: nat, b: nat, c: nat): (r: seq<Digit>)
    ensures |r| == a + b + c + c
  {
    Digits(time, a) + Digits(server, b) + Digits(flag, c) + Digits(sequence, c)
  }

  function Rid(time: int, server: nat, flag: nat, sequence: nat): (r: string)
    ensures |r| == 18
  {
    Encoded(Joined(Offset(time), server, flag, sequence, 8, 4, 3))
  }

  /** The number those k digits stand for. */
  function Low(v: nat, k: nat): nat {
    if k == 0 then 0 else 32 * Low(v / 32, k - 1) + v % 32
  }

  lemma {:induction false} DigitsEqual(v: nat, w: nat, k: nat)
    ensures Digits(v, k) == Digits(w, k) <==> Low(v, k) == Low(w, k)
  {
    if k > 0 {
      DigitsEqual(v / 32, w / 32, k - 1);
      var a, b := Digits(v, k), Digits(w, k);
      assert a[..k - 1] == Digits(v / 32, k - 1) && a[k - 1] == v % 32;
      assert b[..k - 1] == Digits(w / 32, k - 1) && b[k - 1] == w % 32;
    }
  }

  function Shifted(v: nat, k: nat): nat {
    if k == 0 then v else Shifted(v / 32, k - 1)
  }

  lemma Assoc32(m: nat, q: nat)
    ensures 32 * m * q == 32 * (m * q)
  {
  }

  /** It is what is left of the number in 5k bits. */
  lemma {:induction false} LowIsMod(v: nat, k: nat)
    ensures v == Pow32(k) * Shifted(v, k) + Low(v, k) && Low(v, k) < Pow32(k)
  {
    if k > 0 {
      LowIsMod(v / 32, k - 1);
      var m, q, r := Pow32(k - 1), Shifted(v / 32, k - 1), Low(v / 32, k - 1);
      Assoc32(m, q);
      assert v == 32 * (m * q + r) + v % 32;
    }
  }

  // ----- When two ids are the same -----

  lemma WindowOf(time: int)
    ensures Offset(time) % WINDOW == (time - EPOCH) % WINDOW
  {
    var x := time - EPOCH;
    assert x == U64 * (x / U64) + x % U64;
    assert U64 == WINDOW * 0x100_0000;
  }

  lemma Pows()
    ensures Pow32(3) == 0x8000 && Pow32(4) == 0x100000 && Pow32(8) == WINDOW
  {
    assert Pow32(2) == 0x400;
    assert Pow32(3) == 0x8000;
    assert Pow32(5) == 0x2000000;
    assert Pow32(7) == 0x8_0000_0000;
  }

  lemma LowTime(t: int)
    ensures Low(Offset(t), 8) == (t - EPOCH) % WINDOW
  {
    Pows();
    LowIsMod(Offset(t), 8);
    WindowOf(t);
  }

  lemma Low3(v: nat)
    ensures Low(v, 3) == v % 0x8000
  {
    Pows();
    LowIsMod(v, 3);
  }

  lemma Low4(v: nat)
    requires v < 0x10000
    ensures Low(v, 4) == v
  {
    Pows();
    LowIsMod(v, 4);
  }

  lemma Halves(a: seq<Digit>, b: seq<Digit>, a': seq<Digit>, b': seq<Digit>)
    requires |a| == |a'| && |b| == |b'|
    ensures a + b == a' + b' <==> a == a' && b == b'
  {
    assert (a + b)[..|a|] == a && (a + b)[|a|..] == b;
    assert (a' + b')[..|a'|] == a' && (a' + b')[|a'|..] == b';
  }

  lemma Parts(r: seq<Digit>, a: seq<Digit>, b: seq<Digit>, c: seq<Digit>, d: seq<Digit>,
              r': seq<Digit>, a': seq<Digit>, b': seq<Digit>, c': seq<Digit>, d': seq<Digit>)
    requires |a| == |a'| && |b| == |b'| && |c| == |c'| && |d| == |d'|
    requires r == a + b + c + d && r' == a' + b' + c' + d'
    ensures r == r' <==> a == a' && b == b' && c == c' && d == d'
  {
    Halves(a, b, a', b');
    Halves(a + b, c, a' + b', c');
    Halves(a + b + c, d, a' + b' + c', d');
  }

  /** Two ids are the same when their four parts are. */
  lemma {:induction false} SameParts(t: nat, server: nat, flag: nat, n: nat, t': nat, server': nat, flag': nat, n': nat,
                                     a: nat, b: nat, c: nat)
    ensures Joined(t, server, flag, n, a, b, c) == Joined(t', server', flag', n', a, b, c) <==>
            && Digits(t, a) == Digits(t', a) && Digits(server, b) == Digits(server', b)
            && Digits(flag, c) == Digits(flag', c) && Digits(n, c) == Digits(n', c)
  {
    Parts(Joined(t, server, flag, n, a, b, c), Digits(t, a), Digits(server, b), Digits(flag, c), Digits(n, c),
          Joined(t', server', flag', n', a, b, c), Digits(t', a), Digits(server', b), Digits(flag', c), Digits(n', c));
  }

  /** The times agree in their lower 40 bits. */
  predicate SameTime(t: int, t': int) {
    (t - EPOCH) % WINDOW == (t' - EPOCH) % WINDOW
  }

  lemma TimeDigits(t: int, t': int)
    ensures Digits(Offset(t), 8) == Digits(Offset(t'), 8) <==> SameTime(t, t')
  {
    LowTime(t);
    LowTime(t');
    DigitsEqual(Offset(t), Offset(t'), 8);
  }

  lemma ServerDigits(v: nat, w: nat)
    requires v < 0x10000 && w < 0x10000
    ensures Digits(v, 4) == Digits(w, 4) <==> v == w
  {
    Low4(v);
    Low4(w);
    DigitsEqual(v, w, 4);
  }

  lemma FlagDigits(v: nat, w: nat)
    ensures Digits(v, 3) == Digits(w, 3) <==> v % 0x8000 == w % 0x8000
  {
    Low3(v);
    Low3(w);
    DigitsEqual(v, w, 3);
  }

  lemma SmallMod(v: nat)
    requires v <= 0xFFF
    ensures v % 0x8000 == v
  {
  }

  lemma SequenceDigits(v: nat, w: nat)
    requires v <= 0xFFF && w <= 0xFFF
    ensures Digits(v, 3) == Digits(w, 3) <==> v == w
  {
    FlagDigits(v, w);
    SmallMod(v);
    SmallMod(w);
  }

  lemma EncodedEqual(a: seq<Digit>, b: seq<Digit>)
    ensures Encoded(a) == Encoded(b) <==> a == b
  {
    if Encoded(a) == Encoded(b) {
      assert |a| == |Encoded(a)| && |b| == |Encoded(b)|;
      forall i | 0 <= i < |a| ensures a[i] == b[i] {
        assert Encoded(a)[i] == Encode(a[i]) && Encoded(b)[i] == Encode(b[i]);
        if a[i] < b[i] { EncodeAscends(a[i], b[i]); }
        if b[i] < a[i] { EncodeAscends(b[i], a[i]); }
      }
    }
  }

  /** Two ids are the same exactly when the times agree in their lower 40 bits, the
      servers and the sequence numbers are the same and the flags agree in their
      lower 15 bits. */
  lemma SameRid(t: int, server: nat, flag: nat, n: nat, t': int, server': nat, flag': nat, n': nat)
    requires server < 0x10000 && server' < 0x10000 && n <= 0xFFF && n' <= 0xFFF
    ensures Rid(t, server, flag, n) == Rid(t', server', flag', n') <==>
            SameTime(t, t') && server == server' && flag % 0x8000 == flag' % 0x8000 && n == n'
  {
    EncodedEqual(Joined(Offset(t), server, flag, n, 8, 4, 3), Joined(Offset(t'), server', flag', n', 8, 4, 3));
    SameParts(Offset(t), server, flag, n, Offset(t'), server', flag', n', 8, 4, 3);
    TimeDigits(t, t');
    ServerDigits(server, server');
    FlagDigits(flag, flag');
    SequenceDigits(n, n');
  }

  // ----- Ids ascend -----

  /** The order of strings of the same length, character by character. */
  ghost predicate Less(a: string, b: string) {
    |a| == |b| && exists i :: 0 <= i < |a| && a[..i] == b[..i] && a[i] < b[i]
  }

  ghost predicate DigitwiseLess(a: seq<Digit>, b: seq<Digit>) {
    |a| == |b| && exists i :: 0 <= i < |a| && a[..i] == b[..i] && a[i] < b[i]
  }

  /** The characters are in the order of the digits they stand for. */
  lemma EncodedLess(a: seq<Digit>, b: seq<Digit>)
    requires DigitwiseLess(a, b)
    ensures Less(Encoded(a), Encoded(b))
  {
    var i :| 0 <= i < |a| && a[..i] == b[..i] && a[i] < b[i];
    EncodeAscends(a[i], b[i]);
    var x, y := Encoded(a), Encoded(b);
    assert forall j :: 0 <= j < i ==> a[j] == a[..i][j] == b[..i][j] == b[j];
    assert x[..i] == y[..i] && x[i] < y[i];
  }

  lemma LessBefore(a: seq<Digit>, b: seq<Digit>, x: seq<Digit>, y: seq<Digit>)
    requires DigitwiseLess(a, b) && |x| == |y|
    ensures DigitwiseLess(a + x, b + y)
  {
    var i :| 0 <= i < |a| && a[..i] == b[..i] && a[i] < b[i];
    assert (a + x)[..i] == a[..i] && (b + y)[..i] == b[..i];
    assert (a + x)[i] < (b + y)[i];
  }

  lemma LessAfter(p: seq<Digit>, a: seq<Digit>, b: seq<Digit>)
    requires DigitwiseLess(a, b)
    ensures DigitwiseLess(p + a, p + b)
  {
    var i :| 0 <= i < |a| && a[..i] == b[..i] && a[i] < b[i];
    assert (p + a)[..|p| + i] == p + a[..i] && (p + b)[..|p| + i] == p + b[..i];
    assert (p + a)[|p| + i] < (p + b)[|p| + i];
  }

  lemma LastLess(p: seq<Digit>, d: Digit, e: Digit)
    requires d < e
    ensures DigitwiseLess(p + [d], p + [e])
  {
    assert [d][..0] == [e][..0] && [d][0] < [e][0];
    LessAfter(p, [d], [e]);
  }

  lemma {:induction false} DigitsLess(v: nat, w: nat, k: nat)
    requires Low(v, k) < Low(w, k)
    ensures DigitwiseLess(Digits(v, k), Digits(w, k))
  {
    if k > 0 {
      var x, y := Digits(v / 32, k - 1), Digits(w / 32, k - 1);
      if Low(v / 32, k - 1) < Low(w / 32, k - 1) {
        DigitsLess(v / 32, w / 32, k - 1);
        LessBefore(x, y, [v % 32], [w % 32]);
      } else {
        DigitsEqual(v / 32, w / 32, k - 1);
        LastLess(x, v % 32, w % 32);
      }
    }
  }

  /** The window of 2^40 milliseconds a time lies in. */
  function WindowNumber(time: int): int {
    (time - EPOCH) / WINDOW
  }

  lemma InOneWindow(t: int, t': int)
    requires t < t' && WindowNumber(t) == WindowNumber(t')
    ensures DigitwiseLess(Digits(Offset(t), 8), Digits(Offset(t'), 8))
  {
    LowTime(t);
    LowTime(t');
    DigitsLess(Offset(t), Offset(t'), 8);
  }

  lemma {:induction false} SequenceLess(n: nat, n': nat)
    requires n < n' <= 0xFFF
    ensures DigitwiseLess(Digits(n, 3), Digits(n', 3))
  {
    Low3(n);
    Low3(n');
    DigitsLess(n, n', 3);
  }

  lemma {:induction false} JoinedLess(v: nat, w: nat, server: nat, flag: nat, n: nat, n': nat, a: nat, b: nat, c: nat)
    requires DigitwiseLess(Digits(v, a), Digits(w, a)) || (v == w && DigitwiseLess(Digits(n, c), Digits(n', c)))
    ensures DigitwiseLess(Joined(v, server, flag, n, a, b, c), Joined(w, server, flag, n', a, b, c))
  {
    var mid := Digits(server, b) + Digits(flag, c);
    var x, y := Digits(n, c), Digits(n', c);
    assert Joined(v, server, flag, n, a, b, c) == Digits(v, a) + (mid + x) == Digits(v, a) + mid + x;
    assert Joined(w, server, flag, n', a, b, c) == Digits(w, a) + (mid + y) == Digits(w, a) + mid + y;
    if DigitwiseLess(Digits(v, a), Digits(w, a)) {
      LessBefore(Digits(v, a), Digits(w, a), mid + x, mid + y);
    } else {
      LessAfter(Digits(v, a) + mid, x, y);
    }
  }

  /** Within one window of 2^40 milliseconds a later stamp makes a greater id. */
  lemma {:induction false} LaterIsGreater(s: Stamp, t: Stamp, server: nat, flag: nat)
    requires Valid(s) && Valid(t) && Before(s, t)
    requires WindowNumber(s.time) == WindowNumber(t.time)
    ensures Less(Rid(s.time, server, flag, s.sequence), Rid(t.time, server, flag, t.sequence))
  {
    if s.time < t.time {
      InOneWindow(s.time, t.time);
    } else {
      SequenceLess(s.sequence, t.sequence);
    }
    JoinedLess(Offset(s.time), Offset(t.time), server, flag, s.sequence, t.sequence, 8, 4, 3);
    EncodedLess(Joined(Offset(s.time), server, flag, s.sequence, 8, 4, 3),
      Joined(Offset(t.time), server, flag, t.sequence, 8, 4, 3));
  }

  lemma StampsDiffer(s: Stamp, t: Stamp)
    requires Before(s, t) && WindowNumber(s.time) == WindowNumber(t.time)
    ensures !SameTime(s.time, t.time) || s.sequence != t.sequence
  {
  }

  /** Ids made in one window are all different, whatever servers and flags they
      are made for and whatever the clock does; and those for one server and flag
      come in ascending order. */
  lemma RidsDiffer(stamps: seq<Stamp>, clock: seq<int>, i: nat, j: nat, server: nat, flag: nat, server': nat,
                   flag': nat)
    requires Run(stamps, clock) && i < j < |stamps| && server < 0x10000 && server' < 0x10000
    requires WindowNumber(stamps[i].time) == WindowNumber(stamps[j].time)
    ensures Valid(stamps[i]) && Valid(stamps[j])
    ensures Rid(stamps[i].time, server, flag, stamps[i].sequence)
            != Rid(stamps[j].time, server', flag', stamps[j].sequence)
    ensures Less(Rid(stamps[i].time, server, flag, stamps[i].sequence),
            Rid(stamps[j].time, server, flag, stamps[j].sequence))
  {
    RunAscends(stamps, clock, i, j);
    StampsDiffer(stamps[i], stamps[j]);
    SameRid(stamps[i].time, server, flag, stamps[i].sequence, stamps[j].time, server', flag', stamps[j].sequence);
    LaterIsGreater(stamps[i], stamps[j], server, flag);
  }

  // ----- The generator -----

  lemma Digits2(v: nat)
    ensures Digits(v, 2) == [v / 0x20 % 32, v % 32]
  {
    assert Digits(v / 32, 1) == [v / 32 % 32];
  }

  lemma Digits3(v: nat)
    ensures Digits(v, 3) == [v / 0x400 % 32, v / 0x20 % 32, v % 32]
  {
    Digits2(v / 32);
    assert v / 32 / 32 == v / 0x400;
  }

  lemma {:induction false} DigitsMore(v: nat, k: nat)
    ensures Digits(v, k + 3) == Digits(v / 0x8000, k) + Digits(v, 3)
  {
    Digits3(v);
    assert v / 32 / 32 == v / 0x400 && v / 0x400 / 32 == v / 0x8000;
    assert Digits(v, k + 3) == Digits(v / 32, k + 2) + [v % 32];
    assert Digits(v / 32, k + 2) == Digits(v / 0x400, k + 1) + [v / 32 % 32];
    assert Digits(v / 0x400, k + 1) == Digits(v / 0x8000, k) + [v / 0x400 % 32];
  }

  lemma Digits4(v: nat)
    ensures Digits(v, 4) == [v / 0x8000 % 32, v / 0x400 % 32, v / 0x20 % 32, v % 32]
  {
    DigitsMore(v, 1);
    Digits3(v);
    assert Digits(v / 0x8000, 1) == [v / 0x8000 % 32];
  }

  lemma Divisions(v: nat)
    ensures v / 0x8000 / 0x20 == v / 0x10_0000 && v / 0x8000 / 0x400 == v / 0x200_0000
    ensures v / 0x8000 / 0x8000 == v / 0x4000_0000 && v / 0x4000_0000 / 0x20 == v / 0x8_0000_0000
  {
  }

  lemma DigitsParts(v: nat)
    ensures Digits(v, 8) == Digits(v / 0x8000 / 0x8000, 2) + Digits(v / 0x8000, 3) + Digits(v, 3)
  {
    DigitsMore(v, 5);
    DigitsMore(v / 0x8000, 2);
  }

  lemma {:induction false} Digits8(v: nat)
    ensures Digits(v, 8) == [v / 0x8_0000_0000 % 32, v / 0x4000_0000 % 32, v / 0x200_0000 % 32, v / 0x10_0000 % 32,
                             v / 0x8000 % 32, v / 0x400 % 32, v / 0x20 % 32, v % 32]
  {
    DigitsParts(v);
    var w := v / 0x8000;
    Digits3(v);
    Digits3(w);
    Digits2(w / 0x8000);
    Divisions(v);
  }

  lemma EncodedParts(a: seq<Digit>, b: seq<Digit>, c: seq<Digit>, d: seq<Digit>)
    ensures Encoded(a + b + c + d) == Encoded(a) + Encoded(b) + Encoded(c) + Encoded(d)
  {
  }

  /** The array's entries from i on. */
  ghost predicate Holds(rid: array<char>, i: nat, s: seq<Digit>)
    reads rid
  {
    i + |s| <= rid.Length && rid[i..i + |s|] == Encoded(s)
  }

  method FillTime(rid: array<char>, ti: nat)
    requires rid.Length == 18
    modifies rid
    ensures Holds(rid, 0, Digits(ti, 8)) && rid[8..] == old(rid[8..])
  {
    rid[0] := Encode(ti / 0x8_0000_0000 % 32);
    rid[1] := Encode(ti / 0x4000_0000 % 32);
    rid[2] := Encode(ti / 0x200_0000 % 32);
    rid[3] := Encode(ti / 0x10_0000 % 32);
    rid[4] := Encode(ti / 0x8000 % 32);
    rid[5] := Encode(ti / 0x400 % 32);
    rid[6] := Encode(ti / 0x20 % 32);
    rid[7] := Encode(ti % 32);
    Digits8(ti);
  }

  method FillServer(rid: array<char>, server: nat)
    requires rid.Length == 18
    modifies rid
    ensures rid[..8] == old(rid[..8]) && Holds(rid, 8, Digits(server, 4)) && rid[12..] == old(rid[12..])
  {
    rid[8] := Encode(server / 0x8000 % 32);
    rid[9] := Encode(server / 0x400 % 32);
    rid[10] := Encode(server / 0x20 % 32);
    rid[11] := Encode(server % 32);
    Digits4(server);
  }

  /** Three characters from place i on, for the flag and for the sequence. */
  method FillThree(rid: array<char>, i: nat, v: nat)
    requires rid.Length == 18 && (i == 12 || i == 15)
    modifies rid
    ensures rid[..i] == old(rid[..i]) && Holds(rid, i, Digits(v, 3)) && rid[i + 3..] == old(rid[i + 3..])
  {
    rid[i] := Encode(v / 0x400 % 32);
    rid[i + 1] := Encode(v / 0x20 % 32);
    rid[i + 2] := Encode(v % 32);
    Digits3(v);
  }

  /** The eighteen characters, each for the five bits its shift leaves. */
  method Fill(ti: nat, server: nat, flag: nat, sequence: nat) returns (rid: array<char>)
    ensures fresh(rid) && rid[..] == Encoded(Joined(ti, server, flag, sequence, 8, 4, 3))
  {
    rid := new char[18];
    FillTime(rid, ti);
    FillServer(rid, server);
    assert rid[..12] == rid[..8] + rid[8..12];
    FillThree(rid, 12, flag);
    assert rid[..15] == rid[..12] + rid[12..15];
    FillThree(rid, 15, sequence);
    assert rid[..] == rid[..15] + rid[15..18];
    EncodedParts(Digits(ti, 8), Digits(server, 4), Digits(flag, 3), Digits(sequence, 3));
  }

  class RidMaker {
    var ridSequence: nat
    var lastRidTime: int

    ghost function Last(): Stamp
      reads this
    {
      Stamp(lastRidTime, ridSequence)
    }

    constructor ()
      ensures Last() == Stamp(0, 0)
    {
      ridSequence, lastRidTime := 0, 0;
    }

    method Advance(now: int)
      modifies this
      ensures Last() == Next(old(Last()), now)
    {
      ridSequence := Masked(ridSequence + 1);
      if ridSequence == 0 {
        lastRidTime := lastRidTime + 1;
      }
      if now > lastRidTime {
        lastRidTime, ridSequence := now, 0;
      }
    }

    /** Makes the next id, whatever the clock says. */
    method GetRid(server: nat, flag: nat, now: int) returns (rid: array<char>)
      requires server < 0x10000 && flag < 0x10000
      modifies this
      ensures Last() == Next(old(Last()), now)
      ensures fresh(rid) && rid[..] == Rid(lastRidTime, server, flag, ridSequence)
      ensures Valid(old(Last())) ==> Valid(Last()) && Before(old(Last()), Last())
    {
      if Valid(Last()) {
        NextIsLater(Last(), now);
      }
      Advance(now);
      rid := Fill(Offset(lastRidTime), server, flag, ridSequence);
    }
  }
}
