/** The sequence numbers on messages: the sender adds 111 in 16 bits
    (scripts/client/global/funcitons.lua), and so does the receiver
    (scripts/global/inherit/agent.lua), who takes the first number as it comes. */
module SeqCheck {

  function CalcNextSeq(s: int): (r: int)
    ensures 0 <= r < 0x10000
  {
    (s + 111) % 0x10000
  }

  /** The number n steps on. */
  function After(s: int, n: nat): int {
    if n == 0 then s else CalcNextSeq(After(s, n - 1))
  }

  lemma SumMod(a: nat, b: nat)
    ensures (a % 0x10000 + b) % 0x10000 == (a + b) % 0x10000
  {
  }

  lemma {:induction false} AfterIs(s: int, n: nat)
    requires 0 <= s < 0x10000
    ensures After(s, n) == (s + 111 * n) % 0x10000
  {
    if n > 0 {
      AfterIs(s, n - 1);
      SumMod(s + 111 * (n - 1), 111);
    }
  }

  lemma Multiplied(d: int, m: int)
    requires d == 0x10000 * m
    ensures 111 * d % 0x10000 == 0
  {
    assert 111 * d == 0x10000 * (111 * m);
  }

  lemma Divided(d: int, m: int)
    requires 111 * d == 0x10000 * m
    ensures d % 0x10000 == 0
  {
    assert 24207 * (111 * d) == 0x10000 * (41 * d) + d;
    assert d == 0x10000 * (24207 * m - 41 * d);
  }

  /** 111 can be divided by in 16 bits: 24207 * 111 is one more than a multiple of
      2^16. */
  lemma DivideBy111(d: int)
    ensures 111 * d % 0x10000 == 0 <==> d % 0x10000 == 0
  {
    if 111 * d % 0x10000 == 0 {
      Divided(d, 111 * d / 0x10000);
    }
    if d % 0x10000 == 0 {
      Multiplied(d, d / 0x10000);
    }
  }

  lemma SameMod(a: nat, b: nat)
    ensures a % 0x10000 == b % 0x10000 <==> (a - b) % 0x10000 == 0
  {
  }

  /** The number on the sender's message number n. */
  function NumberOf(n: nat): int {
    111 * n % 0x10000
  }

  /** The number k steps on from that of message p is that of message q exactly
      when q is p + k, up to multiples of 2^16. */
  lemma InStep(p: nat, q: nat, k: nat)
    ensures After(NumberOf(p), k) == NumberOf(q) <==> (p + k - q) % 0x10000 == 0
  {
    AfterIs(NumberOf(p), k);
    SumMod(111 * p, 111 * k);
    SameMod(111 * p + 111 * k, 111 * q);
    assert 111 * p + 111 * k - 111 * q == 111 * (p + k - q);
    DivideBy111(p + k - q);
  }

  class Sender {
    var seqId: int
    /** How many numbers have been given out. */
    ghost var sent: nat

    ghost predicate Valid()
      reads this
    {
      seqId == NumberOf(sent)
    }

    constructor ()
      ensures Valid() && sent == 0
    {
      seqId, sent := 0, 0;
    }

    /** The n-th message gets the n-th multiple of 111 in 16 bits. */
    method GetNetworkSeqId() returns (s: int)
      requires Valid()
      modifies this
      ensures Valid() && sent == old(sent) + 1 && s == NumberOf(sent)
    {
      seqId := seqId + 111;
      seqId := seqId % 0x10000;
      s := seqId;
      SumMod(111 * sent, 111);
      sent := sent + 1;
    }
  }

  class Agent {
    var clientSeq: int
    /** The first number, and how many have been checked. */
    ghost var first: int
    ghost var checked: nat

    ghost predicate Valid()
      reads this
    {
      if checked == 0 then clientSeq < 0 else 0 <= first < 0x10000 && clientSeq == After(first, checked - 1)
    }

    constructor ()
      ensures Valid() && checked == 0
    {
      clientSeq, first, checked := -1, 0, 0;
    }

    /** The first number is accepted, and after it the one that is as many steps
        on as checks were made, whether the messages before were accepted or
        not. */
    method CheckNextClient(s: int) returns (ok: bool)
      requires Valid() && 0 <= s < 0x10000
      modifies this
      ensures Valid() && checked == old(checked) + 1 && first == if old(checked) == 0 then s else old(first)
      ensures ok <==> s == After(first, old(checked))
    {
      if checked > 0 {
        AfterIs(first, checked - 1);
      }
      if clientSeq < 0 {
        clientSeq, first := s, s;
      } else {
        clientSeq := CalcNextSeq(clientSeq);
      }
      checked := checked + 1;
      ok := clientSeq == s;
    }

    /** A connection: the k-th message received, which is message places[k] of the
        sender, is accepted exactly when it is as many places after the first one
        as it should be, up to multiples of 2^16. So nothing is turned away while
        none is lost, and the first message out of place is. The caller ends the
        connection there; for later messages this is what the check would say. */
    method CheckAll(numbers: seq<int>, ghost places: seq<nat>) returns (oks: seq<bool>)
      requires Valid() && checked == 0
      requires |places| == |numbers| && forall k :: 0 <= k < |numbers| ==> numbers[k] == NumberOf(places[k])
      modifies this
      ensures |oks| == |numbers|
      ensures forall k :: 0 <= k < |oks| ==> (oks[k] <==> (places[0] + k - places[k]) % 0x10000 == 0)
    {
      oks := [];
      while |oks| < |numbers|
        invariant |oks| <= |numbers|
        invariant Valid() && checked == |oks| && (checked > 0 ==> first == NumberOf(places[0]))
        invariant forall k :: 0 <= k < |oks| ==> (oks[k] <==> (places[0] + k - places[k]) % 0x10000 == 0)
      {
        InStep(places[0], places[|oks|], |oks|);
        var ok := CheckNextClient(numbers[|oks|]);
        oks := oks + [ok];
      }
    }
  }
}
