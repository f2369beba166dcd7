/** Bytes, fixed-width numbers and the byte buffer of `tunm_proto`. The buffer
    and the number and string formats come from a library outside the
    repository; what is assumed of them is what this file says: little-endian
    numbers, strings with a two-byte length in front, and a buffer that writes
    over its bytes at `wpos` and reads them at `rpos`. */
module Wire {
  import opened Wrappers

  type byte = b: int | 0 <= b < 256

  type Bytes = seq<byte>

  function Pow256(k: nat): nat {
    if k == 0 then 1 else 256 * Pow256(k - 1)
  }

  /** The k low bytes of n, lowest first. */
  function LE(n: nat, k: nat): (r: Bytes)
    ensures |r| == k
  {
    if k == 0 then [] else [n % 256] + LE(n / 256, k - 1)
  }

  function FromLE(b: Bytes): nat {
    if b == [] then 0 else b[0] + 256 * FromLE(b[1..])
  }

  lemma {:induction false} DecodeEncoded(n: nat, k: nat)
    requires n < Pow256(k)
    ensures FromLE(LE(n, k)) == n
  {
    if k > 0 {
      DecodeEncoded(n / 256, k - 1);
      assert LE(n, k)[1..] == LE(n / 256, k - 1);
    }
  }

  lemma Widths()
    ensures Pow256(1) == 0x100 && Pow256(2) == 0x1_0000 && Pow256(4) == 0x1_0000_0000
  {
    assert Pow256(3) == 0x100_0000;
  }

  lemma {:induction false} FromLEBound(b: Bytes)
    ensures FromLE(b) < Pow256(|b|)
  {
    if b != [] {
      FromLEBound(b[1..]);
    }
  }

  /** The bytes from `off` on, as a number of width k. */
  function NumberAt(data: Bytes, off: nat, k: nat): nat
    requires off + k <= |data|
  {
    FromLE(data[off..off + k])
  }

  /** A length-prefixed string and the place where it ends. */
  function StringAt(data: Bytes, off: nat): (r: Option<Bytes>)
    requires off <= |data|
  {
    if off + 2 > |data| then None
    else
      var n := NumberAt(data, off, 2);
      if off + 2 + n > |data| then None else Some(data[off + 2..off + 2 + n])
  }

  /** Writing `bs` over `val` at `pos`. */
  function Overwrite(val: Bytes, pos: nat, bs: Bytes): Bytes
    requires pos <= |val|
  {
    val[..pos] + bs + if pos + |bs| <= |val| then val[pos + |bs|..] else []
  }

  class Buffer {
    var val: Bytes
    var rpos: nat
    var wpos: nat

    ghost predicate Valid()
      reads this
    {
      rpos <= |val| && wpos <= |val|
    }

    constructor ()
      ensures Valid() && val == [] && rpos == 0 && wpos == 0
    {
      val, rpos, wpos := [], 0, 0;
    }

    method Write(bs: Bytes)
      requires Valid()
      modifies this
      ensures Valid() && val == Overwrite(old(val), old(wpos), bs)
      ensures wpos == old(wpos) + |bs| && rpos == old(rpos)
    {
      val := Overwrite(val, wpos, bs);
      wpos := wpos + |bs|;
    }

    method EncodeNumber(n: nat, k: nat)
      requires Valid()
      modifies this
      ensures Valid() && val == Overwrite(old(val), old(wpos), LE(n, k))
      ensures wpos == old(wpos) + k && rpos == old(rpos)
    {
      Write(LE(n, k));
    }

    method EncodeStrRaw(s: Bytes)
      requires Valid()
      modifies this
      ensures Valid() && val == Overwrite(old(val), old(wpos), LE(|s|, 2) + s)
      ensures wpos == old(wpos) + 2 + |s| && rpos == old(rpos)
    {
      Write(LE(|s|, 2) + s);
    }

    method DecodeNumber(k: nat) returns (r: Option<nat>)
      requires Valid()
      modifies this`rpos
      ensures Valid()
      ensures r == if old(rpos) + k > |val| then None else Some(NumberAt(val, old(rpos), k))
      ensures rpos == if r.Some? then old(rpos) + k else old(rpos)
    {
      if rpos + k > |val| {
        return None;
      }
      r := Some(NumberAt(val, rpos, k));
      rpos := rpos + k;
    }

    method DecodeStrRaw() returns (r: Option<Bytes>)
      requires Valid()
      modifies this`rpos
      ensures Valid() && r == StringAt(val, old(rpos))
    {
      ghost var start := rpos;
      var n := DecodeNumber(2);
      if n == None {
        return None;
      }
      if rpos + n.value > |val| {
        return None;
      }
      r := Some(val[rpos..rpos + n.value]);
      rpos := rpos + n.value;
    }

    /** Takes the first `n` bytes out; both positions move back with them. */
    method DrainCollect(n: nat) returns (r: Bytes)
      requires Valid() && n <= |val|
      modifies this
      ensures Valid() && r == old(val[..n]) && val == old(val[n..])
      ensures rpos == (if old(rpos) > n then old(rpos) - n else 0)
      ensures wpos == (if old(wpos) > n then old(wpos) - n else 0)
    {
      r := val[..n];
      val := val[n..];
      rpos := if rpos > n then rpos - n else 0;
      wpos := if wpos > n then wpos - n else 0;
    }
  }
}
