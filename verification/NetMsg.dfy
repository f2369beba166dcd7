/** Messages with a 26-byte header: src/net/net_msg.rs. */
module NetMsgs {
  import opened Wrappers
  import opened Wire

  type u8 = n: nat | n < 0x100
  type u16 = n: nat | n < 0x1_0000
  type u32 = n: nat | n < 0x1_0000_0000

  const HEAD_FILL_UP: nat := 26

  datatype Head = Head(length: u32, cookie: u32, msgType: u8, msgFlag: u8, fromSvrType: u16, fromSvrId: u32,
                       toSvrType: u16, toSvrId: u32, realFd: u32)

  /** What a receiver sees of a message. */
  datatype Msg = Msg(head: Head, packName: Bytes, data: Bytes)

  datatype MsgError = TooSmall | LengthMismatch | BadName

  // ----- The header as bytes -----

  function HeadFront(h: Head): (r: Bytes)
    ensures |r| == 9
  {
    LE(h.length, 4) + LE(h.cookie, 4) + LE(h.msgType, 1)
  }

  function HeadMiddle(h: Head): (r: Bytes)
    ensures |r| == 7
  {
    LE(h.msgFlag, 1) + LE(h.fromSvrType, 2) + LE(h.fromSvrId, 4)
  }

  function HeadBack(h: Head): (r: Bytes)
    ensures |r| == 10
  {
    LE(h.toSvrType, 2) + LE(h.toSvrId, 4) + LE(h.realFd, 4)
  }

  /** The nine fields in order, each in its width. */
  function EncodeHead(h: Head): (r: Bytes)
    ensures |r| == HEAD_FILL_UP
  {
    HeadFront(h) + HeadMiddle(h) + HeadBack(h)
  }

  function FieldAt(data: Bytes, off: nat, k: nat): (r: nat)
    requires off + k <= |data|
    ensures k == 1 ==> r < 0x100
    ensures k == 2 ==> r < 0x1_0000
    ensures k == 4 ==> r < 0x1_0000_0000
  {
    FromLEBound(data[off..off + k]);
    Widths();
    NumberAt(data, off, k)
  }

  function DecodeHead(data: Bytes): Head
    requires |data| >= HEAD_FILL_UP
  {
    Head(FieldAt(data, 0, 4), FieldAt(data, 4, 4), FieldAt(data, 8, 1), FieldAt(data, 9, 1), FieldAt(data, 10, 2),
         FieldAt(data, 12, 4), FieldAt(data, 16, 2), FieldAt(data, 18, 4), FieldAt(data, 22, 4))
  }

  lemma OneField(data: Bytes, off: nat, n: nat, k: nat, rest: Bytes)
    requires off <= |data| && LE(n, k) + rest == data[off..] && n < Pow256(k)
    ensures off + k <= |data| && NumberAt(data, off, k) == n && data[off + k..] == rest
  {
    DecodeEncoded(n, k);
    var tail := data[off..];
    assert data[off..off + k] == tail[..k] == LE(n, k);
    assert data[off + k..] == tail[k..];
  }

  lemma FrontFields(h: Head, data: Bytes, rest: Bytes)
    requires HeadFront(h) + rest == data
    ensures NumberAt(data, 0, 4) == h.length && NumberAt(data, 4, 4) == h.cookie && NumberAt(data, 8, 1) == h.msgType
  {
    Widths();
    OneField(data, 0, h.length, 4, LE(h.cookie, 4) + (LE(h.msgType, 1) + rest));
    OneField(data, 4, h.cookie, 4, LE(h.msgType, 1) + rest);
    OneField(data, 8, h.msgType, 1, rest);
  }

  lemma MiddleFields(h: Head, data: Bytes, rest: Bytes)
    requires |data| >= 9 && HeadMiddle(h) + rest == data[9..]
    ensures |data| >= 16
    ensures NumberAt(data, 9, 1) == h.msgFlag && NumberAt(data, 10, 2) == h.fromSvrType
            && NumberAt(data, 12, 4) == h.fromSvrId
  {
    Widths();
    OneField(data, 9, h.msgFlag, 1, LE(h.fromSvrType, 2) + (LE(h.fromSvrId, 4) + rest));
    OneField(data, 10, h.fromSvrType, 2, LE(h.fromSvrId, 4) + rest);
    OneField(data, 12, h.fromSvrId, 4, rest);
  }

  lemma BackFields(h: Head, data: Bytes, rest: Bytes)
    requires |data| >= 16 && HeadBack(h) + rest == data[16..]
    ensures |data| >= 26
    ensures NumberAt(data, 16, 2) == h.toSvrType && NumberAt(data, 18, 4) == h.toSvrId
            && NumberAt(data, 22, 4) == h.realFd
  {
    Widths();
    OneField(data, 16, h.toSvrType, 2, LE(h.toSvrId, 4) + (LE(h.realFd, 4) + rest));
    OneField(data, 18, h.toSvrId, 4, LE(h.realFd, 4) + rest);
    OneField(data, 22, h.realFd, 4, rest);
  }

  lemma SplitThree(a: Bytes, b: Bytes, c: Bytes, data: Bytes)
    requires a + b + c <= data
    ensures var rest := data[|a| + |b| + |c|..];
            && data == a + (b + (c + rest))
            && data[|a|..] == b + (c + rest)
            && data[|a| + |b|..] == c + rest
  {
    assert data == a + b + c + data[|a| + |b| + |c|..];
  }

  /** Decoding what was encoded gives every field back. */
  lemma HeadRoundTrip(h: Head, data: Bytes)
    requires EncodeHead(h) <= data
    ensures DecodeHead(data) == h
  {
    var rest := data[HEAD_FILL_UP..];
    var a, b, c := HeadFront(h), HeadMiddle(h), HeadBack(h);
    SplitThree(a, b, c, data);
    FrontFields(h, data, b + (c + rest));
    MiddleFields(h, data, c + rest);
    BackFields(h, data, rest);
  }

  // ----- Reading a message -----

  /** A whole frame as a message, or the reason why it is not one. */
  function ParseMsg(data: Bytes): Result<Msg, MsgError> {
    if |data| < HEAD_FILL_UP then Err(TooSmall)
    else
      var head := DecodeHead(data);
      if |data| != head.length then Err(LengthMismatch)
      else match StringAt(data, HEAD_FILL_UP)
        case None => Err(BadName)
        case Some(name) => Ok(Msg(head, name, data))
  }

  // ----- The message object -----

  /** What follows the header: the name, the length of the data in two bytes,
      cut to that width, and the data. */
  function BodyOf(name: Bytes, data: Bytes): Bytes {
    LE(|name|, 2) + (name + (LE(|data| % 0x1_0000, 2) + data))
  }

  /** Fills a new buffer with an empty header and the body. */
  method WriteBody(buffer: Buffer, name: Bytes, data: Bytes)
    requires buffer.Valid() && buffer.val == [] && buffer.wpos == 0
    modifies buffer
    ensures buffer.Valid() && |buffer.val| == buffer.wpos == HEAD_FILL_UP + 4 + |name| + |data|
    ensures buffer.val[HEAD_FILL_UP..] == BodyOf(name, data)
  {
    var zeros := seq(HEAD_FILL_UP, _ => 0);
    buffer.Write(zeros);
    buffer.EncodeStrRaw(name);
    buffer.EncodeNumber(|data| % 0x1_0000, 2);
    buffer.Write(data);
    assert buffer.val[HEAD_FILL_UP..] == LE(|name|, 2) + name + LE(|data| % 0x1_0000, 2) + data;
  }

  /** The next number of the header, which is long enough to hold it. */
  method TakeNumber(buffer: Buffer, k: nat) returns (n: nat)
    requires buffer.Valid() && buffer.rpos + k <= |buffer.val|
    modifies buffer`rpos
    ensures buffer.Valid() && buffer.rpos == old(buffer.rpos) + k
    ensures n == FieldAt(buffer.val, old(buffer.rpos), k)
  {
    var r := buffer.DecodeNumber(k);
    n := r.value;
  }

  lemma LowByte(q: nat, r: nat)
    requires r < 256
    ensures (256 * q + r) % 256 == r && (256 * q + r) / 256 == q
  {
  }

  lemma LowBytes(q: nat, r: nat)
    requires r < 0x1_0000
    ensures (0x1_0000 * q + r) % 0x1_0000 == r
  {
  }

  /** A length that does not fit two bytes is cut to them. */
  lemma CutLength(n: nat)
    ensures LE(n, 2) == LE(n % 0x1_0000, 2)
  {
    var low, high := n % 256, n / 256;
    var mid, top := high % 256, high / 256;
    var r := 256 * mid + low;
    assert n == 0x1_0000 * top + r && r < 0x1_0000;
    LowBytes(top, r);
    LowByte(mid, low);
    assert LE(n, 2) == [low, mid] && LE(r, 2) == [low, mid % 256];
  }

  lemma NameInFront(data: Bytes, name: Bytes, n: nat, rest: Bytes)
    requires |data| >= HEAD_FILL_UP && n <= |name| && n < 0x1_0000
    requires data[HEAD_FILL_UP..] == LE(n, 2) + (name + rest)
    ensures StringAt(data, HEAD_FILL_UP) == Some(name[..n])
  {
    Widths();
    OneField(data, HEAD_FILL_UP, n, 2, name + rest);
    var tail := data[HEAD_FILL_UP + 2..];
    assert data[HEAD_FILL_UP + 2..HEAD_FILL_UP + 2 + n] == tail[..n] == name[..n];
  }

  /** The name up to the length that is written in front of it. */
  function CutName(name: Bytes): (r: Bytes)
    ensures r == name <==> |name| < 0x1_0000
  {
    name[..|name| % 0x1_0000]
  }

  /** The name that is read back is the cut one. */
  lemma NameRead(data: Bytes, name: Bytes, body: Bytes)
    requires |data| >= HEAD_FILL_UP && data[HEAD_FILL_UP..] == BodyOf(name, body)
    ensures StringAt(data, HEAD_FILL_UP) == Some(CutName(name))
  {
    CutLength(|name|);
    NameInFront(data, name, |name| % 0x1_0000, LE(|body| % 0x1_0000, 2) + body);
  }

  /** The bytes with another cookie in the header. */
  function WithCookie(data: Bytes, cookie: u32): Bytes
    requires |data| >= HEAD_FILL_UP
  {
    data[..4] + LE(cookie, 4) + data[8..]
  }

  /** A header but for its cookie. */
  predicate SpelledButCookie(h: Head, data: Bytes) {
    |data| >= HEAD_FILL_UP && EncodeHead(h)[..4] == data[..4] && EncodeHead(h)[8..] == data[8..HEAD_FILL_UP]
  }

  lemma CookiePatched(h: Head, cookie: u32, data: Bytes)
    requires |data| >= HEAD_FILL_UP
    ensures EncodeHead(h.(cookie := cookie)) <= WithCookie(data, cookie) <==> SpelledButCookie(h, data)
  {
    var rest := LE(h.msgType, 1) + LE(h.msgFlag, 1) + LE(h.fromSvrType, 2)
    + LE(h.fromSvrId, 4) + LE(h.toSvrType, 2) + LE(h.toSvrId, 4) + LE(h.realFd, 4);
    var head, patched := EncodeHead(h.(cookie := cookie)), WithCookie(data, cookie);
    assert EncodeHead(h) == LE(h.length, 4) + LE(h.cookie, 4) + rest;
    assert head == LE(h.length, 4) + LE(cookie, 4) + rest;
    assert patched[..4] == data[..4] && patched[4..8] == LE(cookie, 4)
           && patched[8..HEAD_FILL_UP] == data[8..HEAD_FILL_UP];
    assert head <= patched <==> head == patched[..HEAD_FILL_UP];
    assert patched[..HEAD_FILL_UP] == patched[..4] + patched[4..8] + patched[8..HEAD_FILL_UP];
    assert head[..4] == EncodeHead(h)[..4] && head[8..] == EncodeHead(h)[8..];
    assert head == head[..4] + LE(cookie, 4) + head[8..];
  }

  class NetMsg {
    var buffer: Buffer
    var length: u32
    var cookie: u32
    var msgType: u8
    var msgFlag: u8
    var fromSvrType: u16
    var fromSvrId: u32
    var toSvrType: u16
    var toSvrId: u32
    var realFd: u32
    var packName: Bytes

    ghost predicate Valid()
      reads this, buffer
    {
      buffer.Valid() && HEAD_FILL_UP <= |buffer.val|
    }

    function Fields(): Head
      reads this
    {
      Head(length, cookie, msgType, msgFlag, fromSvrType, fromSvrId, toSvrType, toSvrId, realFd)
    }

    /** The header bytes spell the fields, and the length field is the number
        of bytes written. */
    ghost predicate Finished()
      reads this, buffer
    {
      && Valid()
      && |buffer.val| == buffer.wpos == length
      && EncodeHead(Fields()) <= buffer.val
    }

    /** The message as it will be sent. */
    function View(): Msg
      reads this, buffer
    {
      Msg(Fields(), packName, buffer.val)
    }

    /** A message of 2^32 bytes or more is not finished, and of a name of 65536
        bytes or more less is read back. */
    constructor NewByDetail(msgType: u8, msgName: Bytes, data: Bytes)
      ensures fresh(buffer) && Valid() && packName == msgName
      ensures var size := HEAD_FILL_UP + 4 + |msgName| + |data|;
              && Fields() == Head(size % 0x1_0000_0000, 0, msgType, 0, 0, 0, 0, 0, 0)
              && (Finished() <==> size < 0x1_0000_0000)
      ensures buffer.val == EncodeHead(Fields()) + BodyOf(msgName, data)
      ensures StringAt(buffer.val, HEAD_FILL_UP) == Some(CutName(msgName))
    {
      buffer := new Buffer();
      this.msgType := msgType;
      cookie, msgFlag, fromSvrType, fromSvrId, toSvrType, toSvrId, realFd := 0, 0, 0, 0, 0, 0, 0;
      packName := msgName;
      length := 0;
      new;
      WriteBody(buffer, msgName, data);
      length := |buffer.val| % 0x1_0000_0000;
      EndMsg();
      NameRead(buffer.val, msgName, data);
    }

    /** One number of the header: what is already written grows by it. */
    method PutNumber(n: nat, k: nat, ghost done: Bytes, ghost tail: Bytes)
      requires buffer.Valid() && |done| + k <= |tail|
      requires buffer.val == done + tail[|done|..] && buffer.wpos == |done|
      modifies buffer
      ensures buffer.Valid() && buffer.val == done + LE(n, k) + tail[|done| + k..]
      ensures buffer.wpos == |done| + k && buffer.rpos == old(buffer.rpos)
    {
      buffer.EncodeNumber(n, k);
      assert (done + tail[|done|..])[|done| + k..] == tail[|done| + k..];
    }

    method PutFront(ghost tail: Bytes)
      requires buffer.Valid() && HEAD_FILL_UP <= |tail| && buffer.val == tail && buffer.wpos == 0
      modifies buffer
      ensures buffer.Valid() && buffer.val == HeadFront(Fields()) + tail[9..]
      ensures buffer.wpos == 9 && buffer.rpos == old(buffer.rpos)
    {
      PutNumber(length, 4, [], tail);
      PutNumber(cookie, 4, LE(length, 4), tail);
      PutNumber(msgType, 1, LE(length, 4) + LE(cookie, 4), tail);
    }

    method PutMiddle(ghost tail: Bytes)
      requires buffer.Valid() && HEAD_FILL_UP <= |tail|
      requires buffer.val == HeadFront(Fields()) + tail[9..] && buffer.wpos == 9
      modifies buffer
      ensures buffer.Valid() && buffer.val == HeadFront(Fields()) + HeadMiddle(Fields()) + tail[16..]
      ensures buffer.wpos == 16 && buffer.rpos == old(buffer.rpos)
    {
      ghost var front := HeadFront(Fields());
      PutNumber(msgFlag, 1, front, tail);
      PutNumber(fromSvrType, 2, front + LE(msgFlag, 1), tail);
      PutNumber(fromSvrId, 4, front + LE(msgFlag, 1) + LE(fromSvrType, 2), tail);
    }

    method PutBack(ghost tail: Bytes)
      requires buffer.Valid() && HEAD_FILL_UP <= |tail|
      requires buffer.val == HeadFront(Fields()) + HeadMiddle(Fields()) + tail[16..] && buffer.wpos == 16
      modifies buffer
      ensures buffer.Valid() && buffer.val == EncodeHead(Fields()) + tail[HEAD_FILL_UP..]
      ensures buffer.wpos == HEAD_FILL_UP && buffer.rpos == old(buffer.rpos)
    {
      ghost var front := HeadFront(Fields()) + HeadMiddle(Fields());
      PutNumber(toSvrType, 2, front, tail);
      PutNumber(toSvrId, 4, front + LE(toSvrType, 2), tail);
      PutNumber(realFd, 4, front + LE(toSvrType, 2) + LE(toSvrId, 4), tail);
    }

    /** Writes the header fields over the first 26 bytes. The message is finished
        exactly when the write position was at its end, and that in 32 bits. */
    method EndMsg()
      requires Valid()
      modifies this`length, buffer
      ensures Valid() && Fields() == old(Fields()).(length := old(buffer.wpos) % 0x1_0000_0000)
      ensures Finished() <==> old(buffer.wpos) == |old(buffer.val)| < 0x1_0000_0000
      ensures buffer.val == EncodeHead(Fields()) + old(buffer.val)[HEAD_FILL_UP..]
      ensures buffer.wpos == old(buffer.wpos) && buffer.rpos == old(buffer.rpos)
    {
      length := buffer.wpos % 0x1_0000_0000;
      var wpos := buffer.wpos;
      ghost var tail := buffer.val;
      buffer.wpos := 0;
      PutFront(tail);
      PutMiddle(tail);
      PutBack(tail);
      buffer.wpos := wpos;
      assert EncodeHead(Fields()) <= buffer.val && |buffer.val| == |tail|;
    }

    method ReadFront()
      requires Valid() && buffer.rpos == 0
      modifies this`length, this`cookie, this`msgType, this`msgFlag, this`fromSvrType, buffer`rpos
      ensures buffer.Valid() && buffer.rpos == 12
      ensures var h := DecodeHead(buffer.val);
              && length == h.length && cookie == h.cookie && msgType == h.msgType
              && msgFlag == h.msgFlag && fromSvrType == h.fromSvrType
    {
      length := TakeNumber(buffer, 4);
      cookie := TakeNumber(buffer, 4);
      msgType := TakeNumber(buffer, 1);
      msgFlag := TakeNumber(buffer, 1);
      fromSvrType := TakeNumber(buffer, 2);
    }

    method ReadBack()
      requires Valid() && buffer.rpos == 12
      modifies this`realFd, this`toSvrType, this`toSvrId, buffer`rpos
      ensures buffer.Valid()
      ensures var h := DecodeHead(buffer.val);
              toSvrType == h.toSvrType && toSvrId == h.toSvrId && realFd == h.realFd
    {
      realFd := TakeNumber(buffer, 4);
      toSvrType := TakeNumber(buffer, 2);
      toSvrId := TakeNumber(buffer, 4);
      realFd := TakeNumber(buffer, 4);
    }

    method ReadFields()
      requires Valid() && buffer.rpos == 0
      modifies this, buffer`rpos
      ensures buffer == old(buffer) && buffer.Valid() && packName == old(packName)
      ensures Fields() == DecodeHead(buffer.val).(fromSvrId := old(fromSvrId))
    {
      ReadFront();
      ReadBack();
    }

    /** Reads the header back from the bytes. The source's `read_head` stores the
        sender's id in `real_fd`, which the last field then overwrites, so
        `fromSvrId` keeps its old value. */
    method ReadHead() returns (ok: bool)
      requires Valid()
      modifies this, buffer`rpos
      ensures Valid() && buffer == old(buffer) && buffer.val == old(buffer.val)
      ensures ok <==> StringAt(buffer.val, HEAD_FILL_UP).Some?
      ensures Fields() == DecodeHead(buffer.val).(fromSvrId := old(fromSvrId))
      ensures Fields() == DecodeHead(buffer.val) <==> old(fromSvrId) == DecodeHead(buffer.val).fromSvrId
      ensures ok ==> buffer.rpos == old(buffer.rpos) && Some(packName) == StringAt(buffer.val, HEAD_FILL_UP)
    {
      var rpos := buffer.rpos;
      buffer.rpos := 0;
      ReadFields();
      buffer.rpos := HEAD_FILL_UP;
      var name := buffer.DecodeStrRaw();
      if name == None {
        return false;
      }
      packName := name.value;
      buffer.rpos := rpos;
      ok := true;
    }

    /** A message object around the fields and bytes of a parsed frame. */
    constructor FromParts(h: Head, name: Bytes, b: Buffer)
      requires b.Valid() && HEAD_FILL_UP <= |b.val|
      ensures buffer == b && Fields() == h && packName == name
    {
      buffer := b;
      length, cookie, msgType, msgFlag := h.length, h.cookie, h.msgType, h.msgFlag;
      fromSvrType, fromSvrId, toSvrType, toSvrId, realFd := h.fromSvrType, h.fromSvrId, h.toSvrType, h.toSvrId,
        h.realFd;
      packName := name;
    }

    /** Patches the cookie in the header without touching anything else; the
        message is finished then exactly when it was but for its cookie. */
    method SetCookie(cookie: u32)
      requires Valid()
      modifies this`cookie, buffer
      ensures Valid() && Fields() == old(Fields()).(cookie := cookie)
      ensures buffer.val == WithCookie(old(buffer.val), cookie)
      ensures buffer.wpos == old(buffer.wpos) && buffer.rpos == old(buffer.rpos)
      ensures Finished() <==>
                |old(buffer.val)| == old(buffer.wpos) == length && SpelledButCookie(old(Fields()), old(buffer.val))
      ensures old(Finished()) ==> Finished()
    {
      ghost var before, head := buffer.val, Fields();
      this.cookie := cookie;
      var wpos := buffer.wpos;
      buffer.wpos := 4;
      assert buffer.val == before[..4] + before[4..];
      PutNumber(cookie, 4, before[..4], before);
      buffer.wpos := wpos;
      CookiePatched(head, cookie, before);
      assert |buffer.val| == |before|;
      assert EncodeHead(head) <= before ==> SpelledButCookie(head, before);
    }
  }

  method TakeHead(buffer: Buffer) returns (h: Head)
    requires buffer.Valid() && buffer.rpos == 0 && HEAD_FILL_UP <= |buffer.val|
    modifies buffer`rpos
    ensures buffer.Valid() && h == DecodeHead(buffer.val)
  {
    var length := TakeNumber(buffer, 4);
    var cookie := TakeNumber(buffer, 4);
    var msgType := TakeNumber(buffer, 1);
    var msgFlag := TakeNumber(buffer, 1);
    var fromSvrType := TakeNumber(buffer, 2);
    var fromSvrId := TakeNumber(buffer, 4);
    var toSvrType := TakeNumber(buffer, 2);
    var toSvrId := TakeNumber(buffer, 4);
    var realFd := TakeNumber(buffer, 4);
    h := Head(length, cookie, msgType, msgFlag, fromSvrType, fromSvrId, toSvrType, toSvrId, realFd);
  }

  /** Builds a message from a received frame; fails on a frame that is too
      short, has the wrong length in it, or no readable name. */
  method NewByData(data: Bytes) returns (r: Result<NetMsg, MsgError>)
    ensures r.Ok? <==> ParseMsg(data).Ok?
    ensures r.Err? ==> r.error == ParseMsg(data).error
    ensures r.Ok? ==>
              && fresh(r.value) && fresh(r.value.buffer) && r.value.Valid()
              && r.value.View() == ParseMsg(data).value
  {
    if |data| < HEAD_FILL_UP {
      return Err(TooSmall);
    }
    var buffer := new Buffer();
    buffer.Write(data);
    assert buffer.val == data;
    var head := TakeHead(buffer);
    if |data| != head.length {
      return Err(LengthMismatch);
    }
    buffer.rpos := HEAD_FILL_UP;
    var packName := buffer.DecodeStrRaw();
    if packName == None {
      return Err(BadName);
    }
    buffer.rpos := HEAD_FILL_UP;
    var msg := new NetMsg.FromParts(head, packName.value, buffer);
    r := Ok(msg);
  }

  /** A finished message is parsed back, with all its fields, exactly when a
      name can be read after its header. */
  lemma FinishedRoundTrip(m: Msg)
    requires |m.data| >= HEAD_FILL_UP && m.head.length == |m.data| && EncodeHead(m.head) <= m.data
    ensures ParseMsg(m.data).Ok? <==> StringAt(m.data, HEAD_FILL_UP).Some?
    ensures ParseMsg(m.data) == Ok(m) <==> StringAt(m.data, HEAD_FILL_UP) == Some(m.packName)
  {
    HeadRoundTrip(m.head, m.data);
  }
}
