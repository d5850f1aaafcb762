/**
  What a session makes of half a frame: a client that is stopped between the two writes of a
  frame leaves its header on the connection, and the next frame's octets make up for the payload.
  */
module HalfFrames {
  import opened Wire
  import opened Framing
  import opened Sessions
  import U = Uploads
  import V = Leaving

  /** The number in the first eight octets of a frame. */
  function FirstWord(o: Outgoing): nat
    requires o.Fits()
  {
    Value(Serialize(o)[..8])
  }

  /**
    The header of an UPLOAD_END without its claim, and then another frame: its first octets
    are taken for the claim, the end is refused, and the rest of the read is thrown away.
    */
  lemma HalfEndSwallows(env: Env, s: Sess, o: Outgoing)
    requires env.fmt.Plain() && s.phase.Uploading? && s.dec == NewFrame && o.Fits() && FirstWord(o) != s.up.declared
    ensures var header := HeaderBytes(Wire.Header(MAGIC, VERSION, UPLOAD_END, 0, 8));
            Process(env, s, header + Serialize(o)) == Abort(env, s, SIZE_MISMATCH).(dec := NewFrame)
  {
    hide Process, Serialize, Abort, Dispatch, HeaderBytes, Upload.Received, ResultText, Value;
    SerializedIs(o);
    var front := Serialize(o)[..8];
    var end := Outgoing(UPLOAD_END, front);
    SerializedIs(end);
    assert HeaderBytes(end.Header()) + Serialize(o) == Serialize(end) + Serialize(o)[8..];
    U.FrameProcessed(env, s, end, Serialize(o)[8..]);
    EndDispatched(env, s, front);
  }

  lemma SerializedIs(o: Outgoing)
    requires o.Fits()
    ensures Serialize(o) == HeaderBytes(o.Header()) + o.payload && |Serialize(o)| >= HEADER_SIZE
  {
  }

  lemma EndDispatched(env: Env, s: Sess, claim: Bytes)
    requires env.fmt.Plain() && s.phase.Uploading? && |claim| == 8 && Value(claim) != s.up.declared
    ensures Dispatch(env, s, Seen(UPLOAD_END, false, claim)) == Next(Abort(env, s, SIZE_MISMATCH), false)
  {
    hide Abort, Value, ResultText, Upload.Received, ReadField, SendAll, DoneMsg, ResultMsgs;
    ClaimRead(claim);
  }

  lemma ClaimRead(claim: Bytes)
    requires |claim| == 8
    ensures ReadField(K64, claim) == Got(U64(Value(claim)), [])
  {
    hide Value;
    assert claim[..8] == claim;
  }

  lemma ValueSnoc(b: Bytes, c: Octet)
    ensures Value(b + [c]) == Value(b) * 256 + c as int
  {
    assert (b + [c])[..|b + [c]|-1] == b;
  }

  /** For an UPLOAD_BEGIN that is the number the conversation model has. */
  lemma BeginSwallowed(payload: Bytes)
    requires Outgoing(UPLOAD_BEGIN, payload).Fits()
    ensures FirstWord(Outgoing(UPLOAD_BEGIN, payload)) == V.SWALLOWED
  {
    hide Value, Serialize;
    var o := Outgoing(UPLOAD_BEGIN, payload);
    var m: Bytes := BigEndian(MAGIC, 4);
    SerializedIs(o);
    assert BigEndian(0, 2) == [0 as char] + [0 as char] by { assert BigEndian(0, 1) == BigEndian(0, 0) + [0 as char]; }
    assert Serialize(o)[..8] == m + [VERSION as char] + [UPLOAD_BEGIN as char] + [0 as char] + [0 as char] by {
      hide BigEndian;
    }
    assert Pow256(4) == 0x1_0000_0000;
    ValueOfBigEndian(MAGIC, 4);
    ValueSnoc(m, VERSION as char);
    ValueSnoc(m + [VERSION as char], UPLOAD_BEGIN as char);
    ValueSnoc(m + [VERSION as char] + [UPLOAD_BEGIN as char], 0 as char);
    ValueSnoc(m + [VERSION as char] + [UPLOAD_BEGIN as char] + [0 as char], 0 as char);
  }

  // ---------------------------------------------------------------- half an UPLOAD_BEGIN

  /** What is not a frame is refused, whatever the state. */
  lemma GarbageRefused(env: Env, s: Sess, data: Bytes)
    requires env.fmt.Plain() && s.dec == NewFrame && !s.phase.Closing?
    requires |data| >= HEADER_SIZE && HeaderError(HeadOf(data)) != 0
    ensures Process(env, s, data)
            == Refuse(env, s, HeaderError(HeadOf(data))).(dec := Dec(data[..HEADER_SIZE], false))
  {
    hide HeaderOf, HeaderError, Refuse;
    assert NewFrame.seen + data == data;
  }

  /** The two octets behind the first word of a frame are the top of its length. */
  lemma EmptyName(o: Outgoing, n: nat)
    requires o.Fits() && 10 <= n <= |Serialize(o)|
    ensures var p := Serialize(o)[..n];
            ReadFields([K64, KStr], p) == ReadAll([U64(FirstWord(o)), Str("")], p[10..], true)
  {
    hide Serialize, Value;
    var p := Serialize(o)[..n];
    assert p[..8] == Serialize(o)[..8];
    LengthTop(o);
    assert p[8..][..2] == Serialize(o)[8..10];
    assert p[8..][2..] == p[10..] && p[8..][2..2] == "";
    assert ReadField(K64, p) == Got(U64(FirstWord(o)), p[8..]);
    assert ReadField(KStr, p[8..]) == Got(Str(""), p[10..]);
    ReadTwo(K64, KStr, p);
  }

  lemma ReadTwo(k: FieldKind, l: FieldKind, p: Bytes)
    requires ReadField(k, p).Got? && ReadField(l, ReadField(k, p).rest).Got?
    ensures var a := ReadField(k, p);
            var b := ReadField(l, a.rest);
            ReadFields([k, l], p) == ReadAll([a.f, b.f], b.rest, true)
  {
    hide ReadField;
    var a := ReadField(k, p);
    assert [k, l][1..] == [l] && [l][1..] == [];
    assert ReadFields([], ReadField(l, a.rest).rest).ok;
    assert ReadFields([l], a.rest).fields == [ReadField(l, a.rest).f];
  }

  lemma LengthTop(o: Outgoing)
    requires o.Fits()
    ensures |Serialize(o)| >= HEADER_SIZE && Value(Serialize(o)[8..10]) == 0
  {
    SerializedIs(o);
    var n := |o.payload|;
    assert Serialize(o)[8..10] == BigEndian(n, 8)[..2] by { hide BigEndian; }
    BigEndianDigit(n, 8, 0);
    BigEndianDigit(n, 8, 1);
    assert Pow256(7) > n && Pow256(6) > n by { assert Pow256(3) == 0x100_0000; assert Pow256(5) > Pow256(3); }
    TooSmall(n, Pow256(7));
    TooSmall(n, Pow256(6));
    var b := BigEndian(n, 8)[..2];
    assert b == [0 as char, 0 as char];
    assert b[..1] == [0 as char] && b[..1][..0] == [];
  }

  lemma TooSmall(n: nat, d: nat)
    requires n < d
    ensures n / d == 0
  {
  }

  /**
    The header of an UPLOAD_BEGIN without its payload, and then another UPLOAD_BEGIN: the first
    octets of that are taken for a size and an empty name, and the session is in an upload
    nobody asked for; what is left of the frame is dealt with as the next frame.
    */
  lemma HalfBeginSwallows(env: Env, s: Sess, payload: Bytes, n: nat)
    requires env.fmt.Plain() && s.phase.Ready? && s.dec == NewFrame
    requires Outgoing(UPLOAD_BEGIN, payload).Fits() && 10 <= n <= HEADER_SIZE + |payload| <= MAX_PAYLOAD
    ensures var o := Outgoing(UPLOAD_BEGIN, payload);
            var header := HeaderBytes(Wire.Header(MAGIC, VERSION, UPLOAD_BEGIN, 0, n));
            var up := Upload("", V.SWALLOWED, [], 0);
            var t := Send(env, s.(phase := Uploading, up := up, ended := false, result := ""), BeginAck(MAX_CHUNK));
            Process(env, s, header + Serialize(o)) == Process(env, t.(dec := NewFrame), Serialize(o)[n..])
  {
    hide Process, Serialize, Send, HeaderBytes, Value, ReadFields;
    var o := Outgoing(UPLOAD_BEGIN, payload);
    SerializedIs(o);
    BeginSwallowed(payload);
    var front := Serialize(o)[..n];
    var begin := Outgoing(UPLOAD_BEGIN, front);
    SerializedIs(begin);
    EmptyName(o, n);
    assert HeaderBytes(begin.Header()) + Serialize(o) == Serialize(begin) + Serialize(o)[n..];
    U.FrameProcessed(env, s, begin, Serialize(o)[n..]);
  }
}
