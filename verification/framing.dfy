/**
  Reads to frames.

  A read may hold half a frame or three of them.  The reference parser works on the whole
  stream; `FrameDecoder` takes it in arbitrary pieces, keeps a payload only when the sink
  does not want it streamed, and must deliver the same frames.
  */
module Framing {
  import opened Wire

  const BAD_MAGIC: nat := 1
  const BAD_VERSION: nat := 2
  const PAYLOAD_TOO_LARGE: nat := 4

  datatype Frame = Frame(header: Header, payload: Bytes)

  // ---------------------------------------------------------------- the whole stream

  /** The error code for a header, 0 when it is acceptable. */
  function HeaderError(h: Header): nat {
    if h.magic != MAGIC then BAD_MAGIC
    else if h.version != VERSION then BAD_VERSION
    else if h.len > MAX_PAYLOAD then PAYLOAD_TOO_LARGE
    else 0
  }

  function HeadOf(s: Bytes): Header
    requires |s| >= HEADER_SIZE
  {
    HeaderOf(s[..HEADER_SIZE])
  }

  function FrameSize(s: Bytes): nat
    requires |s| >= HEADER_SIZE
  {
    HEADER_SIZE + HeadOf(s).len
  }

  /** The header is settled by the first sixteen octets. */
  lemma HeadOfStart(s: Bytes, n: nat)
    requires HEADER_SIZE <= n <= |s|
    ensures HeadOf(s[..n]) == HeadOf(s)
    ensures FrameSize(s[..n]) == FrameSize(s) >= HEADER_SIZE
  {
    assert s[..n][..HEADER_SIZE] == s[..HEADER_SIZE];
  }

  /** Frames in order, the octets of a frame still incomplete, and why parsing stopped. */
  datatype Parsed = Parsed(frames: seq<Frame>, rest: Bytes, error: nat)

  function ParseStream(s: Bytes): Parsed
    decreases |s|
  {
    if |s| < HEADER_SIZE then Parsed([], s, 0)
    else if HeaderError(HeadOf(s)) != 0 then Parsed([], s[..HEADER_SIZE], HeaderError(HeadOf(s)))
    else if |s| < FrameSize(s) then Parsed([], s, 0)
    else
      var r := ParseStream(s[FrameSize(s)..]);
      Parsed([Frame(HeadOf(s), s[HEADER_SIZE..FrameSize(s)])] + r.frames, r.rest, r.error)
  }

  /** Does parsing stop here: no header yet, a bad one, or a frame still incomplete? */
  predicate Stops(s: Bytes) {
    |s| < HEADER_SIZE || HeaderError(HeadOf(s)) != 0 || |s| < FrameSize(s)
  }

  lemma ParseStops(s: Bytes)
    requires Stops(s)
    ensures ParseStream(s) ==
            if |s| < HEADER_SIZE || HeaderError(HeadOf(s)) == 0 then Parsed([], s, 0)
            else Parsed([], s[..HEADER_SIZE], HeaderError(HeadOf(s)))
  {}

  lemma ParseStep(s: Bytes, n: nat)
    requires !Stops(s) && n == FrameSize(s)
    ensures ParseStream(s) ==
            var r := ParseStream(s[n..]);
            Parsed([Frame(HeadOf(s), s[HEADER_SIZE..n])] + r.frames, r.rest, r.error)
  {}

  /**
    What sixteen octets are taken for: without the letters refused as BAD_MAGIC (1), with a version
    other than 1 as BAD_VERSION (2), above 4 MiB as PAYLOAD_TOO_LARGE (4), and nothing after them
    is looked at; otherwise the frame is delivered once its payload is there.
    */
  lemma HeaderDecides(s: Bytes)
    requires |s| >= 16
    ensures var p, len := ParseStream(s), Value(s[8..16]);
            if s[..4] != "BYDA" then p == Parsed([], s[..16], 1)
            else if s[4] as int != 1 then p == Parsed([], s[..16], 2)
            else if len > 4194304 then p == Parsed([], s[..16], 4)
            else if |s| < 16 + len then p == Parsed([], s, 0)
            else p.frames != [] && p.frames[0].header.kind == s[5] as int && p.frames[0].payload == s[16..16+len]
  {
    hide Value, BigEndian, ParseStream;
    var b := s[..16];
    assert b[0..4] == s[..4] && b[8..16] == s[8..16];
    BigEndianOfValue(s[..4]);
    LettersAre();
    if Stops(s) { ParseStops(s); } else { ParseStep(s, FrameSize(s)); }
  }

  /** Parsing read by read, with the incomplete frame carried over and failure final. */
  function ParseReads(seen: Bytes, cuts: seq<Bytes>): Parsed
    decreases |cuts|
  {
    if cuts == [] then Parsed([], seen, 0)
    else
      var r := ParseStream(seen + cuts[0]);
      if r.error != 0 then r
      else
        var r' := ParseReads(r.rest, cuts[1..]);
        Parsed(r.frames + r'.frames, r'.rest, r'.error)
  }

  function Joined(cuts: seq<Bytes>): Bytes {
    if cuts == [] then [] else cuts[0] + Joined(cuts[1..])
  }

  lemma {:induction false} ParseConcat(a: Bytes, b: Bytes)
    ensures var p, q := ParseStream(a), ParseStream(a + b);
            if p.error != 0 then q == p
            else
              var r := ParseStream(p.rest + b);
              q.frames == p.frames + r.frames && q.rest == r.rest && q.error == r.error
    decreases |a|
  {
    hide HeadOf, HeaderError, ParseStream;
    if |a| >= HEADER_SIZE {
      assert (a + b)[..|a|] == a;
      assert (a + b)[..HEADER_SIZE] == a[..HEADER_SIZE];
      HeadOfStart(a + b, |a|);
    }
    if Stops(a) {
      ParseStops(a);
      if |a| >= HEADER_SIZE && HeaderError(HeadOf(a)) != 0 { ParseStops(a + b); }
    } else {
      var n := FrameSize(a);
      ParseStep(a, n);
      ParseStep(a + b, n);
      ParseConcat(a[n..], b);
      assert (a + b)[n..] == a[n..] + b;
      assert (a + b)[HEADER_SIZE..n] == a[HEADER_SIZE..n];
    }
  }

  lemma {:induction false} ParseRest(s: Bytes)
    ensures ParseStream(s).error == 0 ==> ParseStream(ParseStream(s).rest) == Parsed([], ParseStream(s).rest, 0)
    decreases |s|
  {
    if |s| >= HEADER_SIZE && HeaderError(HeadOf(s)) == 0 && |s| >= FrameSize(s) {
      ParseRest(s[FrameSize(s)..]);
    }
  }

  /**
    Cutting the stream anywhere changes neither the frames nor the failure: parsing read by
    read is parsing the whole stream.
    */
  lemma {:induction false} ReadsDoNotMatter(seen: Bytes, cuts: seq<Bytes>)
    requires ParseStream(seen) == Parsed([], seen, 0)
    ensures ParseReads(seen, cuts) == ParseStream(seen + Joined(cuts))
    decreases |cuts|
  {
    if cuts == [] {
      assert seen + Joined(cuts) == seen;
    } else {
      var rest := Joined(cuts[1..]);
      assert seen + Joined(cuts) == (seen + cuts[0]) + rest;
      ParseConcat(seen + cuts[0], rest);
      var r := ParseStream(seen + cuts[0]);
      if r.error == 0 {
        ParseRest(seen + cuts[0]);
        ReadsDoNotMatter(r.rest, cuts[1..]);
      }
    }
  }

  // ---------------------------------------------------------------- serializing

  datatype Outgoing = Outgoing(kind: nat, payload: Bytes) {
    predicate Fits() {
      kind < 0x100 && |payload| <= MAX_PAYLOAD
    }

    function Header(): Wire.Header {
      Wire.Header(MAGIC, VERSION, kind, 0, |payload|)
    }
  }

  function Serialize(m: Outgoing): Bytes
    requires m.Fits()
  {
    HeaderBytes(m.Header()) + m.payload
  }

  method SerializeFrame(m: Outgoing) returns (out: Bytes)
    requires m.Fits()
    ensures out == Serialize(m)
  {
    hide HeaderBytes;
    var head := new Octet[HEADER_SIZE];
    EncodeHeader(m.Header(), head);
    out := head[..];
    out := out + m.payload;
  }

  function SerializeAll(ms: seq<Outgoing>): Bytes
    requires forall i | 0 <= i < |ms| :: ms[i].Fits()
  {
    if ms == [] then [] else Serialize(ms[0]) + SerializeAll(ms[1..])
  }

  function FramesOf(ms: seq<Outgoing>): seq<Frame> {
    if ms == [] then [] else [Frame(ms[0].Header(), ms[0].payload)] + FramesOf(ms[1..])
  }

  lemma SerializedHead(m: Outgoing, s: Bytes)
    requires m.Fits()
    ensures var t := Serialize(m) + s;
            && |t| >= HEADER_SIZE && HeadOf(t) == m.Header() && HeaderError(HeadOf(t)) == 0
            && t[..HEADER_SIZE] == HeaderBytes(m.Header())
            && FrameSize(t) == HEADER_SIZE + |m.payload| <= |t|
            && t[HEADER_SIZE..FrameSize(t)] == m.payload && t[FrameSize(t)..] == s
  {
    hide HeaderBytes, HeaderOf;
    var t := Serialize(m) + s;
    assert t[..HEADER_SIZE] == HeaderBytes(m.Header());
    HeaderRoundTrip(m.Header());
  }

  lemma ParseSerialized(m: Outgoing, s: Bytes)
    requires m.Fits()
    ensures var r, q := ParseStream(s), ParseStream(Serialize(m) + s);
            && q.frames == [Frame(m.Header(), m.payload)] + r.frames
            && q.rest == r.rest && q.error == r.error
  {
    hide Serialize, HeadOf, FrameSize;
    SerializedHead(m, s);
    var t := Serialize(m) + s;
    assert ParseStream(t[FrameSize(t)..]) == ParseStream(s);
  }

  /** The receiver gets exactly the frames that were serialized. */
  lemma {:induction false} SerializedFramesArrive(ms: seq<Outgoing>, s: Bytes)
    requires forall i | 0 <= i < |ms| :: ms[i].Fits()
    ensures var r, q := ParseStream(s), ParseStream(SerializeAll(ms) + s);
            q.frames == FramesOf(ms) + r.frames && q.rest == r.rest && q.error == r.error
    decreases |ms|
  {
    hide Serialize, ParseStream;
    if ms == [] {
      assert SerializeAll(ms) + s == s;
      assert FramesOf(ms) + ParseStream(s).frames == ParseStream(s).frames;
    } else {
      SerializedFramesArrive(ms[1..], s);
      ParseSerialized(ms[0], SerializeAll(ms[1..]) + s);
      assert SerializeAll(ms) + s == Serialize(ms[0]) + (SerializeAll(ms[1..]) + s);
    }
  }

  // ---------------------------------------------------------------- one feed

  /** The octets of the current frame taken so far, and whether its payload is streamed. */
  datatype Dec = Dec(seen: Bytes, streaming: bool) {
    predicate Valid() {
      && (|seen| > HEADER_SIZE || streaming ==> |seen| >= HEADER_SIZE && HeaderError(HeadOf(seen)) == 0)
      && (|seen| >= HEADER_SIZE && HeaderError(HeadOf(seen)) == 0 ==> |seen| <= FrameSize(seen))
      && (streaming ==> HeadOf(seen).len > 0)
    }

    predicate Complete() {
      |seen| >= HEADER_SIZE && HeaderError(HeadOf(seen)) == 0 && |seen| == FrameSize(seen)
    }

    predicate Broken() {
      |seen| >= HEADER_SIZE && HeaderError(HeadOf(seen)) != 0
    }

    /** What has been handed to the sink of the current frame. */
    function Streamed(): Bytes
      requires Valid()
    {
      if streaming then seen[HEADER_SIZE..] else []
    }
  }

  const NewFrame := Dec([], false)

  datatype Status = NeedMore | Ready | Failed(code: nat)
  datatype Fed = Fed(dec: Dec, status: Status, used: nat, piece: Bytes)

  /** Going on from `d` up to `end`: the same frame, and the next piece of its payload. */
  lemma Onward(d: Dec, data: Bytes, end: nat)
    requires |d.seen| <= end <= |d.seen| + |data| && HEADER_SIZE <= end
    ensures var buf := d.seen + data;
            && buf[..end] == d.seen + data[..end - |d.seen|]
            && HeadOf(buf[..end]) == HeadOf(buf) && FrameSize(buf[..end]) == FrameSize(buf)
            && if |d.seen| < HEADER_SIZE then
                 buf[..end][HEADER_SIZE..] == buf[HEADER_SIZE..end]
               else
                 && HeadOf(d.seen) == HeadOf(buf) && FrameSize(d.seen) == FrameSize(buf)
                 && buf[..end][HEADER_SIZE..] == d.seen[HEADER_SIZE..] + buf[|d.seen|..end]
  {
    hide HeadOf, FrameSize;
    var buf := d.seen + data;
    HeadOfStart(buf, end);
    if |d.seen| >= HEADER_SIZE {
      HeadOfStart(buf, |d.seen|);
      assert buf[..|d.seen|] == d.seen;
    }
  }

  /** A feed takes what the current frame still needs and nothing beyond it. */
  function FeedDec(d: Dec, data: Bytes, accept: (nat, nat) -> bool): (r: Fed)
    requires d.Valid()
    ensures r.dec.Valid()
    ensures r.used <= |data| && r.dec.seen == d.seen + data[..r.used]
    ensures r.status.Ready? <==> r.dec.Complete()
    ensures r.status.Failed? <==> r.dec.Broken()
    ensures r.status.Failed? ==> r.status.code == HeaderError(HeadOf(r.dec.seen))
    ensures r.status.NeedMore? ==> r.used == |data|
    ensures data != [] && !d.Complete() && !d.Broken() ==> r.used > 0
    ensures d.Streamed() + r.piece == r.dec.Streamed()
  {
    hide HeadOf, HeaderError;
    var buf := d.seen + data;
    if |buf| < HEADER_SIZE then
      Fed(Dec(buf, false), NeedMore, |data|, [])
    else
      var h := HeadOf(buf);
      if HeaderError(h) != 0 then
        assert |d.seen| >= HEADER_SIZE ==> HeadOf(d.seen) == h by { Onward(d, data, |buf|); }
        Onward(d, data, HEADER_SIZE);
        Fed(Dec(buf[..HEADER_SIZE], false), Failed(HeaderError(h)), HEADER_SIZE - |d.seen|, [])
      else
        var end := if |buf| < FrameSize(buf) then |buf| else FrameSize(buf);
        assert |d.seen| >= HEADER_SIZE ==> FrameSize(d.seen) == FrameSize(buf) && HeadOf(d.seen) == h by {
          Onward(d, data, |buf|);
        }
        Onward(d, data, end);
        var streaming := if |d.seen| < HEADER_SIZE then h.len > 0 && accept(h.kind, h.len) else d.streaming;
        var from := if |d.seen| < HEADER_SIZE then HEADER_SIZE else |d.seen|;
        var piece := if streaming then buf[from..end] else [];
        Fed(Dec(buf[..end], streaming), if end == FrameSize(buf) then Ready else NeedMore,
            end - |d.seen|, piece)
  }

  /** What one feed means for the frames of the stream. */
  lemma FeedParses(d: Dec, data: Bytes, accept: (nat, nat) -> bool)
    requires d.Valid() && !d.Complete()
    ensures var r := FeedDec(d, data, accept);
            var whole := ParseStream(d.seen + data);
            match r.status
            case NeedMore => whole == Parsed([], r.dec.seen, 0)
            case Failed(code) => whole == Parsed([], r.dec.seen, code)
            case Ready =>
              var later := ParseStream(data[r.used..]);
              && whole.frames == [Frame(HeadOf(r.dec.seen), r.dec.seen[HEADER_SIZE..])] + later.frames
              && whole.rest == later.rest && whole.error == later.error
  {
    hide HeadOf, HeaderError, FrameSize, ParseStream, FeedDec, Dec.Streamed;
    var r := FeedDec(d, data, accept);
    if r.status.Ready? {
      TakenAndLeft(d.seen, data, r.used);
      ParseFrame(r.dec.seen, data[r.used..]);
    } else {
      ParseShort(d, data, accept);
    }
  }

  lemma TakenAndLeft(seen: Bytes, data: Bytes, used: nat)
    requires used <= |data|
    ensures seen + data == (seen + data[..used]) + data[used..]
  {
  }

  lemma ParseFrame(frame: Bytes, s: Bytes)
    requires Dec(frame, false).Complete()
    ensures var whole, later := ParseStream(frame + s), ParseStream(s);
            && whole.frames == [Frame(HeadOf(frame), frame[HEADER_SIZE..])] + later.frames
            && whole.rest == later.rest && whole.error == later.error
  {
    hide HeadOf, HeaderError, ParseStream;
    var t := frame + s;
    assert t[..|frame|] == frame;
    HeadOfStart(t, |frame|);
    ParseStep(t, |frame|);
    assert t[|frame|..] == s;
    assert t[HEADER_SIZE..|frame|] == frame[HEADER_SIZE..];
  }

  lemma ParseShort(d: Dec, data: Bytes, accept: (nat, nat) -> bool)
    requires d.Valid() && !FeedDec(d, data, accept).status.Ready?
    ensures var r := FeedDec(d, data, accept);
            ParseStream(d.seen + data) == Parsed([], r.dec.seen, if r.status.Failed? then r.status.code else 0)
  {
    hide HeadOf, HeaderError, FrameSize, ParseStream, FeedDec, Dec.Streamed;
    var buf, r := d.seen + data, FeedDec(d, data, accept);
    assert data[..|data|] == data;
    if r.status.Failed? { Onward(d, data, HEADER_SIZE); }
    ParseStops(buf);
  }

  lemma NextPayload(d: Dec, data: Bytes, accept: (nat, nat) -> bool, take: nat)
    requires d.Valid() && |d.seen| >= HEADER_SIZE && !d.Complete() && !d.Broken()
    requires take == var want := FrameSize(d.seen) - |d.seen|; if |data| < want then |data| else want
    ensures HeadOf(d.seen + data[..take]) == HeadOf(d.seen)
    ensures FeedDec(d, data, accept)
            == Fed(Dec(d.seen + data[..take], d.streaming),
                   if |d.seen| + take == FrameSize(d.seen) then Ready else NeedMore,
                   take, if d.streaming then data[..take] else [])
  {
    var buf := d.seen + data;
    assert buf[..HEADER_SIZE] == d.seen[..HEADER_SIZE];
    assert (d.seen + data[..take])[..HEADER_SIZE] == d.seen[..HEADER_SIZE];
    assert buf[..|d.seen|+take] == d.seen + data[..take];
    assert buf[|d.seen|..|d.seen|+take] == data[..take];
  }

  /** A feed that completes the header goes on with the payload in the rest of the data. */
  lemma FeedThroughHeader(d: Dec, data: Bytes, accept: (nat, nat) -> bool)
    requires d.Valid() && |d.seen| < HEADER_SIZE <= |d.seen| + |data|
    ensures var n := HEADER_SIZE - |d.seen|;
            var head := d.seen + data[..n];
            var h := HeadOf(head);
            && head[..HEADER_SIZE] == head
            && if HeaderError(h) != 0 then
                 FeedDec(d, data, accept) == Fed(Dec(head, false), Failed(HeaderError(h)), n, [])
               else if h.len == 0 then
                 FeedDec(d, data, accept) == Fed(Dec(head, false), Ready, n, [])
               else
                 var r := FeedDec(Dec(head, accept(h.kind, h.len)), data[n..], accept);
                 FeedDec(d, data, accept) == Fed(r.dec, r.status, n + r.used, r.piece)
  {
    hide HeaderOf;
    var n := HEADER_SIZE - |d.seen|;
    var head := d.seen + data[..n];
    assert head[..HEADER_SIZE] == head;
    assert (d.seen + data)[..HEADER_SIZE] == head;
    assert head + data[n..] == d.seen + data;
  }

  lemma FeedComplete(d: Dec, data: Bytes, accept: (nat, nat) -> bool)
    requires d.Valid() && d.Complete()
    ensures FeedDec(d, data, accept) == Fed(d, Ready, 0, [])
  {
    var buf := d.seen + data;
    assert buf[..HEADER_SIZE] == d.seen[..HEADER_SIZE];
    assert buf[..|d.seen|] == d.seen;
  }

  /** Failure is sticky: the same header is refused again and nothing is consumed. */
  lemma FeedBroken(d: Dec, data: Bytes, accept: (nat, nat) -> bool)
    requires d.Valid() && d.Broken()
    ensures FeedDec(d, data, accept) == Fed(d, Failed(HeaderError(HeadOf(d.seen))), 0, [])
  {
    var buf := d.seen + data;
    assert |d.seen| == HEADER_SIZE;
    assert buf[..HEADER_SIZE] == d.seen && d.seen[..HEADER_SIZE] == d.seen;
  }

  lemma NothingMore(d: Dec, accept: (nat, nat) -> bool)
    requires d.Valid() && !d.Complete()
    ensures var p := ParseStream(d.seen); p.frames == [] && p.rest == d.seen
    ensures d.seen == [] ==> ParseStream(d.seen).error == 0
  {
    assert d.seen + [] == d.seen;
    var r := FeedDec(d, [], accept);
    ParseShort(d, [], accept);
  }

  /** Copying a piece into the payload buffer behind what is there. */
  lemma CopiedInto(buf: Bytes, got: nat, piece: Bytes)
    requires got + |piece| <= |buf|
    ensures var r := buf[..got] + piece + buf[got+|piece|..];
            |r| == |buf| && r[..got+|piece|] == buf[..got] + piece
            && (got + |piece| == |buf| ==> r == buf[..got] + piece)
  {
  }

  lemma AfterHeader(seen: Bytes, piece: Bytes)
    requires |seen| >= HEADER_SIZE
    ensures (seen + piece)[HEADER_SIZE..] == seen[HEADER_SIZE..] + piece
  {
  }

  // ---------------------------------------------------------------- the decoder itself

  datatype DecoderState = InHeader | InPayload | Completed

  class FrameDecoder {
    var state: DecoderState
    const headRaw: array<Octet>
    var headGot: nat
    var header: Header
    var payload: Bytes
    var payloadGot: nat
    var streaming: bool
    var error: nat
    ghost var seen: Bytes   // every octet of the current frame taken so far

    ghost predicate Valid()
      reads this, headRaw
    {
      && headRaw.Length == HEADER_SIZE && headGot <= HEADER_SIZE
      && Model().Valid()
      && (state.InHeader? ==>
            && |seen| == headGot && seen == headRaw[..headGot] && !streaming && payload == []
            && (headGot == HEADER_SIZE ==> Model().Broken()))
      && (!state.InHeader? ==>
            && headGot == HEADER_SIZE <= |seen| && !Model().Broken()
            && header == HeadOf(seen)
            && (header.len > 0 ==> payloadGot == |seen| - HEADER_SIZE)
            && (streaming ==> payload == [])
            && (!streaming ==> |payload| == header.len
                               && payload[..|seen| - HEADER_SIZE] == seen[HEADER_SIZE..]))
      && (state.InPayload? ==> header.len > 0 && !Model().Complete())
      && (state.Completed? ==> Model().Complete())
    }

    ghost function Model(): Dec
      reads this
    {
      Dec(seen, streaming)
    }

    constructor ()
      ensures Valid() && Model() == NewFrame && fresh(headRaw)
    {
      state, headGot, payload, payloadGot, streaming, error := InHeader, 0, [], 0, false, 0;
      header := Header(MAGIC, VERSION, 0x7F, 0, 0);
      headRaw := new Octet[HEADER_SIZE];
      seen := [];
    }

    method ResetFrame()
      requires Valid()
      modifies this
      ensures Valid() && Model() == NewFrame
    {
      state, headGot, payloadGot, payload, streaming, error := InHeader, 0, 0, [], false, 0;
      seen := [];
    }

    /** Copies into the header buffer what it still lacks. */
    method TakeHeader(data: Bytes) returns (take: nat)
      requires headRaw.Length == HEADER_SIZE && headGot <= HEADER_SIZE && seen == headRaw[..headGot]
      modifies this`headGot, this`seen, headRaw
      ensures take == if |data| < HEADER_SIZE - old(headGot) then |data| else HEADER_SIZE - old(headGot)
      ensures headGot == old(headGot) + take
      ensures seen == old(seen) + data[..take] == headRaw[..headGot]
    {
      var want := HEADER_SIZE - headGot;
      take := if |data| < want then |data| else want;
      var i := 0;
      while i < take
        invariant i <= take
        invariant headGot == old(headGot) && seen == old(seen)
        invariant headRaw[..headGot+i] == seen + data[..i]
      {
        headRaw[headGot+i] := data[i];
        i := i + 1;
      }
      headGot := headGot + take;
      seen := seen + data[..take];
    }

    method DecodeHeader()
      requires headRaw.Length == HEADER_SIZE
      modifies this`header
      ensures header == HeaderOf(headRaw[..])
    {
      var raw := headRaw[..];
      assert raw[0..4] == headRaw[0..4] && raw[6..8] == headRaw[6..8] && raw[8..16] == headRaw[8..16];
      var len := LoadBe64(headRaw, 8);
      header := Header(Value(headRaw[0..4]), headRaw[4] as int, headRaw[5] as int,
                       Value(headRaw[6..8]), len);
    }

    /** With the header complete: refuses it, or decides where the payload goes. */
    method StartFrame(accept: (nat, nat) -> bool) returns (status: Status)
      requires headRaw.Length == HEADER_SIZE && state == InHeader && headGot == HEADER_SIZE
      requires seen == headRaw[..] && !streaming && payload == []
      modifies this
      ensures Valid() && headGot == HEADER_SIZE && seen == old(seen)
      ensures var h := HeaderOf(seen);
              if HeaderError(h) != 0 then
                status == Failed(HeaderError(h)) && error == HeaderError(h) && state == InHeader && !streaming
              else
                && header == h
                && if h.len == 0 then
                     status == Ready && state == Completed && !streaming && payload == []
                   else
                     status == NeedMore && state == InPayload && streaming == accept(h.kind, h.len)
    {
      hide HeaderOf;
      assert headRaw[..HEADER_SIZE] == headRaw[..] && seen[..HEADER_SIZE] == seen;
      DecodeHeader();
      if header.magic != MAGIC {
        error := BAD_MAGIC;
        return Failed(BAD_MAGIC);
      }
      if header.version != VERSION {
        error := BAD_VERSION;
        return Failed(BAD_VERSION);
      }
      if header.len > MAX_PAYLOAD {
        error := PAYLOAD_TOO_LARGE;
        return Failed(PAYLOAD_TOO_LARGE);
      }
      if header.len == 0 {
        state := Completed;
        return Ready;
      }
      streaming := accept(header.kind, header.len);
      if !streaming {
        payload := seq(header.len, _ => 0 as char);
      }
      payloadGot := 0;
      state := InPayload;
      status := NeedMore;
    }

    /** The payload part of a feed: hands over or copies, up to the end of the frame. */
    method TakePayload(data: Bytes, ghost accept: (nat, nat) -> bool)
      returns (status: Status, take: nat, piece: Bytes)
      requires Valid() && state == InPayload
      modifies this
      ensures Valid()
      ensures Fed(Model(), status, take, piece) == FeedDec(old(Model()), data, accept)
      ensures !status.Failed?
      ensures status.Ready? ==> header == HeadOf(seen)
      ensures status.Ready? && !streaming ==> payload == seen[HEADER_SIZE..]
    {
      hide HeadOf, HeaderError, FeedDec, Dec.Streamed;
      var total := header.len;
      var want := total - payloadGot;
      take := if |data| < want then |data| else want;
      piece := [];
      ghost var next := FeedDec(Model(), data, accept);
      NextPayload(Model(), data, accept, take);
      if streaming {
        piece := data[..take];
      } else {
        CopiedInto(payload, payloadGot, data[..take]);
        payload := payload[..payloadGot] + data[..take] + payload[payloadGot+take..];
      }
      AfterHeader(seen, data[..take]);
      payloadGot := payloadGot + take;
      seen := seen + data[..take];
      if payloadGot < total {
        status := NeedMore;
      } else {
        state := Completed;
        status := Ready;
      }
    }

    /**
      Takes one piece of the stream.  `accept` is the sink's answer for a message type and
      length; `piece` is what a sink that streams the payload is handed by this call.
      */
    method Feed(data: Bytes, accept: (nat, nat) -> bool)
      returns (status: Status, used: nat, piece: Bytes)
      requires Valid()
      modifies this, headRaw
      ensures Valid()
      ensures Fed(Model(), status, used, piece) == FeedDec(old(Model()), data, accept)
      ensures status.Failed? ==> error == status.code
      ensures status.Ready? ==> header == HeadOf(seen)
      ensures status.Ready? && !streaming ==> payload == seen[HEADER_SIZE..]
    {
      hide HeaderOf, FeedDec;
      used, piece := 0, [];
      if state == Completed {
        FeedComplete(Model(), data, accept);
        return Ready, 0, [];
      }
      if state == InHeader {
        if |seen| + |data| >= HEADER_SIZE && |seen| < HEADER_SIZE {
          FeedThroughHeader(Model(), data, accept);
        } else if |seen| == HEADER_SIZE {
          FeedBroken(Model(), data, accept);
        }
        used := TakeHeader(data);
        if headGot < HEADER_SIZE {
          return NeedMore, used, [];
        }
        status := StartFrame(accept);
        if status.Failed? || state == Completed {
          return status, used, [];
        }
      }
      var take;
      status, take, piece := TakePayload(data[used..], accept);
      used := used + take;
    }

    /** One turn of that loop: a frame is handed over whole, and the decoder starts afresh. */
    method NextFrame(data: Bytes, accept: (nat, nat) -> bool, partial: Bytes)
      returns (frame: Frame, status: Status, used: nat, partial': Bytes)
      requires Valid() && !Model().Complete() && partial == Model().Streamed()
      modifies this, headRaw
      ensures Valid() && !Model().Complete() && partial' == Model().Streamed()
      ensures used <= |data|
      ensures var whole := ParseStream(old(seen) + data);
              if status.Ready? then
                var later := ParseStream(data[used..]);
                && seen == [] && (data != [] ==> used > 0)
                && whole.frames == [frame] + later.frames
                && whole.rest == later.rest && whole.error == later.error
              else
                && whole.frames == [] && whole.rest == seen
                && whole.error == (if status.Failed? then status.code else 0)
    {
      hide HeadOf, HeaderOf, HeaderError, FrameSize, ParseStream, FeedDec;
      var piece;
      FeedParses(Model(), data, accept);
      if Model().Broken() { FeedBroken(Model(), data, accept); }
      status, used, piece := Feed(data, accept);
      partial' := partial + piece;
      frame := Frame(header, if streaming then partial' else payload);
      if status.Ready? {
        ResetFrame();
        partial' := [];
      }
    }

    /**
      The loop the decoder documents, run over one read with a sink that gathers streamed
      payloads.  `partial` is what the sink holds of the frame under way.
      */
    method Drain(data: Bytes, accept: (nat, nat) -> bool, partial: Bytes)
      returns (frames: seq<Frame>, err: nat, partial': Bytes)
      requires Valid() && !Model().Complete() && partial == Model().Streamed()
      modifies this, headRaw
      ensures Valid() && !Model().Complete() && partial' == Model().Streamed()
      ensures var p := ParseStream(old(seen) + data);
              && frames == p.frames && seen == p.rest
              && (data != [] ==> err == p.error)
    {
      hide ParseStream;
      frames, err, partial' := [], 0, partial;
      var off := 0;
      ghost var goal := ParseStream(seen + data);
      assert data[0..] == data;
      while off < |data|
        invariant off <= |data|
        invariant Valid() && !Model().Complete() && partial' == Model().Streamed()
        invariant var p := ParseStream(seen + data[off..]);
                  frames + p.frames == goal.frames && p.rest == goal.rest && p.error == goal.error
        invariant err == 0 && (off > 0 ==> seen == [])
        decreases |data| - off
      {
        ghost var rest := data[off..];
        var frame, status, used;
        frame, status, used, partial' := NextFrame(data[off..], accept, partial');
        off := off + used;
        if !status.Ready? {
          err := if status.Failed? then status.code else 0;
          return;
        }
        frames := frames + [frame];
        assert rest[used..] == data[off..] == [] + data[off..];
      }
      NothingMore(Model(), accept);
      assert seen + data[off..] == seen;
    }
  }
}
