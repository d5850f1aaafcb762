/**
  The session as the server of the cancel protocol: however the frames of a sequence of
  requests are cut into reads, it does what `Serve` says of one request after the other.
  */
module Serving {
  import opened Wire
  import opened Framing
  import opened Sessions
  import L = Lines
  import P = CancelProtocol
  import U = Uploads

  /** What the protocol sees of a session. */
  function ServerOf(s: Sess): P.Server {
    if s.phase.Uploading? then P.Server(true, s.up.declared, s.up.Received(), s.closeAfterFlush)
    else P.Server(false, 0, 0, s.closeAfterFlush)
  }

  function ReplyOf(m: Msg): P.Rep
    requires !m.HelloAck?
  {
    match m
    case BeginAck(_) => P.BeginAck
    case Ack(received, _) => P.Ack(received)
    case Done(received, _, _, csvSize) => P.Done(received, csvSize)
    case ResultBegin(size) => P.ResBegin(size)
    case ResultChunk(text) => P.ResChunk(|text|)
    case ResultEnd => P.ResEnd
    case Error(code) => P.Err(code)
  }

  /** The messages `ms` show as the replies `rs`. */
  ghost predicate ShowAs(ms: seq<Msg>, rs: seq<P.Rep>) {
    |ms| == |rs| && forall i | 0 <= i < |ms| :: !ms[i].HelloAck? && ReplyOf(ms[i]) == rs[i]
  }

  /** The frame that carries a request. */
  ghost predicate Carries(o: Outgoing, m: P.Req, name: Bytes) {
    && o.Fits()
    && match m
    case Begin(total) =>
      && total < 0x1_0000_0000_0000_0000 && |name| < 0x1_0000
      && o == Outgoing(UPLOAD_BEGIN, EncodeAll([U64(total), Str(name)]))
    case Chunk(n) => o.kind == UPLOAD_CHUNK && |o.payload| == n <= MAX_PAYLOAD
    case End(claimed) => claimed < 0x1_0000_0000_0000_0000 && o == Outgoing(UPLOAD_END, EncodeAll([U64(claimed)]))
    case Cancel => o == Outgoing(CANCEL, [])
    case Garbage => false
  }

  /** From s to r the session sent what shows as these replies. */
  ghost predicate Replied(s: Sess, r: Sess, rs: seq<P.Rep>) {
    s.sent <= r.sent && ShowAs(r.sent[|s.sent|..], rs)
  }

  lemma RepliedAll(s: Sess, r: Sess, ms: seq<Msg>, rs: seq<P.Rep>)
    requires r.sent == s.sent + ms && ShowAs(ms, rs)
    ensures Replied(s, r, rs)
  {
    assert r.sent[|s.sent|..] == ms;
  }

  /** An abort under a transport that takes every write. */
  lemma AbortShows(env: Env, s: Sess, code: nat)
    requires Taken(env)
    ensures var r := Abort(env, s, code);
            && r.phase.Ready? && r.sent == s.sent + [Error(code)]
            && if code == CANCELLED then r.up == NoUpload && r.closeAfterFlush == s.closeAfterFlush
               else r.up == s.up && r.closeAfterFlush
  {
  }

  lemma ErrorsAre(a: nat, b: nat)
    ensures P.Errors([a]) == [P.Err(a)] && P.Errors([a, b]) == [P.Err(a), P.Err(b)]
  {
    assert [a, b][1..] == [b] && P.Errors([b]) == [P.Err(b)] + P.Errors([]);
  }

  /** What the protocol says of the session's answer to a request. */
  ghost predicate Serves(s: Sess, r: Sess, m: P.Req, ack: P.Due, csv: nat) {
    var v := P.Serve(ServerOf(s), m, ack, csv);
    ServerOf(r) == v.server && Replied(s, r, v.replies)
  }

  lemma ServesBadChunk(env: Env, s: Sess, n: nat)
    requires Taken(env) && s.phase.Uploading? && !(0 < n <= MAX_CHUNK)
    ensures Serves(s, Abort(env, s, PAYLOAD_TOO_LARGE), P.Chunk(n), P.NotDue, 0)
  {
    hide Upload.Received, Abort, Replied, P.Errors;
    ErrorsAre(PAYLOAD_TOO_LARGE, 0);
    AbortShows(env, s, PAYLOAD_TOO_LARGE);
    RepliedAll(s, Abort(env, s, PAYLOAD_TOO_LARGE), [Error(PAYLOAD_TOO_LARGE)], [P.Err(PAYLOAD_TOO_LARGE)]);
  }

  /** Anything but UPLOAD_BEGIN, CANCEL and BYE while idle. */
  lemma ServesIdle(env: Env, s: Sess, m: P.Req)
    requires Taken(env) && s.phase.Ready? && (m.Chunk? || m.End?)
    ensures Serves(s, Send(env, s, Error(UNEXPECTED_TYPE)), m, P.NotDue, 0)
  {
    hide Upload.Received, Replied;
    RepliedAll(s, Send(env, s, Error(UNEXPECTED_TYPE)), [Error(UNEXPECTED_TYPE)], [P.Err(UNEXPECTED_TYPE)]);
  }

  lemma NothingReceived(name: string, total: nat)
    ensures Upload(name, total, [], 0).Received() == 0
  {
  }

  /** A frame that is not streamed, as the dispatch sees it. */
  function Plainly(o: Outgoing): Seen {
    Seen(o.kind, false, o.payload)
  }

  /** What holds of the session after a request: it goes on unless it has refused. */
  ghost predicate Settled(n: Next) {
    (n.s.phase.Ready? || n.s.phase.Uploading?) && (n.goOn || n.s.closeAfterFlush)
  }

  lemma ServesChunk(env: Env, s: Sess, o: Outgoing, n: nat)
    requires env.fmt.Plain() && Taken(env) && Carries(o, P.Chunk(n), [])
    requires s.phase.Ready? || (s.phase.Uploading? && !(0 < n <= MAX_CHUNK))
    ensures var r := Dispatch(env, s, Plainly(o)); Serves(s, r.s, P.Chunk(n), P.NotDue, 0) && Settled(r)
  {
    hide Abort, Serves, Upload.Received, Send;
    if s.phase.Ready? {
      ServesIdle(env, s, P.Chunk(n));
      Answering(env, s, Error(UNEXPECTED_TYPE));
    } else {
      ServesBadChunk(env, s, n);
      AbortShows(env, s, PAYLOAD_TOO_LARGE);
    }
  }

  lemma Answering(env: Env, s: Sess, m: Msg)
    requires Taken(env) && !s.phase.Closing?
    ensures Send(env, s, m).phase == s.phase && Send(env, s, m).up == s.up
    ensures Send(env, s, m).closeAfterFlush == s.closeAfterFlush && Send(env, s, m).sent == s.sent + [m]
  {
  }

  lemma ServesCancel(env: Env, s: Sess, o: Outgoing)
    requires env.fmt.Plain() && Taken(env) && (s.phase.Ready? || s.phase.Uploading?)
    requires Carries(o, P.Cancel, [])
    ensures var r := Dispatch(env, s, Plainly(o)); Serves(s, r.s, P.Cancel, P.NotDue, 0) && Settled(r)
  {
    hide Abort, Replied, L.Flatten;
    var r := Dispatch(env, s, Plainly(o)).s;
    if s.phase.Ready? {
      RepliedAll(s, r, [], []);
    } else {
      AbortShows(env, s, CANCELLED);
      RepliedAll(s, r, [Error(CANCELLED)], [P.Err(CANCELLED)]);
    }
  }

  lemma ServesBegin(env: Env, s: Sess, o: Outgoing, total: nat, name: Bytes)
    requires env.fmt.Plain() && Taken(env) && (s.phase.Ready? || s.phase.Uploading?)
    requires Carries(o, P.Begin(total), name)
    ensures var r := Dispatch(env, s, Plainly(o)); Serves(s, r.s, P.Begin(total), P.NotDue, 0) && Settled(r)
  {
    hide Abort, Replied, L.Flatten, P.Errors, ReadFields, HandleBegin, EncodeAll;
    ErrorsAre(UNEXPECTED_TYPE, 0);
    var r := Dispatch(env, s, Plainly(o)).s;
    if s.phase.Uploading? {
      AbortShows(env, s, UNEXPECTED_TYPE);
      RepliedAll(s, r, [Error(UNEXPECTED_TYPE)], [P.Err(UNEXPECTED_TYPE)]);
    } else {
      BeginHandled(env, s, o.payload, total, name);
      if total == 0 {
        RepliedAll(s, r, [Error(SIZE_MISMATCH)], [P.Err(SIZE_MISMATCH)]);
      } else {
        RepliedAll(s, r, [BeginAck(MAX_CHUNK)], [P.BeginAck]);
        NothingReceived(name, total);
      }
    }
  }

  lemma BeginHandled(env: Env, s: Sess, payload: Bytes, total: nat, name: Bytes)
    requires Taken(env) && s.phase.Ready? && total < 0x1_0000_0000_0000_0000 && |name| < 0x1_0000
    requires payload == EncodeAll([U64(total), Str(name)])
    ensures HandleBegin(env, s, payload).goOn
    ensures HandleBegin(env, s, payload).s
            == if total == 0 then Send(env, s, Error(SIZE_MISMATCH))
               else Send(env, s.(phase := Uploading, up := Upload(name, total, [], 0), ended := false, result := ""),
                         BeginAck(MAX_CHUNK))
  {
    hide ReadFields, EncodeAll, Send;
    var fs := [U64(total), Str(name)];
    FieldsRoundTrip(fs, []);
    assert EncodeAll(fs) + [] == EncodeAll(fs);
    assert Kinds(fs) == [K64, KStr] by { assert Kinds(fs[1..]) == [KStr] + Kinds(fs[1..][1..]); }
  }

  /** The pieces of a result have the sizes the protocol gives them. */
  lemma {:induction false} PiecesShow(text: string)
    ensures ShowAs(Pieces(text), P.Pieces(|text|))
    decreases |text|
  {
    if |text| > RESULT_CHUNK {
      PiecesShow(text[RESULT_CHUNK..]);
    }
  }

  lemma AnswerShows(up: Upload, text: string)
    ensures ShowAs([DoneMsg(up, |text|)] + ResultMsgs(text), P.Answer(up.Received(), |text|))
  {
    hide Pieces, P.Pieces, Upload.Received, Upload.FinalStats, FiguresOf;
    PiecesShow(text);
  }

  lemma ServesMismatch(env: Env, s: Sess, claimed: nat)
    requires Taken(env) && s.phase.Uploading? && (s.up.Received() != s.up.declared || claimed != s.up.declared)
    ensures Serves(s, Abort(env, s, SIZE_MISMATCH), P.End(claimed), P.NotDue, 0)
  {
    hide Upload.Received, Abort, Replied, P.Errors;
    ErrorsAre(SIZE_MISMATCH, 0);
    AbortShows(env, s, SIZE_MISMATCH);
    RepliedAll(s, Abort(env, s, SIZE_MISMATCH), [Error(SIZE_MISMATCH)], [P.Err(SIZE_MISMATCH)]);
  }

  lemma ServesGoodEnd(s: Sess, r: Sess, text: string)
    requires s.phase.Uploading? && s.up.Received() == s.up.declared
    requires r.phase.Ready? && r.up == s.up && r.closeAfterFlush == s.closeAfterFlush
    requires r.sent == s.sent + ([DoneMsg(s.up, |text|)] + ResultMsgs(text))
    ensures Serves(s, r, P.End(s.up.declared), P.NotDue, |text|)
  {
    hide Upload.Received, Replied, DoneMsg, ResultMsgs, P.Answer;
    AnswerShows(s.up, text);
    RepliedAll(s, r, [DoneMsg(s.up, |text|)] + ResultMsgs(text), P.Answer(s.up.Received(), |text|));
  }

  lemma ServesEnd(env: Env, s: Sess, o: Outgoing, claimed: nat) returns (csv: nat)
    requires env.fmt.Plain() && Taken(env) && (s.phase.Ready? || s.phase.Uploading?)
    requires Carries(o, P.End(claimed), [])
    ensures var r := Dispatch(env, s, Plainly(o)); Serves(s, r.s, P.End(claimed), P.NotDue, csv) && Settled(r)
  {
    hide Abort, Upload.Received, HandleEnd, EncodeAll, Send, Serves, ResultText, DoneMsg, ResultMsgs;
    EncodeOne(U64(claimed));
    csv := 0;
    if s.phase.Ready? {
      ServesIdle(env, s, P.End(claimed));
      Answering(env, s, Error(UNEXPECTED_TYPE));
    } else {
      EndHandled(env, s, o.payload, claimed);
      if s.up.Received() != s.up.declared || claimed != s.up.declared {
        ServesMismatch(env, s, claimed);
        AbortShows(env, s, SIZE_MISMATCH);
      } else {
        csv := |ResultText(env, s)|;
        ServesGoodEnd(s, HandleEnd(env, s, o.payload).s, ResultText(env, s));
      }
    }
  }

  lemma EndHandled(env: Env, s: Sess, payload: Bytes, claimed: nat)
    requires env.fmt.Plain() && Taken(env) && s.phase.Uploading? && claimed < 0x1_0000_0000_0000_0000
    requires payload == Encode(U64(claimed))
    ensures HandleEnd(env, s, payload).goOn <==> s.up.Received() == s.up.declared == claimed
    ensures var r := HandleEnd(env, s, payload).s;
            if s.up.Received() != s.up.declared || claimed != s.up.declared then r == Abort(env, s, SIZE_MISMATCH)
            else
              var text := ResultText(env, s);
              && r.phase.Ready? && r.up == s.up && r.closeAfterFlush == s.closeAfterFlush
              && r.sent == s.sent + ([DoneMsg(s.up, |text|)] + ResultMsgs(text))
  {
    hide Encode, ReadField, ResultText, DoneMsg, ResultMsgs, SendAll, Upload.Received, Abort;
    FieldRoundTrip(U64(claimed), []);
    assert payload + [] == payload;
    var text := ResultText(env, s);
    AllTaken(env, s.(ended := true, result := text), [DoneMsg(s.up, |text|)] + ResultMsgs(text));
  }

  // ---------------------------------------------------------------- requests and their frames

  datatype Request = Request(m: P.Req, o: Outgoing, name: Bytes) {
    ghost predicate Valid() {
      Carries(o, m, name)
    }
  }

  /** Whether the payload of the frame goes to the session piece by piece. */
  predicate Streams(s: Sess, o: Outgoing) {
    o.payload != [] && Accepting(s.phase)(o.kind, |o.payload|)
  }

  /** A whole frame that is not streamed. */
  lemma DispatchServes(env: Env, s: Sess, q: Request) returns (csv: nat)
    requires env.fmt.Plain() && Taken(env) && (s.phase.Ready? || s.phase.Uploading?)
    requires q.Valid() && !Streams(s, q.o)
    ensures var r := Dispatch(env, s, Plainly(q.o)); Serves(s, r.s, q.m, P.NotDue, csv) && Settled(r)
  {
    hide Dispatch, Serves;
    csv := 0;
    match q.m
    case Begin(total) => ServesBegin(env, s, q.o, total, q.name);
    case Chunk(n) => ServesChunk(env, s, q.o, n);
    case End(claimed) => csv := ServesEnd(env, s, q.o, claimed);
    case Cancel => ServesCancel(env, s, q.o);
    case Garbage =>
  }

  // ---------------------------------------------------------------- a chunk in pieces

  /** From `base` to `s` the first `part` octets of a chunk have come, acknowledged as `ack` says. */
  ghost predicate Midway(base: Sess, s: Sess, part: nat, ack: P.Due)
    requires base.phase.Uploading?
  {
    var now := base.up.Received() + part;
    if now <= base.up.declared then
      && s.phase.Uploading? && s.up.declared == base.up.declared && s.up.Received() == now
      && s.closeAfterFlush == base.closeAfterFlush && Replied(base, s, P.Acked(ack))
      && (ack.DueAt? ==> base.up.Received() < ack.received <= now && now - s.up.lastAck <= part)
    else
      && s.phase.Ready? && s.closeAfterFlush
      && Replied(base, s, P.Acked(ack) + [P.Err(SIZE_MISMATCH)])
      && (ack.DueAt? ==> base.up.Received() < ack.received <= base.up.declared)
  }

  lemma RepliedMore(s: Sess, r: Sess, t: Sess, rs: seq<P.Rep>, m: Msg)
    requires Replied(s, r, rs) && !m.HelloAck? && t.sent == r.sent + [m]
    ensures Replied(s, t, rs + [ReplyOf(m)])
  {
    assert t.sent[|s.sent|..] == r.sent[|s.sent|..] + [m];
  }

  lemma RepliedSame(s: Sess, r: Sess, t: Sess, rs: seq<P.Rep>)
    requires Replied(s, r, rs) && t.sent == r.sent
    ensures Replied(s, t, rs)
  {
  }

  /** The next piece of the chunk. */
  lemma PieceServed(env: Env, base: Sess, s: Sess, part: nat, ack: P.Due, data: string) returns (ack': P.Due)
    requires Taken(env) && base.phase.Uploading? && s.Consistent() && Midway(base, s, part, ack)
    requires data != "" && part + |data| <= MAX_CHUNK
    ensures Midway(base, PayloadChunk(env, s, data), part + |data|, ack')
  {
    hide Upload.Stats, FiguresOf, L.Flatten, Replied;
    ReceivedNext(s.up, data);
    ack' := ack;
    var r := PayloadChunk(env, s, data);
    if !s.phase.Uploading? {
      assert r == s;
    } else if s.up.Received() + |data| > s.up.declared {
      AbortShows(env, s, SIZE_MISMATCH);
      RepliedMore(base, s, r, P.Acked(ack), Error(SIZE_MISMATCH));
    } else {
      var up := s.up.(frags := s.up.frags + [data]);
      if up.Received() - up.lastAck >= ACK_INTERVAL {
        ack' := P.DueAt(up.Received());
        RepliedMore(base, s, r, [], Ack(up.Received(), FiguresOf(up.Stats())));
        assert [] + [P.Ack(up.Received())] == P.Acked(ack');
      } else {
        RepliedSame(base, s, r, P.Acked(ack));
      }
    }
  }

  /** All of the chunk has come. */
  lemma ChunkServed(env: Env, base: Sess, s: Sess, n: nat, ack: P.Due)
    requires env.fmt.Plain() && Taken(env) && base.phase.Uploading? && 0 < n <= MAX_CHUNK && Midway(base, s, n, ack)
    ensures var r := Dispatch(env, s, Seen(UPLOAD_CHUNK, true, []));
            Serves(base, r.s, P.Chunk(n), ack, 0) && Settled(r)
  {
    hide Upload.Received, Replied, Send;
    ErrorsAre(SIZE_MISMATCH, UNEXPECTED_TYPE);
    if !s.phase.Uploading? {
      Answering(env, s, Error(UNEXPECTED_TYPE));
      RepliedMore(base, s, Send(env, s, Error(UNEXPECTED_TYPE)), P.Acked(ack) + [P.Err(SIZE_MISMATCH)],
                  Error(UNEXPECTED_TYPE));
      assert P.Acked(ack) + [P.Err(SIZE_MISMATCH)] + [P.Err(UNEXPECTED_TYPE)]
             == P.Acked(ack) + [P.Err(SIZE_MISMATCH), P.Err(UNEXPECTED_TYPE)];
    }
  }

  // ---------------------------------------------------------------- a frame in pieces

  /**
    From `base`, a session between frames, to `s` some octets of the request's frame have come;
    `more` is still to be read, up to the end of the frame and then `rest`.
    */
  ghost predicate Within(base: Sess, s: Sess, q: Request, ack: P.Due, more: Bytes, rest: Bytes) {
    && q.Valid() && (base.phase.Ready? || base.phase.Uploading?)
    && s.dec.Valid() && !s.dec.Complete() && s.dec.seen + more == Serialize(q.o) + rest
    && if s.dec.streaming then Streams(base, q.o) && base.phase.Uploading? && Midway(base, s, |s.dec.Streamed()|, ack)
       else
         && s == base.(dec := s.dec) && ack == P.NotDue
         && (|s.dec.seen| >= HEADER_SIZE ==> !Streams(base, q.o))
  }

  lemma BoundaryWithin(s: Sess, q: Request, more: Bytes, rest: Bytes)
    requires s.dec == NewFrame && q.Valid() && (s.phase.Ready? || s.phase.Uploading?)
    requires more == Serialize(q.o) + rest
    ensures Within(s, s, q, P.NotDue, more, rest)
  {
    hide Serialize, HeadOf, HeaderError, FrameSize, Midway, Carries, Streams;
    assert [] + more == more;
  }

  /** The frame of a chunk that is streamed. */
  lemma StreamedChunk(s: Sess, q: Request)
    requires q.Valid() && Streams(s, q.o)
    ensures q.m.Chunk? && 0 < q.m.size == |q.o.payload| <= MAX_CHUNK && q.o.kind == UPLOAD_CHUNK && s.phase.Uploading?
  {
  }

  /** What a feed makes of the decoder within the frame. */
  lemma FeedInFrame(base: Sess, s: Sess, q: Request, ack: P.Due, data: Bytes, more: Bytes, rest: Bytes)
    requires Within(base, s, q, ack, data + more, rest)
    ensures var fed := FeedDec(s.dec, data, Accepting(s.phase));
            && !fed.status.Failed?
            && (fed.status.NeedMore? ==> fed.dec.seen + more == Serialize(q.o) + rest)
            && (fed.status.Ready? ==>
                  && HeadOf(fed.dec.seen) == q.o.Header() && fed.dec.seen[HEADER_SIZE..] == q.o.payload
                  && data[fed.used..] + more == rest && |fed.dec.seen| >= HEADER_SIZE)
            && (fed.dec.streaming ==>
                  var a, b := |s.dec.Streamed()|, |fed.dec.Streamed()|;
                  && Streams(base, q.o) && a <= b <= |q.o.payload| && fed.piece == q.o.payload[a..b])
            && (!fed.dec.streaming ==>
                  && fed.piece == [] && !s.dec.streaming
                  && (|fed.dec.seen| >= HEADER_SIZE ==> !Streams(base, q.o)))
  {
    hide HeadOf, HeaderError, Serialize, FeedDec, FrameSize, Midway;
    var accept := Accepting(s.phase);
    var fed := FeedDec(s.dec, data, accept);
    U.FeedWithin(s.dec, data, more, q.o, rest, accept);
    U.FeedStreams(s.dec, data, accept);
    if |fed.dec.seen| >= HEADER_SIZE {
      var left := data[fed.used..] + more;
      assert fed.dec.seen + left == Serialize(q.o) + rest by {
        assert data == data[..fed.used] + data[fed.used..];
      }
      U.PrefixOfFrame(fed.dec.seen, left, q.o, rest);
      if fed.dec.streaming { U.NewOctets(s.dec, fed, q.o, left, rest); }
    }
    if !fed.dec.streaming { U.NotStreaming(fed, s.dec); }
  }

  lemma MidwayStart(base: Sess, d: Dec)
    requires base.phase.Uploading? && base.Consistent()
    ensures Midway(base, base.(dec := d), 0, P.NotDue)
  {
    hide Upload.Received;
    assert base.sent[|base.sent|..] == [];
  }

  /** The piece of a feed within a frame that is streamed. */
  lemma PieceFed(env: Env, base: Sess, s: Sess, q: Request, ack: P.Due, fed: Fed) returns (ack': P.Due)
    requires Taken(env) && s.Consistent() && q.Valid() && Streams(base, q.o) && s.dec.Valid() && fed.dec.Valid()
    requires if s.dec.streaming then base.phase.Uploading? && Midway(base, s, |s.dec.Streamed()|, ack)
             else s == base.(dec := s.dec) && ack == P.NotDue
    requires var a, b := |s.dec.Streamed()|, |fed.dec.Streamed()|;
             a <= b <= |q.o.payload| && fed.piece == q.o.payload[a..b]
    ensures var s1 := if fed.piece == [] then s else PayloadChunk(env, s, fed.piece);
            base.phase.Uploading? && Midway(base, s1, |fed.dec.Streamed()|, ack')
  {
    hide Midway, PayloadChunk, Upload.Received, Carries;
    assert q.m.Chunk? && |q.o.payload| <= MAX_CHUNK && base.phase.Uploading? by { StreamedChunk(base, q); }
    ack' := ack;
    if !s.dec.streaming {
      SameConsistent(s, base);
      MidwayStart(base, s.dec);
    }
    if fed.piece != [] { ack' := PieceServed(env, base, s, |s.dec.Streamed()|, ack, fed.piece); }
  }

  lemma ServesFrom(base: Sess, s: Sess, r: Sess, m: P.Req, ack: P.Due, csv: nat)
    requires Serves(s, r, m, ack, csv) && s == base.(dec := s.dec)
    ensures Serves(base, r, m, ack, csv)
  {
    hide Upload.Received, ShowAs, P.Serve;
  }

  /** One feed: more of the frame, or all of it and the answer to its request. */
  lemma FeedServed(env: Env, base: Sess, s: Sess, q: Request, ack: P.Due, data: Bytes, more: Bytes, rest: Bytes)
    returns (ack': P.Due, csv: nat)
    requires env.fmt.Plain() && Taken(env) && s.Consistent()
    requires Within(base, s, q, ack, data + more, rest)
    ensures var fed := FeedDec(s.dec, data, Accepting(s.phase));
            var s1 := if fed.piece == [] then s else PayloadChunk(env, s, fed.piece);
            match fed.status
            case NeedMore => Within(base, s1.(dec := fed.dec), q, ack', more, rest)
            case Failed(_) => false
            case Ready =>
              var n := Dispatch(env, s1, SeenOf(fed.dec));
              Serves(base, n.s, q.m, ack', csv) && Settled(n) && data[fed.used..] + more == rest
  {
    hide HeadOf, HeaderError, Serialize, FeedDec, FrameSize, Midway, PayloadChunk, Dispatch, Serves, Settled, Carries;
    var fed := FeedDec(s.dec, data, Accepting(s.phase));
    FeedInFrame(base, s, q, ack, data, more, rest);
    ack', csv := ack, 0;
    if fed.dec.streaming {
      ack' := PieceFed(env, base, s, q, ack, fed);
      var s1 := if fed.piece == [] then s else PayloadChunk(env, s, fed.piece);
      if fed.status.Ready? {
        StreamedChunk(base, q);
        ChunkServed(env, base, s1, |q.o.payload|, ack');
      } else {
        MidwaySame(base, s1, s1.(dec := fed.dec), |fed.dec.Streamed()|, ack');
      }
    } else if fed.status.Ready? {
      csv := DispatchServes(env, s, q);
      ServesFrom(base, s, Dispatch(env, s, Plainly(q.o)).s, q.m, P.NotDue, csv);
    }
  }

  lemma MidwaySame(base: Sess, s: Sess, t: Sess, part: nat, ack: P.Due)
    requires base.phase.Uploading? && Midway(base, s, part, ack) && t == s.(dec := t.dec)
    ensures Midway(base, t, part, ack)
  {
    hide Upload.Received, ShowAs;
  }

  // ---------------------------------------------------------------- a whole conversation

  /** What the protocol leaves open in an answer: the acknowledgement and the size of the result. */
  datatype Choice = Choice(ack: P.Due, csv: nat)

  /** The server of the protocol on one request after the other. */
  function ServeAll(sv: P.Server, qs: seq<Request>, cs: seq<Choice>): P.Served
    requires |cs| == |qs|
  {
    if qs == [] then P.Served(sv, [])
    else
      var n := |qs| - 1;
      var v := ServeAll(sv, qs[..n], cs[..n]);
      var w := P.Serve(v.server, qs[n].m, cs[n].ack, cs[n].csv);
      P.Served(w.server, v.replies + w.replies)
  }

  /** Its state does not depend on what is left open. */
  function ServerAfter(sv: P.Server, qs: seq<Request>): P.Server {
    if qs == [] then sv else P.Serve(ServerAfter(sv, qs[..|qs|-1]), qs[|qs|-1].m, P.NotDue, 0).server
  }

  lemma SameServer(sv: P.Server, m: P.Req, ack: P.Due, csv: nat)
    ensures P.Serve(sv, m, ack, csv).server == P.Serve(sv, m, P.NotDue, 0).server
  {
  }

  lemma {:induction false} ServerOfAll(sv: P.Server, qs: seq<Request>, cs: seq<Choice>)
    requires |cs| == |qs|
    ensures ServeAll(sv, qs, cs).server == ServerAfter(sv, qs)
  {
    hide P.Serve;
    if qs != [] {
      var n := |qs| - 1;
      ServerOfAll(sv, qs[..n], cs[..n]);
      SameServer(ServerAfter(sv, qs[..n]), qs[n].m, cs[n].ack, cs[n].csv);
    }
  }

  ghost predicate AllValid(qs: seq<Request>) {
    forall i | 0 <= i < |qs| :: qs[i].Valid()
  }

  /** The octets of the requests' frames. */
  ghost function Frames(qs: seq<Request>): Bytes
    requires AllValid(qs)
  {
    if qs == [] then [] else Serialize(qs[0].o) + Frames(qs[1..])
  }

  /** From `s0` to `base` the first |cs| requests were answered as the protocol says. */
  ghost predicate Answered(s0: Sess, base: Sess, qs: seq<Request>, cs: seq<Choice>)
    requires |cs| == |qs|
  {
    var v := ServeAll(ServerOf(s0), qs, cs);
    ServerOf(base) == v.server && Replied(s0, base, v.replies) && (base.phase.Ready? || base.phase.Uploading?)
  }

  /** The requests answered so far, what has come of the next, and what is still to be read. */
  ghost predicate Conversing(s0: Sess, base: Sess, s: Sess, qs: seq<Request>, cs: seq<Choice>, ack: P.Due,
                             more: Bytes)
    requires AllValid(qs)
  {
    var k := |cs|;
    && k <= |qs| && Answered(s0, base, qs[..k], cs)
    && if k == |qs| then s == base && s.dec == NewFrame && more == []
       else Within(base, s, qs[k], ack, more, Frames(qs[k+1..]))
  }

  lemma AnsweredMore(s0: Sess, base: Sess, r: Sess, qs: seq<Request>, cs: seq<Choice>, c: Choice)
    requires |cs| < |qs| && Answered(s0, base, qs[..|cs|], cs)
    requires Serves(base, r, qs[|cs|].m, c.ack, c.csv) && (r.phase.Ready? || r.phase.Uploading?)
    ensures Answered(s0, r.(dec := NewFrame), qs[..|cs|+1], cs + [c])
    ensures r.closeAfterFlush == ServerAfter(ServerOf(s0), qs[..|cs|+1]).refused
  {
    hide P.Serve, Upload.Received;
    var k := |cs|;
    assert qs[..k+1][..k] == qs[..k] && (cs + [c])[..k] == cs;
    var v := ServeAll(ServerOf(s0), qs[..k], cs);
    var w := P.Serve(v.server, qs[k].m, c.ack, c.csv);
    RepliedBoth(s0, base, r.(dec := NewFrame), v.replies, w.replies);
    ServerOfAll(ServerOf(s0), qs[..k+1], cs + [c]);
  }

  lemma RepliedBoth(s: Sess, r: Sess, t: Sess, a: seq<P.Rep>, b: seq<P.Rep>)
    requires Replied(s, r, a) && Replied(r, t, b)
    ensures Replied(s, t, a + b)
  {
    assert t.sent[|s.sent|..] == r.sent[|s.sent|..] + t.sent[|r.sent|..];
  }

  /** No request but the last makes the server close. */
  ghost predicate Welcome(sv: P.Server, qs: seq<Request>) {
    forall k | 0 <= k < |qs| :: !ServerAfter(sv, qs[..k]).refused
  }

  /** One feed anywhere in the conversation. */
  lemma FeedOn(env: Env, s0: Sess, base: Sess, s: Sess, qs: seq<Request>, cs: seq<Choice>, ack: P.Due, data: Bytes,
               more: Bytes)
    returns (cs': seq<Choice>, ack': P.Due)
    requires env.fmt.Plain() && Taken(env) && AllValid(qs) && s.Valid() && Welcome(ServerOf(s0), qs)
    requires data != [] && Conversing(s0, base, s, qs, cs, ack, data + more)
    ensures |cs| < |qs| && !s.phase.Closing?
    ensures var fed := FeedDec(s.dec, data, Accepting(s.phase));
            var s1 := if fed.piece == [] then s else PayloadChunk(env, s, fed.piece);
            match fed.status
            case NeedMore => Conversing(s0, base, s1.(dec := fed.dec), qs, cs, ack', more)
            case Failed(_) => false
            case Ready =>
              var n := Dispatch(env, s1, SeenOf(fed.dec));
              var t := n.s.(dec := NewFrame);
              && t.Valid() && |cs'| == |cs| + 1 && (|cs'| < |qs| ==> n.goOn)
              && Conversing(s0, t, t, qs, cs', P.NotDue, data[fed.used..] + more)
  {
    hide Dispatch, PayloadChunk, FeedDec, Sess.Consistent, Within, Answered, Serves, Settled, ServerAfter;
    var k := |cs|;
    var q, rest := qs[k], Frames(qs[k+1..]);
    StillTalking(base, s, q, ack, data + more, rest);
    var fed := FeedDec(s.dec, data, Accepting(s.phase));
    var s1 := if fed.piece == [] then s else PayloadChunk(env, s, fed.piece);
    var csv;
    ack', csv := FeedServed(env, base, s, q, ack, data, more, rest);
    cs' := cs + [Choice(ack', csv)];
    if fed.status.Ready? {
      var n := Dispatch(env, s1, SeenOf(fed.dec));
      if fed.piece != [] { PayloadConsistent(env, s, fed.piece); }
      DispatchConsistent(env, s1, SeenOf(fed.dec));
      RequestDone(s0, base, n, qs, cs, Choice(ack', csv));
    }
  }

  /** The answer to a request, and the session ready for the next. */
  lemma RequestDone(s0: Sess, base: Sess, n: Next, qs: seq<Request>, cs: seq<Choice>, c: Choice)
    requires AllValid(qs) && Welcome(ServerOf(s0), qs) && |cs| < |qs| && Answered(s0, base, qs[..|cs|], cs)
    requires Serves(base, n.s, qs[|cs|].m, c.ack, c.csv) && Settled(n) && n.s.Consistent()
    ensures var t := n.s.(dec := NewFrame);
            && t.Valid() && (|cs| + 1 < |qs| ==> n.goOn)
            && Conversing(s0, t, t, qs, cs + [c], P.NotDue, Frames(qs[|cs|+1..]))
  {
    hide Sess.Consistent, Answered, Serves, Settled, ServerAfter, Conversing;
    var t := n.s.(dec := NewFrame);
    SameConsistent(n.s, t);
    Settles(n);
    AnsweredMore(s0, base, n.s, qs, cs, c);
    NextRequest(s0, t, qs, cs + [c], Frames(qs[|cs|+1..]));
  }

  /** A read, or the rest of one, anywhere in the conversation. */
  lemma {:induction false} ReadOn(env: Env, s0: Sess, base: Sess, s: Sess, qs: seq<Request>, cs: seq<Choice>,
                                  ack: P.Due, data: Bytes, more: Bytes)
    returns (base': Sess, cs': seq<Choice>, ack': P.Due)
    requires env.fmt.Plain() && Taken(env) && AllValid(qs) && s.Valid() && Welcome(ServerOf(s0), qs)
    requires Conversing(s0, base, s, qs, cs, ack, data + more)
    ensures Conversing(s0, base', Process(env, s, data), qs, cs', ack', more)
    decreases |data|
  {
    hide Dispatch, PayloadChunk, FeedDec, Sess.Valid, Conversing, Welcome;
    base', cs', ack' := base, cs, ack;
    if data == [] {
      assert data + more == more;
    } else {
      DecValid(s);
      cs', ack' := FeedOn(env, s0, base, s, qs, cs, ack, data, more);
      var fed := FeedDec(s.dec, data, Accepting(s.phase));
      if fed.status.Ready? {
        if s.dec.Broken() { FeedBroken(s.dec, data, Accepting(s.phase)); }
        var s1 := if fed.piece == [] then s else PayloadChunk(env, s, fed.piece);
        var n := Dispatch(env, s1, SeenOf(fed.dec));
        base' := n.s.(dec := NewFrame);
        if |cs'| == |qs| { NothingMore(s0, base', qs, cs', data[fed.used..], more); }
        base', cs', ack' := ReadOn(env, s0, base', base', qs, cs', P.NotDue, data[fed.used..], more);
      } else {
        cs' := cs;
      }
    }
  }

  lemma DecValid(s: Sess)
    requires s.Valid()
    ensures s.dec.Valid() && !s.dec.Complete()
  {
    hide Sess.Consistent;
  }

  lemma NothingMore(s0: Sess, s: Sess, qs: seq<Request>, cs: seq<Choice>, data: Bytes, more: Bytes)
    requires AllValid(qs) && |cs| == |qs| && Conversing(s0, s, s, qs, cs, P.NotDue, data + more)
    ensures data == [] && more == []
  {
    hide Answered, Within;
  }

  lemma Settles(n: Next)
    requires Settled(n)
    ensures (n.s.phase.Ready? || n.s.phase.Uploading?) && (n.goOn || n.s.closeAfterFlush)
  {
  }

  lemma StillTalking(base: Sess, s: Sess, q: Request, ack: P.Due, more: Bytes, rest: Bytes)
    requires Within(base, s, q, ack, more, rest)
    ensures !s.phase.Closing?
  {
    hide Upload.Received, ShowAs;
  }

  /** Between two requests. */
  lemma NextRequest(s0: Sess, s: Sess, qs: seq<Request>, cs: seq<Choice>, more: Bytes)
    requires AllValid(qs) && |cs| <= |qs| && Answered(s0, s, qs[..|cs|], cs) && s.dec == NewFrame
    requires more == Frames(qs[|cs|..])
    ensures Conversing(s0, s, s, qs, cs, P.NotDue, more)
  {
    hide ShowAs, Upload.Received, P.Serve, ServeAll;
    if |cs| < |qs| {
      assert qs[|cs|..][1..] == qs[|cs|+1..] && qs[|cs|..][0] == qs[|cs|];
      BoundaryWithin(s, qs[|cs|], more, Frames(qs[|cs|+1..]));
    }
  }

  /** The reads one after the other. */
  function AllRead(env: Env, s: Sess, cuts: seq<Bytes>): Sess
    requires env.fmt.Plain() && s.Valid()
    decreases |cuts|
  {
    if cuts == [] then s
    else
      ProcessConsistent(env, s, cuts[0]);
      AllRead(env, Process(env, s, cuts[0]), cuts[1..])
  }

  lemma {:induction false} ReadsOn(env: Env, s0: Sess, base: Sess, s: Sess, qs: seq<Request>, cs: seq<Choice>,
                                   ack: P.Due, cuts: seq<Bytes>, more: Bytes)
    returns (base': Sess, cs': seq<Choice>, ack': P.Due)
    requires env.fmt.Plain() && Taken(env) && AllValid(qs) && s.Valid() && Welcome(ServerOf(s0), qs)
    requires Conversing(s0, base, s, qs, cs, ack, Joined(cuts) + more)
    ensures Conversing(s0, base', AllRead(env, s, cuts), qs, cs', ack', more)
    decreases |cuts|
  {
    hide Process, Conversing, Welcome, Sess.Valid;
    if cuts == [] {
      base', cs', ack' := base, cs, ack;
      assert Joined(cuts) + more == more;
    } else {
      var rest := Joined(cuts[1..]) + more;
      DecValid(s);
      assert Joined(cuts) + more == cuts[0] + rest;
      base', cs', ack' := ReadOn(env, s0, base, s, qs, cs, ack, cuts[0], rest);
      ProcessConsistent(env, s, cuts[0]);
      base', cs', ack' := ReadsOn(env, s0, base', Process(env, s, cuts[0]), qs, cs', ack', cuts[1..], more);
    }
  }

  /**
    The server of the protocol is the session.  Whatever the requests, and however their frames
    are cut into reads, a session between frames answers them as that server does one after
    the other, with at most one acknowledgement in each chunk, and is then as that server is;
    only the last of them may be one on which the server decides to close.
    */
  lemma SessionServes(env: Env, s: Sess, qs: seq<Request>, cuts: seq<Bytes>) returns (cs: seq<Choice>)
    requires env.fmt.Plain() && Taken(env) && s.Valid() && s.dec == NewFrame && (s.phase.Ready? || s.phase.Uploading?)
    requires AllValid(qs) && Welcome(ServerOf(s), qs) && Joined(cuts) == Frames(qs)
    ensures |cs| == |qs|
    ensures var r, v := AllRead(env, s, cuts), ServeAll(ServerOf(s), qs, cs);
            && r.dec == NewFrame && (r.phase.Ready? || r.phase.Uploading?)
            && ServerOf(r) == v.server && Replied(s, r, v.replies)
  {
    hide Within, Sess.Valid, Welcome, AllRead, Replied, Upload.Received, P.Serve;
    NothingReplied(s);
    assert qs[..0] == [] && qs[0..] == qs;
    NextRequest(s, s, qs, [], Joined(cuts) + []);
    var base, ack;
    base, cs, ack := ReadsOn(env, s, s, s, qs, [], P.NotDue, cuts, []);
    AllAnswered(s, base, AllRead(env, s, cuts), qs, cs, ack);
  }

  lemma NothingReplied(s: Sess)
    requires s.phase.Ready? || s.phase.Uploading?
    ensures Answered(s, s, [], [])
  {
    hide Upload.Received;
    assert s.sent[|s.sent|..] == [];
  }

  /** A conversation read to its end has no request left. */
  lemma AllAnswered(s0: Sess, base: Sess, s: Sess, qs: seq<Request>, cs: seq<Choice>, ack: P.Due)
    requires AllValid(qs) && Conversing(s0, base, s, qs, cs, ack, [])
    ensures |cs| == |qs| && s == base && s.dec == NewFrame && Answered(s0, s, qs, cs)
  {
    hide Answered, Midway, Serialize, Dec.Complete, Streams;
    assert qs[..|qs|] == qs;
    if |cs| < |qs| {
      var q, rest := qs[|cs|], Frames(qs[|cs|+1..]);
      assert s.dec.seen + [] == s.dec.seen;
      U.WholeFrame(s.dec, q.o, rest);
    }
  }
}
