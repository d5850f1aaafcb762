/**
  The session object: handlers that keep the state machine of `Sessions` in fields.

  Octets go from the decoder to the line splitter and from there, line by line, into the
  statistics; no payload is kept.  `model` is the state of the machine: every handler moves
  it as the machine prescribes, and the fields show it.  While an upload is under way the
  splitter, the statistics, the line offset and the count of octets are those of all the
  payload pieces received so far.
  */
module TcpSessions {
  import opened Wire
  import opened Framing
  import opened Aggregation
  import opened Sessions
  import L = Lines
  import CSV = ResultCsv
  import U = Uploads

  class TcpSession {
    const env: Env
    const decoder: FrameDecoder
    const splitter: L.LineSplitter
    const agg: Aggregator
    var phase: Phase
    var uploadName: string
    var declared: nat
    var received: nat
    var lastAckAt: nat
    var lineOffset: nat
    var resultCsv: string
    var sent: seq<Msg>
    var calls: nat
    var pending: nat
    var closeAfterFlush: bool
    var closing: bool
    var pendingClose: nat
    var notified: nat
    var stallTicks: nat
    var armed: bool
    ghost var model: Sess

    /** The fields show the model. */
    ghost predicate Shown()
      reads `model, `uploadName, `declared, `lastAckAt, `resultCsv, `phase, `sent, `calls, `pending,
            `closeAfterFlush, `closing, `pendingClose, `notified, `stallTicks, `armed
    {
      && uploadName == model.up.name && declared == model.up.declared && lastAckAt == model.up.lastAck
      && resultCsv == model.result
      && phase == model.phase && sent == model.sent && calls == model.calls && pending == model.pending
      && closeAfterFlush == model.closeAfterFlush && closing == model.closing && pendingClose == model.open
      && notified == model.notified && stallTicks == model.ticks && armed == model.armed
    }

    /** The parts of the object in an upload are what its pieces make of them. */
    ghost predicate Accumulated()
      reads `model, `received, `lineOffset, splitter, agg
    {
      received == model.up.Received()
      && splitter.Model() == model.up.Lines().0 && agg.Model() == model.up.Stats()
      && lineOffset == RawTotal(model.up.Lines().1)
    }

    ghost predicate Parts()
      reads decoder, decoder.headRaw, splitter, agg
    {
      && env.fmt.Plain() && decoder.Valid() && splitter.Valid() && agg.Valid()
      && splitter.max == L.DEFAULT_MAX_LINE
    }

    /** In the middle of a read the decoder is ahead of the model. */
    ghost predicate Working()
      reads this, decoder, decoder.headRaw, splitter, agg
    {
      Parts() && Shown() && (model.phase.Uploading? ==> !model.ended && Accumulated())
    }

    ghost predicate Valid()
      reads this, decoder, decoder.headRaw, splitter, agg
    {
      Working() && decoder.Model() == model.dec
    }

    constructor (env: Env)
      requires env.fmt.Plain()
      ensures Valid() && model == Started && this.env == env
    {
      this.env := env;
      decoder := new FrameDecoder();
      splitter := new L.LineSplitter(L.DEFAULT_MAX_LINE);
      agg := new Aggregator();
      phase, uploadName, declared, received, lastAckAt, lineOffset := AwaitHello, "", 0, 0, 0, 0;
      resultCsv, sent, calls, pending, closeAfterFlush := "", [], 0, 0, false;
      closing, pendingClose, notified, stallTicks, armed := false, 0, 0, 0, true;
      model := Started;
    }

    // -------------------------------------------------------------- sending and closing

    method Close()
      requires Shown()
      modifies this`phase, this`armed, this`closing, this`pendingClose, this`model
      ensures Shown() && model == Sessions.Close(old(model)) && phase.Closing?
    {
      model := Sessions.Close(model);
      if phase.Closing? { return; }
      phase := Closing;
      armed := false;
      if !closing {
        closing := true;
        pendingClose := 2;
      }
    }

    /** Asks the transport to write: the n-th request is taken or not as the environment says. */
    method Request() returns (taken: bool)
      requires Shown()
      modifies this`calls, this`model
      ensures Shown() && taken == env.accepts(old(calls)) && model == old(model).(calls := old(calls) + 1)
    {
      taken := env.accepts(calls);
      calls := calls + 1;
      model := model.(calls := calls);
    }

    method Queue(m: Msg)
      requires Shown()
      modifies this`sent, this`pending, this`model
      ensures Shown() && model == old(model).(sent := old(model.sent) + [m], pending := old(model.pending) + 1)
    {
      sent := sent + [m];
      pending := pending + 1;
      model := model.(sent := sent, pending := pending);
    }

    method Send(m: Msg)
      requires Shown()
      modifies this`phase, this`armed, this`closing, this`pendingClose, this`calls, this`sent, this`pending, this`model
      ensures Shown() && model == Sessions.Send(env, old(model), m)
      ensures model.up == old(model.up) && model.ended == old(model.ended) && model.dec == old(model.dec)
      ensures phase == old(phase) || phase.Closing?
    {
      hide Sessions.Close, Shown;
      PhaseShown();
      SendIsLink(env, model, m);
      if phase.Closing? { return; }
      var taken := Request();
      if taken {
        Queue(m);
      } else {
        Close();
      }
      PhaseShown();
    }

    lemma PhaseShown()
      requires Shown()
      ensures phase == model.phase && calls == model.calls
      ensures declared == model.up.declared && lastAckAt == model.up.lastAck
    {
    }

    method Enter(p: Phase)
      requires Shown()
      modifies this`phase, this`model
      ensures Shown() && phase == p && model == old(model).(phase := p)
    {
      phase := p;
      model := model.(phase := p);
    }

    method CloseLater()
      requires Shown()
      modifies this`closeAfterFlush, this`model
      ensures Shown() && model == old(model).(closeAfterFlush := true)
    {
      closeAfterFlush := true;
      model := model.(closeAfterFlush := true);
    }

    method Refuse(code: nat)
      requires Shown()
      modifies this`phase, this`armed, this`closing, this`pendingClose, this`calls, this`sent, this`pending,
               this`closeAfterFlush, this`model
      ensures Shown() && model == Sessions.Refuse(env, old(model), code)
      ensures model.up == old(model.up) && model.ended == old(model.ended) && model.dec == old(model.dec)
      ensures phase == old(phase) || phase.Closing?
    {
      hide Sessions.Send, Shown;
      Send(Error(code));
      CloseLater();
    }

    method ResetParts()
      requires Parts()
      modifies this`received, this`lineOffset, splitter, agg
      ensures Parts() && splitter.Model() == L.Fresh && agg.Model() == EmptyAgg && received == 0 && lineOffset == 0
    {
      hide FrameDecoder.Valid, L.LineSplitter.Valid, Aggregator.Valid, L.LineSplitter.Model, Aggregator.Model;
      received, lineOffset := 0, 0;
      splitter.Reset();
      agg.Reset();
    }

    /** The fields of an upload at its start; without a name and a size, of none. */
    method ResetFields(name: string, total: nat)
      requires Shown()
      modifies this`declared, this`lastAckAt, this`uploadName, this`resultCsv, this`model
      ensures Shown()
      ensures model == old(model).(up := Upload(name, total, [], 0), ended := false, result := "")
    {
      declared, lastAckAt, uploadName, resultCsv := total, 0, name, "";
      model := model.(up := Upload(name, total, [], 0), ended := false, result := "");
    }

    method AbortUpload(code: nat)
      requires Parts() && Shown()
      modifies this, splitter, agg
      ensures Parts() && Shown() && model == Sessions.Abort(env, old(model), code) && !phase.Uploading?
    {
      hide Sessions.Send, Parts, Shown;
      Enter(Phase.Ready);
      Send(Error(code));
      if code == CANCELLED {
        ResetParts();
        ResetFields("", 0);
      } else {
        CloseLater();
      }
    }

    // -------------------------------------------------------------- streamed payload

    /** Lines into the statistics, each at its place in the stream. */
    method Analyze(es: seq<L.Emission>, ghost before: seq<L.Emission>)
      requires agg.Valid() && agg.Model() == AggOf(before) && lineOffset == RawTotal(before)
      modifies this`lineOffset, agg
      ensures agg.Valid() && agg.Model() == AggOf(before + es) && lineOffset == RawTotal(before + es)
    {
      hide WithLine, Aggregator.Valid, Aggregator.Model;
      assert before + es[..0] == before;
      for i := 0 to |es|
        invariant agg.Valid() && agg.Model() == AggOf(before + es[..i]) && lineOffset == RawTotal(before + es[..i])
      {
        OneMore(before + es[..i], es[i], before + es[..i+1]);
        agg.AddLine(es[i].line, lineOffset);
        lineOffset := lineOffset + es[i].raw;
      }
      assert es[..|es|] == es;
    }

    /** One payload piece through the splitter into the statistics; `received` counts it already. */
    method Absorb(data: string)
      requires Parts() && Shown()
      requires splitter.Model() == model.up.Lines().0 && agg.Model() == model.up.Stats()
      requires lineOffset == RawTotal(model.up.Lines().1) && received == model.up.Received() + |data|
      modifies this`lineOffset, this`model, splitter, agg
      ensures Parts() && Shown() && Accumulated()
      ensures model == old(model).(up := old(model.up).(frags := old(model.up.frags) + [data]))
    {
      hide FrameDecoder.Valid, L.LineSplitter.Valid, Aggregator.Valid, L.LineSplitter.Model, Aggregator.Model;
      hide L.Absorb, L.FeedAll, AggOf, RawTotal, Upload.Received;
      ReceivedNext(model.up, data);
      L.FeedAllSnoc(L.DEFAULT_MAX_LINE, L.Fresh, model.up.frags, data);
      ghost var lines := model.up.Lines();
      var es := splitter.Feed(data);
      Analyze(es, lines.1);
      model := model.(up := model.up.(frags := model.up.frags + [data]));
    }

    method CountAck()
      requires Shown() && received == model.up.Received()
      modifies this`lastAckAt, this`model
      ensures Shown() && model == old(model).(up := old(model.up).(lastAck := received))
    {
      lastAckAt := received;
      model := model.(up := model.up.(lastAck := received));
    }

    /** A piece of a streamed payload. */
    method PayloadChunk(data: string)
      requires Working()
      modifies this, splitter, agg
      ensures Working() && model == Sessions.PayloadChunk(env, old(model), data)
    {
      hide Shown, Parts, Sessions.Send, Sessions.Abort, Upload.Received, Upload.Stats, Upload.Lines, AggOf;
      hide L.LineSplitter.Model, Aggregator.Model;
      PhaseShown();
      if !phase.Uploading? { return; }
      received := received + |data|;
      if received > declared {
        AbortUpload(SIZE_MISMATCH);
        PhaseShown();
        return;
      }
      Absorb(data);
      PhaseShown();
      if received - lastAckAt >= ACK_INTERVAL {
        SameStats(model.up, received);
        CountAck();
        Send(Ack(received, FiguresOf(agg.Model())));
        PhaseShown();
      }
    }

    // -------------------------------------------------------------- frames

    method HandleHello(payload: Bytes) returns (goOn: bool)
      requires Working() && !phase.Uploading?
      modifies this
      ensures Working()
      ensures var n := Sessions.HandleHello(env, old(model), payload); model == n.s && goOn == n.goOn
    {
      hide Shown, Parts, Sessions.Send, Sessions.Refuse, ReadFields;
      PhaseShown();
      var ok, _, _ := ReadPair(payload, K16);
      if !ok {
        Refuse(UNEXPECTED_TYPE);
        PhaseShown();
        return false;
      }
      Enter(Phase.Ready);
      Send(HelloAck);
      PhaseShown();
      return true;
    }

    method HandleBegin(payload: Bytes) returns (goOn: bool)
      requires Working() && !phase.Uploading?
      modifies this, splitter, agg
      ensures Working()
      ensures var n := Sessions.HandleBegin(env, old(model), payload); model == n.s && goOn == n.goOn
    {
      hide Shown, Parts, Sessions.Send, Sessions.Refuse, ReadFields;
      PhaseShown();
      var ok, total, name := ReadPair(payload, K64);
      if !ok {
        Refuse(UNEXPECTED_TYPE);
        PhaseShown();
        return false;
      }
      BeginFields(payload);
      if total.v == 0 {
        Send(Error(SIZE_MISMATCH));
        PhaseShown();
        return true;
      }
      ResetParts();
      ResetFields(name.s, total.v);
      Enter(Uploading);
      NoPieceYet(model.up);
      Send(BeginAck(MAX_CHUNK));
      PhaseShown();
      return true;
    }

    /** The last line and the lines given up as too long. */
    method FinishLines()
      requires Working() && phase.Uploading?
      modifies this`lineOffset, splitter, agg
      ensures Parts() && agg.Model() == model.up.FinalStats()
    {
      hide FrameDecoder.Valid, L.LineSplitter.Valid, Aggregator.Valid, L.LineSplitter.Model, Aggregator.Model;
      hide AggOf, RawTotal, L.FeedAll, L.Conclude, Upload.Received, Shown;
      PhaseShown();
      ghost var lines := model.up.Lines();
      var es := splitter.Finish();
      Analyze(es, lines.1);
      U.NoOversize(lines.1 + es);
      agg.AddOversize(splitter.oversize);
    }

    /** The statistics become final and the result document is made. */
    method FinishUpload()
      requires Working() && phase.Uploading?
      modifies this`lineOffset, this`resultCsv, this`model, splitter, agg
      ensures Parts() && Shown() && agg.Model() == model.up.FinalStats()
      ensures model == old(model).(ended := true, result := ResultText(env, old(model)))
    {
      hide Shown, AggOf, Upload.FinalStats, CSV.Document, CSV.Showable, CSV.Printf.Plain, L.Flatten;
      hide FrameDecoder.Valid, L.LineSplitter.Valid, Aggregator.Valid, L.LineSplitter.Model, Aggregator.Model;
      PhaseShown();
      FinishLines();
      FinalIsShowable(model.up);
      var m := env.moment(calls);
      var ctx := CSV.Context(m.utc, uploadName, received, m.elapsedMs, m.rssKb);
      var text := CSV.BuildResultCsv(agg.Model(), ctx, env.fmt);
      KeepResult(text);
    }

    method KeepResult(text: string)
      requires Shown()
      modifies this`resultCsv, this`model
      ensures Shown() && model == old(model).(ended := true, result := text)
    {
      resultCsv := text;
      model := model.(ended := true, result := text);
    }

    /** The result in pieces, as far as the transport takes them. */
    method SendResultCsv(ghost before: Sess, ghost ms: seq<Msg>)
      requires Shown() && model == SendAll(env, before, ms)
      modifies this`phase, this`armed, this`closing, this`pendingClose, this`calls, this`sent, this`pending, this`model
      ensures Shown() && model == SendAll(env, before, ms + ResultMsgs(resultCsv)) && model.up == old(model.up)
    {
      hide Shown, Sessions.Send;
      ghost var done := ms + [ResultBegin(|resultCsv|)];
      SendAllSnoc(env, before, ms, ResultBegin(|resultCsv|));
      Send(ResultBegin(|resultCsv|));
      var off := 0;
      assert resultCsv[0..] == resultCsv;
      while off < |resultCsv|
        invariant off <= |resultCsv|
        invariant Shown() && model == SendAll(env, before, done) && model.up == old(model.up)
        invariant done + Pieces(resultCsv[off..]) == ms + [ResultBegin(|resultCsv|)] + Pieces(resultCsv)
      {
        var n := if |resultCsv| - off < RESULT_CHUNK then |resultCsv| - off else RESULT_CHUNK;
        NextPiece(resultCsv, off, n);
        SendAllSnoc(env, before, done, ResultChunk(resultCsv[off..off+n]));
        Send(ResultChunk(resultCsv[off..off+n]));
        done := done + [ResultChunk(resultCsv[off..off+n])];
        off := off + n;
      }
      assert done == ms + [ResultBegin(|resultCsv|)] + Pieces(resultCsv);
      SendAllSnoc(env, before, done, ResultEnd);
      Send(ResultEnd);
      assert ms + ResultMsgs(resultCsv) == done + [ResultEnd];
    }

    /** The analysis is reported, the result follows, and the session is ready again. */
    method Complete()
      requires Working() && phase.Uploading?
      modifies this, splitter, agg
      ensures Working()
      ensures var s := old(model);
              var text := ResultText(env, s);
              model == SendAll(env, s.(ended := true, result := text), [DoneMsg(s.up, |text|)] + ResultMsgs(text))
                       .(phase := Phase.Ready)
    {
      hide Shown, Parts, Sessions.Send, ResultText, Upload.Received, Upload.FinalStats, ResultMsgs, AggOf;
      PhaseShown();
      FinishUpload();
      ghost var start := model;
      ResultShown();
      var done := Done(received, FiguresOf(agg.Model()), agg.Model().oversize, |resultCsv|);
      SendAllOne(env, start, done);
      Send(done);
      SendResultCsv(start, [done]);
      Enter(Phase.Ready);
    }

    lemma ResultShown()
      requires Shown()
      ensures resultCsv == model.result
    {
    }

    method HandleEnd(payload: Bytes) returns (goOn: bool)
      requires Working() && phase.Uploading?
      modifies this, splitter, agg
      ensures Working()
      ensures var n := Sessions.HandleEnd(env, old(model), payload); model == n.s && goOn == n.goOn
    {
      hide Shown, Parts, Sessions.Send, Sessions.Abort, ReadField, ResultText, Upload.Received, ResultMsgs, SendAll;
      hide DoneMsg;
      PhaseShown();
      var ok, claimed := ReadClaim(payload);
      if !ok {
        AbortUpload(UNEXPECTED_TYPE);
        PhaseShown();
        return false;
      }
      if received != declared || claimed != declared {
        AbortUpload(SIZE_MISMATCH);
        PhaseShown();
        return false;
      }
      Complete();
      return true;
    }

    /** A frame has been taken in completely. */
    ghost predicate FrameComplete()
      reads decoder, decoder.headRaw
    {
      && decoder.Valid() && decoder.Model().Complete() && decoder.header == HeadOf(decoder.seen)
      && (!decoder.streaming ==> decoder.payload == decoder.seen[HEADER_SIZE..])
    }

    lemma SeenIs()
      requires FrameComplete()
      ensures SeenOf(decoder.Model()) == Seen(decoder.header.kind, decoder.streaming, decoder.payload)
    {
      hide HeadOf, HeaderError;
    }

    method DispatchReady(kind: nat, payload: Bytes) returns (goOn: bool)
      requires Working() && phase.Ready?
      modifies this, splitter, agg
      ensures Working()
      ensures var n := Sessions.Dispatch(env, old(model), Seen(kind, false, payload)); model == n.s && goOn == n.goOn
    {
      hide Shown, Parts, Sessions.Send, Sessions.Close, Sessions.HandleBegin;
      PhaseShown();
      if kind == BYE {
        Close();
        PhaseShown();
        return false;
      }
      if kind == UPLOAD_BEGIN {
        goOn := HandleBegin(payload);
        return;
      }
      if kind == CANCEL { return true; }
      Send(Error(UNEXPECTED_TYPE));
      PhaseShown();
      return true;
    }

    method DispatchUploading(kind: nat, streamed: bool, payload: Bytes) returns (goOn: bool)
      requires Working() && phase.Uploading?
      modifies this, splitter, agg
      ensures Working()
      ensures var n := Sessions.Dispatch(env, old(model), Seen(kind, streamed, payload)); model == n.s && goOn == n.goOn
    {
      hide Shown, Parts, Sessions.Abort, Sessions.HandleEnd;
      PhaseShown();
      if kind == UPLOAD_CHUNK {
        if !streamed {
          AbortUpload(PAYLOAD_TOO_LARGE);
          PhaseShown();
          return false;
        }
        return true;
      }
      if kind == UPLOAD_END {
        goOn := HandleEnd(payload);
        return;
      }
      if kind == CANCEL {
        AbortUpload(CANCELLED);
        PhaseShown();
        return true;
      }
      AbortUpload(UNEXPECTED_TYPE);
      PhaseShown();
      return false;
    }

    method DispatchHello(kind: nat, payload: Bytes) returns (goOn: bool)
      requires Working() && phase.AwaitHello?
      modifies this
      ensures Working()
      ensures var n := Sessions.Dispatch(env, old(model), Seen(kind, false, payload)); model == n.s && goOn == n.goOn
    {
      hide Shown, Parts, Sessions.Refuse, Sessions.HandleHello;
      PhaseShown();
      if kind != HELLO {
        Refuse(UNEXPECTED_TYPE);
        PhaseShown();
        return false;
      }
      goOn := HandleHello(payload);
    }

    /** Hands a complete frame to the handler for the current state. */
    method DispatchFrame() returns (goOn: bool)
      requires Working() && FrameComplete()
      modifies this, splitter, agg
      ensures Working()
      ensures var n := Sessions.Dispatch(env, old(model), SeenOf(old(decoder.Model()))); model == n.s && goOn == n.goOn
    {
      hide Shown, Parts, Sessions.HandleHello, Sessions.HandleBegin, Sessions.HandleEnd, Sessions.Abort,
           Sessions.Refuse, Sessions.Close, Sessions.Send;
      PhaseShown();
      SeenIs();
      var kind, payload := decoder.header.kind, decoder.payload;
      match phase
      case AwaitHello => goOn := DispatchHello(kind, payload);
      case Ready => goOn := DispatchReady(kind, payload);
      case Uploading => goOn := DispatchUploading(kind, decoder.streaming, payload);
      case Closing => goOn := false;
    }

    // -------------------------------------------------------------- reads

    /** The decoder takes what the current frame needs, and the sink what is streamed of it. */
    method FeedDecoder(data: Bytes) returns (status: Status, used: nat)
      requires Valid()
      modifies this, decoder, decoder.headRaw, splitter, agg
      ensures Working()
      ensures var s := old(model);
              var fed := FeedDec(s.dec, data, Accepting(s.phase));
              && status == fed.status && used == fed.used && decoder.Model() == fed.dec
              && model == (if fed.piece == [] then s else Sessions.PayloadChunk(env, s, fed.piece))
              && (status.Ready? ==> FrameComplete())
    {
      hide Shown, Sessions.PayloadChunk, FeedDec, Aggregator.Valid, L.LineSplitter.Valid, FrameDecoder.Valid;
      hide Accumulated, HeadOf, HeaderError, Accepting;
      PhaseShown();
      var piece;
      status, used, piece := decoder.Feed(data, Accepting(phase));
      if piece != [] {
        PayloadChunk(piece);
      }
    }

    method SyncDecoder()
      requires Working()
      modifies this`model
      ensures Valid() && model == old(model).(dec := decoder.Model())
    {
      hide Parts, Upload.Received, Upload.Lines, Upload.Stats;
      model := model.(dec := decoder.Model());
    }

    method RefuseWorking(code: nat)
      requires Working()
      modifies this
      ensures Working() && model == Sessions.Refuse(env, old(model), code)
    {
      hide Shown, Parts, Sessions.Refuse, Upload.Received, Upload.Lines, Upload.Stats;
      PhaseShown();
      Refuse(code);
      PhaseShown();
    }

    method ResetDecoder()
      requires Working()
      modifies decoder
      ensures Working() && decoder.Model() == NewFrame
    {
      hide Shown, Accumulated, FrameDecoder.Valid, L.LineSplitter.Valid, Aggregator.Valid;
      decoder.ResetFrame();
    }

    /** One turn of the loop over a read. */
    method Turn(data: Bytes) returns (more: bool, used: nat)
      requires Valid() && !decoder.Model().Complete() && !phase.Closing?
      modifies this, decoder, decoder.headRaw, splitter, agg
      ensures Valid() && !decoder.Model().Complete()
      ensures var s := old(model);
              var fed := FeedDec(s.dec, data, Accepting(s.phase));
              var s1 := if fed.piece == [] then s else Sessions.PayloadChunk(env, s, fed.piece);
              && used == fed.used
              && match fed.status
                 case NeedMore => !more && model == s1.(dec := fed.dec)
                 case Failed(code) => !more && model == Sessions.Refuse(env, s1, code).(dec := fed.dec)
                 case Ready =>
                   var n := Sessions.Dispatch(env, s1, SeenOf(fed.dec));
                   more == n.goOn && model == n.s.(dec := NewFrame)
    {
      hide Shown, Sessions.PayloadChunk, FeedDec, Sessions.Refuse, Sessions.Dispatch, HeadOf, HeaderError, Working;
      var status;
      status, used := FeedDecoder(data);
      if status.NeedMore? {
        SyncDecoder();
        return false, used;
      }
      if status.Failed? {
        RefuseWorking(status.code);
        SyncDecoder();
        return false, used;
      }
      more := DispatchFrame();
      ResetDecoder();
      SyncDecoder();
    }

    /** All of one read. */
    method ProcessData(data: Bytes)
      requires Valid() && !decoder.Model().Complete()
      modifies this, decoder, decoder.headRaw, splitter, agg
      ensures Valid() && !decoder.Model().Complete() && model == Sessions.Process(env, old(model), data)
    {
      hide Shown, Working, Sessions.PayloadChunk, FeedDec, Sessions.Refuse, Sessions.Dispatch, Dec.Complete, Dec.Valid;
      DecoderValid();
      ghost var goal := Sessions.Process(env, model, data);
      assert data[0..] == data;
      var off := 0;
      while off < |data| && !phase.Closing?
        invariant off <= |data|
        invariant Valid() && !decoder.Model().Complete() && model.dec.Valid()
        invariant Sessions.Process(env, model, data[off..]) == goal
        decreases |data| - off
      {
        DecoderValid();
        ghost var rest, s := data[off..], model;
        TurnMoves(s.dec, rest, Accepting(s.phase));
        var more, used := Turn(data[off..]);
        off := off + used;
        assert data[off..] == rest[used..];
        DecoderValid();
        if !more { return; }
      }
      DecoderValid();
    }

    lemma DecoderValid()
      requires Valid()
      ensures model.dec.Valid() && phase == model.phase && decoder.Model() == model.dec && env.fmt.Plain()
    {
      hide Accumulated, L.LineSplitter.Valid, Aggregator.Valid;
    }

    // -------------------------------------------------------------- what the event loop delivers

    method TouchIdle()
      requires Valid()
      modifies this`stallTicks, this`armed, this`model
      ensures Valid() && model == Touch(old(model))
    {
      hide Parts, Upload.Received, Upload.Lines, Upload.Stats;
      if phase.Closing? { return; }
      stallTicks := 0;
      armed := true;
      model := model.(ticks := 0, armed := true);
    }

    method OnRead(data: Bytes)
      requires Valid() && model.Valid() && Enabled(model, Read(data))
      modifies this, decoder, decoder.headRaw, splitter, agg
      ensures Valid() && model == Step(env, old(model), Read(data))
    {
      hide Valid, Sessions.Process, Touch;
      DecoderValid();
      ProcessData(data);
      TouchIdle();
    }

    method CloseWorking()
      requires Valid()
      modifies this
      ensures Valid() && model == Sessions.Close(old(model)) && phase.Closing?
    {
      hide Shown, Parts, Accumulated;
      PhaseShown();
      Close();
      PhaseShown();
    }

    /** End of the stream or a read error. */
    method OnReadEnd()
      requires Valid() && model.Valid() && Enabled(model, ReadEnd)
      modifies this
      ensures Valid() && model == Step(env, old(model), ReadEnd)
    {
      hide Valid, Sessions.Close;
      DecoderValid();
      CloseWorking();
    }

    method PopWrite()
      requires Valid() && pending > 0
      modifies this`pending, this`model
      ensures Valid() && model == old(model).(pending := old(model.pending) - 1)
      ensures pending == old(pending) - 1 == model.pending && closeAfterFlush == model.closeAfterFlush
    {
      hide Parts, Upload.Received, Upload.Lines, Upload.Stats;
      pending := pending - 1;
      model := model.(pending := pending);
    }

    method OnWriteDone(good: bool)
      requires Valid() && model.Valid() && Enabled(model, WriteDone(good))
      modifies this
      ensures Valid() && model == Step(env, old(model), WriteDone(good))
    {
      hide Valid, Sessions.Close;
      DecoderValid();
      CountsShown();
      PopWrite();
      if !good {
        CloseWorking();
        return;
      }
      if closeAfterFlush && pending == 0 {
        CloseWorking();
      }
    }

    lemma CountsShown()
      requires Valid()
      ensures pending == model.pending && closeAfterFlush == model.closeAfterFlush
      ensures pendingClose == model.open && stallTicks == model.ticks && notified == model.notified
    {
      hide Parts, Accumulated;
    }

    method CountClosed()
      requires Valid() && pendingClose > 0
      modifies this`pendingClose, this`model
      ensures Valid() && model == old(model).(open := old(model.open) - 1)
      ensures pendingClose == model.open && notified == model.notified
    {
      hide Parts, Upload.Received, Upload.Lines, Upload.Stats;
      pendingClose := pendingClose - 1;
      model := model.(open := pendingClose);
    }

    method NotifyOwner()
      requires Valid()
      modifies this`notified, this`model
      ensures Valid() && model == old(model).(notified := old(model.notified) + 1)
    {
      hide Parts, Upload.Received, Upload.Lines, Upload.Stats;
      notified := notified + 1;
      model := model.(notified := notified);
    }

    method OnHandleClosed()
      requires Valid() && model.Valid() && Enabled(model, HandleClosed)
      modifies this`pendingClose, this`notified, this`model
      ensures Valid() && model == Step(env, old(model), HandleClosed)
    {
      hide Valid;
      DecoderValid();
      CountsShown();
      CountClosed();
      if pendingClose > 0 { return; }
      NotifyOwner();
    }

    method CountTick()
      requires Shown()
      modifies this`stallTicks, this`model
      ensures Shown() && model == old(model).(ticks := old(model.ticks) + 1) && stallTicks == model.ticks
    {
      stallTicks := stallTicks + 1;
      model := model.(ticks := stallTicks);
    }

    method Disarm()
      requires Shown()
      modifies this`armed, this`model
      ensures Shown() && model == old(model).(armed := false)
    {
      armed := false;
      model := model.(armed := false);
    }

    /** A silent slice of an upload: one more is counted. */
    method CountSilence()
      requires Valid()
      modifies this`stallTicks, this`model
      ensures Valid() && model == old(model).(ticks := old(model.ticks) + 1)
      ensures stallTicks == model.ticks && phase == model.phase == old(phase)
    {
      hide Shown, Parts, Upload.Received, Upload.Lines, Upload.Stats;
      PhaseShown();
      CountTick();
      PhaseShown();
    }

    /** Silence up to the limit: whatever can still be sent, the connection closes at once. */
    method GiveUp()
      requires Valid()
      modifies this
      ensures Valid()
      ensures model == Sessions.Close(Sessions.Send(env, old(model).(armed := false, phase := Phase.Ready),
                                                    Error(IDLE_TIMEOUT)))
    {
      hide Shown, Parts, Accumulated, Sessions.Send;
      Disarm();
      Enter(Phase.Ready);
      Send(Error(IDLE_TIMEOUT));
      Close();
      PhaseShown();
    }

    method IdleExpired()
      requires Valid() && !phase.Uploading?
      modifies this
      ensures Valid() && model == Sessions.Refuse(env, old(model).(armed := false), IDLE_TIMEOUT)
    {
      hide Shown, Parts, Accumulated, Sessions.Refuse;
      PhaseShown();
      Disarm();
      PhaseShown();
      Refuse(IDLE_TIMEOUT);
      PhaseShown();
    }

    /** A silent slice in an upload, or the idle limit outside one. */
    method OnTimer()
      requires Valid() && model.Valid() && Enabled(model, Timer)
      modifies this
      ensures Valid() && model == Step(env, old(model), Timer)
    {
      hide Valid, Sessions.Send, Sessions.Close, Sessions.Refuse;
      DecoderValid();
      if phase.Uploading? {
        CountSilence();
        if stallTicks >= STALL_TICKS {
          GiveUp();
        }
      } else {
        IdleExpired();
      }
    }
  }

  /** A frame is never completed by nothing. */
  lemma TurnMoves(d: Dec, data: Bytes, accept: (nat, nat) -> bool)
    requires d.Valid() && !d.Complete() && data != []
    ensures FeedDec(d, data, accept).used <= |data|
    ensures FeedDec(d, data, accept).status.Ready? ==> FeedDec(d, data, accept).used > 0
  {
    hide FeedDec;
    if d.Broken() { FeedBroken(d, data, accept); }
  }

  /** Two reads, the second only if the first succeeds. */
  method ReadPair(payload: Bytes, k: FieldKind) returns (ok: bool, a: Field, b: Field)
    ensures var r := ReadFields([k, KStr], payload);
            ok == r.ok && (ok ==> r.fields == [a, b])
  {
    hide ReadField;
    a, b := U8(0), U8(0);
    PairOfReads(payload, k);
    var reader := new PayloadReader(payload);
    var first := reader.Get(k);
    if first.Short? { return false, a, b; }
    var second := reader.Get(KStr);
    if second.Short? { return false, a, b; }
    return true, first.f, second.f;
  }

  lemma ReadsNumber(payload: Bytes)
    ensures ReadField(K64, payload).Got? ==> ReadField(K64, payload).f.U64?
  {
    hide Value;
  }

  method ReadClaim(payload: Bytes) returns (ok: bool, v: nat)
    ensures ok == ReadField(K64, payload).Got? && (ok ==> v == ReadField(K64, payload).f.v)
  {
    hide ReadField;
    ReadsNumber(payload);
    var reader := new PayloadReader(payload);
    var r := reader.Get(K64);
    return r.Got?, if r.Got? then r.f.v else 0;
  }

  lemma PairOfReads(payload: Bytes, k: FieldKind)
    ensures var r := ReadFields([k, KStr], payload);
            var first := ReadField(k, payload);
            if first.Short? then !r.ok
            else
              var second := ReadField(KStr, first.rest);
              r.ok == second.Got? && (second.Got? ==> r.fields == [first.f, second.f])
  {
    hide ReadField;
    assert [k, KStr][1..] == [KStr] && [KStr][1..] == [];
    var first := ReadField(k, payload);
    if first.Got? {
      var last := ReadFields([KStr], first.rest);
      assert ReadFields([k, KStr], payload) == ReadAll([first.f] + last.fields, last.rest, last.ok);
      if ReadField(KStr, first.rest).Got? {
        assert ReadFields([], ReadField(KStr, first.rest).rest).fields == [];
      }
    }
  }

  lemma NoPieceYet(up: Upload)
    requires up.frags == []
    ensures up.Received() == 0 && up.Lines() == (L.Fresh, []) && up.Stats() == EmptyAgg && RawTotal(up.Lines().1) == 0
  {
  }

  lemma OneMore(es: seq<L.Emission>, e: L.Emission, more: seq<L.Emission>)
    requires more == es + [e]
    ensures AggOf(more) == WithLine(AggOf(es), e.line, RawTotal(es)) && RawTotal(more) == RawTotal(es) + e.raw
  {
    hide WithLine;
    assert more[..|more|-1] == es;
  }

  lemma FinalIsShowable(up: Upload)
    ensures CSV.Showable(up.FinalStats())
  {
    hide AggOf, CSV.FlatExcerpts, CSV.IdentNames, Upload.AllLines;
    CSV.ReachableIsShowable(up.AllLines().1);
  }

  lemma SendAllSnoc(env: Env, s: Sess, ms: seq<Msg>, m: Msg)
    ensures SendAll(env, s, ms + [m]) == Sessions.Send(env, SendAll(env, s, ms), m)
  {
    hide Sessions.Send;
    assert (ms + [m])[..|ms|] == ms;
  }

  lemma SendAllOne(env: Env, s: Sess, m: Msg)
    ensures SendAll(env, s, [m]) == Sessions.Send(env, s, m)
  {
    SendAllSnoc(env, s, [], m);
    assert [] + [m] == [m];
  }

  lemma NextPiece(text: string, off: nat, n: nat)
    requires off < |text| && n == if |text| - off < RESULT_CHUNK then |text| - off else RESULT_CHUNK
    ensures Pieces(text[off..]) == [ResultChunk(text[off..off+n])] + Pieces(text[off+n..])
  {
    var rest := text[off..];
    assert rest[..n] == text[off..off+n] && rest[n..] == text[off+n..];
    if |rest| <= RESULT_CHUNK {
      assert rest[..n] == rest && text[off+n..] == "";
    }
  }

  lemma SameStats(up: Upload, ack: nat)
    ensures var u := up.(lastAck := ack);
            u.Received() == up.Received() && u.Stats() == up.Stats() && u.Lines() == up.Lines()
  {
  }

  lemma SendIsLink(env: Env, s: Sess, m: Msg)
    ensures var r := Sessions.Send(env, s, m);
            && r.up == s.up && r.dec == s.dec && r.ended == s.ended && r.result == s.result
            && (r.phase == s.phase || r.phase.Closing?)
  {
  }
}
