/**
  One client connection on the server: the frame dispatch, the upload state and the life of
  its two handles, as a step machine over the events the event loop delivers.

  `Sess` is the state as a value.  The state of an upload is nothing but the list of payload
  pieces received since its UPLOAD_BEGIN; the line splitter and the statistics of the session
  are functions of that list.  `TcpSession` keeps them incrementally.
  */
module Sessions {
  import opened Wire
  import opened Framing
  import opened Aggregation
  import L = Lines
  import CSV = ResultCsv

  // ---------------------------------------------------------------- protocol numbers

  const HELLO: nat := 0x01
  const UPLOAD_BEGIN: nat := 0x10
  const UPLOAD_CHUNK: nat := 0x12
  const UPLOAD_END: nat := 0x13
  const CANCEL: nat := 0x40
  const BYE: nat := 0x7F

  const UNEXPECTED_TYPE: nat := 3
  const SIZE_MISMATCH: nat := 5
  const IDLE_TIMEOUT: nat := 8
  const CANCELLED: nat := 9

  const MAX_CHUNK: nat := 1024 * 1024
  const ACK_INTERVAL: nat := 16 * 1024 * 1024
  const RESULT_CHUNK: nat := 64 * 1024
  const STALL_TICKS: nat := 3

  // ---------------------------------------------------------------- what is sent

  /** The progress figures carried by acknowledgements. */
  datatype Figures = Figures(total: nat, accepted: nat, spdN: nat, modules: seq<nat>)

  datatype Msg =
    | HelloAck
    | BeginAck(maxChunk: nat)
    | Ack(received: nat, figures: Figures)
    | Done(received: nat, figures: Figures, oversize: nat, csvSize: nat)
    | ResultBegin(size: nat)
    | ResultChunk(text: string)
    | ResultEnd
    | Error(code: nat)

  function FiguresOf(a: Agg): Figures {
    Figures(a.total, a.accepted, a.speeds.n, a.modules)
  }

  /** The result in pieces of RESULT_CHUNK octets. */
  function Pieces(text: string): seq<Msg>
    decreases |text|
  {
    if text == "" then []
    else if |text| <= RESULT_CHUNK then [ResultChunk(text)]
    else [ResultChunk(text[..RESULT_CHUNK])] + Pieces(text[RESULT_CHUNK..])
  }

  function ResultMsgs(text: string): seq<Msg> {
    [ResultBegin(|text|)] + Pieces(text) + [ResultEnd]
  }

  // ---------------------------------------------------------------- environment

  /** The clock and memory readings that go into a result. */
  datatype Moment = Moment(utc: string, elapsedMs: nat, rssKb: nat)

  /**
    What a run cannot choose: whether the n-th write request is taken, the readings at each
    point of the conversation, and the number formatting.
    */
  datatype Env = Env(accepts: nat -> bool, moment: nat -> Moment, fmt: CSV.Printf)

  // ---------------------------------------------------------------- state

  datatype Phase = AwaitHello | Ready | Uploading | Closing

  datatype Upload = Upload(name: string, declared: nat, frags: seq<string>, lastAck: nat) {
    function Received(): nat { |L.Flatten(frags)| }

    function Lines(): (L.Split, seq<L.Emission>) {
      L.FeedAll(L.DEFAULT_MAX_LINE, L.Fresh, frags)
    }

    /** The statistics over the lines finished so far. */
    function Stats(): (a: Agg)
      ensures a.Shaped()
    {
      AggOf(Lines().1)
    }

    /** All the lines of the upload, once it has ended. */
    function AllLines(): (L.Split, seq<L.Emission>) {
      L.Stream(L.DEFAULT_MAX_LINE, frags)
    }

    /** The statistics once it has ended; lines given up as too long are counted apart. */
    function FinalStats(): (a: Agg)
      ensures a.Shaped()
    {
      AggOf(AllLines().1).(oversize := AllLines().0.dropped)
    }
  }

  const NoUpload := Upload("", 0, [], 0)

  datatype Sess = Sess(
    phase: Phase,
    dec: Dec,
    up: Upload,
    ended: bool,             // the statistics are final
    result: string,
    sent: seq<Msg>,          // frames handed to the transport and taken
    calls: nat,              // write requests made
    pending: nat,            // of those taken, not yet completed
    closeAfterFlush: bool,
    closing: bool,           // both handles were told to close
    open: nat,               // handles whose close callback is still to come
    notified: nat,           // calls of on_session_closed
    ticks: nat, armed: bool)
  {
    predicate Valid() {
      dec.Valid() && !dec.Complete() && Consistent()
    }

    predicate Consistent() {
      phase.Uploading? ==>
        !ended && up.lastAck <= up.Received() <= up.declared && up.Received() - up.lastAck < ACK_INTERVAL
    }
  }

  const Started := Sess(AwaitHello, NewFrame, NoUpload, false, "", [], 0, 0, false, false, 0, 0, 0, true)

  // ---------------------------------------------------------------- sending and closing

  function Close(s: Sess): Sess {
    if s.phase.Closing? then s
    else if s.closing then s.(phase := Closing, armed := false)
    else s.(phase := Closing, armed := false, closing := true, open := 2)
  }

  function Send(env: Env, s: Sess, m: Msg): Sess {
    if s.phase.Closing? then s
    else if env.accepts(s.calls) then s.(calls := s.calls + 1, sent := s.sent + [m], pending := s.pending + 1)
    else Close(s.(calls := s.calls + 1))
  }

  function SendAll(env: Env, s: Sess, ms: seq<Msg>): Sess {
    if ms == [] then s else Send(env, SendAll(env, s, ms[..|ms|-1]), ms[|ms|-1])
  }

  /** Back to Ready with an error; only a cancel keeps the connection. */
  function Abort(env: Env, s: Sess, code: nat): Sess {
    var s1 := Send(env, s.(phase := Phase.Ready), Error(code));
    if code == CANCELLED then s1.(up := NoUpload, ended := false, result := "")
    else s1.(closeAfterFlush := true)
  }

  /** An error after which the connection closes as soon as it has gone out. */
  function Refuse(env: Env, s: Sess, code: nat): Sess {
    Send(env, s, Error(code)).(closeAfterFlush := true)
  }

  // ---------------------------------------------------------------- streamed payload

  /** Which payloads are streamed: chunks of an upload under way, up to the negotiated size. */
  function Accepting(phase: Phase): (nat, nat) -> bool {
    (kind, len) => kind == UPLOAD_CHUNK && phase.Uploading? && len <= MAX_CHUNK
  }

  function PayloadChunk(env: Env, s: Sess, data: string): Sess {
    if !s.phase.Uploading? then s
    else if s.up.Received() + |data| > s.up.declared then Abort(env, s, SIZE_MISMATCH)
    else
      var up := s.up.(frags := s.up.frags + [data]);
      if up.Received() - up.lastAck >= ACK_INTERVAL then
        Send(env, s.(up := up.(lastAck := up.Received())), Ack(up.Received(), FiguresOf(up.Stats())))
      else s.(up := up)
  }

  // ---------------------------------------------------------------- frame dispatch

  /** What the dispatch sees of a complete frame. */
  datatype Seen = Seen(kind: nat, streamed: bool, payload: Bytes)

  function SeenOf(d: Dec): Seen
    requires d.Valid() && d.Complete()
  {
    Seen(HeadOf(d.seen).kind, d.streaming, if d.streaming then [] else d.seen[HEADER_SIZE..])
  }

  /** The state after a frame, and whether the rest of the read is looked at. */
  datatype Next = Next(s: Sess, goOn: bool)

  function HandleHello(env: Env, s: Sess, payload: Bytes): Next {
    if !ReadFields([K16, KStr], payload).ok then Next(Refuse(env, s, UNEXPECTED_TYPE), false)
    else Next(Send(env, s.(phase := Phase.Ready), HelloAck), true)
  }

  function HandleBegin(env: Env, s: Sess, payload: Bytes): Next {
    var r := ReadFields([K64, KStr], payload);
    if !r.ok then Next(Refuse(env, s, UNEXPECTED_TYPE), false)
    else
      BeginFields(payload);
      var total := r.fields[0].v;
      if total == 0 then Next(Send(env, s, Error(SIZE_MISMATCH)), true)
      else
        var up := Upload(r.fields[1].s, total, [], 0);
        Next(Send(env, s.(phase := Uploading, up := up, ended := false, result := ""), BeginAck(MAX_CHUNK)), true)
  }

  lemma BeginFields(payload: Bytes)
    requires ReadFields([K64, KStr], payload).ok
    ensures var f := ReadFields([K64, KStr], payload).fields;
            |f| == 2 && f[0].U64? && f[1].Str?
  {
    var r := ReadField(K64, payload).rest;
    assert [K64, KStr][1..] == [KStr] && [KStr][1..] == [];
    assert ReadFields([KStr], r).fields == [ReadField(KStr, r).f];
  }

  function ResultContext(env: Env, s: Sess): CSV.Context {
    var m := env.moment(s.calls);
    CSV.Context(m.utc, s.up.name, s.up.Received(), m.elapsedMs, m.rssKb)
  }

  function ResultText(env: Env, s: Sess): string
    requires env.fmt.Plain()
  {
    CSV.ReachableIsShowable(s.up.AllLines().1);
    CSV.Document(s.up.FinalStats(), ResultContext(env, s), env.fmt)
  }

  function DoneMsg(up: Upload, csvSize: nat): Msg {
    var a := up.FinalStats();
    Done(up.Received(), FiguresOf(a), a.oversize, csvSize)
  }

  function HandleEnd(env: Env, s: Sess, payload: Bytes): Next
    requires env.fmt.Plain()
  {
    var r := ReadField(K64, payload);
    if r.Short? then Next(Abort(env, s, UNEXPECTED_TYPE), false)
    else if s.up.Received() != s.up.declared || r.f.v != s.up.declared then
      Next(Abort(env, s, SIZE_MISMATCH), false)
    else
      var text := ResultText(env, s);
      var s1 := s.(ended := true, result := text);
      Next(SendAll(env, s1, [DoneMsg(s.up, |text|)] + ResultMsgs(text)).(phase := Phase.Ready), true)
  }

  function Dispatch(env: Env, s: Sess, f: Seen): Next
    requires env.fmt.Plain()
  {
    match s.phase
    case AwaitHello =>
      if f.kind != HELLO then Next(Refuse(env, s, UNEXPECTED_TYPE), false) else HandleHello(env, s, f.payload)
    case Ready =>
      if f.kind == BYE then Next(Close(s), false)
      else if f.kind == UPLOAD_BEGIN then HandleBegin(env, s, f.payload)
      else if f.kind == CANCEL then Next(s, true)
      else Next(Send(env, s, Error(UNEXPECTED_TYPE)), true)
    case Uploading =>
      if f.kind == UPLOAD_CHUNK then
        if f.streamed then Next(s, true) else Next(Abort(env, s, PAYLOAD_TOO_LARGE), false)
      else if f.kind == UPLOAD_END then HandleEnd(env, s, f.payload)
      else if f.kind == CANCEL then Next(Abort(env, s, CANCELLED), true)
      else Next(Abort(env, s, UNEXPECTED_TYPE), false)
    case Closing => Next(s, false)
  }

  // ---------------------------------------------------------------- one read

  function Process(env: Env, s: Sess, data: Bytes): (r: Sess)
    requires env.fmt.Plain() && s.dec.Valid() && !s.dec.Complete()
    ensures r.dec.Valid() && !r.dec.Complete()
    decreases |data|
  {
    if data == [] || s.phase.Closing? then s
    else
      var fed := FeedDec(s.dec, data, Accepting(s.phase));
      var s1 := if fed.piece == [] then s else PayloadChunk(env, s, fed.piece);
      match fed.status
      case NeedMore => s1.(dec := fed.dec)
      case Failed(code) => Refuse(env, s1, code).(dec := fed.dec)
      case Ready =>
        assert fed.used > 0 by { if s.dec.Broken() { FeedBroken(s.dec, data, Accepting(s.phase)); } }
        var n := Dispatch(env, s1, SeenOf(fed.dec));
        var s2 := n.s.(dec := NewFrame);
        if n.goOn then Process(env, s2, data[fed.used..]) else s2
  }

  // ---------------------------------------------------------------- events

  datatype Event = Read(data: Bytes) | ReadEnd | WriteDone(good: bool) | Timer | HandleClosed

  /** What the event loop can deliver: nothing is read once the handles are closing. */
  predicate Enabled(s: Sess, e: Event) {
    && s.notified == 0
    && match e
       case Read(data) => !s.closing && data != []
       case ReadEnd => !s.closing
       case WriteDone(_) => s.pending > 0
       case Timer => s.armed && !s.closing
       case HandleClosed => s.open > 0
  }

  /** Every read re-arms the idle timer. */
  function Touch(s: Sess): Sess {
    if s.phase.Closing? then s else s.(ticks := 0, armed := true)
  }

  function OnTimer(env: Env, s: Sess): Sess {
    if !s.phase.Uploading? then Refuse(env, s.(armed := false), IDLE_TIMEOUT)
    else if s.ticks + 1 < STALL_TICKS then s.(ticks := s.ticks + 1)
    else Close(Send(env, s.(ticks := s.ticks + 1, armed := false, phase := Phase.Ready), Error(IDLE_TIMEOUT)))
  }

  function OnWrite(s: Sess, good: bool): Sess
    requires s.pending > 0
  {
    var s1 := s.(pending := s.pending - 1);
    if !good || (s.closeAfterFlush && s1.pending == 0) then Close(s1) else s1
  }

  function Step(env: Env, s: Sess, e: Event): Sess
    requires env.fmt.Plain() && s.Valid() && Enabled(s, e)
  {
    match e
    case Read(data) => Touch(Process(env, s, data))
    case ReadEnd => Close(s)
    case WriteDone(good) => OnWrite(s, good)
    case Timer => OnTimer(env, s)
    case HandleClosed =>
      s.(open := s.open - 1, notified := s.notified + if s.open == 1 then 1 else 0)
  }

  // ---------------------------------------------------------------- invariants of every run

  lemma ReceivedNext(up: Upload, data: string)
    ensures up.(frags := up.frags + [data]).Received() == up.Received() + |data|
  {
    L.FlattenSnoc(up.frags, data);
  }

  lemma PayloadConsistent(env: Env, s: Sess, data: string)
    requires s.Consistent()
    ensures PayloadChunk(env, s, data).Consistent()
  {
    hide L.Flatten, Upload.Stats, FiguresOf;
    ReceivedNext(s.up, data);
  }

  lemma DispatchConsistent(env: Env, s: Sess, f: Seen)
    requires env.fmt.Plain() && s.Consistent()
    ensures Dispatch(env, s, f).s.Consistent()
  {
    hide HandleBegin, HandleEnd, HandleHello, Upload.Received;
    match s.phase
    case AwaitHello => HelloConsistent(env, s, f.payload);
    case Ready => BeginConsistent(env, s, f.payload);
    case Uploading => EndConsistent(env, s, f.payload);
    case Closing =>
  }

  lemma HelloConsistent(env: Env, s: Sess, payload: Bytes)
    requires s.phase.AwaitHello?
    ensures HandleHello(env, s, payload).s.Consistent()
  {
    hide ReadFields, Upload.Received;
  }

  lemma BeginConsistent(env: Env, s: Sess, payload: Bytes)
    requires s.phase.Ready?
    ensures HandleBegin(env, s, payload).s.Consistent()
  {
    hide ReadFields;
    if ReadFields([K64, KStr], payload).ok { BeginFields(payload); }
  }

  lemma EndConsistent(env: Env, s: Sess, payload: Bytes)
    requires env.fmt.Plain() && s.phase.Uploading?
    ensures !HandleEnd(env, s, payload).s.phase.Uploading?
  {
    hide ReadField, ResultText, DoneMsg, ResultMsgs, SendAll, Upload.Received;
  }

  lemma {:induction false} ProcessConsistent(env: Env, s: Sess, data: Bytes)
    requires env.fmt.Plain() && s.Valid()
    ensures Process(env, s, data).Valid()
    decreases |data|
  {
    hide Dispatch, PayloadChunk, FeedDec, Sess.Consistent;
    if data != [] && !s.phase.Closing? {
      var fed := FeedDec(s.dec, data, Accepting(s.phase));
      if fed.piece != [] { PayloadConsistent(env, s, fed.piece); }
      var s1 := if fed.piece == [] then s else PayloadChunk(env, s, fed.piece);
      if fed.status.Ready? {
        DispatchConsistent(env, s1, SeenOf(fed.dec));
        var n := Dispatch(env, s1, SeenOf(fed.dec));
        var s2 := n.s.(dec := NewFrame);
        SameConsistent(n.s, s2);
        if s.dec.Broken() { FeedBroken(s.dec, data, Accepting(s.phase)); }
        if n.goOn { ProcessConsistent(env, s2, data[fed.used..]); }
      } else if fed.status.Failed? {
        RefuseConsistent(env, s1, fed.status.code);
        SameConsistent(Refuse(env, s1, fed.status.code), Refuse(env, s1, fed.status.code).(dec := fed.dec));
      } else {
        SameConsistent(s1, s1.(dec := fed.dec));
      }
    }
  }

  lemma SameConsistent(s: Sess, t: Sess)
    requires s.Consistent() && t.phase == s.phase && t.ended == s.ended && t.up == s.up
    ensures t.Consistent()
  {
  }

  lemma RefuseConsistent(env: Env, s: Sess, code: nat)
    requires s.Consistent()
    ensures Refuse(env, s, code).Consistent()
  {
    hide Upload.Received;
  }

  /** Every write request is taken by the transport. */
  ghost predicate Taken(env: Env) {
    forall n :: env.accepts(n)
  }

  /**
    The life of the two handles and the one notification of the owner; and a session that is to
    close after its last frame is closing, or has a frame on the way.
    */
  ghost predicate Alive(env: Env, s: Sess) {
    && s.open <= 2 && s.notified <= 1
    && (!s.closing ==> s.open == 0 && s.notified == 0)
    && (s.closing ==> (s.notified == 1 <==> s.open == 0))
    && (s.phase.Closing? ==> s.closing)
    && (Taken(env) && s.closing ==> s.phase.Closing?)
    && (s.closeAfterFlush ==> s.closing || s.pending > 0)
  }

  ghost predicate Living(env: Env, s: Sess) {
    Alive(env, s) && s.notified == 0
  }

  lemma SameLiving(env: Env, s: Sess, t: Sess)
    requires Living(env, s) && (t.phase == s.phase || (!t.phase.Closing? && (Taken(env) ==> !s.closing)))
    requires t.closing == s.closing && t.open == s.open && t.notified == s.notified && t.pending >= s.pending
    requires t.closeAfterFlush ==> s.closeAfterFlush || s.closing || s.pending > 0
    ensures Living(env, t)
  {
  }

  lemma StillOpen(env: Env, s: Sess)
    requires Living(env, s) && !s.phase.Closing?
    ensures Taken(env) ==> !s.closing
  {
  }

  lemma CloseLiving(env: Env, s: Sess)
    requires Living(env, s)
    ensures Living(env, Close(s)) && Close(s).phase.Closing?
  {
  }

  lemma ClosingCloses(env: Env, s: Sess)
    requires Living(env, s)
    ensures s.phase.Closing? ==> s.closing
  {
  }

  lemma SendLiving(env: Env, s: Sess, m: Msg)
    requires Living(env, s)
    ensures Living(env, Send(env, s, m))
    ensures Send(env, s, m).closing || Send(env, s, m).pending > 0
  {
    hide Living;
    ClosingCloses(env, s);
    SameLiving(env, s, s.(calls := s.calls + 1));
    SameLiving(env, s, s.(calls := s.calls + 1, sent := s.sent + [m], pending := s.pending + 1));
    CloseLiving(env, s.(calls := s.calls + 1));
  }

  lemma {:induction false} SendAllLiving(env: Env, s: Sess, ms: seq<Msg>)
    requires Living(env, s)
    ensures Living(env, SendAll(env, s, ms))
  {
    hide Living, Send;
    if ms != [] {
      SendAllLiving(env, s, ms[..|ms|-1]);
      SendLiving(env, SendAll(env, s, ms[..|ms|-1]), ms[|ms|-1]);
    }
  }

  lemma {:induction false} AllTaken(env: Env, s: Sess, ms: seq<Msg>)
    requires Taken(env) && !s.phase.Closing?
    ensures var r := SendAll(env, s, ms);
            && r.sent == s.sent + ms && r.phase == s.phase && r.up == s.up
            && r.ended == s.ended && r.result == s.result
            && r.closing == s.closing && r.closeAfterFlush == s.closeAfterFlush
  {
    if ms != [] {
      AllTaken(env, s, ms[..|ms|-1]);
      assert ms[..|ms|-1] + [ms[|ms|-1]] == ms;
    }
  }

  lemma RefuseLiving(env: Env, s: Sess, code: nat)
    requires Living(env, s)
    ensures Living(env, Refuse(env, s, code))
  {
    hide Living, Send;
    SendLiving(env, s, Error(code));
    SameLiving(env, Send(env, s, Error(code)), Refuse(env, s, code));
  }

  lemma AbortLiving(env: Env, s: Sess, code: nat)
    requires Living(env, s) && !s.phase.Closing?
    ensures Living(env, Abort(env, s, code))
  {
    hide Living, Send;
    StillOpen(env, s);
    SameLiving(env, s, s.(phase := Phase.Ready));
    SendLiving(env, s.(phase := Phase.Ready), Error(code));
    SameLiving(env, Send(env, s.(phase := Phase.Ready), Error(code)), Abort(env, s, code));
  }

  lemma PayloadLiving(env: Env, s: Sess, data: string)
    requires Living(env, s)
    ensures Living(env, PayloadChunk(env, s, data))
  {
    hide Living, Send, Abort, Upload.Received, Upload.Stats, FiguresOf;
    if s.phase.Uploading? { AbortLiving(env, s, SIZE_MISMATCH); }
    var up := s.up.(frags := s.up.frags + [data]);
    var t := s.(up := up.(lastAck := up.Received()));
    SameLiving(env, s, t);
    SameLiving(env, s, s.(up := up));
    SendLiving(env, t, Ack(up.Received(), FiguresOf(up.Stats())));
  }

  lemma DispatchLiving(env: Env, s: Sess, f: Seen)
    requires env.fmt.Plain() && Living(env, s)
    ensures Living(env, Dispatch(env, s, f).s)
  {
    hide Living, Send, Abort, Refuse, Close, HandleHello, HandleEnd, HandleBegin;
    match s.phase
    case AwaitHello =>
      RefuseLiving(env, s, UNEXPECTED_TYPE);
      HelloLiving(env, s, f.payload);
    case Ready =>
      CloseLiving(env, s);
      BeginLiving(env, s, f.payload);
      SendLiving(env, s, Error(UNEXPECTED_TYPE));
    case Uploading =>
      AbortLiving(env, s, PAYLOAD_TOO_LARGE);
      AbortLiving(env, s, CANCELLED);
      AbortLiving(env, s, UNEXPECTED_TYPE);
      EndLiving(env, s, f.payload);
    case Closing =>
  }

  lemma HelloLiving(env: Env, s: Sess, payload: Bytes)
    requires Living(env, s) && !s.phase.Closing?
    ensures Living(env, HandleHello(env, s, payload).s)
  {
    hide Living, Send, Refuse, ReadFields;
    StillOpen(env, s);
    RefuseLiving(env, s, UNEXPECTED_TYPE);
    SameLiving(env, s, s.(phase := Phase.Ready));
    SendLiving(env, s.(phase := Phase.Ready), HelloAck);
  }

  lemma BeginLiving(env: Env, s: Sess, payload: Bytes)
    requires Living(env, s) && !s.phase.Closing?
    ensures Living(env, HandleBegin(env, s, payload).s)
  {
    hide Living, Send, Refuse, ReadFields;
    StillOpen(env, s);
    RefuseLiving(env, s, UNEXPECTED_TYPE);
    SendLiving(env, s, Error(SIZE_MISMATCH));
    var r := ReadFields([K64, KStr], payload);
    if r.ok {
      BeginFields(payload);
      var t := s.(phase := Uploading, up := Upload(r.fields[1].s, r.fields[0].v, [], 0), ended := false, result := "");
      SameLiving(env, s, t);
      SendLiving(env, t, BeginAck(MAX_CHUNK));
    }
  }

  lemma EndLiving(env: Env, s: Sess, payload: Bytes)
    requires env.fmt.Plain() && Living(env, s) && !s.phase.Closing?
    ensures Living(env, HandleEnd(env, s, payload).s)
  {
    hide Living, Send, Abort, ReadField, ResultText, DoneMsg, ResultMsgs, SendAll, Upload.Received;
    AbortLiving(env, s, UNEXPECTED_TYPE);
    AbortLiving(env, s, SIZE_MISMATCH);
    var text := ResultText(env, s);
    var ms := [DoneMsg(s.up, |text|)] + ResultMsgs(text);
    var t := s.(ended := true, result := text);
    SameLiving(env, s, t);
    SendAllLiving(env, t, ms);
    StillOpen(env, s);
    if Taken(env) { AllTaken(env, t, ms); }
    SameLiving(env, SendAll(env, t, ms), SendAll(env, t, ms).(phase := Phase.Ready));
  }

  lemma {:induction false} ProcessLiving(env: Env, s: Sess, data: Bytes)
    requires env.fmt.Plain() && s.dec.Valid() && !s.dec.Complete() && Living(env, s)
    ensures Living(env, Process(env, s, data))
    decreases |data|
  {
    hide Dispatch, PayloadChunk, FeedDec, Living, Refuse;
    if data != [] && !s.phase.Closing? {
      var fed := FeedDec(s.dec, data, Accepting(s.phase));
      var s1 := if fed.piece == [] then s else PayloadChunk(env, s, fed.piece);
      PayloadLiving(env, s, fed.piece);
      if fed.status.Ready? {
        DispatchLiving(env, s1, SeenOf(fed.dec));
        var n := Dispatch(env, s1, SeenOf(fed.dec));
        SameLiving(env, n.s, n.s.(dec := NewFrame));
        if s.dec.Broken() { FeedBroken(s.dec, data, Accepting(s.phase)); }
        if n.goOn { ProcessLiving(env, n.s.(dec := NewFrame), data[fed.used..]); }
      } else if fed.status.Failed? {
        RefuseLiving(env, s1, fed.status.code);
        SameLiving(env, Refuse(env, s1, fed.status.code), Refuse(env, s1, fed.status.code).(dec := fed.dec));
      } else {
        SameLiving(env, s1, s1.(dec := fed.dec));
      }
    }
  }

  /**
    Whatever the event, the session stays well-formed: an upload never takes more than it
    declared and is acknowledged at least every ACK_INTERVAL octets, and the owner is told of
    the end exactly when the last of the two handles has closed.
    */
  lemma StepKeeps(env: Env, s: Sess, e: Event)
    requires env.fmt.Plain() && s.Valid() && Alive(env, s) && Enabled(s, e)
    ensures Step(env, s, e).Valid() && Alive(env, Step(env, s, e))
    ensures s.notified <= Step(env, s, e).notified
  {
    hide Process, Upload.Received, Alive, Sess.Consistent, Refuse, Close, OnWrite, OnTimer;
    match e
    case Read(data) =>
      StillLiving(env, s);
      ProcessConsistent(env, s, data);
      ProcessLiving(env, s, data);
      var t := Process(env, s, data);
      SameConsistent(t, Touch(t));
      TouchLiving(env, t);
    case ReadEnd =>
      StillLiving(env, s);
      CloseConsistent(s);
      CloseLiving(env, s);
    case WriteDone(good) => WriteKeeps(env, s, good);
    case Timer => TimerKeeps(env, s);
    case HandleClosed => HandleKeeps(env, s);
  }

  lemma StillLiving(env: Env, s: Sess)
    requires Alive(env, s) && !s.closing
    ensures Living(env, s)
  {
  }

  lemma TouchLiving(env: Env, s: Sess)
    requires Living(env, s)
    ensures Alive(env, Touch(s)) && Touch(s).notified == 0
  {
  }

  lemma CloseConsistent(s: Sess)
    requires s.Valid()
    ensures Close(s).Valid()
  {
    hide Upload.Received;
  }

  lemma WriteKeeps(env: Env, s: Sess, good: bool)
    requires s.Valid() && Alive(env, s) && s.notified == 0 && s.pending > 0
    ensures var t := OnWrite(s, good); t.Valid() && Alive(env, t) && t.notified == 0
  {
    hide Upload.Received;
  }

  lemma TimerKeeps(env: Env, s: Sess)
    requires s.Valid() && Alive(env, s) && s.notified == 0 && !s.closing
    ensures var t := OnTimer(env, s); t.Valid() && Alive(env, t) && t.notified == 0
  {
    hide Upload.Received;
  }

  lemma HandleKeeps(env: Env, s: Sess)
    requires s.Valid() && Alive(env, s) && s.notified == 0 && s.open > 0
    ensures var t := s.(open := s.open - 1, notified := s.notified + if s.open == 1 then 1 else 0);
            t.Valid() && Alive(env, t)
  {
    hide Upload.Received;
  }

  /** A run: each event was possible when it came. */
  ghost predicate Possible(env: Env, s: Sess, es: seq<Event>)
    requires env.fmt.Plain()
    decreases |es|
  {
    if es == [] then s.Valid()
    else s.Valid() && Enabled(s, es[0]) && Possible(env, Step(env, s, es[0]), es[1..])
  }

  ghost function Run(env: Env, s: Sess, es: seq<Event>): Sess
    requires env.fmt.Plain() && Possible(env, s, es)
    decreases |es|
  {
    if es == [] then s else Run(env, Step(env, s, es[0]), es[1..])
  }

  lemma {:induction false} RunKeeps(env: Env, s: Sess, es: seq<Event>)
    requires env.fmt.Plain() && s.Valid() && Alive(env, s) && Possible(env, s, es)
    ensures Run(env, s, es).Valid() && Alive(env, Run(env, s, es))
    decreases |es|
  {
    hide Step, Enabled, Alive;
    if es != [] {
      StepKeeps(env, s, es[0]);
      RunKeeps(env, Step(env, s, es[0]), es[1..]);
    }
  }

  /** In every run of a new connection the owner is notified at most once, and last of all. */
  lemma NotifiedOnce(env: Env, es: seq<Event>, e: Event)
    requires env.fmt.Plain() && Possible(env, Started, es)
    ensures var s := Run(env, Started, es);
            && s.notified <= 1
            && (s.notified == 1 <==> s.closing && s.open == 0)
            && (s.notified == 1 ==> !Enabled(s, e))
  {
    StartedGood(env);
    RunKeeps(env, Started, es);
  }

  lemma StartedGood(env: Env)
    ensures Started.Valid() && Alive(env, Started)
  {
  }

  // ---------------------------------------------------------------- closing

  /** No event leads out of Closing. */
  lemma ClosingIsFinal(env: Env, s: Sess, e: Event)
    requires env.fmt.Plain() && s.Valid() && Alive(env, s) && Enabled(s, e) && s.phase.Closing?
    ensures Step(env, s, e).phase.Closing? && Step(env, s, e).sent == s.sent
  {
    hide Upload.Received;
  }

  /** While the transport takes every write, a session whose handles are closing is Closing. */
  lemma ClosingIsKnown(env: Env, es: seq<Event>)
    requires env.fmt.Plain() && Possible(env, Started, es) && Taken(env)
    ensures var s := Run(env, Started, es); s.closing <==> s.phase.Closing?
  {
    hide Run, Possible;
    StartedGood(env);
    RunKeeps(env, Started, es);
  }

  lemma {:induction false} ClosedByRefusal(env: Env, s: Sess, ms: seq<Msg>)
    requires !s.phase.Closing? && !s.closing
    ensures var r := SendAll(env, s, ms);
            && r.result == s.result && r.closing == r.phase.Closing?
            && (r.phase.Closing? <==> exists i | s.calls <= i < s.calls + |ms| :: !env.accepts(i))
            && (!r.phase.Closing? ==> r.calls == s.calls + |ms|)
  {
    if ms != [] {
      ClosedByRefusal(env, s, ms[..|ms|-1]);
    }
  }

  /**
    The end of an upload does not check whether its own replies closed the connection: it
    always leaves the session Ready, and that is over closing handles exactly when one of
    those write requests was refused.
    */
  lemma EndForgetsClosing(env: Env, s: Sess, payload: Bytes)
    requires env.fmt.Plain() && s.phase.Uploading? && !s.closing && ReadField(K64, payload).Got?
    requires s.up.Received() == s.up.declared == ReadField(K64, payload).f.v
    ensures var t := HandleEnd(env, s, payload).s;
            && t.phase.Ready?
            && (t.closing <==>
                exists i | s.calls <= i < s.calls + 1 + |ResultMsgs(ResultText(env, s))| :: !env.accepts(i))
  {
    hide ReadField, ResultText, DoneMsg, ResultMsgs, SendAll, Upload.Received;
    var text := ResultText(env, s);
    var ms := [DoneMsg(s.up, |text|)] + ResultMsgs(text);
    ClosedByRefusal(env, s.(ended := true, result := text), ms);
  }

  /** For instance, a one-octet upload over a connection that takes no more writes. */
  lemma EndForgetsClosingExample(fmt: CSV.Printf) returns (env: Env, s: Sess, payload: Bytes)
    requires fmt.Plain()
    ensures env.fmt == fmt && s.Valid() && s.phase.Uploading? && !s.closing
    ensures HandleEnd(env, s, payload).s.phase.Ready? && HandleEnd(env, s, payload).s.closing
  {
    hide ReadField, ResultText, DoneMsg, ResultMsgs, SendAll;
    env := Env(n => false, n => Moment("", 0, 0), fmt);
    s := Started.(phase := Uploading, up := Upload("f", 1, ["x"], 0));
    payload := Encode(U64(1));
    FieldRoundTrip(U64(1), []);
    assert payload + [] == payload;
    L.FlattenOne("x");
    EndForgetsClosing(env, s, payload);
    assert !env.accepts(s.calls);
  }

  // ---------------------------------------------------------------- timers and flushing

  function Repeat(e: Event, n: nat): seq<Event> {
    if n == 0 then [] else [e] + Repeat(e, n - 1)
  }

  /** A session in an upload that has just heard from its client. */
  ghost predicate Listening(s: Sess) {
    s.Valid() && s.phase.Uploading? && s.armed && !s.closing && s.notified == 0
  }

  /**
    Silence in an upload: fewer than STALL_TICKS slices in a row change nothing but their
    count, and the one that makes them up ends the connection, the upload with it.
    */
  lemma {:induction false} SilenceIsCounted(env: Env, s: Sess, n: nat)
    requires env.fmt.Plain() && Listening(s) && s.ticks < STALL_TICKS && s.ticks + n <= STALL_TICKS
    ensures Possible(env, s, Repeat(Timer, n))
    ensures var r := Run(env, s, Repeat(Timer, n));
            if s.ticks + n < STALL_TICKS then r == s.(ticks := s.ticks + n)
            else r.phase.Closing? && r.closing && !r.armed
    decreases n
  {
    hide Upload.Received;
    if n > 0 {
      assert Repeat(Timer, n)[0] == Timer && Repeat(Timer, n)[1..] == Repeat(Timer, n - 1);
      StepValid(env, s, Timer);
      if s.ticks + 1 < STALL_TICKS {
        SilenceIsCounted(env, s.(ticks := s.ticks + 1), n - 1);
      } else {
        assert Repeat(Timer, n - 1) == [];
      }
    }
  }

  /**
    In every run a session that is to close after its last frame is closing already or still
    has a frame on the way, and the completion of the last one closes it, failed or not.
    */
  lemma FlushIsDue(env: Env, es: seq<Event>, good: bool)
    requires env.fmt.Plain() && Possible(env, Started, es)
    ensures var s := Run(env, Started, es);
            s.closeAfterFlush && !s.closing ==>
              && s.pending > 0
              && (s.pending == 1 ==> OnWrite(s, good).phase.Closing? && OnWrite(s, good).closing)
  {
    hide Run, Possible, Upload.Received;
    StartedGood(env);
    RunKeeps(env, Started, es);
  }

  /**
    After a refusal the connection closes with the last of the frames already handed over,
    and not before.
    */
  lemma {:induction false} FlushThenClose(env: Env, s: Sess, n: nat)
    requires env.fmt.Plain() && s.Valid() && s.closeAfterFlush && !s.phase.Closing? && !s.closing && s.notified == 0
    requires n <= s.pending && s.pending > 0
    ensures Possible(env, s, Repeat(WriteDone(true), n))
    ensures var r := Run(env, s, Repeat(WriteDone(true), n));
            && r.pending == s.pending - n && r.sent == s.sent
            && r.phase == (if n == s.pending then Closing else s.phase) && (r.closing <==> n == s.pending)
    decreases n
  {
    hide Upload.Received, Process;
    var e := WriteDone(true);
    if n > 0 {
      assert Repeat(e, n)[0] == e && Repeat(e, n)[1..] == Repeat(e, n - 1);
      StepValid(env, s, e);
      if s.pending > 1 {
        FlushThenClose(env, Step(env, s, e), n - 1);
      } else {
        assert Repeat(e, n - 1) == [];
      }
    }
  }

  // ---------------------------------------------------------------- leftovers of earlier uploads

  /** The same session but for what it keeps of an upload that is over. */
  predicate Alike(s: Sess, t: Sess) {
    && (s.phase.Uploading? ==> s == t)
    && t.phase == s.phase && t.dec == s.dec && t.sent == s.sent && t.calls == s.calls && t.pending == s.pending
    && t.closeAfterFlush == s.closeAfterFlush && t.closing == s.closing && t.open == s.open
    && t.notified == s.notified && t.ticks == s.ticks && t.armed == s.armed
  }

  lemma AlikeClose(s: Sess, t: Sess)
    requires Alike(s, t)
    ensures Alike(Close(s), Close(t))
  {
  }

  lemma AlikeSend(env: Env, s: Sess, t: Sess, m: Msg)
    requires Alike(s, t)
    ensures Alike(Send(env, s, m), Send(env, t, m))
  {
    hide Close;
    AlikeClose(s.(calls := s.calls + 1), t.(calls := t.calls + 1));
  }

  lemma AlikeRefuse(env: Env, s: Sess, t: Sess, code: nat)
    requires Alike(s, t)
    ensures Alike(Refuse(env, s, code), Refuse(env, t, code))
  {
    hide Send;
    AlikeSend(env, s, t, Error(code));
  }

  lemma AlikeHello(env: Env, s: Sess, t: Sess, payload: Bytes)
    requires Alike(s, t) && s.phase.AwaitHello?
    ensures var n, m := HandleHello(env, s, payload), HandleHello(env, t, payload);
            n.goOn == m.goOn && Alike(n.s, m.s)
  {
    hide Send, Refuse, ReadFields;
    AlikeRefuse(env, s, t, UNEXPECTED_TYPE);
    AlikeSend(env, s.(phase := Phase.Ready), t.(phase := Phase.Ready), HelloAck);
  }

  lemma AlikeBegin(env: Env, s: Sess, t: Sess, payload: Bytes)
    requires Alike(s, t) && s.phase.Ready?
    ensures var n, m := HandleBegin(env, s, payload), HandleBegin(env, t, payload);
            n.goOn == m.goOn && Alike(n.s, m.s)
  {
    hide Send, Refuse, ReadFields;
    AlikeRefuse(env, s, t, UNEXPECTED_TYPE);
    AlikeSend(env, s, t, Error(SIZE_MISMATCH));
    var r := ReadFields([K64, KStr], payload);
    if r.ok {
      BeginFields(payload);
      var up := Upload(r.fields[1].s, r.fields[0].v, [], 0);
      assert s.(phase := Uploading, up := up, ended := false, result := "")
             == t.(phase := Uploading, up := up, ended := false, result := "");
    }
  }

  lemma AlikeDispatch(env: Env, s: Sess, t: Sess, f: Seen)
    requires env.fmt.Plain() && Alike(s, t)
    ensures var n, m := Dispatch(env, s, f), Dispatch(env, t, f);
            n.goOn == m.goOn && Alike(n.s, m.s)
  {
    hide HandleHello, HandleBegin, HandleEnd, Abort, Send, Refuse, Close;
    match s.phase
    case AwaitHello =>
      AlikeRefuse(env, s, t, UNEXPECTED_TYPE);
      AlikeHello(env, s, t, f.payload);
    case Ready =>
      AlikeClose(s, t);
      AlikeBegin(env, s, t, f.payload);
      AlikeSend(env, s, t, Error(UNEXPECTED_TYPE));
    case Uploading => assert s == t;
    case Closing =>
  }

  lemma AlikePayload(env: Env, s: Sess, t: Sess, data: string)
    requires Alike(s, t)
    ensures Alike(PayloadChunk(env, s, data), PayloadChunk(env, t, data))
  {
    hide Upload.Received, Upload.Stats, Send, Abort, FiguresOf;
  }

  lemma AlikeDec(s: Sess, t: Sess, d: Dec)
    requires Alike(s, t)
    ensures Alike(s.(dec := d), t.(dec := d))
  {
  }

  lemma {:induction false} AlikeProcess(env: Env, s: Sess, t: Sess, data: Bytes)
    requires env.fmt.Plain() && s.dec.Valid() && !s.dec.Complete() && Alike(s, t)
    ensures Alike(Process(env, s, data), Process(env, t, data))
    decreases |data|
  {
    hide Dispatch, FeedDec, PayloadChunk, Refuse, Accepting;
    if data != [] && !s.phase.Closing? {
      var fed := FeedDec(s.dec, data, Accepting(s.phase));
      var s1 := if fed.piece == [] then s else PayloadChunk(env, s, fed.piece);
      var t1 := if fed.piece == [] then t else PayloadChunk(env, t, fed.piece);
      AlikePayload(env, s, t, fed.piece);
      if fed.status.Ready? {
        if s.dec.Broken() { FeedBroken(s.dec, data, Accepting(s.phase)); }
        AlikeDispatch(env, s1, t1, SeenOf(fed.dec));
        var n, m := Dispatch(env, s1, SeenOf(fed.dec)), Dispatch(env, t1, SeenOf(fed.dec));
        AlikeDec(n.s, m.s, NewFrame);
        if n.goOn { AlikeProcess(env, n.s.(dec := NewFrame), m.s.(dec := NewFrame), data[fed.used..]); }
      } else if fed.status.Failed? {
        AlikeRefuse(env, s1, t1, fed.status.code);
        AlikeDec(Refuse(env, s1, fed.status.code), Refuse(env, t1, fed.status.code), fed.dec);
      } else {
        AlikeDec(s1, t1, fed.dec);
      }
    }
  }

  /**
    Whatever earlier uploads left behind, finished, cancelled in the middle of a line or
    while a long one was being thrown away, nothing that happens later depends on it.
    */
  lemma {:induction false} LeftoversDoNotMatter(env: Env, s: Sess, t: Sess, es: seq<Event>)
    requires env.fmt.Plain() && t.Valid() && Alike(s, t) && Possible(env, s, es)
    ensures Possible(env, t, es) && Alike(Run(env, s, es), Run(env, t, es))
    ensures Run(env, s, es).sent == Run(env, t, es).sent
    decreases |es|
  {
    hide Process, Sess.Consistent;
    if es != [] {
      StepAlike(env, s, t, es[0]);
      StepValid(env, t, es[0]);
      LeftoversDoNotMatter(env, Step(env, s, es[0]), Step(env, t, es[0]), es[1..]);
    }
  }

  lemma StepAlike(env: Env, s: Sess, t: Sess, e: Event)
    requires env.fmt.Plain() && s.Valid() && t.Valid() && Alike(s, t) && Enabled(s, e)
    ensures Enabled(t, e) && Alike(Step(env, s, e), Step(env, t, e))
  {
    hide Process, Sess.Consistent, Refuse, Close, Send;
    match e
    case Read(data) => AlikeProcess(env, s, t, data);
    case ReadEnd => AlikeClose(s, t);
    case WriteDone(good) => AlikeClose(s.(pending := s.pending - 1), t.(pending := t.pending - 1));
    case Timer =>
      if s.phase.Uploading? { assert s == t; }
      AlikeRefuse(env, s.(armed := false), t.(armed := false), IDLE_TIMEOUT);
    case HandleClosed =>
  }

  lemma StepValid(env: Env, s: Sess, e: Event)
    requires env.fmt.Plain() && s.Valid() && Enabled(s, e)
    ensures Step(env, s, e).Valid()
  {
    hide Process, Upload.Received;
    match e
    case Read(data) =>
      ProcessConsistent(env, s, data);
      var t := Process(env, s, data);
      SameConsistent(t, Touch(t));
    case Timer => RefuseConsistent(env, s, IDLE_TIMEOUT);
    case _ =>
  }
}
