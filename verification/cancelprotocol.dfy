/**
  The conversation of one client and one server over a connection, upload after upload, with
  cancellation at any of the points where the client sends CANCEL and drains.

  Both directions are FIFO.  Messages carry the number of the upload they belong to, but only
  to state the properties: neither side looks at it.
  */
module CancelProtocol {
  import F = Framing
  import S = Sessions

  const MAX_CSV: nat := 64 * 1024 * 1024

  /**
    Requests and replies, as far as the conversation depends on them.  `Garbage` is what is not a
    frame; a client that keeps to the protocol sends none.
    */
  datatype Req = Begin(total: nat) | Chunk(size: nat) | End(claimed: nat) | Cancel | Garbage
  datatype Rep =
    | BeginAck | Ack(received: nat) | Done(received: nat, size: nat)
    | ResBegin(size: nat) | ResChunk(size: nat) | ResEnd | Err(code: nat)
  {
    /** The two replies that end a drain. */
    predicate Stops() {
      ResEnd? || Err?
    }
  }

  datatype Tagged<T> = Tagged(upload: nat, m: T)

  // ---------------------------------------------------------------- the server

  /** `refused` once the server has decided to close the connection. */
  datatype Server = Server(uploading: bool, declared: nat, received: nat, refused: bool)

  function Pieces(n: nat): (r: seq<Rep>)
    decreases n
  {
    if n == 0 then []
    else if n <= S.RESULT_CHUNK then [ResChunk(n)]
    else [ResChunk(S.RESULT_CHUNK)] + Pieces(n - S.RESULT_CHUNK)
  }

  function Answer(received: nat, csv: nat): seq<Rep> {
    [Done(received, csv), ResBegin(csv)] + Pieces(csv) + [ResEnd]
  }

  datatype Served = Served(server: Server, replies: seq<Rep>)

  function Refuse(codes: seq<nat>): Served {
    Served(Server(false, 0, 0, true), Errors(codes))
  }

  /** An acknowledgement that falls due, and what it says has been received. */
  datatype Due = NotDue | DueAt(received: nat)

  function Acked(ack: Due): seq<Rep> {
    if ack.DueAt? then [Ack(ack.received)] else []
  }

  function Errors(codes: seq<nat>): seq<Rep> {
    if codes == [] then [] else [Err(codes[0])] + Errors(codes[1..])
  }

  /**
    What the server makes of a request.  `ack` says whether an acknowledgement falls due in
    a chunk, `csv` how long the result turns out to be.
    */
  function Serve(sv: Server, m: Req, ack: Due, csv: nat): Served {
    if sv.uploading then
      match m
      case Chunk(n) =>
        if n == 0 || n > S.MAX_CHUNK then Refuse([F.PAYLOAD_TOO_LARGE])
        else if sv.received + n > sv.declared then
          Served(Server(false, 0, 0, true), Acked(ack) + Errors([S.SIZE_MISMATCH, S.UNEXPECTED_TYPE]))
        else Served(sv.(received := sv.received + n), Acked(ack))
      case End(claimed) =>
        if sv.received != sv.declared || claimed != sv.declared then Refuse([S.SIZE_MISMATCH])
        else Served(Server(false, 0, 0, sv.refused), Answer(sv.received, csv))
      case Cancel => Served(Server(false, 0, 0, sv.refused), [Err(S.CANCELLED)])
      case Begin(_) => Refuse([S.UNEXPECTED_TYPE])
      case Garbage => Refuse([F.BAD_MAGIC])
    else
      match m
      case Begin(total) =>
        if total == 0 then Served(sv, [Err(S.SIZE_MISMATCH)])
        else Served(Server(true, total, 0, sv.refused), [BeginAck])
      case Cancel => Served(sv, [])
      case Garbage => Refuse([F.BAD_MAGIC])
      case _ => Served(sv, [Err(S.UNEXPECTED_TYPE)])
  }

  // ---------------------------------------------------------------- the client

  datatype Stage = Idle | Begun | Sending | Waiting | ResultDue | Receiving | Draining | Dead

  /** `total` and `sent` of the upload, `size` and `got` of its result. */
  datatype Client = Client(stage: Stage, total: nat, sent: nat, size: nat, got: nat)

  /** What the client makes of a reply. */
  function Take(c: Client, m: Rep): Client {
    match c.stage
    case Begun => c.(stage := if m.BeginAck? then Sending else Dead)
    case Sending => if m.Err? then c.(stage := Dead) else c
    case Waiting =>
      if m.Ack? then c
      else if m.Done? && m.size <= MAX_CSV then c.(stage := ResultDue)
      else c.(stage := Dead)
    case ResultDue =>
      if m.ResBegin? && m.size <= MAX_CSV then c.(stage := Receiving, size := m.size, got := 0)
      else c.(stage := Dead)
    case Receiving =>
      if m.ResChunk? then c.(got := c.got + m.size)
      else if m.ResEnd? && c.got == c.size then c.(stage := Idle)
      else c.(stage := Dead)
    case Draining => if m.Stops() then c.(stage := Idle) else c
    case Idle => c
    case Dead => c
  }

  // ---------------------------------------------------------------- the two together

  /** `upload` counts the uploads begun, `serving` is the one the server works on. */
  datatype State = State(client: Client, server: Server, toServer: seq<Tagged<Req>>, toClient: seq<Tagged<Rep>>,
                         upload: nat, serving: nat, csv: nat)

  const Connected := State(Client(Idle, 0, 0, 0, 0), Server(false, 0, 0, false), [], [], 0, 0, 0)

  datatype Step =
    | StartUpload(total: nat) | SendChunk(n: nat) | SendEnd | SendCancel | ReadReply
    | ServeNext(ack: Due, csv: nat)

  predicate Enabled(s: State, e: Step) {
    match e
    case StartUpload(_) => s.client.stage.Idle?
    case SendChunk(n) =>
      s.client.stage.Sending? && 0 < n <= S.MAX_CHUNK && s.client.sent + n <= s.client.total
    case SendEnd => s.client.stage.Sending? && s.client.sent == s.client.total
    case SendCancel =>
      s.client.stage.Sending? || s.client.stage.Waiting? || s.client.stage.ResultDue? || s.client.stage.Receiving?
    case ReadReply => !s.client.stage.Idle? && !s.client.stage.Dead? && s.toClient != []
    case ServeNext(_, _) => s.toServer != []
  }

  function TagAll(upload: nat, ms: seq<Rep>): seq<Tagged<Rep>> {
    if ms == [] then [] else [Tagged(upload, ms[0])] + TagAll(upload, ms[1..])
  }

  function Put(s: State, c: Client, m: Req): State {
    s.(client := c, toServer := s.toServer + [Tagged(s.upload, m)])
  }

  function Next(s: State, e: Step): State
    requires Enabled(s, e)
  {
    match e
    case StartUpload(total) => Put(s.(upload := s.upload + 1), Client(Begun, total, 0, 0, 0), Begin(total))
    case SendChunk(n) => Put(s, s.client.(sent := s.client.sent + n), Chunk(n))
    case SendEnd => Put(s, s.client.(stage := Waiting), End(s.client.sent))
    case SendCancel => Put(s, s.client.(stage := Draining), Cancel)
    case ReadReply => s.(client := Take(s.client, s.toClient[0].m), toClient := s.toClient[1..])
    case ServeNext(ack, csv) =>
      var t := s.toServer[0];
      var r := Serve(s.server, t.m, ack, csv);
      s.(server := r.server, toServer := s.toServer[1..], toClient := s.toClient + TagAll(t.upload, r.replies),
         serving := if t.m.Begin? then t.upload else s.serving, csv := if t.m.End? then csv else s.csv)
  }

  // ---------------------------------------------------------------- the invariant

  function Sum(ms: seq<Tagged<Req>>): nat {
    if ms == [] then 0 else Sum(ms[..|ms|-1]) + if ms[|ms|-1].m.Chunk? then ms[|ms|-1].m.size else 0
  }

  predicate Chunks(ms: seq<Tagged<Req>>, upload: nat) {
    forall i | 0 <= i < |ms| ::
      ms[i].upload == upload && ms[i].m.Chunk? && 0 < ms[i].m.size <= S.MAX_CHUNK
  }

  predicate Acks(ms: seq<Tagged<Rep>>, upload: nat) {
    forall i | 0 <= i < |ms| :: ms[i].upload == upload && ms[i].m.Ack?
  }

  /** The rest of a result of which `n` octets are still to come. */
  predicate ResultTail(ms: seq<Tagged<Rep>>, upload: nat, n: nat)
    decreases |ms|
  {
    && ms != [] && ms[0].upload == upload
    && if ms[0].m.ResEnd? then n == 0 && |ms| == 1
       else ms[0].m.ResChunk? && 0 < ms[0].m.size <= n && ResultTail(ms[1..], upload, n - ms[0].m.size)
  }

  predicate Result(ms: seq<Tagged<Rep>>, upload: nat, size: nat) {
    |ms| > 0 && ms[0] == Tagged(upload, ResBegin(size)) && ResultTail(ms[1..], upload, size)
  }

  /** Acknowledgements, then ANALYZE_DONE and the result. */
  predicate Analysis(ms: seq<Tagged<Rep>>, upload: nat, total: nat, csv: nat)
    decreases |ms|
  {
    && ms != [] && ms[0].upload == upload
    && if ms[0].m.Ack? then Analysis(ms[1..], upload, total, csv)
       else ms[0].m == Done(total, csv) && Result(ms[1..], upload, csv)
  }

  /** Exactly the last reply ends a drain. */
  predicate Ending(ms: seq<Tagged<Rep>>, upload: nat) {
    && ms != [] && (ms[|ms|-1].m.ResEnd? || ms[|ms|-1].m == Err(S.CANCELLED))
    && (forall i | 0 <= i < |ms| - 1 :: !ms[i].m.Stops())
    && forall i | 0 <= i < |ms| :: ms[i].upload == upload
  }

  predicate Quiet(s: State) {
    !s.server.uploading && s.toClient == []
  }

  /** The server is on this upload and `queue` holds chunks of it that add up. */
  predicate Taking(s: State, queue: seq<Tagged<Req>>) {
    && s.server.uploading && s.serving == s.upload && s.server.declared == s.client.total
    && Chunks(queue, s.upload) && s.server.received + Sum(queue) == s.client.sent <= s.client.total
    && Acks(s.toClient, s.upload)
  }

  /** The CANCEL of an earlier upload is still in front of the request. */
  predicate StaleAnd(s: State, t: Tagged<Req>) {
    |s.toServer| == 2 && s.toServer[0].m.Cancel? && s.toServer[0].upload < s.upload && s.toServer[1] == t
  }

  predicate InvBegun(s: State) {
    var begin := Tagged(s.upload, Begin(s.client.total));
    && s.client.sent == 0
    && (|| (Quiet(s) && (s.toServer == [begin] || StaleAnd(s, begin)))
        || (s.toServer == [] && s.client.total > 0
            && s.toClient == [Tagged(s.upload, BeginAck)] && s.serving == s.upload
            && s.server.uploading && s.server.declared == s.client.total && s.server.received == 0)
        || (s.toServer == [] && s.client.total == 0 && !s.server.uploading
            && s.toClient == [Tagged(s.upload, Err(S.SIZE_MISMATCH))]))
  }

  predicate InvWaiting(s: State) {
    var n := |s.toServer|;
    && s.client.sent == s.client.total
    && if s.server.uploading then
         && n > 0 && s.toServer[n-1] == Tagged(s.upload, End(s.client.total)) && Taking(s, s.toServer[..n-1])
       else s.toServer == [] && Analysis(s.toClient, s.upload, s.client.total, s.csv)
  }

  predicate InvDraining(s: State) {
    var n := |s.toServer|;
    if s.server.uploading then
      && n > 0 && s.toServer[n-1] == Tagged(s.upload, Cancel)
      && if n > 1 && s.toServer[n-2].m.End? then
           && s.toServer[n-2] == Tagged(s.upload, End(s.client.total)) && s.client.sent == s.client.total
           && Taking(s, s.toServer[..n-2])
         else Taking(s, s.toServer[..n-1])
    else
      && Ending(s.toClient, s.upload)
      && (s.toServer == []
          || (s.toServer == [Tagged(s.upload, Cancel)] && s.toClient[|s.toClient|-1].m.ResEnd?))
  }

  /** What holds between any two steps. */
  predicate Inv(s: State) {
    && !s.server.refused
    && match s.client.stage
       case Idle => Quiet(s) && (s.toServer == [] || s.toServer == [Tagged(s.upload, Cancel)])
       case Begun => InvBegun(s)
       case Sending => s.client.total > 0 && Taking(s, s.toServer)
       case Waiting => InvWaiting(s)
       case ResultDue => !s.server.uploading && s.toServer == [] && Result(s.toClient, s.upload, s.csv)
       case Receiving =>
         && !s.server.uploading && s.toServer == [] && s.client.got <= s.client.size
         && ResultTail(s.toClient, s.upload, s.client.size - s.client.got)
       case Draining => InvDraining(s)
       case Dead =>
         && !s.server.uploading && s.toServer == [] && (s.client.total == 0 || s.csv > MAX_CSV)
         && forall i | 0 <= i < |s.toClient| :: s.toClient[i].upload == s.upload && !s.toClient[i].m.Err?
  }

  // ---------------------------------------------------------------- every step keeps it

  lemma {:induction false} SumFirst(ms: seq<Tagged<Req>>)
    requires ms != [] && ms[0].m.Chunk?
    ensures Sum(ms) == ms[0].m.size + Sum(ms[1..])
  {
    if |ms| > 1 {
      SumFirst(ms[..|ms|-1]);
      assert ms[..|ms|-1][1..] == ms[1..][..|ms|-2];
    }
  }

  lemma {:induction false} ChunksHaveSize(ms: seq<Tagged<Req>>, upload: nat)
    requires Chunks(ms, upload) && ms != []
    ensures 0 < ms[0].m.size <= Sum(ms)
  {
    SumFirst(ms);
  }

  lemma SumSnoc(ms: seq<Tagged<Req>>, t: Tagged<Req>)
    ensures Sum(ms + [t]) == Sum(ms) + if t.m.Chunk? then t.m.size else 0
  {
    assert (ms + [t])[..|ms|] == ms;
  }

  lemma TagCons(upload: nat, m: Rep, ms: seq<Rep>)
    ensures TagAll(upload, [m] + ms) == [Tagged(upload, m)] + TagAll(upload, ms)
  {
    assert ([m] + ms)[1..] == ms;
  }

  lemma {:induction false} TailOfPieces(upload: nat, n: nat)
    ensures ResultTail(TagAll(upload, Pieces(n) + [ResEnd]), upload, n)
    decreases n
  {
    if n == 0 {
      assert Pieces(n) + [ResEnd] == [ResEnd] + [];
      TagCons(upload, ResEnd, []);
    } else {
      var k := if n <= S.RESULT_CHUNK then n else S.RESULT_CHUNK;
      TailOfPieces(upload, n - k);
      assert Pieces(n) + [ResEnd] == [ResChunk(k)] + (Pieces(n - k) + [ResEnd]);
      TagCons(upload, ResChunk(k), Pieces(n - k) + [ResEnd]);
    }
  }

  lemma {:induction false} AnswerIsAnalysis(acks: seq<Tagged<Rep>>, upload: nat, total: nat, csv: nat)
    requires Acks(acks, upload)
    ensures Analysis(acks + TagAll(upload, Answer(total, csv)), upload, total, csv)
    decreases |acks|
  {
    var a := TagAll(upload, Answer(total, csv));
    if acks == [] {
      assert acks + a == a;
      TailOfPieces(upload, csv);
      var tail := Pieces(csv) + [ResEnd];
      TagCons(upload, ResBegin(csv), tail);
      TagCons(upload, Done(total, csv), [ResBegin(csv)] + tail);
      assert Answer(total, csv) == [Done(total, csv)] + ([ResBegin(csv)] + tail);
    } else {
      AnswerIsAnalysis(acks[1..], upload, total, csv);
      assert (acks + a)[1..] == acks[1..] + a;
    }
  }

  lemma {:induction false} TailEnds(ms: seq<Tagged<Rep>>, upload: nat, n: nat)
    requires ResultTail(ms, upload, n)
    ensures Ending(ms, upload) && ms[|ms|-1].m.ResEnd?
    decreases |ms|
  {
    if !ms[0].m.ResEnd? {
      TailEnds(ms[1..], upload, n - ms[0].m.size);
      EndingCons(ms, upload);
    }
  }

  lemma EndingCons(ms: seq<Tagged<Rep>>, upload: nat)
    requires ms != [] && ms[0].upload == upload && !ms[0].m.Stops() && Ending(ms[1..], upload)
    ensures Ending(ms, upload) && ms[|ms|-1] == ms[1..][|ms|-2]
  {
    forall i | 0 <= i < |ms| ensures ms[i].upload == upload && (i < |ms| - 1 ==> !ms[i].m.Stops()) {
      if i > 0 { assert ms[i] == ms[1..][i-1]; }
    }
  }

  lemma {:induction false} AnalysisEnds(ms: seq<Tagged<Rep>>, upload: nat, total: nat, csv: nat)
    requires Analysis(ms, upload, total, csv)
    ensures Ending(ms, upload) && ms[|ms|-1].m.ResEnd?
    decreases |ms|
  {
    if ms[0].m.Ack? {
      AnalysisEnds(ms[1..], upload, total, csv);
    } else {
      TailEnds(ms[1..][1..], upload, csv);
      EndingCons(ms[1..], upload);
    }
    EndingCons(ms, upload);
  }

  lemma {:induction false} TailTags(ms: seq<Tagged<Rep>>, upload: nat, n: nat)
    requires ResultTail(ms, upload, n)
    ensures forall i | 0 <= i < |ms| :: ms[i].upload == upload && !ms[i].m.Err?
    decreases |ms|
  {
    if !ms[0].m.ResEnd? {
      TailTags(ms[1..], upload, n - ms[0].m.size);
      assert ms == [ms[0]] + ms[1..];
    }
  }

  lemma {:induction false} AnalysisTags(ms: seq<Tagged<Rep>>, upload: nat, total: nat, csv: nat)
    requires Analysis(ms, upload, total, csv)
    ensures forall i | 0 <= i < |ms| :: ms[i].upload == upload && !ms[i].m.Err?
    decreases |ms|
  {
    if ms[0].m.Ack? {
      AnalysisTags(ms[1..], upload, total, csv);
    } else {
      TailTags(ms[1..][1..], upload, csv);
      assert ms[1..] == [ms[1..][0]] + ms[1..][1..];
    }
    assert ms == [ms[0]] + ms[1..];
  }

  lemma AcksThenError(acks: seq<Tagged<Rep>>, upload: nat)
    requires Acks(acks, upload)
    ensures Ending(acks + TagAll(upload, [Err(S.CANCELLED)]), upload)
  {
  }

  lemma CancelSent(s: State)
    requires Inv(s) && Enabled(s, SendCancel)
    ensures Inv(Next(s, SendCancel))
  {
    hide Analysis, ResultTail, Taking, Ending;
    var t := Next(s, SendCancel);
    if s.server.uploading {
      assert t.toServer[..|t.toServer|-1] == s.toServer;
      if s.client.stage.Waiting? {
        assert t.toServer[..|t.toServer|-2] == s.toServer[..|s.toServer|-1];
        SameTaking(s, t, s.toServer[..|s.toServer|-1]);
      } else {
        SameTaking(s, t, s.toServer);
        if s.toServer != [] { LastIsChunk(s.toServer, s.upload); }
      }
    } else {
      match s.client.stage
      case Waiting => AnalysisEnds(s.toClient, s.upload, s.client.total, s.csv);
      case ResultDue =>
        TailEnds(s.toClient[1..], s.upload, s.csv);
        EndingCons(s.toClient, s.upload);
      case Receiving => TailEnds(s.toClient, s.upload, s.client.size - s.client.got);
      case Sending => StillTaking(s, s.toServer);
    }
  }

  lemma SameTaking(s: State, t: State, queue: seq<Tagged<Req>>)
    requires Taking(s, queue) && t.server == s.server && t.serving == s.serving && t.upload == s.upload
    requires t.client.total == s.client.total && t.client.sent == s.client.sent && t.toClient == s.toClient
    ensures Taking(t, queue) && Chunks(queue, s.upload)
  {
  }

  lemma ChunkSent(s: State, n: nat)
    requires Inv(s) && Enabled(s, SendChunk(n))
    ensures Inv(Next(s, SendChunk(n)))
  {
    hide Analysis, ResultTail, Ending;
    SumSnoc(s.toServer, Tagged(s.upload, Chunk(n)));
  }

  lemma EndSent(s: State)
    requires Inv(s) && Enabled(s, SendEnd)
    ensures Inv(Next(s, SendEnd))
  {
    hide Analysis, ResultTail, Ending, Taking;
    var t := Next(s, SendEnd);
    assert t.toServer[..|t.toServer|-1] == s.toServer;
    SameTaking(s, t, s.toServer);
    StillTaking(s, s.toServer);
  }

  lemma ClientStepKeeps(s: State, e: Step)
    requires Inv(s) && Enabled(s, e) && !e.ServeNext? && !e.ReadReply?
    ensures Inv(Next(s, e))
  {
    hide Inv, Next;
    match e
    case StartUpload(total) => UploadStarted(s, total);
    case SendChunk(n) => ChunkSent(s, n);
    case SendEnd => EndSent(s);
    case SendCancel => CancelSent(s);
  }

  lemma UploadStarted(s: State, total: nat)
    requires Inv(s) && Enabled(s, StartUpload(total))
    ensures Inv(Next(s, StartUpload(total)))
  {
    hide Analysis, ResultTail, Ending, Taking;
  }

  lemma ReadKeeps(s: State)
    requires Inv(s) && Enabled(s, ReadReply)
    ensures Inv(Next(s, ReadReply))
  {
    match s.client.stage
    case Begun => ReadBegun(s);
    case Waiting => ReadResult(s);
    case ResultDue => ReadResult(s);
    case Receiving => ReadResult(s);
    case Draining => ReadDraining(s);
    case _ => hide Analysis, ResultTail, Ending;
  }

  /** Every reply on the way belongs to the upload under way. */
  lemma RepliesBelong(s: State)
    requires Inv(s)
    ensures forall i | 0 <= i < |s.toClient| ::
              && s.toClient[i].upload == s.upload
              && (s.toClient[i].m.Err? ==>
                    || (s.client.stage.Draining? && s.toClient[i].m.code == S.CANCELLED)
                    || (s.client.stage.Begun? && s.client.total == 0 && s.toClient[i].m.code == S.SIZE_MISMATCH))
  {
    hide Analysis, ResultTail, Sum, Chunks;
    match s.client.stage
    case Waiting =>
      if !s.server.uploading { AnalysisTags(s.toClient, s.upload, s.client.total, s.csv); }
    case ResultDue =>
      TailTags(s.toClient[1..], s.upload, s.csv);
      assert s.toClient == [s.toClient[0]] + s.toClient[1..];
    case Receiving => TailTags(s.toClient, s.upload, s.client.size - s.client.got);
    case _ =>
  }

  lemma ReadBegun(s: State)
    requires Inv(s) && Enabled(s, ReadReply) && s.client.stage.Begun?
    ensures Inv(Next(s, ReadReply))
  {
    hide Analysis, ResultTail, Ending, InvWaiting, InvDraining;
  }

  lemma ReadResult(s: State)
    requires Inv(s) && Enabled(s, ReadReply)
    requires s.client.stage.Waiting? || s.client.stage.ResultDue? || s.client.stage.Receiving?
    ensures Inv(Next(s, ReadReply))
  {
    hide Ending, InvBegun, InvDraining;
    RepliesBelong(s);
  }

  lemma ReadDraining(s: State)
    requires Inv(s) && Enabled(s, ReadReply) && s.client.stage.Draining?
    ensures Inv(Next(s, ReadReply))
  {
    hide Analysis, ResultTail, InvBegun, InvWaiting;
  }

  /** The server takes the first chunk of a queue. */
  lemma TakesChunk(s: State, queue: seq<Tagged<Req>>, ack: Due, csv: nat)
    requires Taking(s, queue) && queue != [] && s.toServer != [] && s.toServer[0] == queue[0]
    ensures var t := Next(s, ServeNext(ack, csv));
            Taking(t, queue[1..]) && t.client == s.client && t.toServer == s.toServer[1..]
            && t.server.refused == s.server.refused && t.upload == s.upload
  {
    ChunksHaveSize(queue, s.upload);
    SumFirst(queue);
    if ack.DueAt? {
      var r := Ack(ack.received);
      TagCons(s.upload, r, []);
      assert [r] + [] == [r];
    }
  }

  /** The server takes the end of an upload that is complete. */
  lemma TakesEnd(s: State, ack: Due, csv: nat)
    requires Taking(s, []) && s.toServer != [] && s.toServer[0] == Tagged(s.upload, End(s.client.total))
    requires s.client.sent == s.client.total
    ensures var t := Next(s, ServeNext(ack, csv));
            && !t.server.uploading && t.server.refused == s.server.refused && t.csv == csv
            && Analysis(t.toClient, s.upload, s.client.total, csv)
            && t.client == s.client && t.toServer == s.toServer[1..] && t.upload == s.upload
  {
    hide Analysis, Answer;
    AnswerIsAnalysis(s.toClient, s.upload, s.client.total, csv);
  }

  lemma ServeWaiting(s: State, ack: Due, csv: nat)
    requires Inv(s) && Enabled(s, ServeNext(ack, csv)) && s.client.stage.Waiting?
    ensures Inv(Next(s, ServeNext(ack, csv)))
  {
    hide Taking, Analysis, Serve, Ending, Sum, Chunks;
    var n := |s.toServer|;
    var queue := s.toServer[..n-1];
    if queue == [] {
      TakesEnd(s, ack, csv);
    } else {
      TakesChunk(s, queue, ack, csv);
      assert s.toServer[1..][..n-2] == queue[1..];
      StillTaking(Next(s, ServeNext(ack, csv)), queue[1..]);
    }
  }

  lemma StillTaking(s: State, queue: seq<Tagged<Req>>)
    requires Taking(s, queue)
    ensures s.server.uploading && s.serving == s.upload && Chunks(queue, s.upload)
  {
  }

  lemma ServeDraining(s: State, ack: Due, csv: nat)
    requires Inv(s) && Enabled(s, ServeNext(ack, csv)) && s.client.stage.Draining?
    ensures Inv(Next(s, ServeNext(ack, csv)))
  {
    hide Taking, Analysis, Ending, Sum, Chunks, Serve;
    var n := |s.toServer|;
    var t := Next(s, ServeNext(ack, csv));
    if s.server.uploading {
      var ended := n > 1 && s.toServer[n-2].m.End?;
      var queue := if ended then s.toServer[..n-2] else s.toServer[..n-1];
      if queue != [] {
        TakesChunk(s, queue, ack, csv);
        StillTaking(s, queue);
        StillTaking(t, queue[1..]);
        assert queue[1..] == if ended then t.toServer[..n-3] else t.toServer[..n-2];
        if !ended && n > 2 { LastIsChunk(queue, s.upload); }
      } else if ended {
        TakesEnd(s, ack, csv);
        AnalysisEnds(t.toClient, s.upload, s.client.total, csv);
      } else {
        CancelTaken(s, ack, csv);
      }
    } else {
      StaleCancelIgnored(s, ack, csv);
    }
  }

  lemma LastIsChunk(queue: seq<Tagged<Req>>, upload: nat)
    requires Chunks(queue, upload) && queue != []
    ensures queue[|queue|-1].m.Chunk?
  {
  }

  lemma CancelTaken(s: State, ack: Due, csv: nat)
    requires Taking(s, []) && s.toServer == [Tagged(s.upload, Cancel)]
    ensures var t := Next(s, ServeNext(ack, csv));
            && !t.server.uploading && t.server.refused == s.server.refused && Ending(t.toClient, s.upload)
            && t.toServer == [] && t.client == s.client && t.upload == s.upload
  {
    AcksThenError(s.toClient, s.upload);
    assert Errors([]) == [];
  }

  /** A server that is not uploading takes a CANCEL without a word. */
  lemma StaleCancelIgnored(s: State, ack: Due, csv: nat)
    requires !s.server.uploading && s.toServer != [] && s.toServer[0].m.Cancel?
    ensures Next(s, ServeNext(ack, csv)) == s.(toServer := s.toServer[1..])
  {
    assert s.toClient + [] == s.toClient;
  }

  lemma ServeBegun(s: State, ack: Due, csv: nat)
    requires Inv(s) && Enabled(s, ServeNext(ack, csv)) && s.client.stage.Begun?
    ensures Inv(Next(s, ServeNext(ack, csv)))
  {
    hide Taking, Analysis, Ending, Sum, Chunks;
    if s.toServer[0].m.Cancel? {
      StaleCancelIgnored(s, ack, csv);
    } else {
      TagCons(s.upload, BeginAck, []);
      TagCons(s.upload, Err(S.SIZE_MISMATCH), []);
      assert [BeginAck] + [] == [BeginAck] && [Err(S.SIZE_MISMATCH)] + [] == [Err(S.SIZE_MISMATCH)];
    }
  }

  lemma ServeKeeps(s: State, ack: Due, csv: nat)
    requires Inv(s) && Enabled(s, ServeNext(ack, csv))
    ensures Inv(Next(s, ServeNext(ack, csv)))
  {
    hide InvBegun, InvWaiting, InvDraining, Taking;
    match s.client.stage
    case Idle => StaleCancelIgnored(s, ack, csv);
    case Begun => ServeBegun(s, ack, csv);
    case Sending =>
      StillTaking(s, s.toServer);
      TakesChunk(s, s.toServer, ack, csv);
    case Waiting => ServeWaiting(s, ack, csv);
    case Draining => ServeDraining(s, ack, csv);
    case _ =>
  }

  // ---------------------------------------------------------------- every run

  ghost predicate Possible(s: State, es: seq<Step>)
    decreases |es|
  {
    es == [] || (Enabled(s, es[0]) && Possible(Next(s, es[0]), es[1..]))
  }

  function Run(s: State, es: seq<Step>): State
    requires Possible(s, es)
    decreases |es|
  {
    if es == [] then s else Run(Next(s, es[0]), es[1..])
  }

  lemma StepKeeps(s: State, e: Step)
    requires Inv(s) && Enabled(s, e)
    ensures Inv(Next(s, e))
  {
    hide Inv, Next;
    match e
    case ReadReply => ReadKeeps(s);
    case ServeNext(ack, csv) => ServeKeeps(s, ack, csv);
    case _ => ClientStepKeeps(s, e);
  }

  lemma {:induction false} RunKeeps(s: State, es: seq<Step>)
    requires Inv(s) && Possible(s, es)
    ensures Inv(Run(s, es))
    decreases |es|
  {
    hide Inv, Next, Enabled;
    if es != [] {
      StepKeeps(s, es[0]);
      RunKeeps(Next(s, es[0]), es[1..]);
    }
  }

  /**
    When a drain ends, the server is ready for the next upload, nothing it sent is still on
    the way, and at most the one CANCEL just sent is still on the way to it.
    */
  lemma DrainEndsClean(es: seq<Step>)
    requires Possible(Connected, es)
    ensures var s := Run(Connected, es);
            s.client.stage.Draining? && s.toClient != [] && s.toClient[0].m.Stops() ==>
              var t := Next(s, ReadReply);
              && t.client.stage.Idle? && !t.server.uploading && t.toClient == []
              && (t.toServer == [] || t.toServer == [Tagged(s.upload, Cancel)])
  {
    RunKeeps(Connected, es);
    var s := Run(Connected, es);
    if s.client.stage.Draining? && s.toClient != [] { ReadKeeps(s); }
  }

  /**
    A CANCEL only ever ends the upload it was sent for, and only while its client drains; one
    that comes too late is dropped without a reply.
    */
  lemma LateCancelIsHarmless(es: seq<Step>, ack: Due, csv: nat)
    requires Possible(Connected, es)
    ensures var s := Run(Connected, es);
            s.toServer != [] && s.toServer[0].m.Cancel? ==>
              if s.server.uploading then
                s.client.stage.Draining? && s.toServer[0].upload == s.serving == s.upload
              else Next(s, ServeNext(ack, csv)) == s.(toServer := s.toServer[1..])
  {
    RunKeeps(Connected, es);
    var s := Run(Connected, es);
    if s.toServer != [] && s.toServer[0].m.Cancel? && !s.server.uploading {
      StaleCancelIgnored(s, ack, csv);
    }
  }

  /**
    A client that keeps to this is never refused: the server never decides to close, every
    reply on the way belongs to the upload under way, an ERROR is one only for an empty file
    or a cancel, and the client gives up only on an empty file or a result above its limit.
    */
  lemma NeverRefused(es: seq<Step>)
    requires Possible(Connected, es)
    ensures var s := Run(Connected, es);
            && !s.server.refused
            && (forall i | 0 <= i < |s.toClient| ::
                  && s.toClient[i].upload == s.upload
                  && (s.toClient[i].m.Err? ==>
                        || (s.client.stage.Draining? && s.toClient[i].m.code == S.CANCELLED)
                        || (s.client.stage.Begun? && s.client.total == 0 && s.toClient[i].m.code == S.SIZE_MISMATCH)))
            && (s.client.stage.Dead? ==> s.client.total == 0 || s.csv > MAX_CSV)
            && (s.server.uploading ==> s.server.received <= s.server.declared)
  {
    hide Analysis, ResultTail, Ending, Sum, Chunks, Acks;
    RunKeeps(Connected, es);
    RepliesBelong(Run(Connected, es));
  }

  /**
    A client waiting for the analysis reads acknowledgements and then one ANALYZE_DONE for
    exactly the octets it declared and sent, and it takes a result only at its full length.
    */
  lemma DoneMatchesUpload(es: seq<Step>)
    requires Possible(Connected, es)
    ensures var s := Run(Connected, es);
            s.toClient != [] ==>
              var m := s.toClient[0].m;
              && (s.client.stage.Waiting? ==>
                    m.Ack? || (m == Done(s.client.total, s.csv) && s.client.sent == s.client.total))
              && (s.client.stage.Receiving? ==>
                    m.ResChunk? || (m == ResEnd && s.client.got == s.client.size && s.toClient == [s.toClient[0]]))
  {
    hide Ending, Sum, Chunks;
    RunKeeps(Connected, es);
  }

  // ---------------------------------------------------------------- a drain ends

  /** There is always a next step in a drain, and no other steps than these two kinds. */
  lemma DrainGoesOn(es: seq<Step>, e: Step)
    requires Possible(Connected, es)
    ensures var s := Run(Connected, es);
            s.client.stage.Draining? ==>
              && (s.toServer != [] || s.toClient != [])
              && (Enabled(s, e) ==> e.ReadReply? || e.ServeNext?)
  {
    hide Sum, Chunks, Taking;
    RunKeeps(Connected, es);
  }

  /**
    And there is one everywhere else: an idle client can begin, one that is sending can send on or
    finish, and one that waits for anything has something on the way to it or to the server.  From
    the first chunk to the last piece of the result it can cancel.
    */
  lemma NeverStuck(es: seq<Step>, total: nat)
    requires Possible(Connected, es)
    ensures var s := Run(Connected, es);
            match s.client.stage
            case Idle => Enabled(s, StartUpload(total))
            case Sending =>
              && (if s.client.sent < s.client.total then Enabled(s, SendChunk(1)) else Enabled(s, SendEnd))
              && Enabled(s, SendCancel)
            case Dead => s.client.total == 0 || s.csv > 67108864
            case stage =>
              && (Enabled(s, ServeNext(NotDue, 0)) || Enabled(s, ReadReply))
              && (stage.Waiting? || stage.ResultDue? || stage.Receiving? ==> Enabled(s, SendCancel))
  {
    hide Sum, Chunks;
    RunKeeps(Connected, es);
  }

  function Width(csv: nat): nat {
    |Answer(0, csv)|
  }

  lemma {:induction false} PiecesGrow(a: nat, b: nat)
    requires a <= b
    ensures |Pieces(a)| <= |Pieces(b)|
    decreases b
  {
    if a > S.RESULT_CHUNK { PiecesGrow(a - S.RESULT_CHUNK, b - S.RESULT_CHUNK); }
  }

  lemma {:induction false} ErrorsLength(codes: seq<nat>)
    ensures |Errors(codes)| == |codes|
  {
    if codes != [] { ErrorsLength(codes[1..]); }
  }

  lemma RepliesBounded(sv: Server, m: Req, ack: Due, csv: nat, most: nat)
    requires csv <= most
    ensures |Serve(sv, m, ack, csv).replies| <= Width(most)
  {
    PiecesGrow(csv, most);
    ErrorsLength([F.PAYLOAD_TOO_LARGE]);
    ErrorsLength([F.BAD_MAGIC]);
    ErrorsLength([S.SIZE_MISMATCH, S.UNEXPECTED_TYPE]);
    ErrorsLength([S.SIZE_MISMATCH]);
    ErrorsLength([S.UNEXPECTED_TYPE]);
  }

  lemma {:induction false} TagAllLength(upload: nat, ms: seq<Rep>)
    ensures |TagAll(upload, ms)| == |ms|
  {
    if ms != [] { TagAllLength(upload, ms[1..]); }
  }

  /** The steps a drain can still take when no result is longer than `most`. */
  function Left(s: State, most: nat): nat {
    |s.toServer| * (Width(most) + 1) + |s.toClient|
  }

  ghost predicate DrainsThrough(s: State, es: seq<Step>, most: nat)
    requires Possible(s, es)
    decreases |es|
  {
    es == [] || (s.client.stage.Draining? && (es[0].ServeNext? ==> es[0].csv <= most)
                 && DrainsThrough(Next(s, es[0]), es[1..], most))
  }

  /** So a drain is over within a bound that depends only on what is on the way. */
  lemma {:induction false} DrainIsBounded(s: State, es: seq<Step>, most: nat)
    requires Possible(s, es) && DrainsThrough(s, es, most)
    ensures |es| <= Left(s, most)
    decreases |es|
  {
    hide Serve, Width, Take;
    if es != [] {
      var t := Next(s, es[0]);
      DrainIsBounded(t, es[1..], most);
      if es[0].ServeNext? {
        var r := Serve(s.server, s.toServer[0].m, es[0].ack, es[0].csv).replies;
        RepliesBounded(s.server, s.toServer[0].m, es[0].ack, es[0].csv, most);
        TagAllLength(s.toServer[0].upload, r);
        assert |s.toServer| * (Width(most) + 1) == |t.toServer| * (Width(most) + 1) + Width(most) + 1;
      }
    }
  }
}
