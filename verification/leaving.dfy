/**
  A client that leaves an upload without a CANCEL.

  The cancel contract covers the points that send CANCEL and drain.  A token that fires in the
  begin handshake or in the middle of sending UPLOAD_END does neither: the client is free for
  another upload and has told the server nothing.  What that does to every later upload.
  */
module Leaving {
  import opened CancelProtocol
  import S = Sessions
  import W = Wire

  /**
    The number the server reads when UPLOAD_BEGIN follows the mere header of a frame: its first
    octets are taken for the claim of an UPLOAD_END, or for the size in an UPLOAD_BEGIN.
    */
  const SWALLOWED: nat := W.MAGIC * 0x1_0000_0000 + W.VERSION * 0x100_0000 + S.UPLOAD_BEGIN * 0x1_0000

  /** The last frame on the way: whole, or only the header of one whose payload never follows. */
  datatype Front = Whole | HalfBegin | HalfEnd

  datatype Careless = Careless(s: State, front: Front)

  /**
    A step of the protocol; leaving in the begin handshake or while UPLOAD_END is sent; and
    beginning an upload but leaving between the two writes of UPLOAD_BEGIN.
    */
  datatype Move = Protocol(e: Step) | Leave(half: bool) | BeginHalf

  predicate IsExit(m: Move) {
    !m.Protocol?
  }

  /** In the begin handshake, or at any point of sending UPLOAD_END. */
  predicate CanLeave(s: State) {
    s.client.stage.Begun? || s.client.stage.Waiting? || (s.client.stage.Sending? && s.client.sent == s.client.total)
  }

  predicate Allowed(c: Careless, m: Move) {
    match m
    case Protocol(e) => Enabled(c.s, e)
    case Leave(half) => CanLeave(c.s) && (half ==> c.s.client.stage.Sending?)
    case BeginHalf => c.s.client.stage.Idle? && c.front.Whole?
  }

  /** The first octets of the next request complete half a frame, and the rest of it is none. */
  function Do(c: Careless, m: Move): Careless
    requires Allowed(c, m)
  {
    match m
    case Protocol(e) =>
      if !c.front.Whole? && e.StartUpload? then
        var s := c.s.(upload := c.s.upload + 1);
        var d := Client(Begun, e.total, 0, 0, 0);
        var first := if c.front.HalfEnd? then End(SWALLOWED) else Begin(SWALLOWED);
        Careless(Put(Put(s, d, first), d, Garbage), Whole)
      else Careless(Next(c.s, e), c.front)
    case Leave(half) => Careless(c.s.(client := c.s.client.(stage := Idle)), if half then HalfEnd else c.front)
    case BeginHalf => Careless(c.s.(upload := c.s.upload + 1), HalfBegin)
  }

  ghost predicate Possible(c: Careless, ms: seq<Move>)
    decreases |ms|
  {
    ms == [] || (Allowed(c, ms[0]) && Possible(Do(c, ms[0]), ms[1..]))
  }

  function Run(c: Careless, ms: seq<Move>): Careless
    requires Possible(c, ms)
    decreases |ms|
  {
    if ms == [] then c else Run(Do(c, ms[0]), ms[1..])
  }

  // ---------------------------------------------------------------- never clean

  /** What is left of the upload: something on the way, half a frame, or a server that waits for more. */
  lemma LeavingIsNeverClean(s: State, x: Move)
    requires Inv(s) && IsExit(x) && Allowed(Careless(s, Whole), x)
    ensures s.toServer != [] || s.toClient != [] || s.server.uploading || !Do(Careless(s, Whole), x).front.Whole?
    ensures !Inv(Do(Careless(s, Whole), x).s) || !Do(Careless(s, Whole), x).front.Whole?
  {
    hide Analysis, Sum, Chunks, Acks;
    if s.client.stage.Waiting? { WaitingBusy(s); }
  }

  lemma WaitingBusy(s: State)
    requires InvWaiting(s)
    ensures s.server.uploading || s.toClient != []
  {
  }

  // ---------------------------------------------------------------- nothing completes any more

  /** The client has given up, or the next reply it reads is not the answer to UPLOAD_BEGIN. */
  predicate Poisoned(s: State) {
    || s.client.stage.Dead?
    || ((s.client.stage.Idle? || s.client.stage.Begun?) && s.toClient != [] && !s.toClient[0].m.BeginAck?)
  }

  predicate OnlyAcks(ms: seq<Tagged<Rep>>) {
    forall i | 0 <= i < |ms| :: ms[i].m.Ack? || ms[i].m.BeginAck?
  }

  /** The first m requests are chunks. */
  predicate Chunky(ms: seq<Tagged<Req>>, m: nat)
    requires m <= |ms|
  {
    forall i | 0 <= i < m :: ms[i].m.Chunk?
  }

  predicate NotReceiving(c: Client) {
    !c.stage.ResultDue? && !c.stage.Receiving?
  }

  /** What a server in an upload refuses. */
  predicate Unwelcome(m: Req) {
    m.Begin? || m.Garbage?
  }

  /** The server is still on an old upload; behind chunks of it comes the next UPLOAD_BEGIN, if any. */
  predicate StuckAt(c: Careless, m: nat)
    requires m <= |c.s.toServer|
  {
    && c.s.server.uploading && OnlyAcks(c.s.toClient) && NotReceiving(c.s.client) && Chunky(c.s.toServer, m)
    && if m < |c.s.toServer| then Unwelcome(c.s.toServer[m].m)
       else c.s.client.stage.Idle? && (c.front.HalfEnd? ==> c.s.toClient == [])
  }

  /** The server will end an old upload before it sees anything of a new one. */
  predicate EndingAt(c: Careless, m: nat)
    requires m < |c.s.toServer|
  {
    && c.s.server.uploading && c.s.toClient == [] && (c.s.client.stage.Idle? || c.s.client.stage.Begun?)
    && Chunky(c.s.toServer, m) && c.s.toServer[m].m.End?
  }

  /** The server has not seen the UPLOAD_BEGIN that was left; what follows it, if anything, is refused. */
  predicate BegunAt(c: Careless, m: nat)
    requires m < |c.s.toServer|
  {
    && !c.s.server.uploading && c.s.toClient == [] && !c.front.HalfEnd?
    && (c.s.client.stage.Idle? || c.s.client.stage.Begun?)
    && (forall i | 0 <= i < m :: c.s.toServer[i].m.Cancel?) && c.s.toServer[m].m.Begin?
    && (if m + 1 < |c.s.toServer| then Unwelcome(c.s.toServer[m+1].m) else c.s.client.stage.Idle?)
  }

  /** Of UPLOAD_BEGIN only the header is on the way. */
  predicate HalfBegun(c: Careless) {
    && !c.s.server.uploading && c.s.toClient == [] && c.front.HalfBegin? && c.s.client.stage.Idle?
    && forall i | 0 <= i < |c.s.toServer| :: c.s.toServer[i].m.Cancel?
  }

  /** What an exit leads to, until the server decides to close. */
  ghost predicate Spoiled(c: Careless) {
    || c.s.server.refused
    || Poisoned(c.s)
    || HalfBegun(c)
    || (exists m | 0 <= m <= |c.s.toServer| :: StuckAt(c, m))
    || (exists m | 0 <= m < |c.s.toServer| :: EndingAt(c, m))
    || (exists m | 0 <= m < |c.s.toServer| :: BegunAt(c, m))
  }

  lemma LeavingSpoils(s: State, x: Move)
    requires Inv(s) && IsExit(x) && Allowed(Careless(s, Whole), x)
    ensures Spoiled(Do(Careless(s, Whole), x))
  {
    hide Analysis, Sum;
    var c := Do(Careless(s, Whole), x);
    var n := |s.toServer|;
    match s.client.stage
    case Begun =>
      if s.server.uploading {
        assert StuckAt(c, 0);
      } else if s.toClient == [] {
        if n == 1 { assert BegunAt(c, 0); } else { assert BegunAt(c, 1); }
      }
    case Sending =>
      if s.toClient == [] { assert StuckAt(c, n); }
    case Waiting =>
      if s.server.uploading {
        assert Chunky(s.toServer, n - 1) by {
          forall i | 0 <= i < n - 1 ensures s.toServer[i].m.Chunk? { assert s.toServer[..n-1][i] == s.toServer[i]; }
        }
        if s.toClient == [] { assert EndingAt(c, n - 1); }
      } else {
        AnalysisFirst(s.toClient, s.upload, s.client.total, s.csv);
      }
    case _ =>
  }

  lemma AnalysisFirst(ms: seq<Tagged<Rep>>, upload: nat, total: nat, csv: nat)
    requires Analysis(ms, upload, total, csv)
    ensures ms != [] && (ms[0].m.Ack? || ms[0].m.Done?)
  {
  }

  // ---------------------------------------------------------------- every step keeps it spoiled

  lemma PoisonedStays(c: Careless, m: Move)
    requires Poisoned(c.s) && Allowed(c, m)
    ensures Poisoned(Do(c, m).s)
  {
    hide Serve;
  }

  lemma RepliesAppended(s: State, ack: Due, csv: nat)
    requires Enabled(s, ServeNext(ack, csv))
    ensures var t := Next(s, ServeNext(ack, csv));
            var r := Serve(s.server, s.toServer[0].m, ack, csv);
            && t.toClient == s.toClient + TagAll(s.toServer[0].upload, r.replies)
            && t.toServer == s.toServer[1..] && t.client == s.client && t.server == r.server
  {
    hide Serve;
  }

  /** A chunk for a server in an upload: at most an acknowledgement, or a refusal. */
  lemma ChunkServed(s: State, ack: Due, csv: nat)
    requires s.server.uploading && s.toServer != [] && s.toServer[0].m.Chunk?
    ensures var t := Next(s, ServeNext(ack, csv));
            && t.client == s.client && t.toServer == s.toServer[1..]
            && (t.server.refused
                || (t.server.uploading
                    && (t.toClient == s.toClient
                        || t.toClient == s.toClient + [Tagged(s.toServer[0].upload, Ack(ack.received))])))
  {
    RepliesAppended(s, ack, csv);
    var u := s.toServer[0].upload;
    if ack.DueAt? {
      assert [Ack(ack.received)] + [] == [Ack(ack.received)];
      TagCons(u, Ack(ack.received), []);
    } else {
      assert s.toClient + [] == s.toClient;
    }
  }

  lemma StuckServed(c: Careless, m: nat, ack: Due, csv: nat)
    requires m <= |c.s.toServer| && StuckAt(c, m) && Enabled(c.s, ServeNext(ack, csv))
    ensures Spoiled(Do(c, Protocol(ServeNext(ack, csv))))
  {
    hide Serve, Next;
    var d := Do(c, Protocol(ServeNext(ack, csv)));
    if m == 0 {
      UnwelcomeRefused(c.s, ack, csv);
    } else {
      ChunkServed(c.s, ack, csv);
      if !d.s.server.refused {
        if d.front.HalfEnd? && m == |c.s.toServer| && d.s.toClient != c.s.toClient {
          assert Poisoned(d.s);
        } else {
          assert StuckAt(d, m - 1);
        }
      }
    }
  }

  lemma UnwelcomeRefused(s: State, ack: Due, csv: nat)
    requires s.server.uploading && s.toServer != [] && Unwelcome(s.toServer[0].m)
    ensures Next(s, ServeNext(ack, csv)).server.refused
  {
  }

  lemma EndingServed(c: Careless, m: nat, ack: Due, csv: nat)
    requires m < |c.s.toServer| && EndingAt(c, m)
    ensures Spoiled(Do(c, Protocol(ServeNext(ack, csv))))
  {
    hide Serve, Next;
    var d := Do(c, Protocol(ServeNext(ack, csv)));
    if m == 0 {
      EndAnswered(c.s, ack, csv);
    } else {
      ChunkServed(c.s, ack, csv);
      if !d.s.server.refused && d.s.toClient == [] { assert EndingAt(d, m - 1); }
    }
  }

  /** The end of an old upload is refused, or answered with what a new upload does not expect. */
  lemma EndAnswered(s: State, ack: Due, csv: nat)
    requires s.server.uploading && s.toClient == [] && s.toServer != [] && s.toServer[0].m.End?
    ensures var t := Next(s, ServeNext(ack, csv));
            t.client == s.client && (t.server.refused || (t.toClient != [] && t.toClient[0].m.Done?))
  {
    RepliesAppended(s, ack, csv);
    var rest := [ResBegin(csv)] + Pieces(csv) + [ResEnd];
    assert Answer(s.server.received, csv) == [Done(s.server.received, csv)] + rest;
    TagCons(s.toServer[0].upload, Done(s.server.received, csv), rest);
  }

  lemma BegunServed(c: Careless, m: nat, ack: Due, csv: nat)
    requires m < |c.s.toServer| && BegunAt(c, m)
    ensures Spoiled(Do(c, Protocol(ServeNext(ack, csv))))
  {
    var d := Do(c, Protocol(ServeNext(ack, csv)));
    var u := c.s.toServer[0].upload;
    if m > 0 {
      StaleCancelIgnored(c.s, ack, csv);
      assert BegunAt(d, m - 1);
    } else if c.s.toServer[0].m.total == 0 {
      TagCons(u, Err(S.SIZE_MISMATCH), []);
      assert [Err(S.SIZE_MISMATCH)] + [] == [Err(S.SIZE_MISMATCH)];
      assert Poisoned(d.s);
    } else {
      TagCons(u, BeginAck, []);
      assert [BeginAck] + [] == [BeginAck];
      assert d.s.toClient == [Tagged(u, BeginAck)];
      assert StuckAt(d, 0);
    }
  }

  /** What the client does of its own accord in a spoiled conversation. */
  lemma ClientSpoiled(c: Careless, m: Move)
    requires Spoiled(c) && Allowed(c, m) && !c.s.server.refused && !Poisoned(c.s)
    requires m.Protocol? ==> !m.e.ServeNext?
    ensures Spoiled(Do(c, m))
  {
    hide Serve;
    var d := Do(c, m);
    if HalfBegun(c) {
      HalfBegunGoesOn(c, m);
    } else if k: nat :| k <= |c.s.toServer| && StuckAt(c, k) {
      ClientStuck(c, k, m);
    } else if k: nat :| k < |c.s.toServer| && EndingAt(c, k) {
      assert Poisoned(d.s) || EndingAt(d, k);
    } else {
      var k :| 0 <= k < |c.s.toServer| && BegunAt(c, k);
      assert Poisoned(d.s) || BegunAt(d, k);
    }
  }

  lemma HalfBegunGoesOn(c: Careless, m: Move)
    requires HalfBegun(c) && Allowed(c, m)
    ensures Spoiled(Do(c, m))
  {
    var d := Do(c, m);
    match m
    case Protocol(e) =>
      if e.ServeNext? {
        StaleCancelIgnored(c.s, e.ack, e.csv);
        assert HalfBegun(d);
      } else {
        assert BegunAt(d, |c.s.toServer|);
      }
    case _ =>
  }

  lemma ClientStuck(c: Careless, k: nat, m: Move)
    requires k <= |c.s.toServer| && StuckAt(c, k) && Allowed(c, m) && !Poisoned(c.s)
    requires m.Protocol? ==> !m.e.ServeNext?
    ensures Spoiled(Do(c, m))
  {
    var d := Do(c, m);
    if k == |c.s.toServer| && c.front.HalfEnd? && m.Protocol? && m.e.StartUpload? {
      assert EndingAt(d, k);
    } else {
      assert Poisoned(d.s) || StuckAt(d, k);
    }
  }

  lemma RefusedStays(c: Careless, m: Move)
    requires c.s.server.refused && Allowed(c, m)
    ensures Do(c, m).s.server.refused
  {
  }

  lemma SpoiledStays(c: Careless, m: Move)
    requires Spoiled(c) && Allowed(c, m)
    ensures Spoiled(Do(c, m))
  {
    hide Do, StuckAt, EndingAt, BegunAt;
    if c.s.server.refused {
      RefusedStays(c, m);
    } else if Poisoned(c.s) {
      PoisonedStays(c, m);
    } else if HalfBegun(c) {
      HalfBegunGoesOn(c, m);
    } else if m.Protocol? && m.e.ServeNext? {
      if k: nat :| k <= |c.s.toServer| && StuckAt(c, k) {
        StuckServed(c, k, m.e.ack, m.e.csv);
      } else if k: nat :| k < |c.s.toServer| && EndingAt(c, k) {
        EndingServed(c, k, m.e.ack, m.e.csv);
      } else {
        var k :| 0 <= k < |c.s.toServer| && BegunAt(c, k);
        BegunServed(c, k, m.e.ack, m.e.csv);
      }
    } else {
      ClientSpoiled(c, m);
    }
  }

  lemma {:induction false} StaysSpoiled(c: Careless, ms: seq<Move>)
    requires Spoiled(c) && Possible(c, ms)
    ensures Spoiled(Run(c, ms))
    decreases |ms|
  {
    hide Spoiled, Do, Allowed;
    if ms != [] {
      SpoiledStays(c, ms[0]);
      StaysSpoiled(Do(c, ms[0]), ms[1..]);
    }
  }

  /**
    After such an exit, whatever had happened before and whatever either side does then, no
    later upload gets as far as its analysis before the server has decided to close.
    */
  lemma NothingCompletes(es: seq<Step>, x: Move, ms: seq<Move>)
    requires CancelProtocol.Possible(Connected, es)
    requires var c := Careless(CancelProtocol.Run(Connected, es), Whole);
             IsExit(x) && Allowed(c, x) && Possible(Do(c, x), ms)
    ensures var c := Careless(CancelProtocol.Run(Connected, es), Whole);
            var t := Run(Do(c, x), ms).s;
            t.server.refused || NotReceiving(t.client)
  {
    hide Do, Allowed, InvBegun, InvWaiting, InvDraining, Taking, Spoiled;
    RunKeeps(Connected, es);
    var s := CancelProtocol.Run(Connected, es);
    LeavingSpoils(s, x);
    StaysSpoiled(Do(Careless(s, Whole), x), ms);
    SpoiledMeans(Run(Do(Careless(s, Whole), x), ms));
  }

  lemma SpoiledMeans(c: Careless)
    requires Spoiled(c)
    ensures c.s.server.refused || NotReceiving(c.s.client)
  {
  }

  /** Throwing away what arrives between uploads mends it exactly when the server was through. */
  lemma IdleCheckMends(s: State, half: bool)
    requires Inv(s) && Allowed(Careless(s, Whole), Leave(half))
    ensures var t := Do(Careless(s, Whole), Leave(half)).s.(toClient := []);
            Inv(t) <==> !s.server.uploading && s.toServer == []
  {
    hide Analysis, Sum, Chunks, Acks;
  }

  // ---------------------------------------------------------------- for instance

  const Fresh := Careless(Connected, Whole)
  const Turn := Protocol(ServeNext(NotDue, 0))

  lemma Then(c: Careless, m: Move, ms: seq<Move>)
    requires Allowed(c, m) && Possible(Do(c, m), ms)
    ensures Possible(c, [m] + ms) && Run(c, [m] + ms) == Run(Do(c, m), ms)
  {
    hide Allowed, Do;
    assert ([m] + ms)[1..] == ms;
  }

  /** Leaving in the begin handshake: the next upload is refused. */
  lemma LeavingTheHandshake() returns (ms: seq<Move>)
    ensures ms == [Protocol(StartUpload(1)), Leave(false), Protocol(StartUpload(1)), Turn, Turn]
    ensures Possible(Fresh, ms) && Run(Fresh, ms).s.server.refused
  {
    var a := Do(Fresh, Protocol(StartUpload(1)));
    var b := Do(a, Leave(false));
    var c := Do(b, Protocol(StartUpload(1)));
    assert c.s.toServer == [Tagged(1, Begin(1)), Tagged(2, Begin(1))];
    var d := Do(c, Turn);
    assert d.s.toServer == [Tagged(2, Begin(1))];
    Then(d, Turn, []);
    Then(c, Turn, [Turn] + []);
    Then(b, Protocol(StartUpload(1)), [Turn] + ([Turn] + []));
    Then(a, Leave(false), [Protocol(StartUpload(1))] + ([Turn] + ([Turn] + [])));
    ms := [Protocol(StartUpload(1))] + ([Leave(false)] + ([Protocol(StartUpload(1))] + ([Turn] + ([Turn] + []))));
    Then(Fresh, Protocol(StartUpload(1)), ms[1..]);
  }

  /** Leaving between the writes of UPLOAD_BEGIN: the next one makes up for it and is garbage. */
  lemma LeavingTheBegin() returns (ms: seq<Move>)
    ensures ms == [BeginHalf, Protocol(StartUpload(1)), Turn, Turn]
    ensures Possible(Fresh, ms) && Run(Fresh, ms).s.server.refused
  {
    var a := Do(Fresh, BeginHalf);
    var b := Do(a, Protocol(StartUpload(1)));
    assert b.s.toServer == [Tagged(2, Begin(SWALLOWED)), Tagged(2, Garbage)];
    var c := Do(b, Turn);
    assert c.s.toServer == [Tagged(2, Garbage)];
    Then(c, Turn, []);
    Then(b, Turn, [Turn] + []);
    Then(a, Protocol(StartUpload(1)), [Turn] + ([Turn] + []));
    ms := [BeginHalf] + ([Protocol(StartUpload(1))] + ([Turn] + ([Turn] + [])));
    Then(Fresh, BeginHalf, ms[1..]);
  }

  /** An upload of one octet up to the point where UPLOAD_END is to be sent. */
  const UpToEnd: seq<Move> :=
    [Protocol(StartUpload(1)), Turn, Protocol(ReadReply), Protocol(SendChunk(1)), Turn]

  const AtEnd := Careless(State(Client(Sending, 1, 1, 0, 0), Server(true, 1, 1, false), [], [], 1, 1, 0), Whole)

  /** The same upload, accepted. */
  const Accepted := Careless(
    State(Client(Begun, 1, 0, 0, 0), Server(true, 1, 0, false), [], [Tagged(1, BeginAck)], 1, 1, 0), Whole)

  lemma AcceptedReached()
    ensures var a := Do(Fresh, Protocol(StartUpload(1))); Allowed(a, Turn) && Do(a, Turn) == Accepted
  {
    var a := Do(Fresh, Protocol(StartUpload(1)));
    assert a.s.toServer == [Tagged(1, Begin(1))] && [Tagged(1, Begin(1))][1..] == [];
    TagCons(1, BeginAck, []);
    assert [BeginAck] + [] == [BeginAck];
  }

  lemma SentReached()
    ensures Allowed(Accepted, Protocol(ReadReply))
    ensures var c := Do(Accepted, Protocol(ReadReply));
            Allowed(c, Protocol(SendChunk(1)))
            && var d := Do(c, Protocol(SendChunk(1))); Allowed(d, Turn) && Do(d, Turn) == AtEnd
  {
    assert [Tagged(1, BeginAck)][1..] == [];
    var c := Do(Accepted, Protocol(ReadReply));
    assert c.s.toClient == [] && c.s.client.stage.Sending?;
    var d := Do(c, Protocol(SendChunk(1)));
    assert d.s.toServer == [Tagged(1, Chunk(1))];
    ChunkServed(d.s, NotDue, 0);
  }

  lemma AtEndReached()
    ensures Possible(Fresh, UpToEnd) && Run(Fresh, UpToEnd) == AtEnd
  {
    hide Do, Allowed;
    CanStart();
    AcceptedReached();
    SentReached();
    var a := Do(Fresh, Protocol(StartUpload(1)));
    var c := Do(Accepted, Protocol(ReadReply));
    Then(Do(c, Protocol(SendChunk(1))), Turn, []);
    Then(c, Protocol(SendChunk(1)), [Turn] + []);
    Then(Accepted, Protocol(ReadReply), [Protocol(SendChunk(1))] + ([Turn] + []));
    Then(a, Turn, [Protocol(ReadReply)] + ([Protocol(SendChunk(1))] + ([Turn] + [])));
    Then(Fresh, Protocol(StartUpload(1)),
         [Turn] + ([Protocol(ReadReply)] + ([Protocol(SendChunk(1))] + ([Turn] + []))));
    assert UpToEnd == [Protocol(StartUpload(1))]
                      + ([Turn] + ([Protocol(ReadReply)] + ([Protocol(SendChunk(1))] + ([Turn] + []))));
  }

  lemma CanStart()
    ensures Allowed(Fresh, Protocol(StartUpload(1)))
  {
  }

  /**
    Leaving while UPLOAD_END is sent: with nothing of it written both channels are empty and
    the server still waits; whether nothing or only the header was written, the next upload is
    refused.
    */
  lemma LeavingTheEnd(half: bool) returns (ms: seq<Move>)
    ensures ms == [Leave(half), Protocol(StartUpload(1)), Turn]
    ensures Possible(AtEnd, ms) && Run(AtEnd, ms).s.server.refused
    ensures Do(AtEnd, Leave(half)).s.toServer == [] && Do(AtEnd, Leave(half)).s.toClient == []
  {
    var a := Do(AtEnd, Leave(half));
    var b := Do(a, Protocol(StartUpload(1)));
    assert b.s.toServer == if half then [Tagged(2, End(SWALLOWED)), Tagged(2, Garbage)] else [Tagged(2, Begin(1))];
    Then(b, Turn, []);
    Then(a, Protocol(StartUpload(1)), [Turn] + []);
    ms := [Leave(half)] + ([Protocol(StartUpload(1))] + ([Turn] + []));
    Then(AtEnd, Leave(half), ms[1..]);
  }

  /** Leaving with all of UPLOAD_END written: the next upload reads the old result and gives up. */
  lemma LeavingTheResult() returns (ms: seq<Move>)
    ensures ms == [Protocol(SendEnd), Leave(false), Turn, Protocol(StartUpload(1)), Protocol(ReadReply)]
    ensures Possible(AtEnd, ms) && Run(AtEnd, ms).s.client.stage.Dead?
  {
    var a := Do(AtEnd, Protocol(SendEnd));
    assert a.s.toServer == [Tagged(1, End(1))];
    var b := Do(a, Leave(false));
    EndAnswered(b.s, NotDue, 0);
    var c := Do(b, Turn);
    var d := Do(c, Protocol(StartUpload(1)));
    Then(d, Protocol(ReadReply), []);
    Then(c, Protocol(StartUpload(1)), [Protocol(ReadReply)] + []);
    Then(b, Turn, [Protocol(StartUpload(1))] + ([Protocol(ReadReply)] + []));
    Then(a, Leave(false), [Turn] + ([Protocol(StartUpload(1))] + ([Protocol(ReadReply)] + [])));
    ms := [Protocol(SendEnd)] + ([Leave(false)] + ([Turn] + ([Protocol(StartUpload(1))]
          + ([Protocol(ReadReply)] + []))));
    Then(AtEnd, Protocol(SendEnd), ms[1..]);
  }
}
