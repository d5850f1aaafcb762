/**
  The upload as a whole: from the octets a client puts on the connection to the statistics
  and the result document it gets back.

  The client cuts its file into chunks and frames them; the network cuts the framed stream
  into reads as it likes, and completed writes and short silences come in between.  None of
  these cuts is visible in the outcome.
  */
module Uploads {
  import opened Wire
  import opened Framing
  import opened Aggregation
  import opened Sessions
  import L = Lines
  import CSV = ResultCsv
  import P = LogLines
  import T = Tallies

  // ---------------------------------------------------------------- what the client sends

  /** An upload: the file's name, the file in chunks, and what was sent before. */
  datatype Plan = Plan(name: Bytes, chunks: seq<Bytes>, base: seq<Msg>) {
    function File(): Bytes {
      Joined(chunks)
    }

    function Total(): nat {
      |File()|
    }

    ghost predicate Good() {
      && |name| < 0x1_0000 && 0 < Total() < 0x1_0000_0000_0000_0000
      && forall i | 0 <= i < |chunks| :: 0 < |chunks[i]| <= 1048576
    }

    function Begin(): Outgoing {
      Outgoing(UPLOAD_BEGIN, EncodeAll([U64(Total()), Str(name)]))
    }

    function End(): Outgoing {
      Outgoing(UPLOAD_END, EncodeAll([U64(Total())]))
    }

    /** The k-th frame of the upload. */
    function FrameAt(k: nat): Outgoing
      requires k < |chunks| + 2
    {
      if k == 0 then Begin()
      else if k <= |chunks| then Outgoing(UPLOAD_CHUNK, chunks[k-1])
      else End()
    }

    /** The octets of the frames from the k-th on. */
    function From(k: nat): Bytes
      requires Good() && k <= |chunks| + 2
      decreases |chunks| + 2 - k
    {
      FramesFit(k);
      if k == |chunks| + 2 then [] else Serialize(FrameAt(k)) + From(k + 1)
    }

    lemma FramesFit(k: nat)
      requires Good()
      ensures k < |chunks| + 2 ==> FrameAt(k).Fits()
    {
      hide BigEndian, Joined;
      if k < |chunks| + 2 {
        EncodeTwo(U64(Total()), Str(name));
        EncodeOne(U64(Total()));
      }
    }
  }

  lemma {:induction false} JoinedSnoc(cuts: seq<Bytes>, x: Bytes)
    ensures Joined(cuts + [x]) == Joined(cuts) + x
  {
    if cuts == [] {
      assert cuts + [x] == [x] && Joined([x]) == x + Joined([]);
    } else {
      JoinedSnoc(cuts[1..], x);
      assert (cuts + [x])[1..] == cuts[1..] + [x];
    }
  }

  lemma {:induction false} JoinedPrefix(cuts: seq<Bytes>, k: nat)
    requires k <= |cuts|
    ensures Joined(cuts) == Joined(cuts[..k]) + Joined(cuts[k..])
    decreases k
  {
    if k == 0 {
      assert cuts[..0] == [] && cuts[0..] == cuts;
    } else {
      JoinedPrefix(cuts, k - 1);
      assert cuts[..k] == cuts[..k-1] + [cuts[k-1]];
      JoinedSnoc(cuts[..k-1], cuts[k-1]);
      assert cuts[k-1..][1..] == cuts[k..];
    }
  }

  // ---------------------------------------------------------------- one feed within a known frame

  /** A prefix of a stream that starts with the frame `m`. */
  lemma PrefixOfFrame(seen: Bytes, left: Bytes, m: Outgoing, rest: Bytes)
    requires m.Fits() && seen + left == Serialize(m) + rest && |seen| >= HEADER_SIZE
    ensures HeadOf(seen) == m.Header() && HeaderError(m.Header()) == 0
    ensures |seen| == FrameSize(seen) ==> seen[HEADER_SIZE..] == m.payload && left == rest
  {
    hide HeaderOf, HeaderError, Serialize;
    var t := Serialize(m) + rest;
    SerializedHead(m, rest);
    assert seen == t[..|seen|] && left == t[|seen|..];
    assert seen[..HEADER_SIZE] == t[..HEADER_SIZE];
    assert seen[HEADER_SIZE..] == t[HEADER_SIZE..|seen|];
  }

  lemma SplitAt(seen: Bytes, data: Bytes, more: Bytes, used: nat)
    requires used <= |data|
    ensures (seen + data[..used]) + (data[used..] + more) == seen + (data + more)
    ensures used == |data| ==> data[used..] + more == more
  {
  }

  /** While the stream holds the frame `m` next, a feed never fails and ends it at its end. */
  lemma FeedWithin(d: Dec, data: Bytes, more: Bytes, m: Outgoing, rest: Bytes, accept: (nat, nat) -> bool)
    requires d.Valid() && !d.Complete() && m.Fits()
    requires d.seen + (data + more) == Serialize(m) + rest
    ensures var r := FeedDec(d, data, accept);
            && !r.status.Failed?
            && (r.status.NeedMore? ==> r.dec.seen + more == Serialize(m) + rest)
            && (r.status.Ready? ==>
                  && HeadOf(r.dec.seen) == m.Header() && r.dec.seen[HEADER_SIZE..] == m.payload
                  && data[r.used..] + more == rest)
  {
    hide HeadOf, HeaderError, FeedDec, Serialize, FrameSize, Outgoing.Header, Dec.Streamed;
    var r := FeedDec(d, data, accept);
    var left := data[r.used..] + more;
    SplitAt(d.seen, data, more, r.used);
    if |r.dec.seen| >= HEADER_SIZE {
      PrefixOfFrame(r.dec.seen, left, m, rest);
    }
  }

  /** Whether a payload is streamed is settled when its header is complete. */
  lemma FeedStreams(d: Dec, data: Bytes, accept: (nat, nat) -> bool)
    requires d.Valid()
    ensures var r := FeedDec(d, data, accept);
            |r.dec.seen| >= HEADER_SIZE && !r.dec.Broken() ==>
              r.dec.streaming == if |d.seen| >= HEADER_SIZE then d.streaming
                                 else HeadOf(r.dec.seen).len > 0
                                      && accept(HeadOf(r.dec.seen).kind, HeadOf(r.dec.seen).len)
  {
    hide HeaderOf;
    var buf := d.seen + data;
    var r := FeedDec(d, data, accept);
    if |buf| >= HEADER_SIZE && !r.dec.Broken() {
      assert r.dec.seen == buf[..|r.dec.seen|];
      assert |r.dec.seen| >= HEADER_SIZE ==> r.dec.seen[..HEADER_SIZE] == buf[..HEADER_SIZE];
      assert |d.seen| >= HEADER_SIZE ==> buf[..HEADER_SIZE] == d.seen[..HEADER_SIZE];
    }
  }

  // ---------------------------------------------------------------- where a session is in an upload

  /** Progress figures that count the lines `es`: all, accepted, with a speed, and by module. */
  ghost predicate Tell(f: Figures, es: seq<L.Emission>) {
    && f.total == |es|
    && f.accepted == |T.Places(es, T.ByReason(P.Ok))|
    && f.spdN == |T.Places(es, T.WithSpeed)|
    && |f.modules| == 5 && forall m: nat | m < 5 :: f.modules[m] == |T.Places(es, T.ByModule(m))|
  }

  lemma FiguresTell(es: seq<L.Emission>)
    ensures Tell(FiguresOf(AggOf(es)), es)
  {
    hide AggOf, T.Places, SamplesOf;
    T.AcceptedOrRefused(es);
    var at := T.SamplesListed(es);
    SpeedTotals(es);
    forall m: nat | m < 5 ensures AggOf(es).modules[m] == |T.Places(es, T.ByModule(m))| { T.ModulesCounted(es, m); }
  }

  /** An acknowledgement tells the truth about the octets it acknowledges. */
  ghost predicate Honest(file: string, m: Msg) {
    && m.Ack? && m.received <= |file|
    && (L.Short(8192, L.Terminated(file)) ==>
          Tell(m.figures, L.Report(L.Terminated(file[..m.received]))))
  }

  /** What the last acknowledgement acknowledges. */
  function LastAck(acks: seq<Msg>): nat {
    if acks != [] && acks[|acks|-1].Ack? then acks[|acks|-1].received else 0
  }

  /** Everything sent is what was sent before, the answer to UPLOAD_BEGIN and acknowledgements 16 MiB apart. */
  ghost predicate Answers(p: Plan, sent: seq<Msg>, acks: seq<Msg>) {
    && sent == p.base + [BeginAck(1048576)] + acks
    && (forall i | 0 <= i < |acks| :: Honest(p.File(), acks[i]))
    && forall i | 0 <= i < |acks| :: acks[i].Ack? && acks[i].received >= LastAck(acks[..i]) + 16777216
  }

  lemma OneMoreAck(p: Plan, sent: seq<Msg>, acks: seq<Msg>, m: Msg)
    requires Answers(p, sent, acks) && Honest(p.File(), m) && m.Ack? && m.received >= LastAck(acks) + 16777216
    ensures Answers(p, sent + [m], acks + [m]) && LastAck(acks + [m]) == m.received
  {
    hide Honest, Joined, LastAck;
    var all := acks + [m];
    forall i | 0 <= i < |all|
      ensures Honest(p.File(), all[i]) && all[i].Ack? && all[i].received >= LastAck(all[..i]) + 16777216
    {
      if i < |acks| {
        assert all[i] == acks[i] && all[..i] == acks[..i];
      } else {
        assert all[..i] == acks;
      }
    }
    assert all[|all|-1] == m;
    LastIs(all, m);
    L.Regroup(p.base + [BeginAck(MAX_CHUNK)], acks, [m]);
  }

  lemma LastIs(all: seq<Msg>, m: Msg)
    requires all != [] && all[|all|-1] == m && m.Ack?
    ensures LastAck(all) == m.received
  {
  }

  /** The upload under way: `got` octets of the file have reached the session. */
  ghost predicate Receiving(s: Sess, p: Plan, got: nat) {
    && s.phase.Uploading? && !s.ended && !s.closeAfterFlush
    && s.up.name == p.name && s.up.declared == p.Total()
    && got <= p.Total() && L.Flatten(s.up.frags) == p.File()[..got]
    && exists acks :: Answers(p, s.sent, acks) && s.up.lastAck == LastAck(acks) && got < LastAck(acks) + 16777216
  }

  /** What an upload leaves behind, given the state in which its end was handled. */
  ghost predicate Completed(env: Env, s: Sess, p: Plan)
    requires env.fmt.Plain()
  {
    && s.phase.Ready? && s.ended && !s.closeAfterFlush && s.up.name == p.name && L.Flatten(s.up.frags) == p.File()
    && exists acks, at: Sess ::
         && Answers(p, at.sent, acks) && p.Total() < LastAck(acks) + 16777216
         && at.up == s.up && s.result == ResultText(env, at)
         && s.sent == at.sent + ([DoneMsg(s.up, |s.result|)] + ResultMsgs(s.result))
  }

  /** Octets of the file in the frames before the k-th. */
  function Sent(p: Plan, k: nat): nat
    requires k <= |p.chunks| + 2
  {
    |Joined(p.chunks[..if k == 0 then 0 else if k - 1 <= |p.chunks| then k - 1 else |p.chunks|])|
  }

  ghost predicate IsChunk(p: Plan, k: nat) {
    1 <= k <= |p.chunks|
  }

  /** Of the stream, k frames are dealt with and `more` is still to be read. */
  ghost predicate InStream(d: Dec, p: Plan, k: nat, more: Bytes)
    requires p.Good()
  {
    && k <= |p.chunks| + 2
    && d.Valid() && !d.Complete()
    && d.seen + more == p.From(k)
    && (|d.seen| >= HEADER_SIZE ==> (d.streaming <==> IsChunk(p, k)))
  }

  /** What the session has made of k frames and of `part` octets of the next. */
  ghost predicate Stage(env: Env, s: Sess, p: Plan, k: nat, part: nat)
    requires env.fmt.Plain() && k <= |p.chunks| + 2
  {
    if k == 0 then s.phase.Ready? && !s.closeAfterFlush && s.sent == p.base
    else if k <= |p.chunks| + 1 then Receiving(s, p, Sent(p, k) + part)
    else Completed(env, s, p)
  }

  ghost predicate At(env: Env, s: Sess, p: Plan, k: nat, more: Bytes)
    requires env.fmt.Plain() && p.Good()
  {
    InStream(s.dec, p, k, more) && Stage(env, s, p, k, |s.dec.Streamed()|)
  }

  // ---------------------------------------------------------------- pieces of the file

  lemma ShortPrefix(max: nat, file: string, n: nat)
    requires n <= |file| && L.Short(max, L.Terminated(file))
    ensures L.Short(max, L.Terminated(file[..n]))
  {
    hide L.Terminated;
    var all, now := L.Terminated(file), L.Terminated(file[..n]);
    assert file == file[..n] + file[n..];
    L.SplitConcat(file[..n], file[n..]);
    forall i | 0 <= i < |now| ensures |now[i]| <= max { assert all[i] == now[i]; }
  }

  /** With lines within the limit the statistics under way are those of the prefix received. */
  lemma StatsOfPrefix(up: Upload, file: string, n: nat)
    requires n <= |file| && L.Flatten(up.frags) == file[..n]
    requires L.Short(L.DEFAULT_MAX_LINE, L.Terminated(file))
    ensures up.Stats() == AggOf(L.Report(L.Terminated(file[..n])))
  {
    hide L.Terminated, L.Tail, L.Report, AggOf;
    ShortPrefix(L.DEFAULT_MAX_LINE, file, n);
    assert L.Fresh.tail + L.Flatten(up.frags) == file[..n];
    L.ShortLinesAnyCut(L.DEFAULT_MAX_LINE, L.Fresh, up.frags);
  }

  /** The next octets of the file reach the session. */
  lemma Piece(env: Env, s: Sess, p: Plan, got: nat, data: string)
    requires Taken(env) && s.Consistent() && Receiving(s, p, got)
    requires got + |data| <= p.Total() && data == p.File()[got..got+|data|]
    ensures Receiving(PayloadChunk(env, s, data), p, got + |data|)
  {
    hide L.Flatten, L.Report, AggOf, L.Terminated, Joined, Upload.Stats, L.Short, Answers, LastAck, Tell, FiguresOf;
    var now := got + |data|;
    var up := s.up.(frags := s.up.frags + [data]);
    L.FlattenSnoc(s.up.frags, data);
    assert p.File()[..got] + data == p.File()[..now];
    var acks :| Answers(p, s.sent, acks) && s.up.lastAck == LastAck(acks) && got < LastAck(acks) + 16777216;
    var r := PayloadChunk(env, s, data);
    if up.Received() - up.lastAck >= ACK_INTERVAL {
      var up' := up.(lastAck := up.Received());
      var m := Ack(up.Received(), FiguresOf(up.Stats()));
      if L.Short(L.DEFAULT_MAX_LINE, L.Terminated(p.File())) {
        StatsOfPrefix(up, p.File(), now);
        FiguresTell(L.Report(L.Terminated(p.File()[..now])));
      }
      assert r == Send(env, s.(up := up'), m);
      OneMoreAck(p, s.sent, acks, m);
    }
  }

  // ---------------------------------------------------------------- the frames of an upload

  lemma BeginAccepted(env: Env, s: Sess, p: Plan)
    requires Taken(env) && p.Good() && s.phase.Ready? && !s.closeAfterFlush && s.sent == p.base
    ensures var n := HandleBegin(env, s, p.Begin().payload);
            n.goOn && Receiving(n.s, p, 0)
  {
    hide ReadFields, EncodeAll, Joined;
    var fs := [U64(p.Total()), Str(p.name)];
    FieldsRoundTrip(fs, []);
    assert EncodeAll(fs) + [] == EncodeAll(fs);
    assert Kinds(fs) == [K64, KStr] by { assert Kinds(fs[1..]) == [KStr] + Kinds(fs[1..][1..]); }
    var n := HandleBegin(env, s, p.Begin().payload);
    assert n.s.sent == p.base + [BeginAck(MAX_CHUNK)] + [];
    assert Answers(p, n.s.sent, []) && LastAck([]) == 0;
  }

  lemma EndAccepted(env: Env, s: Sess, p: Plan)
    requires env.fmt.Plain() && Taken(env) && p.Good() && Receiving(s, p, p.Total())
    ensures var n := HandleEnd(env, s, p.End().payload);
            n.goOn && Completed(env, n.s, p)
  {
    hide Encode, ReadField, ResultText, DoneMsg, ResultMsgs, Joined, Answers, LastAck;
    EncodeOne(U64(p.Total()));
    FieldRoundTrip(U64(p.Total()), []);
    assert Encode(U64(p.Total())) + [] == Encode(U64(p.Total()));
    assert p.File()[..p.Total()] == p.File();
    var text := ResultText(env, s);
    AllTaken(env, s.(ended := true, result := text), [DoneMsg(s.up, |text|)] + ResultMsgs(text));
    var acks :| Answers(p, s.sent, acks) && s.up.lastAck == LastAck(acks) && p.Total() < LastAck(acks) + 16777216;
    var n := HandleEnd(env, s, p.End().payload);
    assert Answers(p, s.sent, acks) && s.up == n.s.up;
  }

  lemma ChunkPlace(p: Plan, k: nat)
    requires 1 <= k <= |p.chunks|
    ensures var a, b := Sent(p, k), Sent(p, k + 1);
            a + |p.chunks[k-1]| == b <= p.Total() && p.File()[a..b] == p.chunks[k-1]
  {
    JoinedPrefix(p.chunks, k);
    assert p.chunks[..k] == p.chunks[..k-1] + [p.chunks[k-1]];
    JoinedSnoc(p.chunks[..k-1], p.chunks[k-1]);
  }

  lemma Ends(p: Plan)
    ensures Sent(p, 1) == 0 && Sent(p, |p.chunks| + 1) == Sent(p, |p.chunks| + 2) == p.Total()
  {
    assert p.chunks[..0] == [] && p.chunks[..|p.chunks|] == p.chunks;
  }

  /** The octets a feed has added to a streamed payload. */
  lemma NewOctets(d: Dec, fed: Fed, m: Outgoing, left: Bytes, rest: Bytes)
    requires d.Valid() && fed.dec.Valid() && m.Fits()
    requires d.Streamed() + fed.piece == fed.dec.Streamed()
    requires fed.dec.seen + left == Serialize(m) + rest && |fed.dec.seen| >= HEADER_SIZE
    requires HeadOf(fed.dec.seen) == m.Header() && fed.dec.streaming && !fed.dec.Broken()
    ensures var a, b := |d.Streamed()|, |fed.dec.Streamed()|;
            a <= b <= |m.payload| && fed.piece == m.payload[a..b] && fed.dec.Streamed() == m.payload[..b]
  {
    hide HeadOf, HeaderError, Serialize;
    var t := Serialize(m) + rest;
    SerializedHead(m, rest);
    assert fed.dec.seen == t[..|fed.dec.seen|];
    assert fed.dec.Streamed() == t[HEADER_SIZE..FrameSize(t)][..|fed.dec.Streamed()|];
  }

  /** One feed within the k-th frame, for a sink that streams exactly the chunks. */
  lemma FeedingFrame(d: Dec, p: Plan, k: nat, data: Bytes, more: Bytes, accept: (nat, nat) -> bool)
    requires p.Good() && InStream(d, p, k, data + more) && k < |p.chunks| + 2
    requires accept(p.FrameAt(k).kind, |p.FrameAt(k).payload|) <==> IsChunk(p, k)
    ensures var fed := FeedDec(d, data, accept);
            && !fed.status.Failed?
            && (fed.status.NeedMore? ==> InStream(fed.dec, p, k, more))
            && (fed.status.Ready? ==>
                  && HeadOf(fed.dec.seen) == p.FrameAt(k).Header()
                  && fed.dec.seen[HEADER_SIZE..] == p.FrameAt(k).payload
                  && (fed.dec.streaming <==> IsChunk(p, k))
                  && InStream(NewFrame, p, k + 1, data[fed.used..] + more))
            && (fed.dec.streaming ==>
                  var a, b := |d.Streamed()|, |fed.dec.Streamed()|;
                  && IsChunk(p, k)
                  && a <= b <= |p.chunks[k-1]| && fed.piece == p.chunks[k-1][a..b]
                  && (fed.status.Ready? ==> b == |p.chunks[k-1]|))
  {
    hide HeadOf, HeaderError, Serialize, FeedDec, FrameSize, Plan.Begin, Plan.End;
    var m, rest := p.FrameAt(k), p.From(k + 1);
    p.FramesFit(k);
    var fed := FeedDec(d, data, accept);
    FeedWithin(d, data, more, m, rest, accept);
    FeedStreams(d, data, accept);
    if |fed.dec.seen| >= HEADER_SIZE {
      var left := data[fed.used..] + more;
      assert fed.dec.seen + left == Serialize(m) + rest by {
        assert data == data[..fed.used] + data[fed.used..];
      }
      PrefixOfFrame(fed.dec.seen, left, m, rest);
      if fed.dec.streaming {
        NewOctets(d, fed, m, left, rest);
      }
    }
  }

  lemma NotStreaming(fed: Fed, d: Dec)
    requires d.Valid() && fed.dec.Valid() && !fed.dec.streaming
    requires d.Streamed() + fed.piece == fed.dec.Streamed()
    ensures fed.piece == [] && |fed.dec.Streamed()| == 0 == |d.Streamed()|
  {
  }

  /** The session streams exactly the chunks of the upload. */
  lemma SinkTakesChunks(env: Env, s: Sess, p: Plan, k: nat, part: nat)
    requires env.fmt.Plain() && p.Good() && k < |p.chunks| + 2 && Stage(env, s, p, k, part)
    ensures Accepting(s.phase)(p.FrameAt(k).kind, |p.FrameAt(k).payload|) <==> IsChunk(p, k)
  {
    hide Answers, Joined, L.Flatten, EncodeAll;
  }

  lemma SliceOfSlice(s: Bytes, lo: nat, hi: nat, a: nat, b: nat)
    requires lo <= hi <= |s| && a <= b <= hi - lo
    ensures s[lo..hi][a..b] == s[lo+a..lo+b]
  {
    assert forall k | 0 <= k < b - a :: s[lo..hi][a..b][k] == s[lo+a+k];
  }

  /** What a feed within the k-th frame hands to the session. */
  lemma FeedingSession(env: Env, s: Sess, p: Plan, k: nat, fed: Fed)
    requires Taken(env) && p.Good() && s.Consistent() && IsChunk(p, k) && s.dec.Valid() && fed.dec.Valid()
    requires Receiving(s, p, Sent(p, k) + |s.dec.Streamed()|)
    requires if fed.dec.streaming then
               var a, b := |s.dec.Streamed()|, |fed.dec.Streamed()|;
               a <= b <= |p.chunks[k-1]| && fed.piece == p.chunks[k-1][a..b]
             else fed.piece == [] && |fed.dec.Streamed()| == 0 == |s.dec.Streamed()|
    ensures var s1 := if fed.piece == [] then s else PayloadChunk(env, s, fed.piece);
            Receiving(s1, p, Sent(p, k) + |fed.dec.Streamed()|)
  {
    hide Receiving, Joined, Sent, Dec.Streamed, PayloadChunk;
    if fed.dec.streaming {
      ChunkPlace(p, k);
      var a, b := |s.dec.Streamed()|, |fed.dec.Streamed()|;
      SliceOfSlice(p.File(), Sent(p, k), Sent(p, k + 1), a, b);
      Piece(env, s, p, Sent(p, k) + a, fed.piece);
    }
  }

  lemma Phases(s: Sess, p: Plan, got: nat)
    requires Receiving(s, p, got)
    ensures s.phase.Uploading?
  {
  }

  /** The k-th frame is complete: the session has dealt with it and expects the next. */
  lemma Dispatched(env: Env, s: Sess, p: Plan, k: nat, f: Seen)
    requires env.fmt.Plain() && Taken(env) && p.Good() && k < |p.chunks| + 2
    requires f.kind == p.FrameAt(k).kind && (f.streamed <==> IsChunk(p, k))
    requires !f.streamed ==> f.payload == p.FrameAt(k).payload
    requires if k == 0 then s.phase.Ready? && !s.closeAfterFlush && s.sent == p.base
             else Receiving(s, p, Sent(p, k + 1))
    ensures var n := Dispatch(env, s, f);
            && n.goOn
            && if k < |p.chunks| + 1 then Receiving(n.s, p, Sent(p, k + 1)) else Completed(env, n.s, p)
  {
    hide HandleBegin, HandleEnd, Sent, Completed, Receiving, Joined, EncodeAll;
    if k == 0 {
      Ends(p);
      BeginAccepted(env, s, p);
    } else {
      Phases(s, p, Sent(p, k + 1));
      if k == |p.chunks| + 1 {
        Ends(p);
        EndAccepted(env, s, p);
      }
    }
  }

  /** After the last frame nothing is left to read. */
  lemma NothingLeft(d: Dec, p: Plan, k: nat, more: Bytes)
    requires p.Good() && InStream(d, p, k, more) && more != []
    ensures k < |p.chunks| + 2
  {
    assert d.seen + more != [];
  }

  /** One feed of a read in the middle of an upload. */
  lemma OneFeed(env: Env, s: Sess, p: Plan, k: nat, data: Bytes, more: Bytes)
    requires env.fmt.Plain() && Taken(env) && p.Good() && s.Valid() && data != []
    requires At(env, s, p, k, data + more)
    ensures var fed := FeedDec(s.dec, data, Accepting(s.phase));
            var s1 := if fed.piece == [] then s else PayloadChunk(env, s, fed.piece);
            match fed.status
            case NeedMore => At(env, s1.(dec := fed.dec), p, k, more)
            case Failed(_) => false
            case Ready =>
              var n := Dispatch(env, s1, SeenOf(fed.dec));
              n.goOn && At(env, n.s.(dec := NewFrame), p, k + 1, data[fed.used..] + more)
  {
    hide Receiving, Completed, Sent, Dispatch, PayloadChunk, FeedDec, InStream, Plan.FrameAt, HeadOf, Joined;
    var accept := Accepting(s.phase);
    var part := |s.dec.Streamed()|;
    var fed := FeedDec(s.dec, data, accept);
    var s1 := if fed.piece == [] then s else PayloadChunk(env, s, fed.piece);
    NothingLeft(s.dec, p, k, data + more);
    SinkTakesChunks(env, s, p, k, part);
    FeedingFrame(s.dec, p, k, data, more, accept);
    if !fed.dec.streaming { NotStreaming(fed, s.dec); }
    if IsChunk(p, k) {
      FeedingSession(env, s, p, k, fed);
      ChunkPlace(p, k);
    } else {
      Ends(p);
    }
    if fed.status.NeedMore? {
      SameStage(env, s1, p, k, fed.dec);
    } else {
      Dispatched(env, s1, p, k, SeenOf(fed.dec));
      var n := Dispatch(env, s1, SeenOf(fed.dec));
      assert |NewFrame.Streamed()| == 0;
      SameStage(env, n.s, p, k + 1, NewFrame);
    }
  }

  lemma SameStage(env: Env, s: Sess, p: Plan, k: nat, d: Dec)
    requires env.fmt.Plain() && k <= |p.chunks| + 2 && d.Valid() && Stage(env, s, p, k, |d.Streamed()|)
    ensures Stage(env, s.(dec := d), p, k, |d.Streamed()|)
  {
    hide Answers, Joined, L.Flatten, ResultText, DoneMsg, ResultMsgs, Sent, Dec.Streamed;
  }

  /** A read, or the rest of one, in the middle of an upload. */
  lemma {:induction false} Reading(env: Env, s: Sess, p: Plan, k: nat, data: Bytes, more: Bytes) returns (k': nat)
    requires env.fmt.Plain() && Taken(env) && p.Good() && s.Valid()
    requires At(env, s, p, k, data + more)
    ensures At(env, Process(env, s, data), p, k', more)
    decreases |data|
  {
    hide At, Dispatch, PayloadChunk, FeedDec, Sess.Consistent;
    k' := k;
    if data == [] {
      assert data + more == more;
    } else {
      OneFeed(env, s, p, k, data, more);
      NotClosing(env, s, p, k, data + more);
      var fed := FeedDec(s.dec, data, Accepting(s.phase));
      if fed.status.Ready? {
        var s1 := if fed.piece == [] then s else PayloadChunk(env, s, fed.piece);
        if fed.piece != [] { PayloadConsistent(env, s, fed.piece); }
        DispatchConsistent(env, s1, SeenOf(fed.dec));
        var n := Dispatch(env, s1, SeenOf(fed.dec));
        SameConsistent(n.s, n.s.(dec := NewFrame));
        if s.dec.Broken() { FeedBroken(s.dec, data, Accepting(s.phase)); }
        k' := Reading(env, n.s.(dec := NewFrame), p, k + 1, data[fed.used..], more);
      }
    }
  }

  lemma NotClosing(env: Env, s: Sess, p: Plan, k: nat, more: Bytes)
    requires env.fmt.Plain() && p.Good() && At(env, s, p, k, more)
    ensures !s.phase.Closing? && !s.closeAfterFlush
  {
    hide InStream, Answers, Joined, L.Flatten, ResultText, DoneMsg, ResultMsgs, Sent;
  }

  // ---------------------------------------------------------------- the events of an upload

  /** Reads, completed writes, and silences shorter than the stall limit. */
  predicate Harmless(s: Sess, e: Event) {
    match e
    case Read(_) => true
    case WriteDone(good) => good
    case Timer => s.phase.Uploading? && s.ticks + 1 < STALL_TICKS
    case _ => false
  }

  ghost predicate Calm(env: Env, s: Sess, es: seq<Event>)
    requires env.fmt.Plain() && Possible(env, s, es)
    decreases |es|
  {
    es == [] || (Harmless(s, es[0]) && Calm(env, Step(env, s, es[0]), es[1..]))
  }

  function Octets(e: Event): Bytes {
    if e.Read? then e.data else []
  }

  /** The octets the events bring. */
  function AllOctets(es: seq<Event>): Bytes {
    if es == [] then [] else Octets(es[0]) + AllOctets(es[1..])
  }

  /** One harmless event in the middle of an upload. */
  lemma OneEvent(env: Env, s: Sess, p: Plan, k: nat, e: Event, more: Bytes) returns (k': nat)
    requires env.fmt.Plain() && Taken(env) && p.Good() && s.Valid() && Enabled(s, e) && Harmless(s, e)
    requires At(env, s, p, k, Octets(e) + more)
    ensures At(env, Step(env, s, e), p, k', more)
  {
    hide InStream, Receiving, Completed, Process, Sess.Consistent;
    k' := k;
    match e
    case Read(data) =>
      k' := Reading(env, s, p, k, data, more);
      SameAt(env, Process(env, s, data), Step(env, s, e), p, k', more);
    case WriteDone(good) =>
      assert [] + more == more;
      NotClosing(env, s, p, k, more);
      SameAt(env, s, Step(env, s, e), p, k, more);
    case Timer =>
      assert [] + more == more;
      SameAt(env, s, Step(env, s, e), p, k, more);
    case _ =>
  }

  lemma SameAt(env: Env, s: Sess, t: Sess, p: Plan, k: nat, more: Bytes)
    requires env.fmt.Plain() && p.Good() && At(env, s, p, k, more)
    requires t.phase == s.phase && t.dec == s.dec && t.up == s.up && t.ended == s.ended
    requires t.result == s.result && t.sent == s.sent && t.closeAfterFlush == s.closeAfterFlush
    ensures At(env, t, p, k, more)
  {
    hide InStream, Answers, Joined, L.Flatten, ResultText, DoneMsg, ResultMsgs, Sent;
  }

  lemma {:induction false} CalmRun(env: Env, s: Sess, p: Plan, k: nat, es: seq<Event>) returns (k': nat)
    requires env.fmt.Plain() && Taken(env) && p.Good() && Possible(env, s, es) && Calm(env, s, es)
    requires At(env, s, p, k, AllOctets(es))
    ensures At(env, Run(env, s, es), p, k', [])
    decreases |es|
  {
    hide At, Step, Enabled, Harmless;
    if es == [] {
      k' := k;
    } else {
      var more := AllOctets(es[1..]);
      k' := OneEvent(env, s, p, k, es[0], more);
      k' := CalmRun(env, Step(env, s, es[0]), p, k', es[1..]);
    }
  }

  lemma WholeFrame(d: Dec, m: Outgoing, rest: Bytes)
    requires d.Valid() && m.Fits() && d.seen == Serialize(m) + rest
    ensures d.Complete()
  {
    hide HeaderOf, HeaderError, Serialize;
    SerializedHead(m, rest);
    PrefixOfFrame(d.seen, [], m, rest);
  }

  /** A stream that has been read to its end has no frame left. */
  lemma StreamEnds(d: Dec, p: Plan, k: nat)
    requires p.Good() && InStream(d, p, k, [])
    ensures k == |p.chunks| + 2 && d == NewFrame
  {
    hide HeadOf, HeaderError, Serialize, Dec.Complete, Plan.FrameAt;
    assert d.seen + [] == d.seen;
    if k < |p.chunks| + 2 {
      p.FramesFit(k);
      WholeFrame(d, p.FrameAt(k), p.From(k + 1));
    }
  }

  /**
    The service an upload promises.  However the file is cut into chunks and the framed
    stream into reads, with writes completing and short silences in between, a session that
    is ready ends ready for the next upload, it has sent nothing but the answer to
    UPLOAD_BEGIN, truthful acknowledgements, one ANALYZE_DONE and the result, and what it
    analysed is the file.
    */
  lemma UploadSucceeds(env: Env, s: Sess, p: Plan, es: seq<Event>)
    requires env.fmt.Plain() && Taken(env) && p.Good()
    requires s.phase.Ready? && s.dec == NewFrame && !s.closeAfterFlush && s.sent == p.base
    requires Possible(env, s, es) && Calm(env, s, es)
    requires AllOctets(es) == p.From(0)
    ensures var t := Run(env, s, es);
            t.dec == NewFrame && Completed(env, t, p)
  {
    hide Completed, Joined, Run, Receiving;
    assert NewFrame.seen + p.From(0) == p.From(0);
    var k := CalmRun(env, s, p, 0, es);
    StreamEnds(Run(env, s, es).dec, p, k);
  }

  // ---------------------------------------------------------------- what was analysed and returned

  /** The text of the result pieces among `ms`, in order. */
  function Gathered(ms: seq<Msg>): string {
    if ms == [] then "" else (if ms[0].ResultChunk? then ms[0].text else "") + Gathered(ms[1..])
  }

  /** The result arrives whole, in non-empty pieces no longer than 65536 octets. */
  lemma {:induction false} PiecesReassemble(text: string)
    ensures Gathered(Pieces(text)) == text
    ensures forall i | 0 <= i < |Pieces(text)| ::
              Pieces(text)[i].ResultChunk? && 0 < |Pieces(text)[i].text| <= 65536
    decreases |text|
  {
    if |text| > RESULT_CHUNK {
      PiecesReassemble(text[RESULT_CHUNK..]);
      assert Pieces(text)[1..] == Pieces(text[RESULT_CHUNK..]);
      assert text == text[..RESULT_CHUNK] + text[RESULT_CHUNK..];
    } else if text != "" {
      assert Pieces(text)[1..] == [];
    }
  }

  ghost predicate ShortLines(file: string) {
    L.Short(8192, L.Terminated(file)) && |L.Tail(file)| <= 8192
  }

  /** `lines` are what some cut of the file reports, and `oversize` the lines given up. */
  ghost predicate Analysed(file: string, lines: seq<L.Emission>, oversize: nat) {
    && oversize + |lines| == L.LineCount(file)
    && exists frags :: L.Flatten(frags) == file && lines == L.Stream(8192, frags).1
  }

  /** With no line above the limit these are all the lines of the file. */
  lemma AnalysedWhole(file: string, lines: seq<L.Emission>, oversize: nat)
    requires Analysed(file, lines, oversize) && ShortLines(file)
    ensures lines == L.WholeFile(file) && oversize == 0
  {
    hide L.Terminated, L.Tail, L.Report, L.Flatten, L.Stream;
    var frags :| L.Flatten(frags) == file && lines == L.Stream(8192, frags).1;
    L.ShortStream(L.DEFAULT_MAX_LINE, frags);
  }

  /** What an upload has come to when it ends. */
  lemma FinalIs(up: Upload)
    ensures var lines, a := up.AllLines().1, up.FinalStats();
            && Analysed(L.Flatten(up.frags), lines, a.oversize)
            && a == AggOf(lines).(oversize := a.oversize)
            && Tell(FiguresOf(a), lines) && DoneMsg(up, 0).figures == FiguresOf(a)
  {
    hide AggOf, L.Terminated, L.Tail, L.Report, L.Flatten, L.Stream, L.FeedAll, L.Accounts, Tell;
    L.StreamAccounts(L.DEFAULT_MAX_LINE, up.frags);
    FiguresTell(up.AllLines().1);
  }

  lemma {:induction false} NoOversize(es: seq<L.Emission>)
    ensures AggOf(es).oversize == 0
  {
    if es != [] {
      hide WithLine;
      NoOversize(es[..|es|-1]);
      LineKeepsOversize(AggOf(es[..|es|-1]), es[|es|-1].line, RawTotal(es[..|es|-1]));
    }
  }

  lemma LineKeepsOversize(a: Agg, line: string, at: nat)
    requires a.Shaped()
    ensures WithLine(a, line, at).oversize == a.oversize
  {
    hide P.ParseLine, BumpHour, Tracked, Excerpt;
  }

  /** What came of an upload: the lines analysed and given up, the acknowledgements, the result. */
  datatype Account = Account(lines: seq<L.Emission>, oversize: nat, acks: seq<Msg>, figures: Figures, ctx: CSV.Context)

  /** The context of a result: the readings at some moment, and the upload. */
  function ContextAt(env: Env, p: Plan, n: nat): CSV.Context {
    var m := env.moment(n);
    CSV.Context(m.utc, p.name, p.Total(), m.elapsedMs, m.rssKb)
  }

  /** A successful exchange about a file: what was sent since `base`, and the result. */
  ghost predicate Exchange(env: Env, t: Sess, p: Plan, x: Account)
    requires env.fmt.Plain()
  {
    hide AggOf, CSV.Document, FiguresOf, Joined, ResultMsgs, Answers, CSV.Printf.Plain, Tell, Analysed,
         CSV.FlatExcerpts, CSV.IdentNames;
    CSV.ReachableIsShowable(x.lines);
    && Analysed(p.File(), x.lines, x.oversize)
    && Tell(x.figures, x.lines)
    && (exists n :: x.ctx == ContextAt(env, p, n))
    && t.result == CSV.Document(AggOf(x.lines).(oversize := x.oversize), x.ctx, env.fmt)
    && exists sent ::
         && Answers(p, sent, x.acks) && p.Total() < LastAck(x.acks) + 16777216
         && t.sent == sent + ([Done(p.Total(), x.figures, x.oversize, |t.result|)] + ResultMsgs(t.result))
  }

  /**
    What was sent, told by the lines: the figures reported count the lines analysed, those given
    up are the rest of the file's, and the document is that of the lines, each at its place.
    */
  lemma CompletedIsExchange(env: Env, t: Sess, p: Plan)
    requires env.fmt.Plain() && Completed(env, t, p)
    ensures exists x :: Exchange(env, t, p, x)
  {
    hide Joined, L.Flatten, AggOf, CSV.Document, Answers, Pieces, FiguresOf, Tell, Analysed, ResultMsgs,
         Upload.AllLines, Upload.FinalStats;
    var acks, at: Sess :|
      && Answers(p, at.sent, acks) && p.Total() < LastAck(acks) + 16777216
      && at.up == t.up && t.result == ResultText(env, at)
      && t.sent == at.sent + ([DoneMsg(t.up, |t.result|)] + ResultMsgs(t.result));
    FinalIs(t.up);
    var a := t.up.FinalStats();
    CSV.ReachableIsShowable(t.up.AllLines().1);
    assert ResultContext(env, at) == ContextAt(env, p, at.calls);
    assert Exchange(env, t, p,
                    Account(t.up.AllLines().1, a.oversize, acks, FiguresOf(a), ResultContext(env, at)));
  }

  /**
    The same for a file without a line above the limit: the statistics reported and the
    document returned are those of the file's own lines, each at its place in the file.
    */
  lemma EndToEnd(env: Env, s: Sess, p: Plan, es: seq<Event>)
    requires env.fmt.Plain() && Taken(env) && p.Good() && ShortLines(p.File())
    requires s.phase.Ready? && s.dec == NewFrame && !s.closeAfterFlush && s.sent == p.base
    requires Possible(env, s, es) && Calm(env, s, es)
    requires AllOctets(es) == p.From(0)
    ensures var t := Run(env, s, es);
            && t.phase.Ready? && t.dec == NewFrame && !t.closeAfterFlush
            && exists x :: Exchange(env, t, p, x) && x.lines == L.WholeFile(p.File()) && x.oversize == 0
  {
    hide Run, Joined, L.Flatten, AggOf, L.WholeFile, CSV.Document, Possible, Calm, Honest, Pieces, ShortLines, Analysed,
         Exchange;
    UploadSucceeds(env, s, p, es);
    var t := Run(env, s, es);
    CompletedIsExchange(env, t, p);
    var x :| Exchange(env, t, p, x);
    ExchangeAnalysed(env, t, p, x);
    AnalysedWhole(p.File(), x.lines, x.oversize);
  }

  lemma ExchangeAnalysed(env: Env, t: Sess, p: Plan, x: Account)
    requires env.fmt.Plain() && Exchange(env, t, p, x)
    ensures Analysed(p.File(), x.lines, x.oversize)
  {
    hide AggOf, CSV.Document, Joined, ResultMsgs, Answers, CSV.Printf.Plain, Tell, Analysed;
  }

  /** There is such a run for every upload: all of it in one read. */
  lemma OneReadWillDo(env: Env, p: Plan) returns (s: Sess, es: seq<Event>)
    requires env.fmt.Plain() && p.Good()
    ensures s.phase.Ready? && s.dec == NewFrame && !s.closeAfterFlush && s.sent == p.base
    ensures Possible(env, s, es) && Calm(env, s, es) && AllOctets(es) == p.From(0)
  {
    hide Process, Joined, Upload.Received;
    s := Started.(phase := Phase.Ready, sent := p.base);
    es := [Read(p.From(0))];
    p.FramesFit(0);
    SerializedHead(p.FrameAt(0), p.From(1));
    assert es[1..] == [] && AllOctets([]) == [];
    StepValid(env, s, es[0]);
  }

  // ---------------------------------------------------------------- chunk sizes

  lemma WholeFrameFed(m: Outgoing, rest: Bytes, accept: (nat, nat) -> bool)
    requires m.Fits()
    ensures var data := Serialize(m) + rest;
            var fed := FeedDec(NewFrame, data, accept);
            && fed.status == Status.Ready && data[fed.used..] == rest
            && HeadOf(fed.dec.seen) == m.Header() && fed.dec.seen[HEADER_SIZE..] == m.payload
            && fed.dec.streaming == (m.payload != [] && accept(m.kind, |m.payload|))
            && fed.piece == if fed.dec.streaming then m.payload else []
  {
    hide FeedDec, HeadOf, HeaderError, Serialize;
    var data := Serialize(m) + rest;
    var fed := FeedDec(NewFrame, data, accept);
    assert data + [] == data && NewFrame.seen + (data + []) == data;
    FeedWithin(NewFrame, data, [], m, rest, accept);
    FeedStreams(NewFrame, data, accept);
    if fed.status.Ready? {
      assert data[fed.used..] + [] == data[fed.used..];
    } else {
      assert fed.dec.seen + [] == fed.dec.seen;
      WholeFrame(fed.dec, m, rest);
    }
  }

  /**
    A whole frame at the start of a read: its payload goes to the sink or to the dispatch, and
    the rest of the read is looked at only if the dispatch says so.
    */
  lemma FrameProcessed(env: Env, s: Sess, o: Outgoing, rest: Bytes)
    requires env.fmt.Plain() && o.Fits() && s.dec == NewFrame && !s.phase.Closing?
    ensures var streaming := o.payload != [] && Accepting(s.phase)(o.kind, |o.payload|);
            var s1 := if streaming then PayloadChunk(env, s, o.payload) else s;
            var n := Dispatch(env, s1, Seen(o.kind, streaming, if streaming then [] else o.payload));
            var t := n.s.(dec := NewFrame);
            Process(env, s, Serialize(o) + rest) == if n.goOn then Process(env, t, rest) else t
  {
    hide FeedDec, HeadOf, HeaderError, Serialize, PayloadChunk, Dispatch;
    var data := Serialize(o) + rest;
    SerializedHead(o, rest);
    WholeFrameFed(o, rest, Accepting(s.phase));
    var fed := FeedDec(NewFrame, data, Accepting(s.phase));
    assert data[fed.used..] == rest;
  }

  /**
    A chunk frame during an upload: its payload is analysed exactly when it has between one
    and MAX_CHUNK octets (and fits the declared size).  An empty chunk is refused like one
    that is too large.
    */
  lemma ChunkSizeDecides(env: Env, s: Sess, payload: Bytes)
    requires env.fmt.Plain() && s.phase.Uploading? && s.dec == NewFrame
    requires |payload| <= MAX_PAYLOAD
    ensures var r := Process(env, s, Serialize(Outgoing(UPLOAD_CHUNK, payload)));
            if !(0 < |payload| <= MAX_CHUNK) then r == Abort(env, s, PAYLOAD_TOO_LARGE).(dec := NewFrame)
            else s.up.Received() + |payload| <= s.up.declared ==>
                   r == PayloadChunk(env, s, payload).(dec := NewFrame)
  {
    hide Process, Serialize, Abort, Upload.Received, PayloadChunk, Send;
    FrameProcessed(env, s, Outgoing(UPLOAD_CHUNK, payload), []);
    assert Serialize(Outgoing(UPLOAD_CHUNK, payload)) + [] == Serialize(Outgoing(UPLOAD_CHUNK, payload));
    NothingProcessed(env, PayloadChunk(env, s, payload).(dec := NewFrame));
    if s.up.Received() + |payload| <= s.up.declared { ChunkPhase(env, s, payload); }
  }

  lemma NothingProcessed(env: Env, s: Sess)
    requires env.fmt.Plain() && s.dec.Valid() && !s.dec.Complete()
    ensures Process(env, s, []) == s
  {
  }

  lemma ChunkPhase(env: Env, s: Sess, data: string)
    requires s.phase.Uploading? && s.up.Received() + |data| <= s.up.declared
    ensures PayloadChunk(env, s, data).phase.Uploading? || PayloadChunk(env, s, data).phase.Closing?
  {
    hide Upload.Received, Upload.Stats, FiguresOf;
  }
}
