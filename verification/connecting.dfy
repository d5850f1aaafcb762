/**
  A connection from its first octet.

  What opens a session and what does not, and an upload over a new connection, from the HELLO
  to what the client reads in the result document.
  */
module Connecting {
  import opened Wire
  import opened Framing
  import opened Sessions
  import L = Lines
  import CSV = ResultCsv
  import D = CsvDocuments
  import Show = Showing
  import U = Uploads

  /** The frame that opens a conversation: type 0x01, the client's version and its name. */
  function Hello(version: nat, name: Bytes): (o: Outgoing)
    requires |name| < 0x1_0000
    ensures o.Fits()
  {
    hide Encode;
    EncodeTwo(U16(version), Str(name));
    HelloLength(version, name);
    Outgoing(0x01, EncodeAll([U16(version), Str(name)]))
  }

  lemma HelloLength(version: nat, name: Bytes)
    requires |name| < 0x1_0000
    ensures |Encode(U16(version))| == 2 && |Encode(Str(name))| == 2 + |name|
  {
    hide BigEndian;
  }

  /** A HELLO may carry more than its two fields. */
  ghost predicate IsHello(o: Outgoing) {
    && o.kind == 0x01
    && exists version: nat, name: Bytes, rest: Bytes | version < 0x1_0000 && |name| < 0x1_0000 ::
         o.payload == Hello(version, name).payload + rest
  }

  lemma HelloKinds(version: nat, name: Bytes)
    ensures Kinds([U16(version), Str(name)]) == [K16, KStr]
  {
    assert Kinds([Str(name)]) == [KStr] + Kinds([]);
    assert [U16(version), Str(name)][1..] == [Str(name)];
  }

  /** The two fields are found exactly in such a payload. */
  lemma HelloIff(o: Outgoing)
    requires o.kind == 0x01
    ensures ReadFields([K16, KStr], o.payload).ok <==> IsHello(o)
  {
    hide EncodeAll, ReadFields, Kinds;
    FieldsReadIff([K16, KStr], o.payload);
    var r := ReadFields([K16, KStr], o.payload);
    if r.ok {
      TwoKinds(r.fields);
      var version, name := r.fields[0].v, r.fields[1].s;
      assert r.fields == [U16(version), Str(name)];
      assert o.payload == Hello(version, name).payload + r.rest;
    }
    if IsHello(o) {
      var version: nat, name: Bytes, rest: Bytes :| version < 0x1_0000 && |name| < 0x1_0000
                                                     && o.payload == Hello(version, name).payload + rest;
      HelloKinds(version, name);
      FieldsRoundTrip([U16(version), Str(name)], rest);
    }
  }

  lemma TwoKinds(fs: seq<Field>)
    requires Kinds(fs) == [K16, KStr] && AllFit(fs)
    ensures |fs| == 2 && fs[0].U16? && fs[0].v < 0x1_0000 && fs[1].Str? && |fs[1].s| < 0x1_0000
  {
    assert fs != [] && Kinds(fs)[1..] == Kinds(fs[1..]) == [KStr];
    assert fs[1..] != [] && Kinds(fs[1..])[1..] == Kinds(fs[1..][1..]) == [];
    assert fs[1..][1..] == [];
    assert Kinds(fs)[0] == fs[0].Kind() == K16 && Kinds(fs[1..])[0] == fs[1].Kind() == KStr;
  }

  // ---------------------------------------------------------------- the first frame in pieces

  /** Some octets of the first frame have come; `more` is still to be read, the last of it `rest`. */
  ghost predicate Greeting(s: Sess, first: Outgoing, rest: Bytes, more: Bytes) {
    && s.phase.AwaitHello? && s.sent == [] && !s.closeAfterFlush && first.Fits()
    && s.dec.Valid() && !s.dec.Complete() && !s.dec.streaming
    && s.dec.seen + more == Serialize(first) + rest
  }

  /** One feed: more of the frame, or all of it. */
  lemma GreetingFed(s: Sess, first: Outgoing, rest: Bytes, data: Bytes, more: Bytes)
    requires Greeting(s, first, rest, data + more)
    ensures var fed := FeedDec(s.dec, data, Accepting(s.phase));
            && !fed.status.Failed? && fed.piece == []
            && (fed.status.NeedMore? ==> Greeting(s.(dec := fed.dec), first, rest, more))
            && (fed.status.Ready? ==>
                  && fed.dec.Complete() && SeenOf(fed.dec) == Seen(first.kind, false, first.payload)
                  && data[fed.used..] + more == rest)
  {
    hide HeadOf, HeaderError, Serialize, FeedDec, FrameSize;
    var accept := Accepting(s.phase);
    var fed := FeedDec(s.dec, data, accept);
    U.FeedWithin(s.dec, data, more, first, rest, accept);
    U.FeedStreams(s.dec, data, accept);
    U.NotStreaming(fed, s.dec) by {
      assert !fed.dec.streaming by { StreamsNothing(s, fed); }
    }
  }

  lemma StreamsNothing(s: Sess, fed: Fed)
    requires s.phase.AwaitHello? && !s.dec.streaming && fed.dec.Valid() && !fed.status.Failed?
    requires fed.status.Failed? <==> fed.dec.Broken()
    requires |fed.dec.seen| >= HEADER_SIZE && !fed.dec.Broken() ==>
               fed.dec.streaming == if |s.dec.seen| >= HEADER_SIZE then s.dec.streaming
                                    else HeadOf(fed.dec.seen).len > 0
                                         && Accepting(s.phase)(HeadOf(fed.dec.seen).kind, HeadOf(fed.dec.seen).len)
    ensures !fed.dec.streaming
  {
    hide HeadOf, HeaderError, FrameSize;
  }

  /** While the first frame is incomplete there is something left to read. */
  lemma GreetingOpen(s: Sess, first: Outgoing, rest: Bytes, more: Bytes)
    requires Greeting(s, first, rest, more)
    ensures more != []
  {
    hide Serialize, Dec.Complete, Dec.Valid;
    if more == [] {
      assert s.dec.seen + more == s.dec.seen;
      U.WholeFrame(s.dec, first, rest);
    }
  }

  lemma SameGreeting(s: Sess, t: Sess, first: Outgoing, rest: Bytes, more: Bytes)
    requires Greeting(s, first, rest, more)
    requires t.phase == s.phase && t.dec == s.dec && t.sent == s.sent && t.closeAfterFlush == s.closeAfterFlush
    ensures Greeting(t, first, rest, more)
  {
    hide Serialize, Dec.Complete, Dec.Valid;
  }

  /** A HELLO makes the session ready and is acknowledged. */
  lemma HelloTaken(env: Env, s: Sess, version: nat, name: Bytes)
    requires env.fmt.Plain() && Taken(env) && s.phase.AwaitHello? && s.sent == [] && !s.closeAfterFlush
    requires version < 0x1_0000 && |name| < 0x1_0000
    ensures var n := Dispatch(env, s, Seen(0x01, false, Hello(version, name).payload));
            && n.goOn && n.s.phase.Ready? && n.s.sent == [HelloAck] && !n.s.closeAfterFlush
  {
    hide EncodeAll, ReadFields, Kinds, CSV.Printf.Plain;
    HelloKinds(version, name);
    var fs := [U16(version), Str(name)];
    FieldsRoundTrip(fs, []);
    assert EncodeAll(fs) + [] == EncodeAll(fs);
    assert s.sent + [HelloAck] == [HelloAck];
  }

  // ---------------------------------------------------------------- HELLO and an upload

  /** After the HELLO the session is where an upload begins. */
  lemma Opened(env: Env, s: Sess, p: U.Plan, more: Bytes)
    requires env.fmt.Plain() && p.Good() && p.base == [HelloAck] && more == p.From(0)
    requires s.phase.Ready? && s.sent == [HelloAck] && !s.closeAfterFlush && s.dec == NewFrame
    ensures U.At(env, s, p, 0, more)
  {
    hide HeadOf, HeaderError, FrameSize, CSV.Printf.Plain, Joined;
    assert NewFrame.seen + more == more;
  }

  /** A read, or the rest of one, that begins with what is left of the HELLO. */
  lemma GreetingRead(env: Env, s: Sess, version: nat, name: Bytes, p: U.Plan, data: Bytes, more: Bytes)
    returns (k: nat)
    requires env.fmt.Plain() && Taken(env) && p.Good() && p.base == [HelloAck] && s.Valid() && data != []
    requires version < 0x1_0000 && |name| < 0x1_0000
    requires Greeting(s, Hello(version, name), p.From(0), data + more)
    ensures Greeting(Process(env, s, data), Hello(version, name), p.From(0), more)
            || U.At(env, Process(env, s, data), p, k, more)
  {
    hide Dispatch, FeedDec, Sess.Consistent, U.At, Serialize, EncodeAll, U.Plan.From, CSV.Printf.Plain;
    k := 0;
    var first := Hello(version, name);
    GreetingFed(s, first, p.From(0), data, more);
    var fed := FeedDec(s.dec, data, Accepting(s.phase));
    if fed.status.Ready? {
      HelloTaken(env, s, version, name);
      var n := Dispatch(env, s, SeenOf(fed.dec));
      DispatchConsistent(env, s, SeenOf(fed.dec));
      var t := n.s.(dec := NewFrame);
      SameConsistent(n.s, t);
      Opened(env, t, p, data[fed.used..] + more);
      k := U.Reading(env, t, p, 0, data[fed.used..], more);
    }
  }

  /** A calm run over a HELLO and an upload. */
  lemma {:induction false} CalmGreeting(env: Env, s: Sess, version: nat, name: Bytes, p: U.Plan, es: seq<Event>)
    returns (k: nat)
    requires env.fmt.Plain() && Taken(env) && p.Good() && p.base == [HelloAck]
    requires version < 0x1_0000 && |name| < 0x1_0000
    requires Possible(env, s, es) && U.Calm(env, s, es)
    requires Greeting(s, Hello(version, name), p.From(0), U.AllOctets(es))
    ensures U.At(env, Run(env, s, es), p, k, [])
    decreases |es|
  {
    hide Process, Greeting, U.At, U.Plan.From, Hello, CSV.Printf.Plain, Sess.Consistent;
    k := 0;
    GreetingOpen(s, Hello(version, name), p.From(0), U.AllOctets(es));
    if es != [] {
      var e, more := es[0], U.AllOctets(es[1..]);
      var t := Step(env, s, e);
      GreetingPhase(s, Hello(version, name), p.From(0), U.AllOctets(es));
      match e
      case Read(data) =>
        k := GreetingRead(env, s, version, name, p, data, more);
        var u := Process(env, s, data);
        if Greeting(u, Hello(version, name), p.From(0), more) {
          SameGreeting(u, t, Hello(version, name), p.From(0), more);
          k := CalmGreeting(env, t, version, name, p, es[1..]);
        } else {
          U.SameAt(env, u, t, p, k, more);
          k := U.CalmRun(env, t, p, k, es[1..]);
        }
      case WriteDone(good) =>
        assert [] + more == more;
        SameGreeting(s, t, Hello(version, name), p.From(0), more);
        k := CalmGreeting(env, t, version, name, p, es[1..]);
      case _ =>
    }
  }

  lemma GreetingPhase(s: Sess, first: Outgoing, rest: Bytes, more: Bytes)
    requires Greeting(s, first, rest, more)
    ensures s.phase.AwaitHello? && !s.closeAfterFlush
  {
  }

  lemma StartedGreeting(first: Outgoing, rest: Bytes, more: Bytes)
    requires first.Fits() && more == Serialize(first) + rest
    ensures Greeting(Started, first, rest, more)
  {
    hide Serialize, HeadOf, HeaderError, FrameSize;
    assert NewFrame.seen + more == more;
  }

  /**
    A new connection over which a client says HELLO and uploads a file serves it, however the
    two are cut into reads: the session answers HELLO_ACK, then as for any upload, and is ready
    for the next.
    */
  lemma ConnectionServes(env: Env, version: nat, name: Bytes, p: U.Plan, es: seq<Event>)
    requires env.fmt.Plain() && Taken(env) && p.Good() && p.base == [HelloAck]
    requires version < 0x1_0000 && |name| < 0x1_0000
    requires Possible(env, Started, es) && U.Calm(env, Started, es)
    requires U.AllOctets(es) == Serialize(Hello(version, name)) + p.From(0)
    ensures var t := Run(env, Started, es); t.dec == NewFrame && U.Completed(env, t, p)
  {
    hide Run, U.Completed, Greeting, Hello, U.Plan.From, Serialize, CSV.Printf.Plain;
    StartedGreeting(Hello(version, name), p.From(0), U.AllOctets(es));
    var k := CalmGreeting(env, Started, version, name, p, es);
    AtEnd(env, Run(env, Started, es), p, k);
  }

  lemma AtEnd(env: Env, t: Sess, p: U.Plan, k: nat)
    requires env.fmt.Plain() && p.Good() && U.At(env, t, p, k, [])
    ensures t.dec == NewFrame && U.Completed(env, t, p)
  {
    hide U.Completed, U.Receiving, U.InStream, CSV.Printf.Plain;
    U.StreamEnds(t.dec, p, k);
  }

  /** The account of an upload, and what the client reads of it unless the file name breaks the document. */
  ghost predicate Told(env: Env, t: Sess, p: U.Plan, x: U.Account)
    requires env.fmt.Plain()
  {
    && U.Exchange(env, t, p, x)
    && (U.ShortLines(p.File()) ==> x.lines == L.WholeFile(p.File()) && x.oversize == 0)
    && (D.Flat(x.ctx.utc) && !D.Contains(p.name, D.BREAK) ==>
          Show.Says(D.ReadDocument(t.result), x.lines, x.oversize, x.ctx, env.fmt))
  }

  /**
    And the figures reported count the lines analysed, which are all lines of the file when none
    is above the limit, and the document that comes back says of them what `Says` spells out.
    */
  lemma ConnectionSays(env: Env, version: nat, name: Bytes, p: U.Plan, es: seq<Event>)
    requires env.fmt.Plain() && Taken(env) && p.Good() && p.base == [HelloAck]
    requires version < 0x1_0000 && |name| < 0x1_0000
    requires Possible(env, Started, es) && U.Calm(env, Started, es)
    requires U.AllOctets(es) == Serialize(Hello(version, name)) + p.From(0)
    ensures exists x :: Told(env, Run(env, Started, es), p, x)
  {
    hide Run, U.Completed, Hello, U.Plan.From, Serialize, CSV.Printf.Plain, Possible, U.Calm, Told, U.Exchange;
    ConnectionServes(env, version, name, p, es);
    var t := Run(env, Started, es);
    U.CompletedIsExchange(env, t, p);
    var x :| U.Exchange(env, t, p, x);
    ExchangeSays(env, t, p, x);
  }

  lemma ExchangeSays(env: Env, t: Sess, p: U.Plan, x: U.Account)
    requires env.fmt.Plain() && U.Exchange(env, t, p, x)
    ensures Told(env, t, p, x)
  {
    hide CSV.Printf.Plain, Show.Says, L.WholeFile, U.Plan.File, D.Flat, D.Contains, D.ReadDocument, U.Answers, U.Tell,
         CSV.Document, CSV.Showable, U.ShortLines, U.Analysed;
    if U.ShortLines(p.File()) { U.AnalysedWhole(p.File(), x.lines, x.oversize); }
    if D.Flat(x.ctx.utc) && !D.Contains(p.name, D.BREAK) {
      Show.DocumentSays(x.lines, x.oversize, x.ctx, env.fmt);
    }
  }

  // ---------------------------------------------------------------- any other first frame

  /** A first frame that is no HELLO is refused. */
  lemma OtherRefused(env: Env, s: Sess, o: Outgoing)
    requires env.fmt.Plain() && Taken(env) && s.phase.AwaitHello? && s.sent == [] && o.Fits() && !IsHello(o)
    ensures var n := Dispatch(env, s, Seen(o.kind, false, o.payload));
            && !n.goOn && n.s.phase.AwaitHello? && n.s.sent == [Error(3)] && n.s.closeAfterFlush && n.s.pending > 0
  {
    hide ReadFields, IsHello, CSV.Printf.Plain;
    if o.kind == HELLO { HelloIff(o); }
    assert s.sent + [Error(3)] == [Error(3)];
  }

  lemma LastWithin(es: seq<Event>)
    requires es != [] && es[|es|-1].Read?
    ensures |U.AllOctets(es)| >= |es[|es|-1].data|
  {
    if |es| > 1 {
      assert es[1..][|es|-2] == es[|es|-1];
      LastWithin(es[1..]);
    }
  }

  /** The first frame has been refused. */
  ghost predicate Refused(s: Sess) {
    s.phase.AwaitHello? && s.sent == [Error(3)] && s.closeAfterFlush && s.pending > 0 && s.dec == NewFrame
  }

  /** A read that begins with what is left of such a frame. */
  lemma RefusedRead(env: Env, s: Sess, o: Outgoing, rest: Bytes, data: Bytes, more: Bytes)
    requires env.fmt.Plain() && Taken(env) && o.Fits() && !IsHello(o) && data != []
    requires s.dec.Valid() && !s.dec.Complete() && Greeting(s, o, rest, data + more)
    ensures var r := Process(env, s, data);
            Greeting(r, o, rest, more) || (Refused(r) && |more| <= |rest|)
  {
    hide FeedDec, Dispatch, Greeting, Serialize, IsHello, CSV.Printf.Plain, Dec.Valid, Dec.Complete;
    GreetingPhase(s, o, rest, data + more);
    GreetingFed(s, o, rest, data, more);
    var fed := FeedDec(s.dec, data, Accepting(s.phase));
    if fed.status.Ready? {
      OtherSent(s, o, rest, data + more);
      OtherRefused(env, s, o);
    }
  }

  lemma {:induction false} RefusedGreeting(env: Env, s: Sess, o: Outgoing, rest: Bytes, es: seq<Event>)
    requires env.fmt.Plain() && Taken(env) && o.Fits() && !IsHello(o)
    requires Possible(env, s, es) && U.Calm(env, s, es) && Greeting(s, o, rest, U.AllOctets(es))
    requires es != [] && es[|es|-1].Read? && |rest| < |es[|es|-1].data|
    ensures Refused(Run(env, s, es))
    decreases |es|
  {
    hide Process, Greeting, IsHello, CSV.Printf.Plain, Sess.Consistent;
    var e, more := es[0], U.AllOctets(es[1..]);
    var t := Step(env, s, e);
    GreetingPhase(s, o, rest, U.AllOctets(es));
    if |es| > 1 {
      assert es[1..][|es|-2] == es[|es|-1];
      LastWithin(es[1..]);
    }
    match e
    case Read(data) =>
      RefusedRead(env, s, o, rest, data, more);
      var u := Process(env, s, data);
      if Greeting(u, o, rest, more) {
        SameGreeting(u, t, o, rest, more);
        GreetingOpen(t, o, rest, more);
        RefusedGreeting(env, t, o, rest, es[1..]);
      } else {
        assert es[1..] == [];
      }
    case WriteDone(good) =>
      assert [] + more == more;
      SameGreeting(s, t, o, rest, more);
      RefusedGreeting(env, t, o, rest, es[1..]);
    case _ =>
  }

  lemma OtherSent(s: Sess, first: Outgoing, rest: Bytes, more: Bytes)
    requires Greeting(s, first, rest, more)
    ensures s.sent == []
  {
  }

  /**
    A connection that begins with any other frame, or with a HELLO whose payload is not its two
    fields, is refused however it is cut into reads: one error goes out, what follows in the same
    read is not looked at, and the connection is to close when that error has been written.
    */
  lemma OtherwiseRefused(env: Env, o: Outgoing, rest: Bytes, es: seq<Event>)
    requires env.fmt.Plain() && Taken(env) && o.Fits() && !IsHello(o)
    requires Possible(env, Started, es) && U.Calm(env, Started, es) && U.AllOctets(es) == Serialize(o) + rest
    requires es != [] && es[|es|-1].Read? && |rest| < |es[|es|-1].data|
    ensures Refused(Run(env, Started, es))
  {
    hide Run, Greeting, Serialize, IsHello, CSV.Printf.Plain;
    StartedGreeting(o, rest, U.AllOctets(es));
    RefusedGreeting(env, Started, o, rest, es);
  }
}
