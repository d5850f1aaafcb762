/**
  What a session answers, by the numbers on the wire, and how a connection ends.

  The answer to every frame an idle session can get and to every frame that is not a chunk in an
  upload; the ends of silence; and the way from the last event of a connection to the one
  notification of its owner.
  */
module Answering {
  import opened Wire
  import opened Framing
  import opened Sessions
  import U = Uploads

  /** From `s` to `r` one message was sent. */
  ghost predicate Said(s: Sess, r: Sess, m: Msg) {
    r.sent == s.sent + [m]
  }

  /** The upload is off and the connection is to close after the error. */
  ghost predicate TurnedDown(s: Sess, r: Sess, code: nat) {
    Said(s, r, Error(code)) && r.closeAfterFlush
  }

  /** The payload of an UPLOAD_BEGIN: the size of the file and its name. */
  ghost predicate Announces(payload: Bytes, total: nat, name: Bytes) {
    && total < 0x1_0000_0000_0000_0000 && |name| < 0x1_0000
    && exists rest: Bytes :: payload == EncodeAll([U64(total), Str(name)]) + rest
  }

  lemma BeginKinds(total: nat, name: Bytes)
    ensures Kinds([U64(total), Str(name)]) == [K64, KStr]
  {
    assert Kinds([Str(name)]) == [KStr] + Kinds([]);
    assert [U64(total), Str(name)][1..] == [Str(name)];
  }

  /** Its two fields are found exactly in such a payload. */
  lemma AnnouncesIff(payload: Bytes)
    ensures ReadFields([K64, KStr], payload).ok <==> exists total, name :: Announces(payload, total, name)
    ensures forall total, name | Announces(payload, total, name) ::
              ReadFields([K64, KStr], payload).fields == [U64(total), Str(name)]
  {
    hide EncodeAll, ReadFields, Kinds;
    FieldsReadIff([K64, KStr], payload);
    var r := ReadFields([K64, KStr], payload);
    if r.ok {
      BeginFields(payload);
      assert r.fields == [U64(r.fields[0].v), Str(r.fields[1].s)];
      assert r.fields[0].Fits() && r.fields[1].Fits();
      assert Announces(payload, r.fields[0].v, r.fields[1].s);
    }
    forall total, name | Announces(payload, total, name)
      ensures r.fields == [U64(total), Str(name)] && r.ok
    {
      var rest: Bytes :| payload == EncodeAll([U64(total), Str(name)]) + rest;
      BeginKinds(total, name);
      FieldsRoundTrip([U64(total), Str(name)], rest);
    }
  }

  /** The answer of an idle session to UPLOAD_BEGIN. */
  ghost predicate BeginAnswer(s: Sess, r: Sess, payload: Bytes) {
    && (forall total: nat, name: Bytes | Announces(payload, total, name) ::
          && r.closeAfterFlush == s.closeAfterFlush
          && if total == 0 then Said(s, r, Error(5)) && r.phase.Ready?
             else Said(s, r, BeginAck(1048576)) && r.phase.Uploading? && !r.ended && r.up == Upload(name, total, [], 0))
    && ((forall total: nat, name: Bytes :: !Announces(payload, total, name)) ==> TurnedDown(s, r, 3))
  }

  lemma BeginAnswered(env: Env, s: Sess, payload: Bytes)
    requires Taken(env) && s.phase.Ready?
    ensures BeginAnswer(s, HandleBegin(env, s, payload).s, payload)
  {
    hide ReadFields, Announces;
    AnnouncesIff(payload);
  }

  /** The answer of an idle session to any frame. */
  ghost predicate IdleAnswer(s: Sess, r: Sess, o: Outgoing) {
    if o.kind == 0x7F then r.phase.Closing? && r.closing && r.sent == s.sent
    else if o.kind == 0x40 then r == s
    else if o.kind == 0x10 then BeginAnswer(s, r, o.payload)
    else Said(s, r, Error(3)) && r.phase.Ready? && r.closeAfterFlush == s.closeAfterFlush
  }

  /**
    An idle session: BYE (0x7F) closes it, CANCEL (0x40) is ignored, a well-formed UPLOAD_BEGIN
    (0x10) is accepted unless the file is empty, and anything else is an error that leaves the
    session as it was.
    */
  lemma IdleAnswers(env: Env, s: Sess, o: Outgoing)
    requires env.fmt.Plain() && Taken(env) && s.phase.Ready? && !s.closing && s.dec == NewFrame && o.Fits()
    ensures IdleAnswer(s, Process(env, s, Serialize(o)), o)
  {
    hide Process, Serialize, Announces, HandleBegin, BeginAnswer;
    OneFrame(env, s, o);
    var n := Dispatch(env, s, Seen(o.kind, false, o.payload));
    if o.kind == 0x10 {
      BeginAnswered(env, s, o.payload);
      SameBeginAnswer(s, n.s, n.s.(dec := NewFrame), o.payload);
    }
  }

  lemma SameBeginAnswer(s: Sess, r: Sess, t: Sess, payload: Bytes)
    requires BeginAnswer(s, r, payload) && t == r.(dec := t.dec)
    ensures BeginAnswer(s, t, payload)
  {
    hide Announces;
  }

  /** A read that is one frame, which is not streamed. */
  lemma OneFrame(env: Env, s: Sess, o: Outgoing)
    requires env.fmt.Plain() && s.dec == NewFrame && o.Fits() && !s.phase.Closing?
    requires !(o.payload != [] && Accepting(s.phase)(o.kind, |o.payload|))
    ensures Process(env, s, Serialize(o))
            == Dispatch(env, s, Seen(o.kind, false, o.payload)).s.(dec := NewFrame)
  {
    hide Process, Serialize, Dispatch;
    U.FrameProcessed(env, s, o, []);
    assert Serialize(o) + [] == Serialize(o);
    U.NothingProcessed(env, Dispatch(env, s, Seen(o.kind, false, o.payload)).s.(dec := NewFrame));
  }

  // ---------------------------------------------------------------- during an upload

  /** The answer to the end of an upload that claims `claimed` octets. */
  ghost predicate EndAnswer(env: Env, s: Sess, r: Sess, claimed: nat)
    requires env.fmt.Plain()
  {
    if claimed == s.up.declared == s.up.Received() then
      && r.phase.Ready? && r.ended && r.up == s.up && r.closeAfterFlush == s.closeAfterFlush
      && r.result == ResultText(env, s)
      && r.sent == s.sent + ([DoneMsg(s.up, |r.result|)] + ResultMsgs(r.result))
    else TurnedDown(s, r, 5) && r.phase.Ready?
  }

  /** The answer to any frame but a chunk of a size the session streams. */
  ghost predicate UploadAnswer(env: Env, s: Sess, r: Sess, o: Outgoing)
    requires env.fmt.Plain()
  {
    if o.kind == 0x13 then
      if |o.payload| < 8 then TurnedDown(s, r, 3) && r.phase.Ready? else EndAnswer(env, s, r, Value(o.payload[..8]))
    else if o.kind == 0x40 then
      Said(s, r, Error(9)) && r.phase.Ready? && r.up == NoUpload && r.closeAfterFlush == s.closeAfterFlush
    else if o.kind == 0x12 then TurnedDown(s, r, 4) && r.phase.Ready?
    else TurnedDown(s, r, 3) && r.phase.Ready?
  }

  lemma EndAnswered(env: Env, s: Sess, payload: Bytes)
    requires env.fmt.Plain() && Taken(env) && s.phase.Uploading? && |payload| >= 8
    ensures EndAnswer(env, s, HandleEnd(env, s, payload).s, Value(payload[..8]))
  {
    hide ResultText, DoneMsg, ResultMsgs, SendAll, Upload.Received, Value;
    var text := ResultText(env, s);
    AllTaken(env, s.(ended := true, result := text), [DoneMsg(s.up, |text|)] + ResultMsgs(text));
  }

  lemma SameEndAnswer(env: Env, s: Sess, r: Sess, t: Sess, claimed: nat)
    requires env.fmt.Plain() && EndAnswer(env, s, r, claimed) && t == r.(dec := t.dec)
    ensures EndAnswer(env, s, t, claimed)
  {
    hide ResultText, DoneMsg, ResultMsgs, Upload.Received;
  }

  /**
    A session in an upload: UPLOAD_END (0x13) brings the result if the three sizes agree, CANCEL
    (0x40) takes the upload back and keeps the connection, and anything else, also a chunk that is
    empty or above 1 MiB, ends both.
    */
  lemma UploadAnswers(env: Env, s: Sess, o: Outgoing)
    requires env.fmt.Plain() && Taken(env) && s.phase.Uploading? && s.dec == NewFrame && o.Fits()
    requires o.kind == 0x12 ==> !(0 < |o.payload| <= 1048576)
    ensures UploadAnswer(env, s, Process(env, s, Serialize(o)), o)
  {
    hide Process, Serialize, HandleEnd, EndAnswer, Upload.Received, Value, ResultText;
    OneFrame(env, s, o);
    var n := Dispatch(env, s, Seen(o.kind, false, o.payload));
    if o.kind == 0x13 {
      if |o.payload| >= 8 {
        EndAnswered(env, s, o.payload);
        SameEndAnswer(env, s, n.s, n.s.(dec := NewFrame), Value(o.payload[..8]));
      } else {
        ShortEnd(env, s, o.payload);
      }
    }
  }

  lemma ShortEnd(env: Env, s: Sess, payload: Bytes)
    requires env.fmt.Plain() && Taken(env) && s.phase.Uploading? && |payload| < 8
    ensures var r := HandleEnd(env, s, payload).s; TurnedDown(s, r, 3) && r.phase.Ready?
  {
    hide ResultText, DoneMsg, ResultMsgs, SendAll, Upload.Received;
  }

  // ---------------------------------------------------------------- silence

  /** Silence outside an upload: one error, and the connection closes when it has gone out. */
  lemma IdleEnds(env: Env, s: Sess)
    requires env.fmt.Plain() && Taken(env) && s.Valid() && (s.phase.AwaitHello? || s.phase.Ready?)
    requires s.armed && !s.closing && s.notified == 0
    ensures Possible(env, s, [Timer] + Repeat(WriteDone(true), s.pending + 1))
    ensures var r := Run(env, s, [Timer] + Repeat(WriteDone(true), s.pending + 1));
            r.phase.Closing? && r.closing && Said(s, r, Error(8))
  {
    hide Process, Upload.Received;
    var t, es := Step(env, s, Timer), Repeat(WriteDone(true), s.pending + 1);
    StepValid(env, s, Timer);
    FlushThenClose(env, t, t.pending);
    assert ([Timer] + es)[1..] == es;
  }

  /** So a connection over which nothing is ever said is closed by its timer. */
  lemma SilentFromTheStart(env: Env)
    requires env.fmt.Plain() && Taken(env)
    ensures Possible(env, Started, [Timer, WriteDone(true)])
    ensures var r := Run(env, Started, [Timer, WriteDone(true)]);
            r.phase.Closing? && r.closing && r.sent == [Error(8)]
  {
    hide Possible, Run, Upload.Received;
    IdleEnds(env, Started);
    assert Repeat(WriteDone(true), 1) == [WriteDone(true)] + Repeat(WriteDone(true), 0);
    assert [Timer] + Repeat(WriteDone(true), Started.pending + 1) == [Timer, WriteDone(true)];
  }

  /** Three slices of silence in an upload end it and the connection at once. */
  lemma StallEnds(env: Env, s: Sess)
    requires env.fmt.Plain() && Taken(env) && Listening(s) && s.ticks == 0
    ensures Possible(env, s, [Timer, Timer, Timer])
    ensures Run(env, s, [Timer, Timer]) == s.(ticks := 2)
    ensures var r := Run(env, s, [Timer, Timer, Timer]); r.phase.Closing? && r.closing && Said(s, r, Error(8))
  {
    hide Process, Upload.Received;
    var a := s.(ticks := 1);
    var b := s.(ticks := 2);
    StepValid(env, s, Timer);
    StepValid(env, a, Timer);
    StepValid(env, b, Timer);
    assert [Timer, Timer, Timer][1..] == [Timer, Timer] && [Timer, Timer][1..] == [Timer] && [Timer][1..] == [];
  }

  /** Every read that leaves the connection open starts the silence anew. */
  lemma ReadsEndSilence(env: Env, s: Sess, data: Bytes)
    requires env.fmt.Plain() && s.Valid() && Enabled(s, Read(data))
    ensures var r := Step(env, s, Read(data)); !r.phase.Closing? ==> r.ticks == 0 && r.armed
  {
    hide Process, Upload.Received;
  }

  // ---------------------------------------------------------------- the end of a connection

  /**
    When the peer has gone, seen by a read or by a write, the session closes without another
    word, its two handles close, and the owner is told once; nothing can happen after that.
    */
  lemma PeerGone(env: Env, s: Sess, e: Event, x: Event)
    requires env.fmt.Plain() && s.Valid() && Alive(env, s) && !s.closing
    requires e == ReadEnd || (e == WriteDone(false) && s.pending > 0)
    ensures Possible(env, s, [e, HandleClosed, HandleClosed])
    ensures var r := Run(env, s, [e, HandleClosed, HandleClosed]);
            r.phase.Closing? && r.sent == s.sent && r.open == 0 && r.notified == 1 && !Enabled(r, x)
  {
    hide Process, Upload.Received, OnTimer;
    var a := Step(env, s, e);
    var b := Step(env, a, HandleClosed);
    StepValid(env, s, e);
    StepValid(env, a, HandleClosed);
    StepValid(env, b, HandleClosed);
    assert [e, HandleClosed, HandleClosed][1..] == [HandleClosed, HandleClosed];
    assert [HandleClosed, HandleClosed][1..] == [HandleClosed] && [HandleClosed][1..] == [];
  }
}
