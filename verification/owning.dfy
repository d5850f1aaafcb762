/**
  What the owner of the sessions sees of one of them: an entry of its table.
  */
module Owning {
  import opened Sessions
  import opened Framing
  import opened Wire
  import T = TcpServers

  /** The handles of a session that has not been reported yet. */
  function EntryOf(s: Sess, started: bool): T.Entry {
    T.Entry(started, s.closing, if s.closing then s.open else 2)
  }

  /**
    Whatever event a session deals with, the owner sees one of three things: nothing, the session
    closing itself, or a handle of a closing session closed; and its end is reported with the
    second of them.
    */
  lemma SessionAsEntry(env: Env, s: Sess, e: Event, started: bool)
    requires env.fmt.Plain() && s.Valid() && Alive(env, s) && Enabled(s, e)
    ensures EntryOf(s, started).Fits()
    ensures var t := Step(env, s, e);
            var before, after := EntryOf(s, started), EntryOf(t, started);
            if e.HandleClosed? then
              && before.closing
              && (if before.open > 1 then t.notified == 0 && after == before.(open := 1) else t.notified == 1)
            else t.notified == 0 && (after == before || after == before.Closed())
  {
    hide Process, Upload.Received, Sess.Consistent;
    match e
    case Read(data) => ReadKeepsHandles(env, s, data);
    case ReadEnd =>
    case WriteDone(good) =>
    case Timer =>
    case HandleClosed =>
  }

  /** Between being told to close and the first callback both handles are open. */
  ghost predicate Handled(s: Sess, t: Sess) {
    && t.notified == s.notified
    && ((t.closing == s.closing && t.open == s.open) || (!s.closing && t.closing && t.open == 2))
  }

  lemma SendHandled(env: Env, s: Sess, m: Msg)
    ensures Handled(s, Send(env, s, m))
  {
  }

  lemma CloseHandled(s: Sess)
    ensures Handled(s, Close(s))
  {
  }

  lemma HandledBoth(s: Sess, t: Sess, u: Sess)
    requires Handled(s, t) && Handled(t, u)
    ensures Handled(s, u)
  {
  }

  lemma {:induction false} SendAllHandled(env: Env, s: Sess, ms: seq<Msg>)
    ensures Handled(s, SendAll(env, s, ms))
  {
    hide Send, Handled;
    if ms == [] {
      NothingHandled(s);
    } else {
      var t := SendAll(env, s, ms[..|ms|-1]);
      SendAllHandled(env, s, ms[..|ms|-1]);
      SendHandled(env, t, ms[|ms|-1]);
      HandledBoth(s, t, Send(env, t, ms[|ms|-1]));
    }
  }

  lemma NothingHandled(s: Sess)
    ensures Handled(s, s)
  {
  }

  lemma SameHandled(s: Sess, t: Sess, u: Sess)
    requires Handled(s, t) && u.closing == t.closing && u.open == t.open && u.notified == t.notified
    ensures Handled(s, u)
  {
  }

  lemma AbortHandled(env: Env, s: Sess, code: nat)
    ensures Handled(s, Abort(env, s, code))
  {
  }

  lemma PayloadHandled(env: Env, s: Sess, data: string)
    ensures Handled(s, PayloadChunk(env, s, data))
  {
    hide Abort, Upload.Received, Upload.Stats, FiguresOf;
    AbortHandled(env, s, SIZE_MISMATCH);
  }

  lemma DispatchHandled(env: Env, s: Sess, f: Seen)
    requires env.fmt.Plain()
    ensures Handled(s, Dispatch(env, s, f).s)
  {
    hide Abort, HandleEnd, HandleHello, HandleBegin, Send, Close, Handled;
    NothingHandled(s);
    match s.phase
    case AwaitHello =>
      RefuseHandled(env, s, UNEXPECTED_TYPE);
      HelloHandled(env, s, f.payload);
    case Ready =>
      CloseHandled(s);
      BeginHandled(env, s, f.payload);
      SendHandled(env, s, Error(UNEXPECTED_TYPE));
    case Uploading =>
      AbortHandled(env, s, PAYLOAD_TOO_LARGE);
      AbortHandled(env, s, CANCELLED);
      AbortHandled(env, s, UNEXPECTED_TYPE);
      EndHandled(env, s, f.payload);
    case Closing =>
  }

  lemma RefuseHandled(env: Env, s: Sess, code: nat)
    ensures Handled(s, Refuse(env, s, code))
  {
    hide Send;
    SendHandled(env, s, Error(code));
  }

  lemma HelloHandled(env: Env, s: Sess, payload: Bytes)
    ensures Handled(s, HandleHello(env, s, payload).s)
  {
    hide Send, Refuse, ReadFields;
    RefuseHandled(env, s, UNEXPECTED_TYPE);
    SendHandled(env, s.(phase := Phase.Ready), HelloAck);
  }

  lemma BeginHandled(env: Env, s: Sess, payload: Bytes)
    ensures Handled(s, HandleBegin(env, s, payload).s)
  {
    hide Send, Refuse, ReadFields;
    RefuseHandled(env, s, UNEXPECTED_TYPE);
    SendHandled(env, s, Error(SIZE_MISMATCH));
    var r := ReadFields([K64, KStr], payload);
    if r.ok {
      BeginFields(payload);
      var up := Upload(r.fields[1].s, r.fields[0].v, [], 0);
      SendHandled(env, s.(phase := Uploading, up := up, ended := false, result := ""), BeginAck(MAX_CHUNK));
    }
  }

  lemma EndHandled(env: Env, s: Sess, payload: Bytes)
    requires env.fmt.Plain()
    ensures Handled(s, HandleEnd(env, s, payload).s)
  {
    hide Abort, SendAll, ReadField, ResultText, DoneMsg, ResultMsgs, Upload.Received;
    AbortHandled(env, s, UNEXPECTED_TYPE);
    AbortHandled(env, s, SIZE_MISMATCH);
    var text := ResultText(env, s);
    SendAllHandled(env, s.(ended := true, result := text), [DoneMsg(s.up, |text|)] + ResultMsgs(text));
  }

  lemma {:induction false} ReadKeepsHandles(env: Env, s: Sess, data: Bytes)
    requires env.fmt.Plain() && s.dec.Valid() && !s.dec.Complete()
    ensures Handled(s, Process(env, s, data))
    decreases |data|
  {
    hide Dispatch, PayloadChunk, FeedDec, Send, Handled;
    NothingHandled(s);
    if data != [] && !s.phase.Closing? {
      var fed := FeedDec(s.dec, data, Accepting(s.phase));
      var s1 := if fed.piece == [] then s else PayloadChunk(env, s, fed.piece);
      PayloadHandled(env, s, fed.piece);
      if fed.status.Ready? {
        var n := Dispatch(env, s1, SeenOf(fed.dec));
        var t := n.s.(dec := NewFrame);
        DispatchHandled(env, s1, SeenOf(fed.dec));
        HandledBoth(s, s1, n.s);
        SameHandled(s, n.s, t);
        if s.dec.Broken() { FeedBroken(s.dec, data, Accepting(s.phase)); }
        if n.goOn {
          ReadKeepsHandles(env, t, data[fed.used..]);
          HandledBoth(s, t, Process(env, t, data[fed.used..]));
        }
      } else if fed.status.Failed? {
        SendHandled(env, s1, Error(fed.status.code));
        HandledBoth(s, s1, Send(env, s1, Error(fed.status.code)));
        SameHandled(s, Send(env, s1, Error(fed.status.code)), Process(env, s, data));
      } else {
        SameHandled(s, s1, Process(env, s, data));
      }
    }
  }
}
