/**
  The owner of the sessions: what accepting, shutting down and the close callbacks do to the
  table of sessions.

  Of a session the owner sees its handles: a session that is closing has one or two of them
  still open and is taken out of the table by the callback that closes the last.
  */
module TcpServers {

  /** `running`: it was started and has not been told to close. */
  datatype Entry = Entry(started: bool, closing: bool, open: nat) {
    predicate Fits() {
      1 <= open <= 2 && (!closing ==> open == 2)
    }

    /** TcpSession::close, however often. */
    function Closed(): Entry {
      this.(closing := true)
    }
  }

  type Table = map<nat, Entry>

  ghost function Started(t: Table): set<nat> {
    set id | id in t && t[id].started
  }

  /** Close callbacks still to come if nothing else happens. */
  ghost function Handles(t: Table): nat {
    if t == map[] then 0
    else
      var id :| id in t;
      t[id].open + Handles(t - {id})
  }

  lemma {:induction false} HandlesRemove(t: Table, id: nat)
    requires id in t
    ensures Handles(t) == t[id].open + Handles(t - {id})
    decreases |t|
  {
    var k :| k in t && Handles(t) == t[k].open + Handles(t - {k});
    if k != id {
      HandlesRemove(t - {k}, id);
      assert (t - {k}) - {id} == (t - {id}) - {k};
      HandlesRemove(t - {id}, k);
    }
  }

  lemma HandlesUpdate(t: Table, id: nat, e: Entry)
    requires id in t
    ensures Handles(t[id := e]) == Handles(t) - t[id].open + e.open
  {
    HandlesRemove(t, id);
    HandlesRemove(t[id := e], id);
    assert t[id := e] - {id} == t - {id};
  }

  /** As long as a session is left, so is a callback. */
  lemma HandlesLeft(t: Table)
    requires forall id | id in t :: t[id].Fits()
    ensures Handles(t) == 0 <==> t == map[]
  {
    if t != map[] {
      var id :| id in t;
      HandlesRemove(t, id);
    }
  }

  /** A new entry adds itself to the started ones at most. */
  lemma StartedGrows(t: Table, id: nat, e: Entry)
    requires id !in t
    ensures |t[id := e]| == |t| + 1
    ensures !e.started ==> Started(t[id := e]) == Started(t)
    ensures |Started(t[id := e])| <= |t| + 1
  {
    var u := t[id := e];
    assert u.Keys == t.Keys + {id};
    SubsetSize(Started(u), u.Keys);
  }

  // ---------------------------------------------------------------- after a shutdown

  /** What can still happen then. */
  datatype Event = Connection | Closes(id: nat) | HandleClosed(id: nat)

  predicate Possible(t: Table, e: Event) {
    match e
    case Connection => true
    case Closes(id) => id in t
    case HandleClosed(id) => id in t && t[id].closing
  }

  /** A connection is not taken; a session closes once more; a handle of one has closed. */
  function After(t: Table, e: Event): Table
    requires Possible(t, e)
  {
    match e
    case Connection => t
    case Closes(id) => t[id := t[id].Closed()]
    case HandleClosed(id) => OneHandleLess(t, id)
  }

  function OneHandleLess(t: Table, id: nat): Table
    requires id in t
  {
    if t[id].open > 1 then t[id := t[id].(open := 1)] else t - {id}
  }

  ghost predicate Sequence(t: Table, es: seq<Event>) {
    es == [] || (Possible(t, es[0]) && Sequence(After(t, es[0]), es[1..]))
  }

  function AfterAll(t: Table, es: seq<Event>): Table
    requires Sequence(t, es)
  {
    if es == [] then t else AfterAll(After(t, es[0]), es[1..])
  }

  function Callbacks(es: seq<Event>): nat {
    if es == [] then 0 else (if es[0].HandleClosed? then 1 else 0) + Callbacks(es[1..])
  }

  /** All sessions are closing, as a shutdown leaves them. */
  ghost predicate Draining(t: Table) {
    forall id | id in t :: t[id].Fits() && t[id].closing
  }

  lemma OneStep(t: Table, e: Event)
    requires Draining(t) && Possible(t, e)
    ensures Draining(After(t, e)) && After(t, e).Keys <= t.Keys
    ensures Handles(After(t, e)) == Handles(t) - if e.HandleClosed? then 1 else 0
  {
    hide Handles;
    match e
    case Connection =>
    case Closes(id) => assert t[id := t[id].Closed()] == t;
    case HandleClosed(id) =>
      if t[id].open > 1 { HandlesUpdate(t, id, t[id].(open := 1)); } else { HandlesRemove(t, id); }
  }

  /**
    After a shutdown, whatever happens in whatever order: no session comes in, and the table is
    empty exactly when as many handles have closed as were open; until then one can close.
    */
  lemma {:induction false} DrainsToEmpty(t: Table, es: seq<Event>)
    requires Draining(t) && Sequence(t, es)
    ensures var u := AfterAll(t, es);
            && u.Keys <= t.Keys && Callbacks(es) <= Handles(t)
            && (u == map[] <==> Callbacks(es) == Handles(t))
            && (u != map[] ==> exists id :: Possible(u, HandleClosed(id)))
  {
    hide Handles;
    if es == [] {
      HandlesLeft(t);
      if t != map[] {
        var id :| id in t;
        assert Possible(t, HandleClosed(id));
      }
    } else {
      OneStep(t, es[0]);
      DrainsToEmpty(After(t, es[0]), es[1..]);
    }
  }

  class TcpServer {
    const maxSessions: nat
    var nextId: nat
    var shuttingDown: bool
    var sessions: Table
    ghost var gone: set<nat>   // the sessions whose end has been reported

    ghost predicate Valid()
      reads this
    {
      && (forall id | id in sessions :: id < nextId && sessions[id].Fits())
      && (forall id | id in gone :: id < nextId && id !in sessions)
      && |Started(sessions)| <= maxSessions
      && (shuttingDown ==> forall id | id in sessions :: sessions[id].closing)
    }

    constructor (maxSessions: nat)
      ensures Valid() && sessions == map[] && gone == {} && !shuttingDown && this.maxSessions == maxSessions
    {
      this.maxSessions := maxSessions;
      nextId, shuttingDown, sessions, gone := 1, false, map[], {};
    }

    /**
      A connection is waiting.  Whether it can be taken, the reason sent and reading started
      is up to the system.  A session above the limit is entered but never started.
      */
    method AcceptOne(canAccept: bool, canWrite: bool, canStart: bool)
      requires Valid()
      modifies this`nextId, this`sessions
      ensures Valid()
      ensures shuttingDown ==> sessions == old(sessions) && nextId == old(nextId)
      ensures !shuttingDown ==>
                && nextId == old(nextId) + 1 && old(nextId) !in old(sessions)
                && sessions == old(sessions)[old(nextId) :=
                     if !canAccept then Entry(false, true, 2)
                     else if |old(sessions)| + 1 > maxSessions then Entry(false, !canWrite, 2)
                     else Entry(true, !canStart, 2)]
    {
      hide Started;
      if shuttingDown { return; }
      var id := nextId;
      nextId := nextId + 1;
      if !canAccept {
        StartedGrows(sessions, id, Entry(false, true, 2));
        sessions := sessions[id := Entry(false, true, 2)];
        return;
      }
      ghost var before := sessions;
      StartedGrows(before, id, Entry(false, false, 2));
      sessions := sessions[id := Entry(false, false, 2)];
      if |sessions| > maxSessions {
        StartedGrows(before, id, Entry(false, !canWrite, 2));
        if !canWrite {
          sessions := sessions[id := sessions[id].Closed()];
        }
        assert sessions == before[id := Entry(false, !canWrite, 2)];
        return;
      }
      StartedGrows(before, id, Entry(true, !canStart, 2));
      sessions := sessions[id := Entry(true, !canStart, 2)];
      assert sessions == before[id := Entry(true, !canStart, 2)];
    }

    /** A session closes itself: end of stream, error, timeout or good-bye. */
    method SessionCloses(id: nat)
      requires Valid() && id in sessions
      modifies this`sessions
      ensures Valid() && sessions == old(sessions)[id := old(sessions)[id].Closed()]
    {
      SameStarted(id, sessions[id].Closed());
      sessions := sessions[id := sessions[id].Closed()];
    }

    lemma SameStarted(id: nat, e: Entry)
      requires id in sessions && e.started == sessions[id].started
      ensures Started(sessions[id := e]) == Started(sessions)
    {
    }

    /** Every session is told to close, and from now on nothing is entered any more. */
    method BeginShutdown()
      requires Valid()
      modifies this`shuttingDown, this`sessions
      ensures Valid() && shuttingDown
      ensures sessions.Keys == old(sessions).Keys
      ensures old(shuttingDown) ==> sessions == old(sessions)
      ensures !old(shuttingDown) ==> forall id | id in sessions :: sessions[id] == old(sessions)[id].Closed()
      ensures Handles(sessions) == Handles(old(sessions))
    {
      if shuttingDown { return; }
      var ids := sessions.Keys;
      while ids != {}
        invariant Valid() && !shuttingDown
        invariant ids <= sessions.Keys == old(sessions).Keys
        invariant forall id | id in sessions ::
                    sessions[id] == if id in ids then old(sessions)[id] else old(sessions)[id].Closed()
        invariant Handles(sessions) == Handles(old(sessions))
        decreases |ids|
      {
        var id :| id in ids;
        ids := ids - {id};
        HandlesUpdate(sessions, id, sessions[id].Closed());
        SessionCloses(id);
      }
      shuttingDown := true;
    }

    /**
      One of a closing session's handles has closed.  The last one takes the session out of
      the table: its end is reported once, and only then.
      */
    method HandleClosed(id: nat)
      requires Valid() && id in sessions && sessions[id].closing
      modifies this`sessions, this`gone
      ensures Valid()
      ensures Handles(sessions) == Handles(old(sessions)) - 1
      ensures sessions == OneHandleLess(old(sessions), id)
      ensures if id in sessions then gone == old(gone) else id !in old(gone) && gone == old(gone) + {id}
    {
      var e := sessions[id];
      if e.open > 1 {
        HandlesUpdate(sessions, id, e.(open := 1));
        SameStarted(id, e.(open := 1));
        sessions := sessions[id := e.(open := 1)];
        return;
      }
      HandlesRemove(sessions, id);
      OnSessionClosed(id);
    }

    method OnSessionClosed(id: nat)
      requires Valid()
      modifies this`sessions, this`gone
      ensures Valid() && sessions == old(sessions) - {id}
      ensures gone == old(gone) + if id in old(sessions) then {id} else {}
    {
      if id !in sessions { return; }
      SubsetSize(Started(sessions - {id}), Started(sessions));
      sessions := sessions - {id};
      gone := gone + {id};
    }

    /** What a shutdown leaves, and `DrainsToEmpty` goes on from. */
    lemma ShutDownDrains()
      requires Valid() && shuttingDown
      ensures Draining(sessions)
    {
    }
  }

  lemma {:induction false} SubsetSize(a: set<nat>, b: set<nat>)
    requires a <= b
    ensures |a| <= |b|
    decreases |a|
  {
    if a != {} {
      var x :| x in a;
      SubsetSize(a - {x}, b - {x});
    }
  }
}
