/**
 What a connection has done, read off the actions of the run alone: how many handshakes it has
 completed, which requests it read over which channel, what it wrote, and what it still did after a
 cancellation; and that no connection is ever stuck.
 */
module RunTheorems {
  import opened Go
  import opened Ber
  import opened Connection
  import opened ConnectionTheorems
  import opened StreamTheorems
  import opened Server
  import opened ServerTheorems

  /** The actions of one connection, in order. */
  function Events(actions: seq<ServerAction>, id: nat): seq<Action> {
    if actions == [] then []
    else if actions[0].OnConn? && actions[0].id == id then [actions[0].action] + Events(actions[1..], id)
    else Events(actions[1..], id)
  }

  /** One for a completed handshake. */
  function HandshakeOf(a: Action): nat {
    if a == Handshake(true) then 1 else 0
  }

  /** The request a read yields, with the number of handshakes completed before it. */
  function RequestOf(a: Action, handshakes: nat): seq<(nat, Connection.Kind)> {
    if a.ReadRequest? then [(handshakes, a.kind)] else []
  }

  /** The response whose writing begins, with its request's ID. */
  function ResponseOf(a: Action): seq<(nat, Packet)> {
    if a.LockWriter? then [(a.request, a.packet)] else []
  }

  function Handshakes(events: seq<Action>): nat {
    if events == [] then 0 else HandshakeOf(events[0]) + Handshakes(events[1..])
  }

  /** The requests read, where `n` handshakes were completed to begin with. */
  function Reads(events: seq<Action>, n: nat): seq<(nat, Connection.Kind)>
    decreases |events|
  {
    if events == [] then [] else RequestOf(events[0], n) + Reads(events[1..], n + HandshakeOf(events[0]))
  }

  function Responses(events: seq<Action>): seq<(nat, Packet)> {
    if events == [] then [] else ResponseOf(events[0]) + Responses(events[1..])
  }

  // ---------- the record of a run ----------

  /** Handshakes completed, requests read and responses written, as the actions tell them. */
  datatype Log = Log(handshakes: nat, requests: seq<(nat, Connection.Kind)>, responses: seq<(nat, Packet)>)

  function Add(log: Log, a: Action): Log {
    Log(log.handshakes + HandshakeOf(a), log.requests + RequestOf(a, log.handshakes), log.responses + ResponseOf(a))
  }

  function AddAll(log: Log, events: seq<Action>): Log
    decreases |events|
  {
    if events == [] then log else AddAll(Add(log, events[0]), events[1..])
  }

  lemma {:induction false} AddAllIs(log: Log, events: seq<Action>)
    ensures AddAll(log, events)
         == Log(log.handshakes + Handshakes(events), log.requests + Reads(events, log.handshakes), log.responses + Responses(events))
    decreases |events|
  {
    if events == [] {
      assert log.requests + [] == log.requests && log.responses + [] == log.responses;
    } else {
      var a, rest := events[0], events[1..];
      var next := Add(log, a);
      AddAllIs(next, rest);
      Associate(log.requests, RequestOf(a, log.handshakes), Reads(rest, next.handshakes));
      Associate(log.responses, ResponseOf(a), Responses(rest));
    }
  }

  /** The connection's own record: channel and kind of every request, ID and packet of every response. */
  ghost predicate Recorded(c: Conn, log: Log) {
    && c.handshakes == log.handshakes && |c.received| == |log.requests| && |c.written| == |log.responses|
    && (forall i :: 0 <= i < |log.requests| ==>
          c.received[i].reader == c.received[i].writer == log.requests[i].0 && c.received[i].kind == log.requests[i].1)
    && (forall i :: 0 <= i < |log.responses| ==> (c.written[i].id, c.written[i].packet) == log.responses[i])
  }

  lemma AddNothing(log: Log, a: Action)
    requires a != Handshake(true) && !a.ReadRequest? && !a.LockWriter?
    ensures Add(log, a) == log
  {
    assert log.requests + [] == log.requests && log.responses + [] == log.responses;
  }

  lemma RecordLoop(c: Conn, a: Action, cancelled: bool, d: Conn, log: Log)
    requires OnOneChannel(c) && LoopStep(c, a, cancelled) == Some(d) && Recorded(c, log)
    ensures Recorded(d, Add(log, a))
  {
    LoopStepFrame(c, a, cancelled, d);
    if a.ReadRequest? || a.Handshake? {
      assert log.requests + [] == log.requests && log.responses + [] == log.responses;
    } else {
      AddNothing(log, a);
    }
  }

  lemma RecordWriter(c: Conn, r: nat, p: Packet, d: Conn, log: Log)
    requires HandlerStep(c, LockWriter(r, p)) == Some(d) && Recorded(c, log)
    ensures Recorded(d, Add(log, LockWriter(r, p)))
  {
    HandlerStepFrame(c, LockWriter(r, p), d);
    LockWriterFrame(c, r, p, d);
    assert log.requests + [] == log.requests;
  }

  lemma RecordStep(c: Conn, a: Action, cancelled: bool, d: Conn, log: Log)
    requires OnOneChannel(c) && Step(c, a, cancelled) == Some(d) && Recorded(c, log)
    ensures Recorded(d, Add(log, a))
  {
    if LoopStep(c, a, cancelled).Some? {
      RecordLoop(c, a, cancelled, d, log);
    } else if HandlerStep(c, a).Some? {
      if a.LockWriter? {
        RecordWriter(c, a.request, a.packet, d, log);
      } else {
        HandlerStepFrame(c, a, d);
        AddNothing(log, a);
      }
    } else {
      WriteStepFrame(c, a, d);
      AddNothing(log, a);
    }
  }

  /** The record so far, which is empty for a connection that has not started. */
  ghost predicate RecordedNow(s: State, id: nat, log: Log) {
    if id in s.conns then Recorded(s.conns[id], log) else log == Log(0, [], [])
  }

  lemma RecordServerStep(s: State, a: ServerAction, t: State, id: nat, log: Log)
    requires Inv(s) && ServerStep(s, a) == Some(t) && RecordedNow(s, id, log)
    ensures RecordedNow(t, id, if a.OnConn? && a.id == id then Add(log, a.action) else log)
  {
    if a.OnConn? && a.id == id {
      OwnStep(s, a, t);
      assert ConnInv(s.conns[id], IsCancelled(s));
      RecordStep(s.conns[id], a.action, IsCancelled(s), t.conns[id], log);
    } else {
      OtherStep(s, a, t, id);
    }
  }

  /** What a run adds to the record is what its actions say. */
  lemma {:induction false} RunRecord(s: State, actions: seq<ServerAction>, id: nat, log: Log)
    requires Inv(s) && Run(s, actions).Some? && RecordedNow(s, id, log)
    ensures RecordedNow(Run(s, actions).value, id, AddAll(log, Events(actions, id)))
    decreases |actions|
  {
    if actions != [] {
      var a, rest := actions[0], actions[1..];
      var next := ServerStep(s, a).value;
      InvStep(s, a, next);
      RecordServerStep(s, a, next, id, log);
      if a.OnConn? && a.id == id {
        assert ([a.action] + Events(rest, id))[1..] == Events(rest, id);
        RunRecord(next, rest, id, Add(log, a.action));
      } else {
        RunRecord(next, rest, id, log);
      }
    }
  }

  /**
   In every run a connection has the channel of as many handshakes as its actions completed; the
   requests it read are those of its actions, each over the channel of the handshakes before it, and
   the responses it wrote are those of its actions.
   */
  lemma ChannelOfEachRequest(actions: seq<ServerAction>, id: nat)
    requires Run(INIT, actions).Some? && id in Run(INIT, actions).value.conns
    ensures var c, events := Run(INIT, actions).value.conns[id], Events(actions, id);
            && c.reader == c.writer == Handshakes(events) && |c.streams| == Handshakes(events) + 1
            && |c.received| == |Reads(events, 0)|
            && (forall i :: 0 <= i < |c.received| ==>
                  && c.received[i].reader == c.received[i].writer == Reads(events, 0)[i].0
                  && c.received[i].kind == Reads(events, 0)[i].1)
            && |c.written| == |Responses(events)|
            && (forall i :: 0 <= i < |c.written| ==> (c.written[i].id, c.written[i].packet) == Responses(events)[i])
  {
    RunFromStart(actions);
    InvInit();
    var s, events := Run(INIT, actions).value, Events(actions, id);
    OnOwnChannel(s, id);
    RunRecord(INIT, actions, id, Log(0, [], []));
    AddAllIs(Log(0, [], []), events);
    assert [] + Reads(events, 0) == Reads(events, 0) && [] + Responses(events) == Responses(events);
  }

  lemma InvInit()
    ensures Inv(INIT)
  {
    assert Serving(INIT) == {};
  }

  lemma OnOwnChannel(s: State, id: nat)
    requires Inv(s) && id in s.conns
    ensures OnOneChannel(s.conns[id])
  {
    assert ConnInv(s.conns[id], IsCancelled(s));
  }

  // ---------- after the cancellation ----------

  /** How many requests were taken up: given to a handler goroutine, or handled by the loop itself. */
  function TakenUp(events: seq<Action>): nat {
    if events == [] then 0
    else (if events[0].AddRequest? || events[0].RunInline? then 1 else 0) + TakenUp(events[1..])
  }

  function ReadCount(events: seq<Action>): nat {
    if events == [] then 0 else (if events[0].ReadRequest? then 1 else 0) + ReadCount(events[1..])
  }

  /** What a cancelled connection may still take up and still read: it was past its look at the context. */
  function MayTake(c: Conn): nat {
    if c.loop.Read? || c.loop.Dispatch? then 1 else 0
  }

  function MayRead(c: Conn): nat {
    if c.loop.Read? then 1 else 0
  }

  lemma LateStep(c: Conn, a: Action, d: Conn)
    requires Step(c, a, true) == Some(d)
    ensures MayTake(d) + TakenUp([a]) <= MayTake(c) && MayRead(d) + ReadCount([a]) <= MayRead(c)
  {
    if LoopStep(c, a, true).None? {
      if HandlerStep(c, a).Some? {
        HandlerStepFrame(c, a, d);
      } else {
        WriteStepFrame(c, a, d);
      }
    }
  }

  function MayTakeOf(s: State, id: nat): nat {
    if id in s.conns then MayTake(s.conns[id]) else 0
  }

  function MayReadOf(s: State, id: nat): nat {
    if id in s.conns then MayRead(s.conns[id]) else 0
  }

  lemma StaysCancelled(s: State, a: ServerAction, t: State)
    requires IsCancelled(s) && ServerStep(s, a) == Some(t)
    ensures IsCancelled(t)
  {
  }

  lemma LateServerStep(s: State, a: ServerAction, t: State, id: nat)
    requires Inv(s) && IsCancelled(s) && ServerStep(s, a) == Some(t)
    ensures var own := a.OnConn? && a.id == id;
            && MayTakeOf(t, id) + (if own then TakenUp([a.action]) else 0) <= MayTakeOf(s, id)
            && MayReadOf(t, id) + (if own then ReadCount([a.action]) else 0) <= MayReadOf(s, id)
  {
    if a.OnConn? && a.id == id {
      OwnStep(s, a, t);
      LateStep(s.conns[id], a.action, t.conns[id]);
    } else {
      OtherStep(s, a, t, id);
    }
  }

  lemma {:induction false} LateRun(s: State, actions: seq<ServerAction>, id: nat)
    requires Inv(s) && IsCancelled(s) && Run(s, actions).Some?
    ensures TakenUp(Events(actions, id)) <= MayTakeOf(s, id) && ReadCount(Events(actions, id)) <= MayReadOf(s, id)
    decreases |actions|
  {
    if actions != [] {
      var a, rest := actions[0], actions[1..];
      var next := ServerStep(s, a).value;
      InvStep(s, a, next);
      StaysCancelled(s, a, next);
      LateServerStep(s, a, next, id);
      LateRun(next, rest, id);
      if a.OnConn? && a.id == id {
        assert ([a.action] + Events(rest, id))[1..] == Events(rest, id);
      }
    }
  }

  /** The shutdown context is cancelled in exactly the runs that have had the Cancel action. */
  lemma {:induction false} CancelledMeans(s: State, actions: seq<ServerAction>)
    requires Run(s, actions).Some?
    ensures IsCancelled(Run(s, actions).value) <==> IsCancelled(s) || Cancel in actions
    decreases |actions|
  {
    if actions != [] {
      CancelledMeans(ServerStep(s, actions[0]).value, actions[1..]);
      assert actions == [actions[0]] + actions[1..];
    }
  }

  /**
   In every run, after its Cancel action a connection takes up at most one more request and reads at
   most one more, and one that starts after it takes up and reads none.
   */
  lemma AtMostOneAfterCancel(before: seq<ServerAction>, after: seq<ServerAction>, id: nat)
    requires Run(INIT, before).Some? && Cancel in before && Run(Run(INIT, before).value, after).Some?
    ensures TakenUp(Events(after, id)) <= 1 && ReadCount(Events(after, id)) <= 1
    ensures id !in Run(INIT, before).value.conns ==>
              TakenUp(Events(after, id)) == 0 && ReadCount(Events(after, id)) == 0
  {
    RunFromStart(before);
    CancelledMeans(INIT, before);
    LateRun(Run(INIT, before).value, after, id);
  }

  // ---------- what ends a connection ----------

  /** The actions after which serveRequests returns, whatever the server's state. */
  predicate EndsLoop(a: Action) {
    a.ReadFails? || a == FinishInline(true) || a.NoticeDone?
  }

  lemma EndStep(c: Conn, a: Action, cancelled: bool, d: Conn)
    requires Step(c, a, cancelled) == Some(d)
    ensures Ended(c.loop) || EndsLoop(a) ==> Ended(d.loop)
    ensures Ended(c.loop) ==> TakenUp([a]) == 0 && ReadCount([a]) == 0 && Handshakes([a]) == 0
  {
    if LoopStep(c, a, cancelled).None? {
      if HandlerStep(c, a).Some? {
        HandlerStepFrame(c, a, d);
      } else {
        WriteStepFrame(c, a, d);
      }
    }
  }

  ghost predicate EndedNow(s: State, id: nat) {
    id in s.conns && Ended(s.conns[id].loop)
  }

  /** Some action of the connection has ended its loop. */
  predicate EndsAmong(events: seq<Action>) {
    events != [] && (EndsLoop(events[0]) || EndsAmong(events[1..]))
  }

  lemma EndServerStep(s: State, a: ServerAction, t: State, id: nat)
    requires Inv(s) && ServerStep(s, a) == Some(t)
    ensures EndedNow(s, id) || (a.OnConn? && a.id == id && EndsLoop(a.action)) ==> EndedNow(t, id)
    ensures EndedNow(s, id) && a.OnConn? && a.id == id ==>
              TakenUp([a.action]) == 0 && ReadCount([a.action]) == 0 && Handshakes([a.action]) == 0
  {
    if a.OnConn? && a.id == id {
      OwnStep(s, a, t);
      EndStep(s.conns[id], a.action, IsCancelled(s), t.conns[id]);
    } else {
      OtherStep(s, a, t, id);
    }
  }

  /** A loop that has ended reads, takes up and secures nothing more. */
  lemma {:induction false} EndedRun(s: State, actions: seq<ServerAction>, id: nat)
    requires Inv(s) && Run(s, actions).Some?
    ensures EndedNow(s, id) || EndsAmong(Events(actions, id)) ==> EndedNow(Run(s, actions).value, id)
    ensures EndedNow(s, id) ==>
              var ev := Events(actions, id); TakenUp(ev) == 0 && ReadCount(ev) == 0 && Handshakes(ev) == 0
    decreases |actions|
  {
    if actions != [] {
      var a, rest := actions[0], actions[1..];
      var next := ServerStep(s, a).value;
      InvStep(s, a, next);
      EndServerStep(s, a, next, id);
      EndedRun(next, rest, id);
      if a.OnConn? && a.id == id {
        assert ([a.action] + Events(rest, id))[1..] == Events(rest, id);
      }
    }
  }

  /** In every run: a failed read, a panicking inline handler or a written notice is the last thing its loop does. */
  lemma LoopEndsForGood(before: seq<ServerAction>, after: seq<ServerAction>, id: nat)
    requires Run(INIT, before).Some? && Run(Run(INIT, before).value, after).Some?
    requires EndsAmong(Events(before, id))
    ensures EndedNow(Run(INIT, before).value, id)
    ensures TakenUp(Events(after, id)) == 0 && ReadCount(Events(after, id)) == 0 && Handshakes(Events(after, id)) == 0
  {
    RunFromStart(before);
    InvInit();
    EndedRun(INIT, before, id);
    EndedRun(Run(INIT, before).value, after, id);
  }

  // ---------- the accept loop after Stop ----------

  /** How often the accept loop looked at the context or was refused a connection. */
  function Rounds(actions: seq<ServerAction>): nat {
    if actions == [] then 0 else (if actions[0].CheckContext? || actions[0].AcceptFails? then 1 else 0) + Rounds(actions[1..])
  }

  function Accepts(actions: seq<ServerAction>): nat {
    if actions == [] then 0 else (if actions[0].AcceptConn? then 1 else 0) + Accepts(actions[1..])
  }

  /** Connections the accept loop has in hand, and how many rounds it has to go once it is cancelled. */
  function InHand(s: State): nat {
    if s.accept.Accepted? || s.accept.Starting? then 1 else 0
  }

  function RoundsLeft(s: State): nat {
    if s.accept.AcceptReturned? then 0 else 1
  }

  lemma AcceptStep(s: State, a: ServerAction, t: State)
    requires !s.stop.NotStopped? && ServerStep(s, a) == Some(t)
    ensures !t.stop.NotStopped? && Accepts([a]) == 0 && Starts([a]) + InHand(t) <= InHand(s)
    ensures IsCancelled(s) ==> IsCancelled(t) && Rounds([a]) + RoundsLeft(t) <= RoundsLeft(s)
  {
    assert [a][1..] == [];
  }

  lemma {:induction false} AcceptRun(s: State, actions: seq<ServerAction>)
    requires !s.stop.NotStopped? && Run(s, actions).Some?
    ensures Accepts(actions) == 0 && Starts(actions) <= InHand(s)
    ensures IsCancelled(s) ==> Rounds(actions) <= RoundsLeft(s)
    decreases |actions|
  {
    if actions != [] {
      var next := ServerStep(s, actions[0]).value;
      AcceptStep(s, actions[0], next);
      AcceptRun(next, actions[1..]);
      assert [actions[0]][1..] == [];
    }
  }

  /** The listener is closed in exactly the runs that have had the CloseListener action. */
  lemma {:induction false} ClosedMeans(s: State, actions: seq<ServerAction>)
    requires Run(s, actions).Some?
    ensures Run(s, actions).value.stop.NotStopped? <==> s.stop.NotStopped? && CloseListener !in actions
    decreases |actions|
  {
    if actions != [] {
      ClosedMeans(ServerStep(s, actions[0]).value, actions[1..]);
      assert actions == [actions[0]] + actions[1..];
    }
  }

  /**
   In every run, once Stop has closed the listener no connection is accepted, and at most the one in
   hand is still started; and after the cancellation the accept loop looks or fails once more at most.
   */
  lemma AcceptLoopStops(before: seq<ServerAction>, after: seq<ServerAction>)
    requires Run(INIT, before).Some? && CloseListener in before && Run(Run(INIT, before).value, after).Some?
    ensures Accepts(after) == 0 && Starts(after) <= 1
    ensures Cancel in before ==> Rounds(after) <= 1
  {
    ClosedMeans(INIT, before);
    CancelledMeans(INIT, before);
    AcceptRun(Run(INIT, before).value, after);
  }
}
