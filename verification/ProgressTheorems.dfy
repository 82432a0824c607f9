/**
 Nothing gets stuck: from every state of every run, each connection can still be closed, and a call
 of Stop that has closed the listener can still return.
 */
module ProgressTheorems {
  import opened Go
  import opened Ber
  import opened Connection
  import opened ConnectionTheorems
  import opened NoticeTheorems
  import opened Server
  import opened ServerTheorems
  import opened RunTheorems

  /** What is left of a write in progress. */
  function WriteLeft(c: Conn): nat {
    if c.lock.None? || c.lock.value.channel >= |c.streams| then 0
    else if Locked(c).broken then 1
    else 1 + (if c.lock.value.pos < |Serialise(c.lock.value.packet)| then 2 else 0) + (if Locked(c).buffered != "" then 1 else 0)
  }

  /** How far the loop is from its end, leaving room for the writes and handlers it may still start. */
  function LoopLeft(l: Loop): nat {
    match l
    case Spawn(_) => 15
    case Inline(_, _) => 15
    case Dispatch(_, _) => 16
    case Top => 12
    case Check(_) => 11
    case Notice(_) => 10
    case Noticing(_) => 5
    case Read(_) => 5
    case Returned => 4
    case Closing => 3
    case Closed => 2
    case Gone => 0
  }

  function Left(c: Conn): nat {
    LoopLeft(c.loop) + WriteLeft(c) + 2 * |c.running.Keys| + |c.ending|
  }

  /** What the holder of the writer lock does next. */
  function WriterNext(c: Conn): Action
    requires c.lock.Some? && c.lock.value.channel < |c.streams|
  {
    var l, s := c.lock.value, Locked(c);
    if s.broken then UnlockWriter
    else if l.pos < |Serialise(l.packet)| then Buffer(|Serialise(l.packet)| - l.pos)
    else if s.buffered != "" then Send(|s.buffered|)
    else UnlockWriter
  }

  lemma WriterProgress(c: Conn)
    requires c.lock.Some? && c.lock.value.channel < |c.streams|
    ensures WriteStep(c, WriterNext(c)).Some?
    ensures Left(WriteStep(c, WriterNext(c)).value) < Left(c)
  {
  }

  lemma WriterSteps(c: Conn, cancelled: bool)
    requires c.lock.Some? && c.lock.value.channel < |c.streams|
    ensures Step(c, WriterNext(c), cancelled) == WriteStep(c, WriterNext(c))
  {
  }

  /** What the connection's goroutine does next when nobody writes and no handler is waited for. */
  function LoopNext(c: Conn): Action
    requires !c.loop.Gone?
  {
    match c.loop
    case Top => TakeWriter
    case Check(_) => CheckShutdown
    case Notice(_) => LockWriter(c.requestID, NoticePacket())
    case Noticing(_) => NoticeDone
    case Read(_) => ReadFails
    case Dispatch(_, kind) => if kind.Ordinary? then AddRequest else RunInline
    case Spawn(_) => StartHandler
    case Inline(_, _) => FinishInline(false)
    case Returned => ConnDone
    case Closing => CloseSocket
    case Closed => OnClose
  }

  lemma SpawnProgress(c: Conn, cancelled: bool)
    requires c.loop.Spawn?
    ensures LoopStep(c, StartHandler, cancelled).Some?
    ensures Left(LoopStep(c, StartHandler, cancelled).value) < Left(c)
  {
    var d := LoopStep(c, StartHandler, cancelled).value;
    assert d.running.Keys == c.running.Keys + {c.requestID};
  }

  /** The step leaves lock and handlers alone and brings the loop nearer to its end. */
  ghost predicate Nearer(c: Conn, a: Action, cancelled: bool) {
    var next := LoopStep(c, a, cancelled);
    && next.Some? && next.value.lock == c.lock && next.value.running == c.running && next.value.ending == c.ending
    && LoopLeft(next.value.loop) < LoopLeft(c.loop)
  }

  lemma ServingNearer(c: Conn, cancelled: bool)
    requires c.lock.None?
    ensures c.loop.Top? ==> Nearer(c, TakeWriter, cancelled)
    ensures c.loop.Check? ==> Nearer(c, CheckShutdown, cancelled)
    ensures c.loop.Read? ==> Nearer(c, ReadFails, cancelled)
    ensures c.loop.Noticing? ==> Nearer(c, NoticeDone, cancelled)
  {
  }

  lemma HandlingNearer(c: Conn, cancelled: bool)
    requires c.lock.None?
    ensures c.loop.Dispatch? ==> Nearer(c, if c.loop.kind.Ordinary? then AddRequest else RunInline, cancelled)
    ensures c.loop.Inline? ==> Nearer(c, FinishInline(false), cancelled)
  {
  }

  lemma ClosingNearer(c: Conn, cancelled: bool)
    ensures c.loop.Returned? ==> Nearer(c, ConnDone, cancelled)
    ensures c.loop.Closing? && c.requestsWg == 0 ==> Nearer(c, CloseSocket, cancelled)
    ensures c.loop.Closed? ==> Nearer(c, OnClose, cancelled)
  {
  }

  lemma LeftLess(c: Conn, d: Conn)
    requires d.lock.None? && d.running == c.running && d.ending == c.ending && LoopLeft(d.loop) < LoopLeft(c.loop)
    ensures Left(d) < Left(c)
  {
  }

  lemma LoopProgress(c: Conn, cancelled: bool)
    requires c.lock.None? && !c.loop.Gone? && !c.loop.Notice? && (c.loop.Closing? ==> c.requestsWg == 0)
    ensures LoopStep(c, LoopNext(c), cancelled).Some?
    ensures Left(LoopStep(c, LoopNext(c), cancelled).value) < Left(c)
  {
    if c.loop.Spawn? {
      SpawnProgress(c, cancelled);
    } else {
      ServingNearer(c, cancelled);
      HandlingNearer(c, cancelled);
      ClosingNearer(c, cancelled);
      assert Nearer(c, LoopNext(c), cancelled);
      LeftLess(c, LoopStep(c, LoopNext(c), cancelled).value);
    }
  }

  lemma NoticeProgress(c: Conn, cancelled: bool)
    requires c.lock.None? && c.loop.Notice?
    ensures Step(c, LoopNext(c), cancelled).Some?
    ensures Left(Step(c, LoopNext(c), cancelled).value) < Left(c)
  {
    NoticePossible(c);
  }

  lemma FinishProgress(c: Conn, r: nat)
    requires c.lock.None? && r in c.running && c.running.Keys !! c.ending
    ensures HandlerStep(c, FinishHandler(r)).Some?
    ensures Left(HandlerStep(c, FinishHandler(r)).value) < Left(c)
  {
    var d := HandlerStep(c, FinishHandler(r)).value;
    assert d.running.Keys == c.running.Keys - {r};
  }

  lemma DoneProgress(c: Conn, r: nat)
    requires r in c.ending
    ensures HandlerStep(c, RequestDone(r)).Some?
    ensures Left(HandlerStep(c, RequestDone(r)).value) < Left(c)
  {
  }

  /** A handler that is waited for can end, and then be counted off. */
  lemma HandlerProgress(c: Conn, cancelled: bool) returns (a: Action)
    requires Counted(c) && c.lock.None? && c.loop.Closing? && c.requestsWg != 0
    ensures Step(c, a, cancelled).Some? && Left(Step(c, a, cancelled).value) < Left(c)
  {
    if c.ending != {} {
      var r :| r in c.ending;
      a := RequestDone(r);
      DoneProgress(c, r);
    } else {
      assert c.running.Keys != {};
      var r :| r in c.running.Keys;
      a := FinishHandler(r);
      FinishProgress(c, r);
    }
  }

  /** A connection that is not gone has a step to take that brings it nearer to its end. */
  lemma Progress(c: Conn, cancelled: bool) returns (a: Action)
    requires ConnInv(c, cancelled) && !c.loop.Gone?
    ensures Step(c, a, cancelled).Some? && Left(Step(c, a, cancelled).value) < Left(c)
  {
    if c.lock.Some? {
      a := WriterNext(c);
      WriterProgress(c);
      WriterSteps(c, cancelled);
    } else if c.loop.Closing? && c.requestsWg != 0 {
      a := HandlerProgress(c, cancelled);
    } else {
      a := LoopNext(c);
      if c.loop.Notice? {
        NoticeProgress(c, cancelled);
      } else {
        LoopProgress(c, cancelled);
      }
    }
  }

  // ---------- runs ----------

  lemma {:induction false} RunAppend(s: State, first: seq<ServerAction>, second: seq<ServerAction>)
    requires Run(s, first).Some?
    ensures Run(s, first + second) == Run(Run(s, first).value, second)
    decreases |first|
  {
    if first == [] {
      assert first + second == second;
    } else {
      assert (first + second)[1..] == first[1..] + second;
      RunAppend(ServerStep(s, first[0]).value, first[1..], second);
    }
  }

  /** Only the connection `id` has moved. */
  ghost predicate OnlyMoved(s: State, id: nat, t: State) {
    && t.connID == s.connID && t.accept == s.accept && t.stop == s.stop && t.conns.Keys == s.conns.Keys
    && forall i :: i in s.conns && i != id ==> t.conns[i] == s.conns[i]
  }

  lemma OwnStepOnly(s: State, id: nat, a: Action, t: State)
    requires ServerStep(s, OnConn(id, a)) == Some(t)
    ensures id in s.conns && OnlyMoved(s, id, t) && Step(s.conns[id], a, IsCancelled(s)) == Some(t.conns[id])
  {
  }

  lemma OnlyMovedTwice(s: State, id: nat, t: State, u: State)
    requires id in s.conns && OnlyMoved(s, id, t) && OnlyMoved(t, id, u)
    ensures OnlyMoved(s, id, u)
  {
  }

  lemma RunCons(s: State, a: ServerAction, t: State, rest: seq<ServerAction>)
    requires ServerStep(s, a) == Some(t)
    ensures Run(s, [a] + rest) == Run(t, rest)
  {
    assert ([a] + rest)[1..] == rest;
  }

  lemma CanStep(s: State, id: nat, a: Action)
    requires id in s.conns && Step(s.conns[id], a, IsCancelled(s)).Some?
    ensures ServerStep(s, OnConn(id, a)).Some?
  {
  }

  lemma ProgressStep(s: State, id: nat) returns (a: ServerAction, t: State)
    requires Inv(s) && id in s.conns && !s.conns[id].loop.Gone?
    ensures ServerStep(s, a) == Some(t) && Inv(t) && OnlyMoved(s, id, t) && Left(t.conns[id]) < Left(s.conns[id])
  {
    assert ConnInv(s.conns[id], IsCancelled(s));
    var action := Progress(s.conns[id], IsCancelled(s));
    CanStep(s, id, action);
    a := OnConn(id, action);
    t := ServerStep(s, a).value;
    OwnStepOnly(s, id, action, t);
    InvStep(s, a, t);
  }

  lemma {:induction false} CloseRun(s: State, id: nat) returns (actions: seq<ServerAction>)
    requires Inv(s) && id in s.conns
    ensures Run(s, actions).Some? && Inv(Run(s, actions).value)
    ensures OnlyMoved(s, id, Run(s, actions).value) && Run(s, actions).value.conns[id].loop.Gone?
    decreases Left(s.conns[id])
  {
    if s.conns[id].loop.Gone? {
      actions := [];
    } else {
      var a, next := ProgressStep(s, id);
      var rest := CloseRun(next, id);
      RunCons(s, a, next, rest);
      OnlyMovedTwice(s, id, next, Run(next, rest).value);
      actions := [a] + rest;
    }
  }

  /** From every state of every run, each connection can get to where its socket is closed and the close handler called. */
  lemma CanAlwaysClose(before: seq<ServerAction>, id: nat) returns (after: seq<ServerAction>)
    requires Run(INIT, before).Some? && id in Run(INIT, before).value.conns
    ensures Run(INIT, before + after).Some?
    ensures var s := Run(INIT, before + after).value;
            id in s.conns && s.conns[id].loop.Gone? && id in s.closeCalls && !InFlight(s.conns[id])
  {
    RunFromStart(before);
    after := CloseRun(Run(INIT, before).value, id);
    RunAppend(INIT, before, after);
    var s := Run(INIT, before + after).value;
    assert ConnInv(s.conns[id], IsCancelled(s));
  }

  lemma ServingLess(s: State, id: nat, t: State)
    requires id in Serving(s) && OnlyMoved(s, id, t) && t.conns[id].loop.Gone?
    ensures |Serving(t)| < |Serving(s)|
  {
    assert Serving(t) == Serving(s) - {id};
  }

  lemma {:induction false} CloseAll(s: State) returns (actions: seq<ServerAction>)
    requires Inv(s)
    ensures Run(s, actions).Some? && Inv(Run(s, actions).value) && Serving(Run(s, actions).value) == {}
    ensures Run(s, actions).value.accept == s.accept && Run(s, actions).value.stop == s.stop
    decreases |Serving(s)|
  {
    if Serving(s) == {} {
      actions := [];
    } else {
      var id :| id in Serving(s);
      var first := CloseRun(s, id);
      var next := Run(s, first).value;
      ServingLess(s, id, next);
      var rest := CloseAll(next);
      actions := first + rest;
      RunAppend(s, first, rest);
    }
  }

  lemma StopSteps(s: State) returns (actions: seq<ServerAction>)
    requires s.connWg == 0 && (s.stop.ListenerClosed? || s.stop.Cancelled?)
    ensures Run(s, actions).Some? && Run(s, actions).value.stop.StopReturned?
  {
    if s.stop.Cancelled? {
      actions := [StopReturns];
    } else {
      actions := [Cancel, StopReturns];
      assert actions[1..] == [StopReturns];
    }
  }

  /** The accept loop does not hold connWg for ever: what it has added it can start. */
  lemma StartWaiting(s: State) returns (actions: seq<ServerAction>)
    requires Inv(s)
    ensures Run(s, actions).Some? && Inv(Run(s, actions).value)
    ensures !Run(s, actions).value.accept.Starting? && Run(s, actions).value.stop == s.stop
  {
    if s.accept.Starting? {
      actions := [StartConn];
      InvStep(s, StartConn, ServerStep(s, StartConn).value);
    } else {
      actions := [];
    }
  }

  /** From every state of every run in which Stop has closed the listener, Stop can still return. */
  lemma StopCanAlwaysReturn(before: seq<ServerAction>) returns (after: seq<ServerAction>)
    requires Run(INIT, before).Some? && !Run(INIT, before).value.stop.NotStopped?
    ensures Run(INIT, before + after).Some? && Run(INIT, before + after).value.stop.StopReturned?
  {
    RunFromStart(before);
    var s := Run(INIT, before).value;
    if s.stop.StopReturned? {
      after := [];
      assert before + after == before;
    } else {
      var first := StartWaiting(s);
      var t := Run(s, first).value;
      var second := CloseAll(t);
      var u := Run(t, second).value;
      var third := StopSteps(u);
      after := first + (second + third);
      RunAppend(t, second, third);
      RunAppend(s, first, second + third);
      RunAppend(INIT, before, after);
    }
  }
}
