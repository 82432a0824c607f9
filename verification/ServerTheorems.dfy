/** Safety of the server over every run, whatever the interleaving. */
module ServerTheorems {
  import opened Go
  import opened Ber
  import opened Connection
  import opened ConnectionTheorems
  import opened StreamTheorems
  import opened Server

  ghost predicate ConnInv(c: Conn, cancelled: bool) {
    ChannelInv(c) && Counted(c) && LockHeld(c) && ShutdownInv(c, cancelled) && NoticeWritten(c) && StreamsOk(c)
  }

  /** serveRequests has returned and connWg knows it. */
  predicate IsDone(l: Loop) {
    l.Closing? || l.Closed? || l.Gone?
  }

  ghost function Serving(s: State): set<nat> {
    set id | id in s.conns && !IsDone(s.conns[id].loop)
  }

  /** Connection IDs are fresh, and connWg counts the connections still being served. */
  ghost predicate ConnsCounted(s: State) {
    && (forall id :: id in s.conns ==>
          1 <= id <= s.connID && (s.accept.Accepting? || s.accept.Accepted? || s.accept.Starting? ==> id < s.connID))
    && (s.accept.Accepting? || s.accept.Accepted? || s.accept.Starting? ==> s.connID > 0)
    && s.connWg == |Serving(s)| + (if s.accept.Starting? then 1 else 0)
  }

  /** The close handler runs once per connection, with its ID, after its socket is closed. */
  ghost predicate ClosedOnce(s: State) {
    && Distinct(s.closeCalls)
    && (forall i :: 0 <= i < |s.closeCalls| ==> s.closeCalls[i] in s.conns && s.conns[s.closeCalls[i]].loop.Gone?)
    && (forall id :: id in s.conns && s.conns[id].loop.Gone? ==> id in s.closeCalls)
  }

  /** Once Stop has returned, only connections that started after the cancellation are still served. */
  ghost predicate StoppedServing(s: State) {
    s.stop.StopReturned? ==> forall id :: id in s.conns && !IsDone(s.conns[id].loop) ==> s.conns[id].bornLate
  }

  ghost predicate AllConns(s: State) {
    forall id :: id in s.conns ==> ConnInv(s.conns[id], IsCancelled(s))
  }

  ghost predicate Inv(s: State) {
    AllConns(s) && ConnsCounted(s) && ClosedOnce(s) && StoppedServing(s)
  }

  // ---------- connections ----------

  lemma NewConnInv(cancelled: bool)
    ensures ConnInv(NewConn(cancelled), cancelled)
  {
  }

  lemma ConnInvStep(c: Conn, a: Action, cancelled: bool, d: Conn)
    requires ConnInv(c, cancelled) && Step(c, a, cancelled) == Some(d)
    ensures ConnInv(d, cancelled)
  {
    ChannelStep(c, a, cancelled, d);
    CountedStep(c, a, cancelled, d);
    ShutdownStep(c, a, cancelled, d);
    NoticeWrittenStep(c, a, cancelled, d);
    StreamsStep(c, a, cancelled, d);
  }

  lemma CancelKeeps(c: Conn)
    requires ConnInv(c, false)
    ensures ConnInv(c, true)
  {
  }

  /** Only ConnDone ends the serving of a connection, only OnClose makes it gone, and neither is undone. */
  lemma LoopEnds(c: Conn, a: Action, cancelled: bool, d: Conn)
    requires Step(c, a, cancelled) == Some(d)
    ensures a.ConnDone? ==> !IsDone(c.loop) && IsDone(d.loop)
    ensures !a.ConnDone? ==> (IsDone(d.loop) <==> IsDone(c.loop))
    ensures a.OnClose? ==> c.loop.Closed? && d.loop.Gone?
    ensures !a.OnClose? ==> (d.loop.Gone? <==> c.loop.Gone?)
    ensures d.bornLate == c.bornLate
  {
    if LoopStep(c, a, cancelled).None? {
      if HandlerStep(c, a).Some? {
        HandlerStepFrame(c, a, d);
      } else {
        WriteStepFrame(c, a, d);
      }
    }
  }

  /** One connection has moved; `done` and `closed` say whether it left connWg or reached its close handler. */
  ghost predicate Moved(s: State, id: nat, t: State, done: bool, closed: bool) {
    && id in s.conns && t.conns.Keys == s.conns.Keys
    && (forall j :: j in s.conns && j != id ==> t.conns[j] == s.conns[j])
    && t.connID == s.connID && t.accept == s.accept && t.stop == s.stop
    && t.connWg == s.connWg - (if done then 1 else 0)
    && t.closeCalls == s.closeCalls + (if closed then [id] else [])
    && (if done then !IsDone(s.conns[id].loop) && IsDone(t.conns[id].loop)
        else IsDone(t.conns[id].loop) == IsDone(s.conns[id].loop))
    && (if closed then !s.conns[id].loop.Gone? && t.conns[id].loop.Gone?
        else t.conns[id].loop.Gone? == s.conns[id].loop.Gone?)
    && t.conns[id].bornLate == s.conns[id].bornLate
  }

  lemma OnConnMoves(s: State, id: nat, a: Action, t: State)
    requires ServerStep(s, OnConn(id, a)) == Some(t)
    ensures Moved(s, id, t, a.ConnDone?, a.OnClose?)
    ensures Step(s.conns[id], a, IsCancelled(s)) == Some(t.conns[id])
  {
    LoopEnds(s.conns[id], a, IsCancelled(s), t.conns[id]);
    assert s.closeCalls + [] == s.closeCalls;
  }

  lemma MovedCounted(s: State, id: nat, t: State, done: bool, closed: bool)
    requires ConnsCounted(s) && Moved(s, id, t, done, closed)
    ensures ConnsCounted(t)
  {
    assert Serving(t) == if done then Serving(s) - {id} else Serving(s);
    assert done ==> id in Serving(s);
  }

  lemma MovedConns(s: State, id: nat, t: State, done: bool, closed: bool)
    requires AllConns(s) && StoppedServing(s) && Moved(s, id, t, done, closed) && ConnInv(t.conns[id], IsCancelled(s))
    ensures AllConns(t) && StoppedServing(t)
  {
    forall j | j in t.conns ensures ConnInv(t.conns[j], IsCancelled(t)) {
      assert j != id ==> ConnInv(s.conns[j], IsCancelled(s));
    }
  }

  lemma MovedClosedOnce(s: State, id: nat, t: State, done: bool, closed: bool)
    requires ClosedOnce(s) && Moved(s, id, t, done, closed)
    ensures ClosedOnce(t)
  {
    forall j | j in t.conns && t.conns[j].loop.Gone? ensures j in t.closeCalls {
      if j == id && closed {
        assert t.closeCalls[|s.closeCalls|] == id;
      } else {
        assert j in s.closeCalls;
      }
    }
  }

  lemma OnConnStep(s: State, id: nat, a: Action, t: State)
    requires Inv(s) && ServerStep(s, OnConn(id, a)) == Some(t)
    ensures Inv(t)
  {
    OnConnMoves(s, id, a, t);
    ConnInvStep(s.conns[id], a, IsCancelled(s), t.conns[id]);
    MovedConns(s, id, t, a.ConnDone?, a.OnClose?);
    MovedCounted(s, id, t, a.ConnDone?, a.OnClose?);
    MovedClosedOnce(s, id, t, a.ConnDone?, a.OnClose?);
  }

  // ---------- the accept loop and Stop ----------

  /** One connection more, served by nobody yet. */
  ghost predicate Started(s: State, t: State, c: Conn) {
    && s.accept.Starting? && t == s.(accept := AcceptTop, conns := s.conns[s.connID := c])
    && c.loop.Top? && (s.stop.StopReturned? ==> c.bornLate)
  }

  lemma StartCounted(s: State, t: State, c: Conn)
    requires ConnsCounted(s) && Started(s, t, c)
    ensures ConnsCounted(t)
  {
    assert Serving(t) == Serving(s) + {s.connID};
  }

  lemma StartClosedOnce(s: State, t: State, c: Conn)
    requires ConnsCounted(s) && ClosedOnce(s) && StoppedServing(s) && Started(s, t, c)
    ensures ClosedOnce(t) && StoppedServing(t)
  {
  }

  lemma StartConnStep(s: State, t: State)
    requires Inv(s) && ServerStep(s, StartConn) == Some(t)
    ensures Inv(t)
  {
    NewConnInv(IsCancelled(s));
    StartCounted(s, t, NewConn(IsCancelled(s)));
    StartClosedOnce(s, t, NewConn(IsCancelled(s)));
  }

  lemma StopFindsNoneServing(s: State)
    requires ConnsCounted(s) && s.connWg == 0
    ensures forall id :: id in s.conns ==> IsDone(s.conns[id].loop)
  {
    assert Serving(s) == {};
    forall id | id in s.conns ensures IsDone(s.conns[id].loop) {
      assert id !in Serving(s);
    }
  }

  lemma OtherCounted(s: State, a: ServerAction, t: State)
    requires ConnsCounted(s) && ClosedOnce(s) && StoppedServing(s)
    requires ServerStep(s, a) == Some(t) && !a.OnConn? && !a.StartConn?
    ensures ConnsCounted(t) && ClosedOnce(t) && StoppedServing(t)
  {
    assert Serving(t) == Serving(s);
    if a.StopReturns? {
      StopFindsNoneServing(s);
    }
  }

  lemma OtherConns(s: State, a: ServerAction, t: State)
    requires AllConns(s) && ServerStep(s, a) == Some(t) && !a.OnConn? && !a.StartConn?
    ensures AllConns(t)
  {
    forall id | id in t.conns ensures ConnInv(t.conns[id], IsCancelled(t)) {
      if a.Cancel? {
        CancelKeeps(s.conns[id]);
      }
    }
  }

  lemma InvStep(s: State, a: ServerAction, t: State)
    requires Inv(s) && ServerStep(s, a) == Some(t)
    ensures Inv(t)
  {
    match a
    case OnConn(id, action) => OnConnStep(s, id, action, t);
    case StartConn => StartConnStep(s, t);
    case _ =>
      OtherCounted(s, a, t);
      OtherConns(s, a, t);
  }

  /** Every state of every run satisfies the invariant. */
  lemma {:induction false} RunKeepsInv(s: State, actions: seq<ServerAction>)
    requires Inv(s) && Run(s, actions).Some?
    ensures Inv(Run(s, actions).value)
    decreases |actions|
  {
    if actions != [] {
      InvStep(s, actions[0], ServerStep(s, actions[0]).value);
      RunKeepsInv(ServerStep(s, actions[0]).value, actions[1..]);
    }
  }

  lemma RunFromStart(actions: seq<ServerAction>)
    requires Run(INIT, actions).Some?
    ensures Inv(Run(INIT, actions).value)
  {
    assert Serving(INIT) == {};
    RunKeepsInv(INIT, actions);
  }

  // ---------- what the invariant means ----------

  /** In every run: requestsWg counts the handlers in flight, and none is left once the socket is closed. */
  lemma InFlightAccounting(actions: seq<ServerAction>, id: nat)
    requires Run(INIT, actions).Some? && id in Run(INIT, actions).value.conns
    ensures var c := Run(INIT, actions).value.conns[id];
            && c.requestsWg == |c.running.Keys| + |c.ending| + (if c.loop.Spawn? then 1 else 0)
            && (c.loop.Closed? || c.loop.Gone? ==>
                  c.running.Keys == {} && c.ending == {} && c.lock.None? && forall r :: WriterOf(c, r).None?)
  {
    RunFromStart(actions);
  }

  /** Started connections never share an ID: the one about to start has an ID that none has had. */
  lemma StartsFresh(actions: seq<ServerAction>)
    requires Run(INIT, actions).Some? && ServerStep(Run(INIT, actions).value, StartConn).Some?
    ensures Run(INIT, actions).value.connID !in Run(INIT, actions).value.conns
  {
    RunFromStart(actions);
  }

  /** A step that is not the connection's own leaves it alone, or starts it. */
  lemma OtherStep(s: State, a: ServerAction, t: State, id: nat)
    requires ConnsCounted(s) && ServerStep(s, a) == Some(t) && !(a.OnConn? && a.id == id)
    ensures if id in s.conns then id in t.conns && t.conns[id] == s.conns[id]
            else id in t.conns ==> t.conns[id] == NewConn(IsCancelled(s))
  {
  }

  lemma OwnStep(s: State, a: ServerAction, t: State)
    requires ServerStep(s, a) == Some(t) && a.OnConn?
    ensures a.id in s.conns && Step(s.conns[a.id], a.action, IsCancelled(s)).Some?
    ensures t.conns == s.conns[a.id := Step(s.conns[a.id], a.action, IsCancelled(s)).value]
  {
  }

  /** How many connections a run starts. */
  function Starts(actions: seq<ServerAction>): nat {
    if actions == [] then 0 else (if actions[0].StartConn? then 1 else 0) + Starts(actions[1..])
  }

  lemma StepStarts(s: State, a: ServerAction, t: State)
    requires ConnsCounted(s) && ServerStep(s, a) == Some(t)
    ensures |t.conns.Keys| == |s.conns.Keys| + if a.StartConn? then 1 else 0
  {
    if a.OnConn? {
      OwnStep(s, a, t);
      assert t.conns.Keys == s.conns.Keys;
    } else if a.StartConn? {
      assert s.connID !in s.conns.Keys && t.conns.Keys == s.conns.Keys + {s.connID};
    }
  }

  lemma {:induction false} RunStarts(s: State, actions: seq<ServerAction>)
    requires Inv(s) && Run(s, actions).Some?
    ensures |Run(s, actions).value.conns.Keys| == |s.conns.Keys| + Starts(actions)
    decreases |actions|
  {
    if actions != [] {
      var t := ServerStep(s, actions[0]).value;
      StepStarts(s, actions[0], t);
      InvStep(s, actions[0], t);
      RunStarts(t, actions[1..]);
    }
  }

  /** In every run there are as many connection IDs as connections started, so no two share one. */
  lemma OneIDEach(actions: seq<ServerAction>)
    requires Run(INIT, actions).Some?
    ensures |Run(INIT, actions).value.conns.Keys| == Starts(actions)
  {
    RunFromStart([]);
    RunStarts(INIT, actions);
  }

  /**
   In every run: the close handler has been called with an ID exactly when that is the ID of a
   connection past its close, and with none twice; by then the socket is closed and nothing is in flight.
   */
  lemma ClosesOnce(actions: seq<ServerAction>)
    requires Run(INIT, actions).Some?
    ensures var s := Run(INIT, actions).value;
            && Distinct(s.closeCalls)
            && (forall id :: id in s.closeCalls <==> id in s.conns && s.conns[id].loop.Gone?)
            && (forall id :: id in s.closeCalls ==>
                  1 <= id <= s.connID && !SocketOpen(s.conns[id]) && !InFlight(s.conns[id]) && s.conns[id].lock.None?)
  {
    RunFromStart(actions);
    var s := Run(INIT, actions).value;
    forall id | id in s.closeCalls ensures id in s.conns && s.conns[id].loop.Gone? && s.conns[id].lock.None? {
      var i :| 0 <= i < |s.closeCalls| && s.closeCalls[i] == id;
      assert ConnInv(s.conns[id], IsCancelled(s));
    }
  }

  /** The socket is open until the close that waits for the handlers. */
  predicate SocketOpen(c: Conn) {
    !c.loop.Closed? && !c.loop.Gone?
  }

  /** Some handler has been started and has not finished. */
  predicate InFlight(c: Conn) {
    c.running.Keys != {} || c.ending != {}
  }

  lemma GoneStep(s: State, a: ServerAction, t: State, id: nat)
    requires Inv(s) && ServerStep(s, a) == Some(t) && id in s.conns && s.conns[id].loop.Gone?
    ensures id in t.conns && t.conns[id] == s.conns[id]
  {
    if a.OnConn? && a.id == id {
      OwnStep(s, a, t);
      assert ConnInv(s.conns[id], IsCancelled(s));
      GoneIsStill(s.conns[id], a.action, IsCancelled(s));
    } else {
      OtherStep(s, a, t, id);
    }
  }

  lemma {:induction false} GoneRun(s: State, actions: seq<ServerAction>, id: nat)
    requires Inv(s) && Run(s, actions).Some? && id in s.conns && s.conns[id].loop.Gone?
    ensures id in Run(s, actions).value.conns && Run(s, actions).value.conns[id] == s.conns[id]
    decreases |actions|
  {
    if actions != [] {
      var t := ServerStep(s, actions[0]).value;
      GoneStep(s, actions[0], t, id);
      InvStep(s, actions[0], t);
      GoneRun(t, actions[1..], id);
    }
  }

  /** Once the close handler has been called for a connection, nothing about that connection changes again, in any run. */
  lemma ClosedForGood(before: seq<ServerAction>, after: seq<ServerAction>, id: nat)
    requires Run(INIT, before).Some? && id in Run(INIT, before).value.closeCalls
    requires Run(Run(INIT, before).value, after).Some?
    ensures var s, t := Run(INIT, before).value, Run(Run(INIT, before).value, after).value;
            id in s.conns && id in t.conns && t.conns[id] == s.conns[id]
  {
    RunFromStart(before);
    ClosesOnce(before);
    GoneRun(Run(INIT, before).value, after, id);
  }

  /** In every run: a request is read from, and answered on, the channel of the last handshake before it was read. */
  lemma ChannelSwitch(actions: seq<ServerAction>, id: nat)
    requires Run(INIT, actions).Some? && id in Run(INIT, actions).value.conns
    ensures var c := Run(INIT, actions).value.conns[id];
            && (forall i :: 0 <= i < |c.received| ==>
                  c.received[i].reader == c.received[i].writer == c.received[i].handshakes)
            && (forall i :: 0 <= i < |c.written| ==> WriteMatches(c, c.written[i]))
  {
    RunFromStart(actions);
  }

  /** What has left on a stream: whole packets, and a cut one only during a write or after a failed one. */
  ghost predicate WholePackets(s: Stream, writing: Option<Packet>) {
    var whole := SerialiseAll(s.packets);
    && whole <= s.sent
    && (|| s.sent == whole
        || (writing.Some? && s.sent <= whole + Serialise(writing.value))
        || (s.broken && s.torn.Some? && s.sent <= whole + Serialise(s.torn.value)))
  }

  lemma StreamIsWhole(s: Stream, l: Option<Writing>, ps: seq<Packet>)
    requires StreamOk(s, l, ps)
    ensures WholePackets(s, if l.Some? then Some(l.value.packet) else None)
  {
    if !s.broken && l.Some? {
      FailOk(s, l.value, ps);
    }
  }

  /**
   In every run and on every channel: the bytes sent are whole response packets and at most one cut
   one; and on a channel that is idle and has not failed they are all the responses written to it, so
   that a client reading them gets exactly those responses, in order.
   */
  lemma ResponseAtomicity(actions: seq<ServerAction>, id: nat, channel: nat)
    requires Run(INIT, actions).Some? && id in Run(INIT, actions).value.conns
    requires channel < |Run(INIT, actions).value.conns[id].streams|
    ensures var c := Run(INIT, actions).value.conns[id];
            var s := c.streams[channel];
            && WholePackets(s, if LockOn(c, channel).Some? then Some(LockOn(c, channel).value.packet) else None)
            && (LockOn(c, channel).None? && !s.broken ==>
                  && s.sent == SerialiseAll(WrittenOn(c.written, channel))
                  && ReadChildren(s.sent) == Ok(RereadAll(WrittenOn(c.written, channel))))
  {
    RunFromStart(actions);
    var c := Run(INIT, actions).value.conns[id];
    var ps := WrittenOn(c.written, channel);
    assert StreamOk(c.streams[channel], LockOn(c, channel), ps);
    StreamIsWhole(c.streams[channel], LockOn(c, channel), ps);
    ReadAllSerialised(ps);
  }

  /**
   In every run: requests are numbered 1, 2, 3, ...; an unbind is the last one read and is not
   dispatched; the others are dispatched in order; after the cancellation at most one more is, and none
   on a connection that starts later.
   */
  lemma ShutdownAndUnbind(actions: seq<ServerAction>, id: nat)
    requires Run(INIT, actions).Some? && id in Run(INIT, actions).value.conns
    ensures var c := Run(INIT, actions).value.conns[id];
            && (forall i :: 0 <= i < |c.received| ==> c.received[i].id == i + 1)
            && (forall i :: 0 <= i < |c.received| && c.received[i].kind.Unbind? ==> i == |c.received| - 1)
            && |c.dispatched| <= |c.received|
            && (forall i :: 0 <= i < |c.dispatched| ==> c.dispatched[i].id == i + 1 && !c.received[i].kind.Unbind?)
            && (forall i :: 0 <= i < |c.dispatched| && c.dispatched[i].cancelled ==> i == |c.dispatched| - 1)
            && (c.bornLate ==> c.received == [] && c.dispatched == [])
  {
    RunFromStart(actions);
  }

  /**
   In every run: the writes a connection makes under the ID no request has are notices, one at most;
   a connection that has seen the shutdown does nothing else before it returns, and has written one by then.
   */
  lemma OneNotice(actions: seq<ServerAction>, id: nat)
    requires Run(INIT, actions).Some? && id in Run(INIT, actions).value.conns
    ensures var c := Run(INIT, actions).value.conns[id];
            var notices := WritesFor(c.written, |c.received| + 1);
            && (forall i :: 0 <= i < |c.written| && c.written[i].id == |c.received| + 1 ==> c.written[i].packet == NoticePacket())
            && (forall i :: 0 <= i < |c.written| ==> 1 <= c.written[i].id <= |c.received| + 1)
            && notices == c.notices <= 1
            && (notices == 1 ==> c.stopping && (c.loop.Noticing? || Ended(c.loop)))
            && (c.stopping ==> c.loop.Notice? || c.loop.Noticing? || Ended(c.loop))
            && (c.stopping && Ended(c.loop) ==> notices == 1)
  {
    RunFromStart(actions);
    var c := Run(INIT, actions).value.conns[id];
    forall i | 0 <= i < |c.written| ensures WriteMatches(c, c.written[i]) {
    }
  }

  // ---------- after Stop ----------

  /** Nothing more is read or dispatched on the connections of `s`, or on later ones. */
  ghost predicate Quiet(s: State, t: State) {
    && s.conns.Keys <= t.conns.Keys
    && forall id :: id in t.conns ==>
         && t.conns[id].received == (if id in s.conns then s.conns[id].received else [])
         && t.conns[id].dispatched == (if id in s.conns then s.conns[id].dispatched else [])
  }

  lemma QuietConn(c: Conn, a: Action, cancelled: bool, d: Conn)
    requires Step(c, a, cancelled) == Some(d) && !c.loop.Read? && !c.loop.Dispatch?
    ensures d.received == c.received && d.dispatched == c.dispatched
  {
    if LoopStep(c, a, cancelled).None? {
      if HandlerStep(c, a).Some? {
        HandlerStepFrame(c, a, d);
      } else {
        WriteStepFrame(c, a, d);
      }
    }
  }

  lemma LateOrDoneReadsNothing(c: Conn)
    requires LateReadsNothing(c, true) && (IsDone(c.loop) || c.bornLate)
    ensures !c.loop.Read? && !c.loop.Dispatch?
  {
  }

  lemma QuietStep(s: State, a: ServerAction, t: State)
    requires StoppedServing(s) && s.stop.StopReturned? && ServerStep(s, a) == Some(t)
    requires forall id :: id in s.conns ==> LateReadsNothing(s.conns[id], true)
    requires s.accept.Starting? ==> s.connID !in s.conns
    ensures t.stop.StopReturned? && Quiet(s, t)
  {
    if a.OnConn? {
      LateOrDoneReadsNothing(s.conns[a.id]);
      QuietConn(s.conns[a.id], a.action, true, t.conns[a.id]);
    }
  }

  lemma {:induction false} QuietRun(s: State, actions: seq<ServerAction>)
    requires Inv(s) && s.stop.StopReturned? && Run(s, actions).Some?
    ensures Quiet(s, Run(s, actions).value)
    decreases |actions|
  {
    if actions != [] {
      var next := ServerStep(s, actions[0]).value;
      QuietStep(s, actions[0], next);
      InvStep(s, actions[0], next);
      QuietRun(next, actions[1..]);
    }
  }

  /**
   In every run: once Stop has returned, every connection has left its loop or started after the
   cancellation, and none, old or new, reads or dispatches another request.
   */
  lemma StopIsFinal(before: seq<ServerAction>, after: seq<ServerAction>)
    requires Run(INIT, before).Some? && Run(INIT, before).value.stop.StopReturned?
    requires Run(Run(INIT, before).value, after).Some?
    ensures Quiet(Run(INIT, before).value, Run(Run(INIT, before).value, after).value)
    ensures forall id :: id in Run(INIT, before).value.conns ==>
              IsDone(Run(INIT, before).value.conns[id].loop) || Run(INIT, before).value.conns[id].bornLate
  {
    RunFromStart(before);
    QuietRun(Run(INIT, before).value, after);
  }

  /**
   What Stop's return does and does not mean, for every connection of every run.  A connection that
   was being served when the server was cancelled has left its loop; its socket is still open just
   while it waits in close, which can end just when no handler is in flight; and the close handler
   tells which ones have come through.
   */
  lemma StopReturnMeans(actions: seq<ServerAction>, id: nat)
    requires Run(INIT, actions).Some? && Run(INIT, actions).value.stop.StopReturned?
    requires id in Run(INIT, actions).value.conns
    ensures var s := Run(INIT, actions).value;
            var c := s.conns[id];
            && (SocketOpen(c) <==> c.loop.Closing? || (c.bornLate && !IsDone(c.loop)))
            && (c.loop.Closing? ==> (InFlight(c) <==> c.requestsWg != 0))
            && (ServerStep(s, OnConn(id, CloseSocket)).Some? <==> c.loop.Closing? && !InFlight(c))
            && (!SocketOpen(c) ==> !InFlight(c) && c.lock.None?)
            && (id in s.closeCalls <==> c.loop.Gone?)
  {
    RunFromStart(actions);
    ClosesOnce(actions);
    var s := Run(INIT, actions).value;
    assert ConnInv(s.conns[id], IsCancelled(s));
    CloseWaits(s.conns[id]);
  }

  /** The close of a socket waits exactly for the handlers in flight. */
  lemma CloseWaits(c: Conn)
    requires Counted(c)
    ensures c.loop.Closing? ==> (InFlight(c) <==> c.requestsWg != 0)
    ensures Step(c, CloseSocket, true).Some? <==> c.loop.Closing? && c.requestsWg == 0
  {
    assert |c.running.Keys| == 0 <==> c.running.Keys == {};
    assert |c.ending| == 0 <==> c.ending == {};
  }

  /** So a caller whose close handler has heard of every connection knows that all is closed and finished. */
  lemma AllHeardMeansAllClosed(actions: seq<ServerAction>)
    requires Run(INIT, actions).Some?
    requires forall id :: id in Run(INIT, actions).value.conns ==> id in Run(INIT, actions).value.closeCalls
    ensures var s := Run(INIT, actions).value;
            && s.connWg == (if s.accept.Starting? then 1 else 0)
            && forall id :: id in s.conns ==> !SocketOpen(s.conns[id]) && !InFlight(s.conns[id])
  {
    RunFromStart(actions);
    ClosesOnce(actions);
    assert Serving(Run(INIT, actions).value) == {};
  }

  lemma {:induction false} RunSnoc(s: State, actions: seq<ServerAction>, a: ServerAction)
    requires Run(s, actions).Some?
    ensures Run(s, actions + [a]) == ServerStep(Run(s, actions).value, a)
    decreases |actions|
  {
    if actions == [] {
      assert ([] + [a])[1..] == [];
    } else {
      assert (actions + [a])[1..] == actions[1..] + [a];
      RunSnoc(ServerStep(s, actions[0]).value, actions[1..], a);
    }
  }

  /** One more server action, and one more action of connection 1. */
  lemma Extend(actions: seq<ServerAction>, s: State, a: ServerAction) returns (more: seq<ServerAction>, t: State)
    requires Run(INIT, actions) == Some(s) && ServerStep(s, a).Some?
    ensures more == actions + [a] && Run(INIT, more) == Some(t) && ServerStep(s, a) == Some(t)
  {
    RunSnoc(INIT, actions, a);
    more, t := actions + [a], ServerStep(s, a).value;
  }

  /** Connection 1 after it has started a handler, and after it has gone round the loop to `loop`. */
  function OneHandler(loop: Loop, requestID: nat): Conn {
    NewConn(false).(loop := loop, requestID := requestID, requestsWg := 1, running := map[1 := 0],
                    received := [ReadEvent(1, Ordinary, 0, 0, 0)], dispatched := [DispatchEvent(1, false)])
  }

  function OneConn(stop: Stop, connWg: int, c: Conn): State {
    State(1, AcceptTop, stop, connWg, map[1 := c], [])
  }

  lemma StartOne() returns (actions: seq<ServerAction>)
    ensures Run(INIT, actions) == Some(OneConn(NotStopped, 1, NewConn(false)))
  {
    var s := INIT;
    actions := [];
    actions, s := Extend(actions, s, CheckContext);
    actions, s := Extend(actions, s, AcceptConn);
    actions, s := Extend(actions, s, AddConn);
    actions, s := Extend(actions, s, StartConn);
    assert s.conns == map[1 := NewConn(false)];
  }

  /** One more action of connection 1. */
  lemma ExtendOne(actions: seq<ServerAction>, connWg: int, c: Conn, a: Action, d: Conn) returns (more: seq<ServerAction>)
    requires Run(INIT, actions) == Some(OneConn(NotStopped, connWg, c))
    requires Step(c, a, false) == Some(d) && !a.OnClose?
    ensures Run(INIT, more) == Some(OneConn(NotStopped, if a.ConnDone? then connWg - 1 else connWg, d))
  {
    var s;
    more, s := Extend(actions, OneConn(NotStopped, connWg, c), OnConn(1, a));
    assert s.conns == map[1 := d];
  }

  lemma HandleOne() returns (actions: seq<ServerAction>)
    ensures Run(INIT, actions) == Some(OneConn(NotStopped, 1, OneHandler(Top, 1)))
  {
    var c := NewConn(false);
    var read := c.(loop := Dispatch(0, Ordinary), requestID := 1, received := [ReadEvent(1, Ordinary, 0, 0, 0)]);
    assert c.received + read.received == read.received;
    assert c.dispatched + [DispatchEvent(1, false)] == [DispatchEvent(1, false)];
    actions := StartOne();
    actions := ExtendOne(actions, 1, c, TakeWriter, c.(loop := Check(0), requestID := 1));
    actions := ExtendOne(actions, 1, c.(loop := Check(0), requestID := 1), CheckShutdown, c.(loop := Read(0), requestID := 1));
    actions := ExtendOne(actions, 1, c.(loop := Read(0), requestID := 1), ReadRequest(Ordinary), read);
    var spawn := read.(loop := Spawn(0), requestsWg := 1, dispatched := [DispatchEvent(1, false)]);
    actions := ExtendOne(actions, 1, read, AddRequest, spawn);
    actions := ExtendOne(actions, 1, spawn, StartHandler, OneHandler(Top, 1));
  }

  lemma ReadAgain() returns (actions: seq<ServerAction>)
    ensures Run(INIT, actions) == Some(OneConn(NotStopped, 1, OneHandler(Read(0), 2)))
  {
    actions := HandleOne();
    actions := ExtendOne(actions, 1, OneHandler(Top, 1), TakeWriter, OneHandler(Check(0), 2));
    actions := ExtendOne(actions, 1, OneHandler(Check(0), 2), CheckShutdown, OneHandler(Read(0), 2));
  }

  lemma LeaveOne() returns (actions: seq<ServerAction>)
    ensures Run(INIT, actions) == Some(OneConn(NotStopped, 0, OneHandler(Closing, 2)))
  {
    actions := ReadAgain();
    actions := ExtendOne(actions, 1, OneHandler(Read(0), 2), ReadFails, OneHandler(Returned, 2));
    actions := ExtendOne(actions, 1, OneHandler(Returned, 2), ConnDone, OneHandler(Closing, 2));
  }

  /** Stop returning does not mean that sockets are closed or handlers finished: a client sends one
      request and leaves, and Stop returns while the request is still being handled. */
  lemma StopReturnsEarly() returns (actions: seq<ServerAction>, s: State)
    ensures Run(INIT, actions) == Some(s) && s.stop.StopReturned?
    ensures 1 in s.conns && s.conns[1].loop.Closing? && 1 in s.conns[1].running
  {
    s := OneConn(NotStopped, 0, OneHandler(Closing, 2));
    actions := LeaveOne();
    actions, s := Extend(actions, s, CloseListener);
    actions, s := Extend(actions, s, Cancel);
    actions, s := Extend(actions, s, StopReturns);
  }
}
