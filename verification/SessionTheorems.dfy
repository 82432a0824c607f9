/**
 Which sequences of requests a connection can read, and over which channels: exactly those in which
 nothing follows an unbind and the channel changes only after a StartTLS request.
 */
module SessionTheorems {
  import opened Go
  import opened Ber
  import opened Connection
  import opened ConnectionTheorems
  import opened Server
  import opened ServerTheorems
  import opened RunTheorems
  import opened ProgressTheorems

  /** A connection's own steps, one after the other. */
  ghost function ConnRun(c: Conn, events: seq<Action>, cancelled: bool): Option<Conn>
    decreases |events|
  {
    if events == [] then Some(c)
    else
      var next := Step(c, events[0], cancelled);
      if next.None? then None else ConnRun(next.value, events[1..], cancelled)
  }

  lemma ConnRunCons(c: Conn, a: Action, d: Conn, rest: seq<Action>, cancelled: bool)
    requires Step(c, a, cancelled) == Some(d)
    ensures ConnRun(c, [a] + rest, cancelled) == ConnRun(d, rest, cancelled)
  {
    assert ([a] + rest)[1..] == rest;
  }

  /** They can be taken in the server as well, with nothing in between. */
  lemma {:induction false} Lift(s: State, id: nat, events: seq<Action>, d: Conn) returns (actions: seq<ServerAction>, t: State)
    requires Inv(s) && id in s.conns && ConnRun(s.conns[id], events, IsCancelled(s)) == Some(d)
    ensures Run(s, actions) == Some(t) && Inv(t) && OnlyMoved(s, id, t) && t.conns[id] == d
    decreases |events|
  {
    if events == [] {
      actions, t := [], s;
    } else {
      CanStep(s, id, events[0]);
      var a := OnConn(id, events[0]);
      var next := ServerStep(s, a).value;
      OwnStepOnly(s, id, events[0], next);
      InvStep(s, a, next);
      var rest, u := Lift(next, id, events[1..], d);
      RunCons(s, a, next, rest);
      OnlyMovedTwice(s, id, next, u);
      actions, t := [a] + rest, u;
    }
  }

  /** The connection once it has read one more request. */
  function AfterReading(c: Conn, kind: Connection.Kind): Conn {
    c.(loop := Dispatch(c.writer, kind), requestID := c.requestID + 1,
       received := c.received + [ReadEvent(c.requestID + 1, kind, c.reader, c.writer, c.handshakes)])
  }

  lemma ReadOne(c: Conn, kind: Connection.Kind)
    requires c.loop.Top?
    ensures ConnRun(c, [TakeWriter, CheckShutdown, ReadRequest(kind)], false) == Some(AfterReading(c, kind))
  {
    var c1 := c.(loop := Check(c.writer), requestID := c.requestID + 1);
    var c2 := c1.(loop := Read(c.writer));
    assert Step(c, TakeWriter, false) == Some(c1) && Step(c1, CheckShutdown, false) == Some(c2);
    assert Step(c2, ReadRequest(kind), false) == Some(AfterReading(c, kind));
    ConnRunCons(c2, ReadRequest(kind), AfterReading(c, kind), [], false);
    ConnRunCons(c1, CheckShutdown, c2, [ReadRequest(kind)], false);
    ConnRunCons(c, TakeWriter, c1, [CheckShutdown, ReadRequest(kind)], false);
    assert [TakeWriter] + [CheckShutdown, ReadRequest(kind)] == [TakeWriter, CheckShutdown, ReadRequest(kind)];
    assert [CheckShutdown] + [ReadRequest(kind)] == [CheckShutdown, ReadRequest(kind)] && [ReadRequest(kind)] + [] == [ReadRequest(kind)];
  }

  /** The part of a connection's state that says which channel it is on, with nobody writing. */
  predicate Settled(c: Conn) {
    c.reader == c.writer == c.handshakes && c.lock.None?
  }

  lemma SpawnOne(c: Conn) returns (d: Conn)
    requires c.loop.Dispatch? && c.loop.kind.Ordinary? && Settled(c)
    ensures ConnRun(c, [AddRequest, StartHandler], false) == Some(d)
    ensures d.loop.Top? && Settled(d) && d.received == c.received && d.handshakes == c.handshakes
  {
    var c1 := Step(c, AddRequest, false).value;
    d := Step(c1, StartHandler, false).value;
    ConnRunCons(c1, StartHandler, d, [], false);
    ConnRunCons(c, AddRequest, c1, [StartHandler], false);
    assert [AddRequest] + [StartHandler] == [AddRequest, StartHandler] && [StartHandler] + [] == [StartHandler];
  }

  /** A StartTLS handler whose handshake fails returns, and the loop goes on over the channel it had. */
  lemma FailOne(c: Conn) returns (d: Conn)
    requires c.loop.Inline? && c.loop.kind.StartTLS? && Settled(c)
    ensures ConnRun(c, [Handshake(false), FinishInline(false)], false) == Some(d)
    ensures d.loop.Top? && Settled(d) && d.received == c.received && d.handshakes == c.handshakes
  {
    var c1 := Step(c, Handshake(false), false).value;
    d := Step(c1, FinishInline(false), false).value;
    ConnRunCons(c1, FinishInline(false), d, [], false);
    ConnRunCons(c, Handshake(false), c1, [FinishInline(false)], false);
    assert [Handshake(false)] + [FinishInline(false)] == [Handshake(false), FinishInline(false)] && [FinishInline(false)] + [] == [FinishInline(false)];
  }

  /** One that completes any number of handshakes, and returns: the loop goes on over the last of the new channels. */
  lemma {:induction false} SecureMany(c: Conn, n: nat) returns (events: seq<Action>, d: Conn)
    requires c.loop.Inline? && c.loop.kind.StartTLS? && Settled(c)
    ensures ConnRun(c, events, false) == Some(d)
    ensures d.loop.Top? && Settled(d) && d.received == c.received && d.handshakes == c.handshakes + n
    decreases n
  {
    if n == 0 {
      d := FailOne(c);
      events := [Handshake(false), FinishInline(false)];
    } else {
      var c1 := Step(c, Handshake(true), false).value;
      events, d := SecureMany(c1, n - 1);
      ConnRunCons(c, Handshake(true), c1, events, false);
      events := [Handshake(true)] + events;
    }
  }

  lemma {:induction false} ConnRunAppend(c: Conn, first: seq<Action>, d: Conn, second: seq<Action>, cancelled: bool)
    requires ConnRun(c, first, cancelled) == Some(d)
    ensures ConnRun(c, first + second, cancelled) == ConnRun(d, second, cancelled)
    decreases |first|
  {
    if first == [] {
      assert first + second == second;
    } else {
      assert (first + second)[1..] == first[1..] + second;
      ConnRunAppend(Step(c, first[0], cancelled).value, first[1..], d, second, cancelled);
    }
  }

  // ---------- lists of requests ----------

  /** A request by the channel it is read over and its kind. */
  type Request = (nat, Connection.Kind)

  function Seen(received: seq<ReadEvent>): (list: seq<Request>)
    ensures |list| == |received| && forall i :: 0 <= i < |received| ==> list[i] == (received[i].reader, received[i].kind)
  {
    seq(|received|, i requires 0 <= i < |received| => (received[i].reader, received[i].kind))
  }

  /** What may follow a request: not an unbind, and over another channel, a later one, only a StartTLS. */
  predicate Follows(first: Request, second: Request) {
    !first.1.Unbind? && (second.0 == first.0 || (second.0 > first.0 && first.1.StartTLS?))
  }

  predicate Orderly(list: seq<Request>) {
    && (list != [] ==> list[0].0 == 0)
    && forall i :: 0 <= i < |list| - 1 ==> Follows(list[i], list[i + 1])
  }

  // ---------- every orderly list can be read ----------

  /** From the top of its loop: a request of any kind but unbind, handled, with `n` handshakes if it is a StartTLS. */
  lemma ServeNext(c: Conn, kind: Connection.Kind, n: nat) returns (events: seq<Action>, d: Conn)
    requires c.loop.Top? && Settled(c) && !kind.Unbind? && (n > 0 ==> kind.StartTLS?)
    ensures ConnRun(c, events, false) == Some(d) && d.loop.Top? && Settled(d)
    ensures d.handshakes == c.handshakes + n && Seen(d.received) == Seen(c.received) + [(c.handshakes, kind)]
  {
    var first, mid := [TakeWriter, CheckShutdown, ReadRequest(kind)], AfterReading(c, kind);
    ReadOne(c, kind);
    if kind.Ordinary? {
      d := SpawnOne(mid);
      events := [AddRequest, StartHandler];
    } else {
      var inline := Step(mid, RunInline, false).value;
      events, d := SecureMany(inline, n);
      ConnRunCons(mid, RunInline, inline, events, false);
      events := [RunInline] + events;
    }
    ConnRunAppend(c, first, mid, events, false);
    events := first + events;
  }

  lemma {:induction false} ServeAll(c: Conn, list: seq<Request>) returns (events: seq<Action>, d: Conn)
    requires c.loop.Top? && Settled(c) && (list != [] ==> list[0].0 == c.handshakes)
    requires forall i :: 0 <= i < |list| - 1 ==> Follows(list[i], list[i + 1])
    ensures ConnRun(c, events, false) == Some(d) && Seen(d.received) == Seen(c.received) + list
    decreases |list|
  {
    if list == [] {
      events, d := [], c;
      assert Seen(c.received) + [] == Seen(c.received);
    } else if |list| == 1 {
      ReadOne(c, list[0].1);
      events, d := [TakeWriter, CheckShutdown, ReadRequest(list[0].1)], AfterReading(c, list[0].1);
      assert Seen(d.received) == Seen(c.received) + [list[0]] && [list[0]] == list;
    } else {
      assert Follows(list[0], list[1]);
      var first, e := ServeNext(c, list[0].1, list[1].0 - list[0].0);
      ServeRest(list);
      events, d := ServeAll(e, list[1..]);
      ConnRunAppend(c, first, e, events, false);
      events := first + events;
      Associate(Seen(c.received), [list[0]], list[1..]);
    }
  }

  lemma ServeRest(list: seq<Request>)
    requires |list| > 1 && forall i :: 0 <= i < |list| - 1 ==> Follows(list[i], list[i + 1])
    ensures forall i :: 0 <= i < |list[1..]| - 1 ==> Follows(list[1..][i], list[1..][i + 1])
    ensures list == [list[0]] + list[1..]
  {
  }

  lemma ServeSession(list: seq<Request>) returns (actions: seq<ServerAction>, t: State)
    requires Orderly(list)
    ensures Run(INIT, actions) == Some(t) && 1 in t.conns && Seen(t.conns[1].received) == list
  {
    var start := StartOne();
    RunFromStart(start);
    var s := OneConn(NotStopped, 1, NewConn(false));
    var events, d := ServeAll(NewConn(false), list);
    var more;
    more, t := Lift(s, 1, events, d);
    RunAppend(INIT, start, more);
    actions := start + more;
    assert Seen([]) + list == list;
  }

  // ---------- and no other ----------

  /** The requests read so far are orderly, and the channel has changed since only after a StartTLS. */
  ghost predicate OrderlySoFar(c: Conn) {
    && Orderly(Seen(c.received))
    && (c.received == [] ==> c.handshakes == 0)
    && (c.received != [] ==>
          var last := c.received[|c.received| - 1];
          last.reader == c.handshakes || (last.reader < c.handshakes && last.kind.StartTLS?))
  }

  lemma OrderlyRead(c: Conn, kind: Connection.Kind, d: Conn)
    requires OrderlySoFar(c) && ChannelInv(c) && UnbindLast(c) && Step(c, ReadRequest(kind), false) == Some(d)
    ensures OrderlySoFar(d)
  {
    var before, after := Seen(c.received), Seen(d.received);
    forall i | 0 <= i < |after| - 1 ensures Follows(after[i], after[i + 1]) {
      assert i < |before| - 1 ==> Follows(before[i], before[i + 1]);
    }
  }

  lemma OrderlyLoop(c: Conn, a: Action, cancelled: bool, d: Conn)
    requires OrderlySoFar(c) && ChannelInv(c) && LoopStep(c, a, cancelled) == Some(d) && !a.ReadRequest?
    ensures OrderlySoFar(d)
  {
    assert d.received == c.received;
    if a.Handshake? {
      assert c.received[|c.received| - 1].kind.StartTLS?;
    } else {
      assert d.handshakes == c.handshakes;
    }
  }

  lemma OrderlyStep(c: Conn, a: Action, cancelled: bool, d: Conn)
    requires OrderlySoFar(c) && ChannelInv(c) && UnbindLast(c) && Step(c, a, cancelled) == Some(d)
    ensures OrderlySoFar(d)
  {
    if a.ReadRequest? {
      OrderlyRead(c, a.kind, d);
    } else if LoopStep(c, a, cancelled).Some? {
      OrderlyLoop(c, a, cancelled, d);
    } else if HandlerStep(c, a).Some? {
      HandlerStepFrame(c, a, d);
    } else {
      WriteStepFrame(c, a, d);
    }
  }

  lemma OrderlyServerStep(s: State, a: ServerAction, t: State, id: nat)
    requires Inv(s) && ServerStep(s, a) == Some(t) && (id in s.conns ==> OrderlySoFar(s.conns[id]))
    ensures id in t.conns ==> OrderlySoFar(t.conns[id])
  {
    if a.OnConn? && a.id == id {
      OwnStep(s, a, t);
      assert ConnInv(s.conns[id], IsCancelled(s));
      OrderlyStep(s.conns[id], a.action, IsCancelled(s), t.conns[id]);
    } else {
      OtherStep(s, a, t, id);
    }
  }

  lemma {:induction false} OrderlyRun(s: State, actions: seq<ServerAction>, id: nat)
    requires Inv(s) && Run(s, actions).Some? && (id in s.conns ==> OrderlySoFar(s.conns[id]))
    ensures id in Run(s, actions).value.conns ==> OrderlySoFar(Run(s, actions).value.conns[id])
    decreases |actions|
  {
    if actions != [] {
      var next := ServerStep(s, actions[0]).value;
      InvStep(s, actions[0], next);
      OrderlyServerStep(s, actions[0], next, id);
      OrderlyRun(next, actions[1..], id);
    }
  }

  /** Some run has a connection that has read exactly these requests, over these channels. */
  ghost predicate Readable(list: seq<Request>) {
    exists actions, id: nat ::
      Run(INIT, actions).Some? && id in Run(INIT, actions).value.conns &&
      Seen(Run(INIT, actions).value.conns[id].received) == list
  }

  /** Exactly the orderly lists of requests can be read, however long they are. */
  lemma WhatCanBeRead(list: seq<Request>)
    ensures Readable(list) <==> Orderly(list)
  {
    if Orderly(list) {
      var actions, t := ServeSession(list);
    }
    if Readable(list) {
      var actions, id: nat :| Run(INIT, actions).Some? && id in Run(INIT, actions).value.conns &&
                              Seen(Run(INIT, actions).value.conns[id].received) == list;
      InvInit();
      OrderlyRun(INIT, actions, id);
    }
  }
}
