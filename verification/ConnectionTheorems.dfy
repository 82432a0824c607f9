/**
 What every step of a connection keeps: the accounting of handlers, the channel each request
 and response belongs to, the order of shutdown, and whole packets on every stream.
 */
module ConnectionTheorems {
  import opened Go
  import opened Ber
  import opened Connection

  // ---------- requests and channels ----------

  predicate BeforeRead(l: Loop) {
    l.Check? || l.Notice? || l.Noticing? || l.Read?
  }

  predicate AfterRead(l: Loop) {
    l.Dispatch? || l.Spawn? || l.Inline?
  }

  predicate Ended(l: Loop) {
    l.Returned? || l.Closing? || l.Closed? || l.Gone?
  }

  /** Requests are numbered 1, 2, 3, ..., and the counter is at most one ahead of the last one read. */
  ghost predicate Numbered(c: Conn) {
    && (forall i :: 0 <= i < |c.received| ==> c.received[i].id == i + 1)
    && (c.loop.Top? || AfterRead(c.loop) ==> c.requestID == |c.received|)
    && (BeforeRead(c.loop) ==> c.requestID == |c.received| + 1)
    && (AfterRead(c.loop) ==> c.requestID > 0)
  }

  /** Reader and writer move together, one channel per completed handshake. */
  ghost predicate OnOneChannel(c: Conn) {
    && c.reader == c.writer == c.handshakes && |c.streams| == c.handshakes + 1
    && (BeforeRead(c.loop) || c.loop.Dispatch? || c.loop.Spawn? ==> c.loop.w == c.handshakes)
    && (forall i :: 0 <= i < |c.received| ==>
          c.received[i].reader == c.received[i].writer == c.received[i].handshakes <= c.handshakes)
  }

  /** The loop holds the writer of the request it has read last. */
  ghost predicate LoopMatches(c: Conn) {
    && (AfterRead(c.loop) ==> |c.received| > 0 && c.loop.w == c.received[|c.received| - 1].writer)
    && (c.loop.Dispatch? || c.loop.Inline? ==> |c.received| > 0 && c.loop.kind == c.received[|c.received| - 1].kind)
    && (c.loop.Spawn? ==> |c.received| > 0 && c.received[|c.received| - 1].kind.Ordinary?)
  }

  /** Whoever handles a request holds a writer over the channel the request was read from. */
  ghost predicate HandlersMatch(c: Conn) {
    forall r :: r in c.running ==>
      1 <= r <= |c.received| && c.running[r] == c.received[r - 1].writer && c.received[r - 1].kind.Ordinary?
  }

  /** Every response went to the channel its request was read from. */
  ghost predicate WritesMatch(c: Conn) {
    && (forall i :: 0 <= i < |c.written| ==> WriteMatches(c, c.written[i]))
    && (c.lock.Some? ==> c.lock.value.channel < |c.streams|)
  }

  ghost predicate WriteMatches(c: Conn, w: WriteEvent) {
    || (1 <= w.id <= |c.received| && w.channel == c.received[w.id - 1].writer)
    || (w.id == |c.received| + 1 && w.packet == NoticePacket() && c.stopping && w.channel == c.handshakes)
  }

  ghost predicate ChannelInv(c: Conn) {
    Numbered(c) && OnOneChannel(c) && LoopMatches(c) && HandlersMatch(c) && WritesMatch(c) && NoticeIsLast(c)
  }

  /** Once the loop has seen the shutdown it writes its notice and returns. */
  ghost predicate NoticeIsLast(c: Conn) {
    && (c.stopping ==> c.loop.Notice? || c.loop.Noticing? || Ended(c.loop))
    && (c.loop.Notice? || c.loop.Noticing? ==> c.stopping)
    && c.notices == (if c.stopping && !c.loop.Notice? then 1 else 0)
  }

  // ---------- what each kind of step leaves alone ----------

  /** The loop's step leaves the writers and the finishing handlers alone. */
  ghost predicate LoopFrame(c: Conn, d: Conn) {
    && d.lock == c.lock && d.written == c.written && d.ending == c.ending && d.notices == c.notices
    && d.bornLate == c.bornLate
    && (d.streams == c.streams || d.streams == c.streams + [FRESH_STREAM])
  }

  /** A handler's step leaves the loop's state alone, except that writing the notice starts. */
  ghost predicate HandlerFrame(c: Conn, d: Conn) {
    && d.requestID == c.requestID && d.reader == c.reader && d.writer == c.writer && d.handshakes == c.handshakes
    && d.received == c.received && d.dispatched == c.dispatched && d.stopping == c.stopping && d.bornLate == c.bornLate
    && |d.streams| == |c.streams|
    && ((d.loop == c.loop && d.notices == c.notices)
        || (c.loop.Notice? && d.loop == Noticing(c.loop.w) && d.notices == c.notices + 1))
  }

  /** A writer's step changes only the stream written to, and the lock. */
  ghost predicate WriteFrame(c: Conn, d: Conn) {
    && c.lock.Some? && c.lock.value.channel < |c.streams| && |d.streams| == |c.streams|
    && d == c.(lock := d.lock, streams := d.streams)
    && (d.lock.Some? ==> d.lock.value == c.lock.value.(pos := d.lock.value.pos))
    && (forall g :: 0 <= g < |c.streams| && g != c.lock.value.channel ==> d.streams[g] == c.streams[g])
  }

  lemma LoopStepFrame(c: Conn, a: Action, cancelled: bool, d: Conn)
    requires LoopStep(c, a, cancelled) == Some(d)
    ensures LoopFrame(c, d)
  {
  }

  lemma HandlerStepFrame(c: Conn, a: Action, d: Conn)
    requires HandlerStep(c, a) == Some(d)
    ensures HandlerFrame(c, d) && d.streams == c.streams
  {
  }

  lemma WriteStepFrame(c: Conn, a: Action, d: Conn)
    requires WriteStep(c, a) == Some(d)
    ensures WriteFrame(c, d) && HandlerFrame(c, d)
  {
  }

  /** Taking the lock records the write, and starts the notice if that is what is written. */
  lemma LockWriterFrame(c: Conn, r: nat, p: Packet, d: Conn)
    requires HandlerStep(c, LockWriter(r, p)) == Some(d)
    ensures d.requestsWg == c.requestsWg && d.running == c.running && d.ending == c.ending && d.requestID == c.requestID
    ensures d.lock.Some? && d.written == c.written + [WriteEvent(r, d.lock.value.channel, p)] && Sendable(p)
    ensures || (c.loop.Notice? && d.loop.Noticing? && r == c.requestID && p == NoticePacket() && d.lock.value.channel == c.loop.w)
            || (d.loop == c.loop && WriterOf(c, r) == Some(d.lock.value.channel))
  {
  }

  // ---------- channels ----------

  lemma NumberedLoop(c: Conn, a: Action, cancelled: bool, d: Conn)
    requires Numbered(c) && LoopStep(c, a, cancelled) == Some(d)
    ensures Numbered(d)
  {
  }

  lemma OnOneChannelLoop(c: Conn, a: Action, cancelled: bool, d: Conn)
    requires OnOneChannel(c) && LoopStep(c, a, cancelled) == Some(d)
    ensures OnOneChannel(d)
  {
  }

  lemma NoticeIsLastLoop(c: Conn, a: Action, cancelled: bool, d: Conn)
    requires NoticeIsLast(c) && LoopStep(c, a, cancelled) == Some(d)
    ensures NoticeIsLast(d)
  {
  }

  lemma LoopMatchesLoop(c: Conn, a: Action, cancelled: bool, d: Conn)
    requires Numbered(c) && OnOneChannel(c) && LoopMatches(c) && LoopStep(c, a, cancelled) == Some(d)
    ensures LoopMatches(d)
  {
  }

  lemma HandlersMatchLoop(c: Conn, a: Action, cancelled: bool, d: Conn)
    requires Numbered(c) && LoopMatches(c) && HandlersMatch(c) && LoopStep(c, a, cancelled) == Some(d)
    ensures HandlersMatch(d)
  {
  }

  lemma ReceivedGrows(c: Conn, a: Action, cancelled: bool, d: Conn)
    requires NoticeIsLast(c) && LoopStep(c, a, cancelled) == Some(d)
    ensures c.received <= d.received
    ensures c.stopping ==> d.stopping && d.received == c.received && d.handshakes == c.handshakes
  {
  }

  lemma WritesMatchGrow(c: Conn, d: Conn)
    requires WritesMatch(c) && d.written == c.written && d.lock == c.lock && |c.streams| <= |d.streams|
    requires c.received <= d.received
    requires c.stopping ==> d.stopping && d.received == c.received && d.handshakes == c.handshakes
    ensures WritesMatch(d)
  {
    forall i | 0 <= i < |d.written| ensures WriteMatches(d, d.written[i]) {
      assert WriteMatches(c, c.written[i]);
    }
  }

  lemma HandlersMatchHandler(c: Conn, a: Action, d: Conn)
    requires HandlersMatch(c) && HandlerStep(c, a) == Some(d)
    ensures HandlersMatch(d)
  {
  }

  lemma NewWriteMatches(c: Conn, r: nat, p: Packet, d: Conn)
    requires ChannelInv(c) && HandlerStep(c, LockWriter(r, p)) == Some(d) && HandlerFrame(c, d)
    ensures WriteMatches(c, WriteEvent(r, d.lock.value.channel, p)) && d.lock.value.channel < |c.streams|
  {
    LockWriterFrame(c, r, p, d);
  }

  lemma WritesMatchHandler(c: Conn, a: Action, d: Conn)
    requires ChannelInv(c) && HandlerStep(c, a) == Some(d)
    ensures WritesMatch(d)
  {
    HandlerStepFrame(c, a, d);
    if a.LockWriter? {
      LockWriterFrame(c, a.request, a.packet, d);
      NewWriteMatches(c, a.request, a.packet, d);
    }
    forall i | 0 <= i < |d.written| ensures WriteMatches(d, d.written[i]) {
      assert i < |c.written| ==> WriteMatches(c, c.written[i]);
    }
  }

  lemma ChannelInvFrame(c: Conn, d: Conn)
    requires ChannelInv(c) && HandlerFrame(c, d)
    ensures Numbered(d) && OnOneChannel(d) && NoticeIsLast(d) && LoopMatches(d)
  {
  }

  lemma WriteKeepsMatches(c: Conn, d: Conn)
    requires ChannelInv(c) && WriteFrame(c, d)
    ensures HandlersMatch(d) && WritesMatch(d)
  {
    forall i | 0 <= i < |d.written| ensures WriteMatches(d, d.written[i]) {
      assert WriteMatches(c, c.written[i]);
    }
  }

  lemma ChannelStep(c: Conn, a: Action, cancelled: bool, d: Conn)
    requires ChannelInv(c) && Step(c, a, cancelled) == Some(d)
    ensures ChannelInv(d)
  {
    if LoopStep(c, a, cancelled).Some? {
      NumberedLoop(c, a, cancelled, d);
      OnOneChannelLoop(c, a, cancelled, d);
      NoticeIsLastLoop(c, a, cancelled, d);
      LoopMatchesLoop(c, a, cancelled, d);
      HandlersMatchLoop(c, a, cancelled, d);
      LoopStepFrame(c, a, cancelled, d);
      ReceivedGrows(c, a, cancelled, d);
      WritesMatchGrow(c, d);
    } else if HandlerStep(c, a).Some? {
      HandlerStepFrame(c, a, d);
      ChannelInvFrame(c, d);
      HandlersMatchHandler(c, a, d);
      WritesMatchHandler(c, a, d);
    } else {
      WriteStepFrame(c, a, d);
      ChannelInvFrame(c, d);
      WriteKeepsMatches(c, d);
    }
  }

  // ---------- handlers in flight ----------

  /** requestsWg counts exactly the handlers that were dispatched and are not done. */
  ghost predicate Counted(c: Conn) {
    && c.requestsWg == |c.running.Keys| + |c.ending| + (if c.loop.Spawn? then 1 else 0)
    && c.running.Keys !! c.ending
    && (forall r :: r in c.running.Keys || r in c.ending ==>
          r <= c.requestID && (BeforeRead(c.loop) || AfterRead(c.loop) ==> r < c.requestID))
    && (c.loop.Closed? || c.loop.Gone? ==> c.running.Keys == {} && c.ending == {})
  }

  /** The writer lock is held only by a running handler, or by the loop while it writes. */
  ghost predicate LockHeld(c: Conn) {
    c.lock.Some? ==>
      c.lock.value.request in c.running || (c.lock.value.request == c.requestID && (c.loop.Inline? || c.loop.Noticing?))
  }

  lemma CountedStart(c: Conn, d: Conn)
    requires Counted(c) && c.loop.Spawn? && d == c.(loop := Top, running := c.running[c.requestID := c.loop.w])
    ensures Counted(d)
  {
    assert d.running.Keys == c.running.Keys + {c.requestID};
  }

  lemma CountedLoop(c: Conn, a: Action, cancelled: bool, d: Conn)
    requires Counted(c) && LoopStep(c, a, cancelled) == Some(d)
    ensures Counted(d)
  {
    if a.StartHandler? {
      CountedStart(c, d);
    } else if a.CloseSocket? {
      assert |c.running.Keys| == 0 && |c.ending| == 0;
    } else {
      assert d.running == c.running && d.ending == c.ending;
    }
  }

  lemma CountedFinish(c: Conn, r: nat)
    requires Counted(c) && r in c.running
    ensures Counted(c.(running := c.running - {r}, ending := c.ending + {r}))
  {
    assert (c.running - {r}).Keys == c.running.Keys - {r};
  }

  lemma CountedDone(c: Conn, r: nat)
    requires Counted(c) && r in c.ending
    ensures Counted(c.(ending := c.ending - {r}, requestsWg := c.requestsWg - 1))
  {
  }

  /** Counting does not look at the lock or at what was written. */
  lemma CountedAlike(c: Conn, d: Conn)
    requires Counted(c) && d.requestsWg == c.requestsWg && d.running == c.running && d.ending == c.ending
    requires d.requestID == c.requestID && (d.loop == c.loop || (c.loop.Notice? && d.loop.Noticing?))
    ensures Counted(d)
  {
  }

  lemma CountedHandler(c: Conn, a: Action, d: Conn)
    requires Counted(c) && HandlerStep(c, a) == Some(d)
    ensures Counted(d)
  {
    match a
    case FinishHandler(r) => CountedFinish(c, r);
    case RequestDone(r) => CountedDone(c, r);
    case LockWriter(r, p) =>
      LockWriterFrame(c, r, p, d);
      CountedAlike(c, d);
  }

  lemma LockHeldLoop(c: Conn, a: Action, cancelled: bool, d: Conn)
    requires Counted(c) && LockHeld(c) && LoopStep(c, a, cancelled) == Some(d)
    ensures LockHeld(d)
  {
  }

  lemma LockHeldHandler(c: Conn, a: Action, d: Conn)
    requires LockHeld(c) && HandlerStep(c, a) == Some(d)
    ensures LockHeld(d)
  {
  }

  lemma CountedStep(c: Conn, a: Action, cancelled: bool, d: Conn)
    requires Counted(c) && LockHeld(c) && Step(c, a, cancelled) == Some(d)
    ensures Counted(d) && LockHeld(d)
  {
    if LoopStep(c, a, cancelled).Some? {
      CountedLoop(c, a, cancelled, d);
      LockHeldLoop(c, a, cancelled, d);
    } else if HandlerStep(c, a).Some? {
      CountedHandler(c, a, d);
      LockHeldHandler(c, a, d);
    } else {
      WriteStepFrame(c, a, d);
    }
  }

  // ---------- shutdown and unbind ----------

  /** Nothing follows an unbind: it is the last request read. */
  ghost predicate UnbindLast(c: Conn) {
    forall i :: 0 <= i < |c.received| && c.received[i].kind.Unbind? ==>
      && i == |c.received| - 1
      && (((c.loop.Dispatch? || c.loop.Inline?) && c.loop.kind.Unbind?) || Ended(c.loop))
  }

  /** Every request but an unbind is dispatched, once and in order. */
  ghost predicate DispatchedInOrder(c: Conn) {
    && |c.dispatched| == |c.received| -
       (if c.loop.Dispatch? || (|c.received| > 0 && c.received[|c.received| - 1].kind.Unbind?) then 1 else 0)
    && (forall i :: 0 <= i < |c.dispatched| ==> c.dispatched[i].id == i + 1)
  }

  /** At most the last dispatch happened after the cancellation, and no read follows it. */
  ghost predicate OneLateDispatch(c: Conn, cancelled: bool) {
    forall i :: 0 <= i < |c.dispatched| && c.dispatched[i].cancelled ==>
      i == |c.dispatched| - 1 && cancelled && !c.loop.Read? && !c.loop.Dispatch?
  }

  /** A connection that starts after the cancellation reads nothing. */
  ghost predicate LateReadsNothing(c: Conn, cancelled: bool) {
    && (c.stopping ==> cancelled)
    && (c.bornLate ==> cancelled && c.received == [] && c.dispatched == [] && !c.loop.Read? && !AfterRead(c.loop))
  }

  ghost predicate ShutdownInv(c: Conn, cancelled: bool) {
    UnbindLast(c) && DispatchedInOrder(c) && OneLateDispatch(c, cancelled) && LateReadsNothing(c, cancelled)
  }

  lemma UnbindLastLoop(c: Conn, a: Action, cancelled: bool, d: Conn)
    requires LoopMatches(c) && UnbindLast(c) && LoopStep(c, a, cancelled) == Some(d)
    ensures UnbindLast(d)
  {
  }

  lemma DispatchedInOrderLoop(c: Conn, a: Action, cancelled: bool, d: Conn)
    requires Numbered(c) && LoopMatches(c) && UnbindLast(c) && DispatchedInOrder(c) && LoopStep(c, a, cancelled) == Some(d)
    ensures DispatchedInOrder(d)
  {
  }

  lemma LateLoop(c: Conn, a: Action, cancelled: bool, d: Conn)
    requires OneLateDispatch(c, cancelled) && LateReadsNothing(c, cancelled) && LoopStep(c, a, cancelled) == Some(d)
    ensures OneLateDispatch(d, cancelled) && LateReadsNothing(d, cancelled)
  {
  }

  lemma ShutdownFrame(c: Conn, cancelled: bool, d: Conn)
    requires ShutdownInv(c, cancelled) && HandlerFrame(c, d)
    ensures ShutdownInv(d, cancelled)
  {
  }

  lemma ShutdownStep(c: Conn, a: Action, cancelled: bool, d: Conn)
    requires ChannelInv(c) && ShutdownInv(c, cancelled) && Step(c, a, cancelled) == Some(d)
    ensures ShutdownInv(d, cancelled)
  {
    if LoopStep(c, a, cancelled).Some? {
      UnbindLastLoop(c, a, cancelled, d);
      DispatchedInOrderLoop(c, a, cancelled, d);
      LateLoop(c, a, cancelled, d);
    } else {
      if HandlerStep(c, a).Some? {
        HandlerStepFrame(c, a, d);
      } else {
        WriteStepFrame(c, a, d);
      }
      ShutdownFrame(c, cancelled, d);
    }
  }

  // ---------- the notice among the writes ----------

  /** How many writes were made for one request ID. */
  function WritesFor(ws: seq<WriteEvent>, id: nat): nat {
    if ws == [] then 0
    else WritesFor(ws[..|ws| - 1], id) + if ws[|ws| - 1].id == id then 1 else 0
  }

  /** The notices counted are the writes made under the ID that no request has. */
  ghost predicate NoticeWritten(c: Conn) {
    WritesFor(c.written, |c.received| + 1) == c.notices
  }

  lemma {:induction false} NoWritesFor(ws: seq<WriteEvent>, id: nat)
    requires forall i :: 0 <= i < |ws| ==> ws[i].id != id
    ensures WritesFor(ws, id) == 0
  {
    if ws != [] {
      NoWritesFor(ws[..|ws| - 1], id);
    }
  }

  lemma NoticeWrittenLoop(c: Conn, a: Action, cancelled: bool, d: Conn)
    requires ChannelInv(c) && NoticeWritten(c) && LoopStep(c, a, cancelled) == Some(d)
    ensures NoticeWritten(d)
  {
    LoopStepFrame(c, a, cancelled, d);
    ReceivedGrows(c, a, cancelled, d);
    if d.received != c.received {
      forall i | 0 <= i < |c.written| ensures c.written[i].id != |d.received| + 1 {
        assert WriteMatches(c, c.written[i]);
      }
      NoWritesFor(c.written, |d.received| + 1);
    }
  }

  lemma NoticeWrittenHandler(c: Conn, a: Action, d: Conn)
    requires ChannelInv(c) && NoticeWritten(c) && HandlerStep(c, a) == Some(d)
    ensures NoticeWritten(d)
  {
    HandlerStepFrame(c, a, d);
    if a.LockWriter? {
      LockWriterFrame(c, a.request, a.packet, d);
      assert d.written[..|d.written| - 1] == c.written;
    }
  }

  lemma NoticeWrittenStep(c: Conn, a: Action, cancelled: bool, d: Conn)
    requires ChannelInv(c) && NoticeWritten(c) && Step(c, a, cancelled) == Some(d)
    ensures NoticeWritten(d)
  {
    if LoopStep(c, a, cancelled).Some? {
      NoticeWrittenLoop(c, a, cancelled, d);
    } else if HandlerStep(c, a).Some? {
      NoticeWrittenHandler(c, a, d);
    } else {
      WriteStepFrame(c, a, d);
    }
  }

  // ---------- after the close handler ----------

  /** A connection whose close handler has been called has no step left to take. */
  lemma GoneIsStill(c: Conn, a: Action, cancelled: bool)
    requires Counted(c) && LockHeld(c) && c.loop.Gone?
    ensures Step(c, a, cancelled) == None
  {
    assert c.running.Keys == {};
  }
}
