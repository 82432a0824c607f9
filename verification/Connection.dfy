/**
 One connection as a step system: the goroutine that runs serveRequests and then closes the
 connection, the handler goroutines it spawns, and the buffered writers they share a lock for.
 Each action below is one atomic step of one of those goroutines.
 */
module Connection {
  import opened Go
  import opened Ber

  /** What the dispatch switch of serveRequests tells apart. */
  datatype Kind = Ordinary | StartTLS | Unbind

  /** Where the connection's own goroutine is; `w` is the channel of the writer it took at the loop top. */
  datatype Loop =
    | Top                           // about to count a request and take the current writer
    | Check(w: nat)                 // about to look at the shutdown context
    | Notice(w: nat)                // shutting down, about to write the notice
    | Noticing(w: nat)              // inside the write of the notice
    | Read(w: nat)                  // blocked reading a request
    | Dispatch(w: nat, kind: Kind)  // has read a request
    | Spawn(w: nat)                 // has added to requestsWg, about to start the handler
    | Inline(w: nat, kind: Kind)    // running an unbind or StartTLS handler itself
    | Returned                      // serveRequests has returned
    | Closing                       // connWg.Done has been called; in conn.close
    | Closed                        // the socket is closed
    | Gone                          // the close handler has been called

  /** A buffered writer over one channel.  `packets` and `torn` record what was written. */
  datatype Stream = Stream(sent: string, buffered: string, broken: bool, packets: seq<Packet>, torn: Option<Packet>)

  /** A ResponseWriter.Write in progress: `pos` bytes of the packet have reached the buffer. */
  datatype Writing = Writing(request: nat, channel: nat, packet: Packet, pos: nat)

  /** A request as it was read: from which channel, with a writer over which, after how many handshakes. */
  datatype ReadEvent = ReadEvent(id: nat, kind: Kind, reader: nat, writer: nat, handshakes: nat)

  datatype DispatchEvent = DispatchEvent(id: nat, cancelled: bool)

  datatype WriteEvent = WriteEvent(id: nat, channel: nat, packet: Packet)

  datatype Conn = Conn(
    loop: Loop,
    requestID: nat,
    // the channel netConn, reader and writer are over: 0 is the accepted socket, each handshake makes the next
    reader: nat,
    writer: nat,
    handshakes: nat,
    requestsWg: int,
    // handler goroutines inside their handler, with the channel of their writer; and those past it, before Done
    running: map<nat, nat>,
    ending: set<nat>,
    lock: Option<Writing>,
    streams: seq<Stream>,
    // what has happened so far
    received: seq<ReadEvent>,
    dispatched: seq<DispatchEvent>,
    written: seq<WriteEvent>,
    notices: nat,
    stopping: bool,
    bornLate: bool)

  const FRESH_STREAM := Stream("", "", false, [], None)

  function NewConn(cancelled: bool): Conn {
    Conn(Top, 0, 0, 0, 0, 0, map[], {}, None, [FRESH_STREAM], [], [], [], 0, false, cancelled)
  }

  datatype Action =
    | TakeWriter
    | CheckShutdown
    | ReadRequest(kind: Kind)
    | ReadFails
    | AddRequest
    | StartHandler
    | RunInline
    | Handshake(ok: bool)
    | FinishInline(panics: bool)
    | NoticeDone
    | FinishHandler(request: nat)
    | RequestDone(request: nat)
    | LockWriter(request: nat, packet: Packet)
    | Buffer(count: nat)
    | Send(count: nat)
    | WriteFails
    | UnlockWriter
    | ConnDone
    | CloseSocket
    | OnClose

  /** The reply that announces a shutdown: message ID 0, unwilling to perform. */
  function NoticePacket(): Packet {
    Sequence([IntegerLeaf(0),
              Node(Application, Constructed, 24,
                   [NewInteger(Universal, Primitive, ENUMERATED, 53), StringLeaf("Unused"), StringLeaf("server stopping")])])
  }

  ghost predicate Sendable(p: Packet) {
    WellFormed(p) && !IsEOC(p) && |p.data| < TWO_63
  }

  /** The channel a response of `request` goes to, if `request` is being handled now. */
  function WriterOf(c: Conn, request: nat): Option<nat> {
    if request in c.running then Some(c.running[request])
    else if c.loop.Inline? && request == c.requestID then Some(c.loop.w)
    else None
  }

  predicate Writes(c: Conn, request: nat) {
    c.lock.Some? && c.lock.value.request == request
  }

  function Update(c: Conn, channel: nat, s: Stream): Conn
    requires channel < |c.streams|
  {
    c.(streams := c.streams[channel := s])
  }

  function Lock(c: Conn, request: nat, channel: nat, packet: Packet): Conn {
    c.(lock := Some(Writing(request, channel, packet, 0)),
       written := c.written + [WriteEvent(request, channel, packet)])
  }

  /** The write in progress, on a stream that still accepts bytes. */
  predicate WritingOk(c: Conn) {
    c.lock.Some? && c.lock.value.channel < |c.streams| && !c.streams[c.lock.value.channel].broken
  }

  function Locked(c: Conn): Stream
    requires c.lock.Some? && c.lock.value.channel < |c.streams|
  {
    c.streams[c.lock.value.channel]
  }

  /** The steps of the connection's own goroutine, in serveRequests and in the deferred close. */
  function LoopStep(c: Conn, a: Action, cancelled: bool): Option<Conn> {
    match a
    case TakeWriter =>
      if c.loop.Top? then Some(c.(loop := Check(c.writer), requestID := c.requestID + 1)) else None
    case CheckShutdown =>
      if !c.loop.Check? then None
      else if cancelled then Some(c.(loop := Notice(c.loop.w), stopping := true))
      else Some(c.(loop := Read(c.loop.w)))
    case ReadRequest(kind) =>
      if !c.loop.Read? then None
      else Some(c.(loop := Dispatch(c.loop.w, kind),
                   received := c.received + [ReadEvent(c.requestID, kind, c.reader, c.loop.w, c.handshakes)]))
    case ReadFails =>
      if c.loop.Read? then Some(c.(loop := Returned)) else None
    case AddRequest =>
      if c.loop.Dispatch? && c.loop.kind.Ordinary? then
        Some(c.(loop := Spawn(c.loop.w), requestsWg := c.requestsWg + 1,
                dispatched := c.dispatched + [DispatchEvent(c.requestID, cancelled)]))
      else None
    case StartHandler =>
      if c.loop.Spawn? then Some(c.(loop := Top, running := c.running[c.requestID := c.loop.w])) else None
    case RunInline =>
      if !c.loop.Dispatch? || c.loop.kind.Ordinary? then None
      else if c.loop.kind.Unbind? then Some(c.(loop := Inline(c.loop.w, Unbind)))
      else Some(c.(loop := Inline(c.loop.w, StartTLS), dispatched := c.dispatched + [DispatchEvent(c.requestID, cancelled)]))
    case Handshake(ok) =>
      if !c.loop.Inline? || !c.loop.kind.StartTLS? || Writes(c, c.requestID) then None
      else if !ok then Some(c)
      else Some(c.(handshakes := c.handshakes + 1, reader := c.handshakes + 1, writer := c.handshakes + 1,
                   streams := c.streams + [FRESH_STREAM]))
    case FinishInline(panics) =>
      if !c.loop.Inline? || Writes(c, c.requestID) then None
      else Some(c.(loop := if panics || c.loop.kind.Unbind? then Returned else Top))
    case NoticeDone =>
      if c.loop.Noticing? && !Writes(c, c.requestID) then Some(c.(loop := Returned)) else None
    case ConnDone =>
      if c.loop.Returned? then Some(c.(loop := Closing)) else None
    case CloseSocket =>
      if c.loop.Closing? && c.requestsWg == 0 then Some(c.(loop := Closed)) else None
    case OnClose =>
      if c.loop.Closed? then Some(c.(loop := Gone)) else None
    case _ => None
  }

  /** The steps by which a handler ends, and by which anyone starts to write a response. */
  ghost function HandlerStep(c: Conn, a: Action): Option<Conn> {
    match a
    case FinishHandler(r) =>
      if r in c.running && !Writes(c, r) then Some(c.(running := c.running - {r}, ending := c.ending + {r})) else None
    case RequestDone(r) =>
      if r in c.ending then Some(c.(ending := c.ending - {r}, requestsWg := c.requestsWg - 1)) else None
    case LockWriter(r, p) =>
      if c.lock.Some? || !Sendable(p) then None
      else if c.loop.Notice? && r == c.requestID && p == NoticePacket() then
        Some(Lock(c, r, c.loop.w, p).(loop := Noticing(c.loop.w), notices := c.notices + 1))
      else if WriterOf(c, r).Some? then Some(Lock(c, r, WriterOf(c, r).value, p))
      else None
    case _ => None
  }

  /** The steps of the one who holds the writer lock. */
  function WriteStep(c: Conn, a: Action): Option<Conn> {
    match a
    case Buffer(n) =>
      if !WritingOk(c) || c.lock.value.pos + n > |Serialise(c.lock.value.packet)| then None
      else
        var l, s := c.lock.value, Locked(c);
        var bytes := Serialise(l.packet)[l.pos..l.pos + n];
        Some(Update(c, l.channel, s.(buffered := s.buffered + bytes)).(lock := Some(l.(pos := l.pos + n))))
    case Send(n) =>
      if !WritingOk(c) || n > |Locked(c).buffered| then None
      else
        var s := Locked(c);
        Some(Update(c, c.lock.value.channel, s.(sent := s.sent + s.buffered[..n], buffered := s.buffered[n..])))
    case WriteFails =>
      if !WritingOk(c) then None
      else Some(Update(c, c.lock.value.channel, Locked(c).(broken := true, torn := Some(c.lock.value.packet))))
    case UnlockWriter =>
      if c.lock.None? || c.lock.value.channel >= |c.streams| then None
      else
        var l, s := c.lock.value, Locked(c);
        if s.broken then Some(c.(lock := None))
        // Flush returns without an error once everything has been sent
        else if l.pos < |Serialise(l.packet)| || s.buffered != "" then None
        else Some(Update(c, l.channel, s.(packets := s.packets + [l.packet])).(lock := None))
    case _ => None
  }

  ghost function Step(c: Conn, a: Action, cancelled: bool): Option<Conn> {
    if LoopStep(c, a, cancelled).Some? then LoopStep(c, a, cancelled)
    else if HandlerStep(c, a).Some? then HandlerStep(c, a)
    else WriteStep(c, a)
  }
}
