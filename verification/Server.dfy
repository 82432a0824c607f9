/**
 The server as a step system over its connections: the accept loop of Run, a call of Stop,
 and every connection's own steps, interleaved in any order.
 */
module Server {
  import opened Go
  import opened Connection

  /** Where the accept loop is. */
  datatype Accept =
    | AcceptTop      // about to count a connection and look at the shutdown context
    | Accepting      // blocked in listener.Accept
    | Accepted       // has a connection, has not added it to connWg
    | Starting       // has added to connWg, about to start the connection's goroutine
    | AcceptReturned

  /** How far a call of Stop has come. */
  datatype Stop = NotStopped | ListenerClosed | Cancelled | StopReturned

  datatype State = State(
    connID: nat,
    accept: Accept,
    stop: Stop,
    connWg: int,
    conns: map<nat, Conn>,
    // the connection IDs the close handler was called with, in order
    closeCalls: seq<nat>)

  const INIT := State(0, AcceptTop, NotStopped, 0, map[], [])

  datatype ServerAction =
    | CheckContext
    | AcceptConn
    | AcceptFails
    | AddConn
    | StartConn
    | CloseListener
    | Cancel
    | StopReturns
    | OnConn(id: nat, action: Action)

  predicate IsCancelled(s: State) {
    s.stop.Cancelled? || s.stop.StopReturned?
  }

  ghost function ServerStep(s: State, a: ServerAction): Option<State> {
    match a
    case CheckContext =>
      if !s.accept.AcceptTop? then None
      else Some(s.(connID := s.connID + 1, accept := if IsCancelled(s) then AcceptReturned else Accepting))
    case AcceptConn =>
      if s.accept.Accepting? && s.stop.NotStopped? then Some(s.(accept := Accepted)) else None
    case AcceptFails =>
      if s.accept.Accepting? then Some(s.(accept := AcceptReturned)) else None
    case AddConn =>
      if s.accept.Accepted? then Some(s.(accept := Starting, connWg := s.connWg + 1)) else None
    case StartConn =>
      if !s.accept.Starting? then None
      else Some(s.(accept := AcceptTop, conns := s.conns[s.connID := NewConn(IsCancelled(s))]))
    case CloseListener =>
      if s.stop.NotStopped? then Some(s.(stop := ListenerClosed)) else None
    case Cancel =>
      if s.stop.ListenerClosed? then Some(s.(stop := Cancelled)) else None
    case StopReturns =>
      if s.stop.Cancelled? && s.connWg == 0 then Some(s.(stop := StopReturned)) else None
    case OnConn(id, action) =>
      if id !in s.conns then None
      else
        var c := Step(s.conns[id], action, IsCancelled(s));
        if c.None? then None
        else Some(s.(conns := s.conns[id := c.value],
                     connWg := if action.ConnDone? then s.connWg - 1 else s.connWg,
                     closeCalls := if action.OnClose? then s.closeCalls + [id] else s.closeCalls))
  }

  /** The state after a whole run, if every action was possible when its turn came. */
  ghost function Run(s: State, actions: seq<ServerAction>): Option<State>
    decreases |actions|
  {
    if actions == [] then Some(s)
    else
      var next := ServerStep(s, actions[0]);
      if next.None? then None else Run(next.value, actions[1..])
  }
}
