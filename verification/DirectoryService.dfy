/**
 The directory behind its multiplexer: packets read off the wire, routed, and answered by the
 directory's handlers.
 */
module DirectoryService {
  import opened Go
  import opened Ber
  import opened Controls
  import opened Messages
  import opened Responses
  import opened Routing
  import opened DirectoryModel
  import opened DirectoryHandlers

  const ON_BIND: Handler := 1
  const ON_START_TLS: Handler := 2
  const ON_SEARCH_USERS: Handler := 3
  const ON_SEARCH_GROUPS: Handler := 4
  const ON_SEARCH: Handler := 5
  const ON_MODIFY: Handler := 6
  const ON_ADD: Handler := 7
  const ON_DELETE: Handler := 8
  const ON_NOT_FOUND: Handler := 9

  /** The routes a directory is started with, in the order it registers them. */
  function DirectoryRoutes(c: Config): seq<Route> {
    [Route(BindOp, ON_BIND, BindCriteria(SIMPLE)), Route(ExtendedOp, ON_START_TLS, ExtendedCriteria(START_TLS)),
     Route(SearchOp, ON_SEARCH_USERS, SearchCriteria(c.userDN, "", 0)),
     Route(SearchOp, ON_SEARCH_GROUPS, SearchCriteria(c.groupDN, "", 0)),
     Route(SearchOp, ON_SEARCH, SearchCriteria("", "", 0)),
     Route(ModifyOp, ON_MODIFY, ModifyCriteria), Route(AddOp, ON_ADD, AddCriteria),
     Route(DeleteOp, ON_DELETE, DeleteCriteria)]
  }

  /** Start, as far as its multiplexer goes. */
  method NewDirectoryMux(c: Config) returns (mux: Mux)
    ensures fresh(mux) && mux.Valid() && mux.routes == DirectoryRoutes(c) && mux.defaultRoute == Some(ON_NOT_FOUND)
  {
    mux := new Mux();
    var _ := mux.DefaultRoute(Some(ON_NOT_FOUND));
    var _ := mux.Register(Some(ON_BIND), BindCriteria(SIMPLE));
    var _ := mux.Register(Some(ON_START_TLS), ExtendedCriteria(START_TLS));
    var _ := mux.Register(Some(ON_SEARCH_USERS), SearchCriteria(c.userDN, "", 0));
    var _ := mux.Register(Some(ON_SEARCH_GROUPS), SearchCriteria(c.groupDN, "", 0));
    var _ := mux.Register(Some(ON_SEARCH), SearchCriteria("", "", 0));
    var _ := mux.Register(Some(ON_MODIFY), ModifyCriteria);
    var _ := mux.Register(Some(ON_ADD), AddCriteria);
    var _ := mux.Register(Some(ON_DELETE), DeleteCriteria);
  }

  /** A search goes to the handler of the first base DN that is its own or is empty, or else to the generic one. */
  function SearchRouteOf(c: Config, baseDN: string, fold: Fold): nat {
    if c.userDN == "" || fold(baseDN, c.userDN) then 2
    else if c.groupDN == "" || fold(baseDN, c.groupDN) then 3
    else 4
  }

  /** Which of the directory's routes serves a message. */
  lemma DirectoryRoute(c: Config, m: Message, fold: Fold, i: nat)
    ensures FirstTaker(DirectoryRoutes(c), m, fold, i) <==>
            match m
            case SimpleBind(_, _, _, _, _) => i == 0
            case Extended(_, name) => i == 1 && name == START_TLS
            case Search(_, base, _, _, _, _, _, _, _, _) => i == SearchRouteOf(c, base, fold)
            case Modify(_, _, _, _) => i == 5
            case Add(_, _, _, _) => i == 6
            case Delete(_, _, _) => i == 7
            case Unbind(_) => false
  {
    var routes := DirectoryRoutes(c);
    if !m.Search? {
      assert forall j :: 0 <= j < |routes| && Takes(routes[j], m, fold) ==> routes[j].op == OpOf(m);
      assert OpOf(m) == routes[0].op || OpOf(m) == routes[1].op || OpOf(m) == routes[5].op || OpOf(m) == routes[6].op
          || OpOf(m) == routes[7].op || m.Unbind?;
    } else {
      assert Takes(routes[2], m, fold) <==> c.userDN == "" || fold(m.baseDN, c.userDN);
      assert Takes(routes[3], m, fold) <==> c.groupDN == "" || fold(m.baseDN, c.groupDN);
      assert Takes(routes[4], m, fold);
    }
  }

  /** In particular a search goes to the generic handler exactly when its base is neither of the two base DNs. */
  lemma SearchRoute(c: Config, id: nat, m: Message, fold: Fold)
    requires m.Search?
    ensures FirstMatch(DirectoryRoutes(c), NewRequest(id, m), fold, 4) <==>
            c.userDN != "" && c.groupDN != "" && !fold(m.baseDN, c.userDN) && !fold(m.baseDN, c.groupDN)
    ensures DirectoryRoutes(c)[4].handler == ON_SEARCH
  {
    var routes, req := DirectoryRoutes(c), NewRequest(id, m);
    assert Match(routes[4], req, fold) && !Match(routes[0], req, fold) && !Match(routes[1], req, fold);
    assert Match(routes[2], req, fold) <==> c.userDN == "" || fold(m.baseDN, c.userDN);
    assert Match(routes[3], req, fold) <==> c.groupDN == "" || fold(m.baseDN, c.groupDN);
  }

  /** What a handler does to the directory and what it writes; StartTLS is not the directory's business. */
  ghost function Handled(d: Dir, c: Config, h: Handler, m: Message, ok: Writes): (Dir, seq<Response>) {
    if h == ON_ADD then (HandleAdd(d, m).0, [HandleAdd(d, m).1])
    else if h == ON_DELETE then (HandleDelete(d, m).0, [HandleDelete(d, m).1])
    else if h == ON_MODIFY then (HandleModify(d, m).0, [HandleModify(d, m).1])
    else if h == ON_BIND then (d, [HandleBind(d, c, m)])
    else if h == ON_SEARCH_USERS then (d, SearchUsers(d, c, m, ok))
    else if h == ON_SEARCH_GROUPS then (d, SearchGroups(d, c, m, ok))
    else if h == ON_SEARCH then (d, SearchGeneric(d, c, m, ok))
    else if h == ON_NOT_FOUND then
      (d, [Result(m.id, EXTENDED_RESPONSE, UNWILLING_TO_PERFORM, UNUSED, "intentionally not handled", [])])
    else (d, [])
  }

  /** Runs the directory's handler `h`. */
  method Handle(dir: Directory, h: Handler, m: Message, ok: Writes, ghost c: Config, ghost tokens: set<object>)
    returns (stream: seq<Response>)
    requires dir.Valid() && dir.Configured(c) && dir.TokensRead(c, tokens)
    modifies dir`users, dir`groups, dir`model, dir`repr, dir.repr
    ensures dir.Valid() && fresh(dir.repr - old(dir.repr))
    ensures (dir.model, stream) == Handled(old(dir.model), c, h, m, ok)
  {
    if h == ON_ADD {
      var r := dir.HandleAdd(m);
      stream := [r];
    } else if h == ON_DELETE {
      var r := dir.HandleDelete(m);
      stream := [r];
    } else if h == ON_MODIFY {
      var r := dir.HandleModify(m);
      stream := [r];
    } else if h == ON_BIND {
      var r := dir.HandleBind(m);
      stream := [r];
    } else if h == ON_SEARCH_USERS {
      stream := dir.HandleSearchUsers(m, ok, c);
    } else if h == ON_SEARCH_GROUPS {
      stream := dir.HandleSearchGroups(m, ok, c);
    } else if h == ON_SEARCH {
      stream := dir.HandleSearchGeneric(m, ok, c, tokens);
    } else if h == ON_NOT_FOUND {
      stream := [Result(m.id, EXTENDED_RESPONSE, UNWILLING_TO_PERFORM, UNUSED, "intentionally not handled", [])];
    } else {
      stream := [];
    }
  }

  /** The handler that serves a message: its first taker's, or the one for everything else. */
  function HandlerOf(c: Config, m: Message, fold: Fold): Handler {
    match m
    case SimpleBind(_, _, _, _, _) => ON_BIND
    case Extended(_, name) => if name == START_TLS then ON_START_TLS else ON_NOT_FOUND
    case Search(_, base, _, _, _, _, _, _, _, _) => DirectoryRoutes(c)[SearchRouteOf(c, base, fold)].handler
    case Modify(_, _, _, _) => ON_MODIFY
    case Add(_, _, _, _) => ON_ADD
    case Delete(_, _, _) => ON_DELETE
    case Unbind(_) => ON_NOT_FOUND
  }

  /** A message served: the state it leaves and the responses it gets. */
  ghost function Served(d: Dir, c: Config, m: Message, fold: Fold, ok: Writes): (Dir, seq<Response>) {
    Handled(d, c, HandlerOf(c, m, fold), m, ok)
  }

  /** Serving is the step the directory's runs are made of, wherever the multiplexer sends a message. */
  lemma ServedIsNext(d: Dir, c: Config, m: Message, fold: Fold, ok: Writes)
    ensures Served(d, c, m, fold, ok).0 == Next(d, m)
  {
  }

  lemma RoutesToHandler(c: Config, m: Message, fold: Fold)
    ensures forall i: nat :: FirstTaker(DirectoryRoutes(c), m, fold, i) ==> DirectoryRoutes(c)[i].handler == HandlerOf(c, m, fold)
    ensures NoTaker(DirectoryRoutes(c), m, fold) ==> HandlerOf(c, m, fold) == ON_NOT_FOUND
  {
    forall i: nat | FirstTaker(DirectoryRoutes(c), m, fold, i)
      ensures DirectoryRoutes(c)[i].handler == HandlerOf(c, m, fold)
    {
      DirectoryRoute(c, m, fold, i);
    }
    if m.Search? {
      DirectoryRoute(c, m, fold, SearchRouteOf(c, m.baseDN, fold));
    } else {
      DirectoryRoute(c, m, fold, 0);
      DirectoryRoute(c, m, fold, 1);
      DirectoryRoute(c, m, fold, 5);
      DirectoryRoute(c, m, fold, 6);
      DirectoryRoute(c, m, fold, 7);
    }
  }

  /**
   From the wire to the response writer: the first packet of the bytes is read, made into a request,
   routed and handled.
   */
  method ServeBytes(dir: Directory, mux: Mux, id: nat, bytes: string, decompile: Decompile, fold: Fold, ok: Writes,
                    c: Config, ghost tokens: set<object>) returns (r: Outcome<seq<Response>>)
    requires dir.Valid() && dir.Configured(c) && dir.TokensRead(c, tokens)
    requires mux.Valid() && mux.routes == DirectoryRoutes(c) && mux.defaultRoute == Some(ON_NOT_FOUND)
    modifies dir`users, dir`groups, dir`model, dir`repr, dir.repr
    ensures dir.Valid() && fresh(dir.repr - old(dir.repr))
    ensures ReadPacket(bytes).Ok? && NewMessage(ReadPacket(bytes).value.0, decompile).Ok? ==>
              var m := NewMessage(ReadPacket(bytes).value.0, decompile).value;
              r.Ok? && (dir.model, r.value) == Served(old(dir.model), c, m, fold, ok)
    ensures !(ReadPacket(bytes).Ok? && NewMessage(ReadPacket(bytes).value.0, decompile).Ok?) ==>
              !r.Ok? && dir.model == old(dir.model)
  {
    var read :- ReadPacket(bytes);
    var p := read.0;
    var e :- mux.ServePacket(id, p, decompile, fold);
    ghost var m := NewMessage(p, decompile).value;
    RoutesToHandler(c, m, fold);
    var stream := Handle(dir, e.handler, NewMessage(p, decompile).value, ok, c, tokens);
    return Ok(stream);
  }
}
