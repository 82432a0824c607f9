/** Routing: which registered handler serves a request. */
module Routing {
  import opened Go
  import opened Ber
  import opened Messages
  import opened Responses

  /** A handler function, by identity. */
  type Handler = nat

  datatype RouteOp = BindOp | SearchOp | ExtendedOp | ModifyOp | AddOp | DeleteOp | UnbindOp

  datatype Incoming = Incoming(id: nat, message: Message, routeOp: RouteOp, extendedName: string)

  function OpOf(m: Message): RouteOp {
    match m
    case SimpleBind(_, _, _, _, _) => BindOp
    case Search(_, _, _, _, _, _, _, _, _, _) => SearchOp
    case Extended(_, _) => ExtendedOp
    case Modify(_, _, _, _) => ModifyOp
    case Add(_, _, _, _) => AddOp
    case Delete(_, _, _) => DeleteOp
    case Unbind(_) => UnbindOp
  }

  /** newRequest, once its packet has been decoded. */
  function NewRequest(id: nat, m: Message): Incoming {
    Incoming(id, m, OpOf(m), if m.Extended? then m.name else "")
  }

  datatype Route = Route(op: RouteOp, handler: Handler, criteria: Criteria)

  /** The dynamic type of a route, with what it compares. */
  datatype Criteria =
    | BindCriteria(authChoice: string)
    | SearchCriteria(basedn: string, filter: string, scope: int64)
    | ExtendedCriteria(extendedName: string)
    | ModifyCriteria
    | AddCriteria
    | DeleteCriteria

  /** strings.EqualFold, left abstract. */
  type Fold = (string, string) -> bool

  predicate Match(r: Route, req: Incoming, fold: Fold) {
    r.op == req.routeOp &&
    match r.criteria
    case BindCriteria(auth) => req.message.SimpleBind? && auth != "" && auth == req.message.authChoice
    case SearchCriteria(basedn, filter, scope) =>
      && req.message.Search?
      && (basedn != "" ==> fold(req.message.baseDN, basedn))
      && (filter != "" ==> fold(req.message.filter, filter))
      && (scope != 0 ==> req.message.scope == scope)
    case ExtendedCriteria(name) => name == req.extendedName && req.message.Extended?
    case ModifyCriteria => req.message.Modify?
    case AddCriteria => req.message.Add?
    case DeleteCriteria => req.message.Delete?
  }

  function CriteriaOp(c: Criteria): RouteOp {
    match c
    case BindCriteria(_) => BindOp
    case SearchCriteria(_, _, _) => SearchOp
    case ExtendedCriteria(_) => ExtendedOp
    case ModifyCriteria => ModifyOp
    case AddCriteria => AddOp
    case DeleteCriteria => DeleteOp
  }

  /** A route as the registration methods make them. */
  predicate Registered(r: Route) {
    r.op == CriteriaOp(r.criteria) && (r.criteria.BindCriteria? ==> r.criteria.authChoice == SIMPLE)
  }

  /** Routes that tell messages of their own operation apart by name, base DN, filter or scope. */
  predicate Accepts(c: Criteria, m: Message, fold: Fold) {
    match c
    case SearchCriteria(basedn, filter, scope) =>
      && m.Search? && (basedn == "" || fold(m.baseDN, basedn)) && (filter == "" || fold(m.filter, filter))
      && (scope == 0 || m.scope == scope)
    case ExtendedCriteria(name) => m.Extended? && m.name == name
    case _ => true
  }

  /** The Get...Message method of an operation; extended operations have none. */
  function GetMessage(op: RouteOp, m: Message): Outcome<Message>
    requires !op.ExtendedOp?
  {
    match op
    case BindOp => if m.SimpleBind? then Ok(m) else Err(InvalidParameter)
    case SearchOp => if m.Search? then Ok(m) else Err(InvalidParameter)
    case ModifyOp => if m.Modify? then Ok(m) else Err(InvalidParameter)
    case AddOp => if m.Add? then Ok(m) else Err(InvalidParameter)
    case DeleteOp => if m.Delete? then Ok(m) else Err(InvalidParameter)
    case UnbindOp => if m.Unbind? then Ok(m) else Err(InvalidParameter)
  }

  /** A getter succeeds exactly on messages of its operation. */
  lemma GetterByType(op: RouteOp, m: Message)
    requires !op.ExtendedOp?
    ensures GetMessage(op, m) == if op == OpOf(m) then Ok(m) else Err(InvalidParameter)
  {
  }

  /** Every bind message that is decoded uses simple authentication. */
  lemma DecodedBindIsSimple(p: Packet, decompile: Decompile)
    requires NewMessage(p, decompile).Ok? && NewMessage(p, decompile).value.SimpleBind?
    ensures NewMessage(p, decompile).value.authChoice == SIMPLE
  {
  }

  /** The route was registered for the message's operation and accepts the message. */
  predicate Takes(r: Route, m: Message, fold: Fold) {
    r.op == OpOf(m) && Accepts(r.criteria, m, fold)
  }

  /**
   A registered route matches the request of a decoded packet exactly when it was registered for the
   message's own operation and accepts the message; an unbind matches none.
   */
  lemma MatchIsByType(r: Route, id: nat, p: Packet, decompile: Decompile, fold: Fold)
    requires Registered(r) && NewMessage(p, decompile).Ok?
    ensures var m := NewMessage(p, decompile).value;
            && (Match(r, NewRequest(id, m), fold) <==> Takes(r, m, fold))
            && (m.Unbind? ==> !Match(r, NewRequest(id, m), fold))
  {
    if NewMessage(p, decompile).value.SimpleBind? {
      DecodedBindIsSimple(p, decompile);
    }
    MatchTakes(r, id, NewMessage(p, decompile).value, fold);
  }

  lemma MatchTakes(r: Route, id: nat, m: Message, fold: Fold)
    requires Registered(r) && (m.SimpleBind? ==> m.authChoice == SIMPLE)
    ensures Match(r, NewRequest(id, m), fold) <==> Takes(r, m, fold)
    ensures m.Unbind? ==> !Takes(r, m, fold)
  {
  }

  /** What serving a request comes to. */
  datatype Effect = Ran(handler: Handler) | Replied(response: Response)

  function NoHandler(req: Incoming): Response {
    Result(req.message.id, EXTENDED_RESPONSE, UNWILLING_TO_PERFORM, "Unused", "No matching handler found", [])
  }

  /** `i` is the earliest registered route that matches. */
  predicate FirstMatch(routes: seq<Route>, req: Incoming, fold: Fold, i: nat) {
    i < |routes| && Match(routes[i], req, fold) && forall j :: 0 <= j < i ==> !Match(routes[j], req, fold)
  }

  predicate NoMatch(routes: seq<Route>, req: Incoming, fold: Fold) {
    forall j :: 0 <= j < |routes| ==> !Match(routes[j], req, fold)
  }

  /** `i` is the earliest registered route that takes the message. */
  predicate FirstTaker(routes: seq<Route>, m: Message, fold: Fold, i: nat) {
    i < |routes| && Takes(routes[i], m, fold) && forall j :: 0 <= j < i ==> !Takes(routes[j], m, fold)
  }

  predicate NoTaker(routes: seq<Route>, m: Message, fold: Fold) {
    forall j :: 0 <= j < |routes| ==> !Takes(routes[j], m, fold)
  }

  /** Its handler's getter returns the message; handlers of extended operations have no getter to call. */
  predicate GetterWorks(r: Route, m: Message) {
    r.op == OpOf(m) && (!r.op.ExtendedOp? ==> GetMessage(r.op, m) == Ok(m))
  }

  /**
   For routes made by registration and a request of a decoded packet, the route that serves is the
   earliest that was registered for the message's own operation and accepts it, and then the getter of
   that operation returns the message.
   */
  lemma DispatchByType(routes: seq<Route>, id: nat, p: Packet, decompile: Decompile, fold: Fold)
    requires NewMessage(p, decompile).Ok? && forall j :: 0 <= j < |routes| ==> Registered(routes[j])
    ensures var m := NewMessage(p, decompile).value;
            && (forall i: nat :: FirstMatch(routes, NewRequest(id, m), fold, i) <==> FirstTaker(routes, m, fold, i))
            && (NoMatch(routes, NewRequest(id, m), fold) <==> NoTaker(routes, m, fold))
            && (forall i: nat :: FirstTaker(routes, m, fold, i) ==> GetterWorks(routes[i], m))
  {
    var m := NewMessage(p, decompile).value;
    forall j | 0 <= j < |routes| ensures Match(routes[j], NewRequest(id, m), fold) <==> Takes(routes[j], m, fold) {
      MatchIsByType(routes[j], id, p, decompile, fold);
    }
    forall i: nat | FirstTaker(routes, m, fold, i) ensures GetterWorks(routes[i], m) {
      if !routes[i].op.ExtendedOp? {
        GetterByType(routes[i].op, m);
      }
    }
  }

  class Mux {
    var routes: seq<Route>
    var defaultRoute: Option<Handler>
    var unbindRoute: Option<Handler>

    /** Every route was registered, and for the operation its type stands for. */
    ghost predicate Valid()
      reads this
    {
      forall i :: 0 <= i < |routes| ==> Registered(routes[i])
    }

    constructor ()
      ensures Valid() && routes == [] && defaultRoute == None && unbindRoute == None
    {
      routes, defaultRoute, unbindRoute := [], None, None;
    }

    /** Bind, Search, ExtendedOperation, Modify, Add and Delete differ only in the route they append. */
    method Register(handler: Option<Handler>, criteria: Criteria) returns (r: Outcome<()>)
      requires Valid() && (criteria.BindCriteria? ==> criteria.authChoice == SIMPLE)
      modifies this`routes
      ensures Valid()
      ensures handler.None? ==> r == Err(InvalidParameter) && routes == old(routes)
      ensures handler.Some? ==>
                r == Ok(()) && routes == old(routes) + [Route(CriteriaOp(criteria), handler.value, criteria)]
    {
      if handler.None? {
        return Err(InvalidParameter);
      }
      routes := routes + [Route(CriteriaOp(criteria), handler.value, criteria)];
      return Ok(());
    }

    method DefaultRoute(handler: Option<Handler>) returns (r: Outcome<()>)
      modifies this`defaultRoute
      ensures r == if handler.None? then Err(InvalidParameter) else Ok(())
      ensures defaultRoute == if handler.None? then old(defaultRoute) else handler
    {
      if handler.None? {
        return Err(InvalidParameter);
      }
      defaultRoute := handler;
      return Ok(());
    }

    method Unbind(handler: Option<Handler>) returns (r: Outcome<()>)
      modifies this`unbindRoute
      ensures r == if handler.None? then Err(InvalidParameter) else Ok(())
      ensures unbindRoute == if handler.None? then old(unbindRoute) else handler
    {
      if handler.None? {
        return Err(InvalidParameter);
      }
      unbindRoute := handler;
      return Ok(());
    }

    /**
     Serves a request by exactly one of: the earliest registered handler that matches, the default
     handler, or one unwilling-to-perform response.
     */
    method Serve(req: Incoming, fold: Fold) returns (e: Effect)
      requires Valid()
      ensures forall i: nat :: FirstMatch(routes, req, fold, i) ==> e == Ran(routes[i].handler)
      ensures NoMatch(routes, req, fold) ==>
                e == if defaultRoute.Some? then Ran(defaultRoute.value) else Replied(NoHandler(req))
      ensures NoMatch(routes, req, fold) || exists i: nat :: FirstMatch(routes, req, fold, i)
    {
      var i := 0;
      while i < |routes|
        invariant 0 <= i <= |routes|
        invariant forall j :: 0 <= j < i ==> !Match(routes[j], req, fold)
      {
        if Match(routes[i], req, fold) {
          assert FirstMatch(routes, req, fold, i);
          return Ran(routes[i].handler);
        }
        i := i + 1;
      }
      if defaultRoute.Some? {
        return Ran(defaultRoute.value);
      }
      return Replied(NoHandler(req));
    }

    /**
     A packet, made into a request and served: its handler is the earliest registered one that takes
     the message, and that handler's getter returns it.
     */
    method ServePacket(id: nat, p: Packet, decompile: Decompile, fold: Fold) returns (r: Outcome<Effect>)
      requires Valid()
      ensures !NewMessage(p, decompile).Ok? ==> r == NewMessage(p, decompile).PropagateFailure()
      ensures NewMessage(p, decompile).Ok? ==>
                var m := NewMessage(p, decompile).value;
                && r.Ok?
                && (forall i: nat :: FirstTaker(routes, m, fold, i) ==>
                      r.value == Ran(routes[i].handler) && GetterWorks(routes[i], m))
                && (NoTaker(routes, m, fold) ==>
                      r.value == if defaultRoute.Some? then Ran(defaultRoute.value) else Replied(NoHandler(NewRequest(id, m))))
                && (NoTaker(routes, m, fold) || exists i: nat :: FirstTaker(routes, m, fold, i))
    {
      var m :- NewMessage(p, decompile);
      DispatchByType(routes, id, p, decompile, fold);
      var e := Serve(NewRequest(id, m), fold);
      assert !NoTaker(routes, m, fold) ==> exists i: nat :: FirstMatch(routes, NewRequest(id, m), fold, i);
      return Ok(e);
    }
  }
}
