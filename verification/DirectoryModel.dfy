/**
 The in-memory directory: what each handler answers, and what it does to the lists of users and
 groups, when handlers run one at a time.
 */
module DirectoryModel {
  import opened Go
  import opened Octets
  import opened Controls
  import opened Messages
  import opened Responses
  import opened Matching
  import opened Entries

  datatype Dir = Dir(users: seq<Record>, groups: seq<Record>)

  /** What the directory is started with or told by its test, and no request changes. */
  datatype Config = Config(
    userDN: string, groupDN: string, allowAnonymousBind: bool, controls: seq<Control>,
    tokenGroups: map<string, seq<Record>>)

  const UNUSED := "Unused"

  predicate Within(hits: seq<nat>, es: seq<Record>) {
    forall k :: 0 <= k < |hits| ==> hits[k] < |es|
  }

  /** find: the indexes of the entries whose DN matches, in order. */
  function Hits(filter: string, es: seq<Record>): (hits: seq<nat>)
    ensures Within(hits, es)
  {
    if es == [] then []
    else
      var last := |es| - 1;
      Hits(filter, es[..last]) + (if Matches(filter, es[last].dn) then [last] else [])
  }

  function Picked(es: seq<Record>, hits: seq<nat>): (r: seq<Record>)
    requires Within(hits, es)
    ensures |r| == |hits| && forall k :: 0 <= k < |r| ==> r[k] == es[hits[k]]
  {
    seq(|hits|, k requires 0 <= k < |hits| => es[hits[k]])
  }

  function TooMany(n: nat): string {
    "more than one match: " + Decimal(n) + " entries"
  }

  // ---------- add, delete, modify ----------

  /** The values of each type, the last attribute of a type standing for all. */
  function LastVals(attrs: seq<Attribute>): map<string, seq<string>> {
    if attrs == [] then map[]
    else
      var last := |attrs| - 1;
      LastVals(attrs[..last])[attrs[last].name := attrs[last].vals]
  }

  /** An add that did or did not find a user. */
  ghost function AddFound(d: Dir, id: int64, dn: string, attrs: seq<Attribute>, found: bool): (Dir, Response) {
    if found then
      (d, Result(id, ADD_RESPONSE, ENTRY_ALREADY_EXISTS, UNUSED, "entry exists for DN: " + dn, []))
    else
      (Dir(d.users + [NewRecord(dn, LastVals(attrs))], d.groups),
       Result(id, ADD_RESPONSE, SUCCESS, UNUSED, UNUSED, []))
  }

  ghost function HandleAdd(d: Dir, m: Message): (Dir, Response) {
    if !m.Add? then (d, Result(m.id, ADD_RESPONSE, OPERATIONS_ERROR, UNUSED, UNUSED, []))
    else AddFound(d, m.id, m.dn, m.attrs, Hits(Parens(m.dn), d.users) != [])
  }

  function Without<T>(es: seq<T>, i: nat): seq<T>
    requires i < |es|
  {
    es[..i] + es[i + 1..]
  }

  /** A delete that found these users and these groups. */
  function DeleteFound(d: Dir, id: int64, us: seq<nat>, gs: seq<nat>): (Dir, Response)
    requires Within(us, d.users) && Within(gs, d.groups)
  {
    var done := Result(id, DEL_RESPONSE, SUCCESS, UNUSED, UNUSED, []);
    if |us| > 1 then (d, Result(id, DEL_RESPONSE, INAPPROPRIATE_MATCHING, UNUSED, TooMany(|us|), []))
    else if |us| == 1 then (Dir(Without(d.users, us[0]), d.groups), done)
    else if |gs| > 1 then (d, Result(id, DEL_RESPONSE, INAPPROPRIATE_MATCHING, UNUSED, TooMany(|gs|), []))
    else if |gs| == 1 then (Dir(d.users, Without(d.groups, gs[0])), done)
    else (d, Result(id, DEL_RESPONSE, NO_SUCH_OBJECT, UNUSED, UNUSED, []))
  }

  function HandleDelete(d: Dir, m: Message): (Dir, Response) {
    if !m.Delete? then (d, Result(m.id, DEL_RESPONSE, NO_SUCH_OBJECT, UNUSED, UNUSED, []))
    else DeleteFound(d, m.id, Hits(Parens(m.dn), d.users), Hits(Parens(m.dn), d.groups))
  }

  function Modified(es: seq<Record>, i: nat, changes: seq<Change>): seq<Record>
    requires i < |es|
  {
    es[i := Record(es[i].dn, ApplyChanges(es[i].attrs, changes))]
  }

  /** A modify that found these users and these groups. */
  function ModifyFound(d: Dir, id: int64, changes: seq<Change>, us: seq<nat>, gs: seq<nat>): (Dir, Response)
    requires Within(us, d.users) && Within(gs, d.groups)
  {
    var n := if |us| > 0 then |us| else |gs|;
    if n == 0 then (d, Result(id, MODIFY_RESPONSE, NO_SUCH_OBJECT, UNUSED, UNUSED, []))
    else if n > 1 then (d, Result(id, MODIFY_RESPONSE, INAPPROPRIATE_MATCHING, UNUSED, TooMany(n), []))
    else if |us| == 1 then
      (Dir(Modified(d.users, us[0], changes), d.groups),
       Result(id, MODIFY_RESPONSE, SUCCESS, d.users[us[0]].dn, UNUSED, []))
    else
      (Dir(d.users, Modified(d.groups, gs[0], changes)),
       Result(id, MODIFY_RESPONSE, SUCCESS, d.groups[gs[0]].dn, UNUSED, []))
  }

  /** Users are looked for by the DN in parentheses, groups by the DN as it stands. */
  function HandleModify(d: Dir, m: Message): (Dir, Response) {
    if !m.Modify? then (d, Result(m.id, MODIFY_RESPONSE, NO_SUCH_OBJECT, UNUSED, UNUSED, []))
    else ModifyFound(d, m.id, m.changes, Hits(Parens(m.dn), d.users), Hits(m.dn, d.groups))
  }

  // ---------- bind ----------

  predicate HasPassword(u: Record, userName: string, password: string) {
    var values := GetValues(u.attrs, "password");
    u.dn == userName && |values| > 0 && values[0] == password
  }

  predicate IsUser(users: seq<Record>, userName: string, password: string) {
    exists i :: 0 <= i < |users| && HasPassword(users[i], userName, password)
  }

  predicate Anonymous(c: Config, m: Message) {
    m.SimpleBind? && m.password == "" && c.allowAnonymousBind
  }

  function HandleBind(d: Dir, c: Config, m: Message): Response {
    if !m.SimpleBind? || m.authChoice != SIMPLE then Result(m.id, BIND_RESPONSE, INVALID_CREDENTIALS, "", "", [])
    else if Anonymous(c, m) then Result(m.id, BIND_RESPONSE, SUCCESS, "", "", [])
    else if IsUser(d.users, m.userName, m.password) then Result(m.id, BIND_RESPONSE, SUCCESS, "", "", c.controls)
    else Result(m.id, BIND_RESPONSE, INVALID_CREDENTIALS, "", "", [])
  }

  // ---------- search ----------

  /** Whether the handler's i-th write succeeds. */
  type Writes = nat -> bool

  function AsAttributes(attrs: seq<Attr>): (r: seq<Attribute>)
    ensures |r| == |attrs| && forall i :: 0 <= i < |r| ==> r[i] == Attribute(attrs[i].name, attrs[i].values)
  {
    seq(|attrs|, i requires 0 <= i < |attrs| => Attribute(attrs[i].name, attrs[i].values))
  }

  function EntryResponse(id: int64, e: Record): Response {
    Entry(id, e.dn, AsAttributes(e.attrs))
  }

  function EntryResponses(id: int64, es: seq<Record>): (r: seq<Response>)
    ensures |r| == |es| && forall i :: 0 <= i < |r| ==> r[i] == EntryResponse(id, es[i])
  {
    seq(|es|, i requires 0 <= i < |es| => EntryResponse(id, es[i]))
  }

  function Done(id: int64, code: int64, controls: seq<Control>): Response {
    Result(id, SEARCH_RESULT_DONE, code, "", "", controls)
  }

  /** The first of the writes from..upto that fails, or `upto`. */
  function FirstFailure(ok: Writes, from: nat, upto: nat): (k: nat)
    requires from <= upto
    ensures from <= k <= upto && (k < upto ==> !ok(k)) && forall j :: from <= j < k ==> ok(j)
    decreases upto - from
  {
    if from == upto || !ok(from) then from else FirstFailure(ok, from + 1, upto)
  }

  /** The entries and the closing result; a write that fails ends the entries and spoils the result. */
  function Stream(id: int64, es: seq<Record>, done: Response, ok: Writes): seq<Response> {
    var k := FirstFailure(ok, 0, |es|);
    if k == |es| then EntryResponses(id, es) + [done]
    else EntryResponses(id, es[..k + 1]) + [Done(id, NO_SUCH_OBJECT, [])]
  }

  /** The closing result of a search outside the SID branch. */
  function DoneFor(id: int64, es: seq<Record>, controls: seq<Control>): Response {
    if es == [] then Done(id, NO_SUCH_OBJECT, []) else Done(id, SUCCESS, controls)
  }

  predicate HasPrefix(s: string, p: string) {
    p <= s
  }

  function TrimSuffix(s: string, c: char): string {
    if s != "" && s[|s| - 1] == c then s[..|s| - 1] else s
  }

  const SID_PREFIX := "<SID="

  predicate BySid(c: Config, baseDN: string) {
    |c.tokenGroups| > 0 && HasPrefix(baseDN, SID_PREFIX)
  }

  function TokenGroups(c: Config, baseDN: string): seq<Record>
    requires BySid(c, baseDN)
  {
    var sid := TrimSuffix(baseDN[|SID_PREFIX|..], '>');
    if sid in c.tokenGroups then c.tokenGroups[sid] else []
  }

  function GenericFilter(c: Config, m: Message): string
    requires m.Search?
  {
    if Contains(m.baseDN, c.userDN) then Parens(m.baseDN) else m.filter
  }

  function GenericFound(d: Dir, filter: string): seq<Record> {
    Picked(d.users, Hits(filter, d.users)) + Picked(d.groups, Hits(filter, d.groups))
  }

  function SearchGeneric(d: Dir, c: Config, m: Message, ok: Writes): seq<Response> {
    if !m.Search? then [Done(m.id, NO_SUCH_OBJECT, [])]
    else if BySid(c, m.baseDN) then Stream(m.id, TokenGroups(c, m.baseDN), Done(m.id, SUCCESS, []), ok)
    else
      var found := GenericFound(d, GenericFilter(c, m));
      Stream(m.id, found, DoneFor(m.id, found, c.controls), ok)
  }

  function SearchUsers(d: Dir, c: Config, m: Message, ok: Writes): seq<Response> {
    if !m.Search? then [Done(m.id, NO_SUCH_OBJECT, [])]
    else
      var found := Picked(d.users, Hits(m.filter, d.users));
      Stream(m.id, found, DoneFor(m.id, found, c.controls), ok)
  }

  /** How many of the members match. */
  function MembersMatching(filter: string, members: seq<string>): nat {
    if members == [] then 0
    else
      var last := |members| - 1;
      MembersMatching(filter, members[..last]) + (if Matches(filter, "member=" + members[last]) then 1 else 0)
  }

  function Members(e: Record): seq<string> {
    GetValues(e.attrs, "member")
  }

  function Times(i: nat, n: nat): (r: seq<nat>)
    ensures |r| == n && forall k :: 0 <= k < n ==> r[k] == i
  {
    seq(n, _ => i)
  }

  /** findMembers: each group once for each of its members that matches. */
  function MemberHits(filter: string, gs: seq<Record>): (hits: seq<nat>)
    ensures Within(hits, gs)
  {
    if gs == [] then []
    else
      var last := |gs| - 1;
      MemberHits(filter, gs[..last]) + Times(last, MembersMatching(filter, Members(gs[last])))
  }

  /** Of the hits on DNs, those not among `found` already. */
  function NewHits(hits: seq<nat>, found: seq<nat>): seq<nat> {
    if hits == [] then []
    else
      var last := |hits| - 1;
      NewHits(hits[..last], found) + (if hits[last] in found then [] else [hits[last]])
  }

  lemma {:induction false} NewHitsWithin(hits: seq<nat>, found: seq<nat>, es: seq<Record>)
    requires Within(hits, es)
    ensures Within(NewHits(hits, found), es)
  {
    if hits != [] {
      NewHitsWithin(hits[..|hits| - 1], found, es);
    }
  }

  function GroupHits(filter: string, gs: seq<Record>): (hits: seq<nat>)
    ensures Within(hits, gs)
  {
    NewHitsWithin(Hits(filter, gs), MemberHits(filter, gs), gs);
    MemberHits(filter, gs) + NewHits(Hits(filter, gs), MemberHits(filter, gs))
  }

  function SearchGroups(d: Dir, c: Config, m: Message, ok: Writes): seq<Response> {
    if !m.Search? then [Done(m.id, NO_SUCH_OBJECT, [])]
    else
      var found := Picked(d.groups, GroupHits(m.filter, d.groups));
      Stream(m.id, found, DoneFor(m.id, found, c.controls), ok)
  }

  // ---------- runs ----------

  /** What one request does to the directory; only add, delete and modify change it. */
  ghost function Next(d: Dir, m: Message): Dir {
    match m
    case Add(_, _, _, _) => HandleAdd(d, m).0
    case Delete(_, _, _) => HandleDelete(d, m).0
    case Modify(_, _, _, _) => HandleModify(d, m).0
    case _ => d
  }

  ghost function RunAll(d: Dir, ms: seq<Message>): Dir
    decreases |ms|
  {
    if ms == [] then d else RunAll(Next(d, ms[0]), ms[1..])
  }
}
