/**
 The directory as an object, and its handlers as the loops and updates they are made of, each
 proved to do what DirectoryModel says.

 A handler returns the responses it hands to the response writer, in order.
 */
module DirectoryHandlers {
  import opened Go
  import opened Controls
  import opened Messages
  import opened Responses
  import opened Matching
  import opened Entries
  import EntryObjects
  import ContentTheorems
  import opened DirectoryModel

  type Node = EntryObjects.Entry

  // ---------- entries in the heap ----------

  ghost predicate Away(e: Node, f: Node)
    reads e, f
  {
    e != f && e.Parts() !! f.Parts()
  }

  /** The entries `es` are `rs`; they and their attributes are among `repr`, and no two share any. */
  ghost predicate Holds(rs: seq<Record>, es: seq<Node>, repr: set<object>)
    reads repr
  {
    && |rs| == |es|
    && (forall i :: 0 <= i < |es| ==> es[i] in repr && es[i].Parts() <= repr && es[i].Valid() && es[i].View() == rs[i])
    && (forall i, j :: 0 <= i < j < |es| ==> Away(es[i], es[j]))
  }

  /** The lists hold what `d` says, in entries that no two places share. */
  ghost predicate Sound(d: Dir, us: seq<Node>, gs: seq<Node>, repr: set<object>)
    reads repr
  {
    && Holds(d.users, us, repr) && Holds(d.groups, gs, repr)
    && (forall i, j :: 0 <= i < |us| && 0 <= j < |gs| ==> Away(us[i], gs[j]))
  }

  lemma SoundAppend(d: Dir, us: seq<Node>, gs: seq<Node>, repr: set<object>, e: Node)
    requires Sound(d, us, gs, repr) && e.Valid() && e !in repr && e.Parts() !! repr
    ensures Sound(Dir(d.users + [e.View()], d.groups), us + [e], gs, repr + {e} + e.Parts())
  {
  }

  lemma SoundWithoutUser(d: Dir, us: seq<Node>, gs: seq<Node>, repr: set<object>, i: nat)
    requires Sound(d, us, gs, repr) && i < |us|
    ensures Sound(Dir(Without(d.users, i), d.groups), Without(us, i), gs, repr)
  {
  }

  lemma SoundWithoutGroup(d: Dir, us: seq<Node>, gs: seq<Node>, repr: set<object>, i: nat)
    requires Sound(d, us, gs, repr) && i < |gs|
    ensures Sound(Dir(d.users, Without(d.groups, i)), us, Without(gs, i), repr)
  {
  }

  /** Changes one of some entries; those apart from it stay as they are. */
  method ModifyAt(es: seq<Node>, i: nat, changes: seq<Change>, ghost rs: seq<Record>, ghost repr: set<object>)
    requires Holds(rs, es, repr) && i < |es|
    modifies es[i], es[i].Parts()
    ensures Holds(Modified(rs, i, changes), es, repr + es[i].Parts())
    ensures fresh(es[i].Parts() - old(es[i].Parts()))
  {
    EntryObjects.ApplyAll(es[i], changes);
    assert forall j :: 0 <= j < |es| && j != i ==> es[j].attributes == old(es[j].attributes);
    assert forall j :: 0 <= j < |es| && j != i ==> es[j].View() == old(es[j].View());
  }

  /** The same, beside a second list that shares nothing with the first. */
  method ModifyBeside(es: seq<Node>, i: nat, changes: seq<Change>, ghost rs: seq<Record>,
                      ghost others: seq<Node>, ghost ors: seq<Record>, ghost repr: set<object>)
    requires Holds(rs, es, repr) && i < |es| && Holds(ors, others, repr)
    requires forall j, k :: 0 <= j < |es| && 0 <= k < |others| ==> Away(es[j], others[k])
    modifies es[i], es[i].Parts()
    ensures Holds(Modified(rs, i, changes), es, repr + es[i].Parts())
    ensures Holds(ors, others, repr + es[i].Parts())
    ensures forall j, k :: 0 <= j < |es| && 0 <= k < |others| ==> Away(es[j], others[k])
    ensures fresh(es[i].Parts() - old(es[i].Parts()))
  {
    ModifyAt(es, i, changes, rs, repr);
    forall k | 0 <= k < |others| ensures others[k].View() == ors[k] && others[k].attributes == old(others[k].attributes) {
      assert Away(es[i], others[k]) by {
        assert others[k].attributes == old(others[k].attributes);
      }
    }
  }

  method ModifyUserIn(ghost d: Dir, us: seq<Node>, gs: seq<Node>, i: nat, changes: seq<Change>, ghost repr: set<object>)
    requires Sound(d, us, gs, repr) && i < |us|
    modifies us[i], us[i].Parts()
    ensures Sound(Dir(Modified(d.users, i, changes), d.groups), us, gs, repr + us[i].Parts())
    ensures fresh(us[i].Parts() - old(us[i].Parts()))
  {
    ModifyBeside(us, i, changes, d.users, gs, d.groups, repr);
  }

  method ModifyGroupIn(ghost d: Dir, us: seq<Node>, gs: seq<Node>, i: nat, changes: seq<Change>, ghost repr: set<object>)
    requires Sound(d, us, gs, repr) && i < |gs|
    modifies gs[i], gs[i].Parts()
    ensures Sound(Dir(d.users, Modified(d.groups, i, changes)), us, gs, repr + gs[i].Parts())
    ensures fresh(gs[i].Parts() - old(gs[i].Parts()))
  {
    ModifyBeside(gs, i, changes, d.groups, us, d.users, repr);
  }

  lemma HitsNext(filter: string, rs: seq<Record>, i: nat)
    requires i < |rs|
    ensures Hits(filter, rs[..i + 1]) == Hits(filter, rs[..i]) + (if Matches(filter, rs[i].dn) then [i] else [])
  {
    assert rs[..i + 1][..i] == rs[..i];
  }

  /** `more` are the entries of `gs` at `at`. */
  ghost predicate At(more: seq<Node>, gs: seq<Node>, at: seq<nat>) {
    |more| == |at| && forall k :: 0 <= k < |at| ==> at[k] < |gs| && more[k] == gs[at[k]]
  }

  lemma AtMore(more: seq<Node>, gs: seq<Node>, at: seq<nat>, i: nat)
    requires At(more, gs, at) && i < |gs|
    ensures At(more + [gs[i]], gs, at + [i])
  {
  }

  method Find(filter: string, es: seq<Node>, ghost rs: seq<Record>)
    returns (found: bool, at: seq<nat>, matches: seq<Node>)
    requires |rs| == |es| && forall i :: 0 <= i < |es| ==> es[i].dn == rs[i].dn
    ensures at == Hits(filter, rs) && (found <==> at != [])
    ensures At(matches, es, at)
  {
    at, matches := [], [];
    for i := 0 to |es|
      invariant at == Hits(filter, rs[..i]) && At(matches, es, at)
    {
      HitsNext(filter, rs, i);
      AtMore(matches, es, at, i);
      var ok := Match(filter, es[i].dn);
      if ok {
        matches := matches + [es[i]];
        at := at + [i];
      }
    }
    assert rs[..|rs|] == rs;
    found := |matches| > 0;
  }

  /** One group, once for each of its members that matches. */
  method FindInGroup(filter: string, e: Node, members: seq<string>) returns (matches: seq<Node>)
    ensures |matches| == MembersMatching(filter, members)
    ensures forall k :: 0 <= k < |matches| ==> matches[k] == e
  {
    matches := [];
    for j := 0 to |members|
      invariant |matches| == MembersMatching(filter, members[..j])
      invariant forall k :: 0 <= k < |matches| ==> matches[k] == e
    {
      assert members[..j + 1][..j] == members[..j];
      var ok := Match(filter, "member=" + members[j]);
      if ok {
        matches := matches + [e];
      }
    }
    assert members[..|members|] == members;
  }

  lemma MemberHitsNext(filter: string, rs: seq<Record>, i: nat)
    requires i < |rs|
    ensures MemberHits(filter, rs[..i + 1])
            == MemberHits(filter, rs[..i]) + Times(i, MembersMatching(filter, Members(rs[i])))
  {
    assert rs[..i + 1][..i] == rs[..i];
  }

  lemma AtTimes(matches: seq<Node>, gs: seq<Node>, at: seq<nat>, here: seq<Node>, i: nat)
    requires At(matches, gs, at) && i < |gs| && forall k :: 0 <= k < |here| ==> here[k] == gs[i]
    ensures At(matches + here, gs, at + Times(i, |here|))
  {
  }

  method FindMembers(filter: string, gs: seq<Node>, ghost rs: seq<Record>, ghost repr: set<object>)
    returns (matches: seq<Node>)
    requires Reads(rs, gs, repr)
    ensures At(matches, gs, MemberHits(filter, rs))
  {
    matches := [];
    ghost var at: seq<nat> := [];
    for i := 0 to |gs|
      invariant at == MemberHits(filter, rs[..i])
      invariant At(matches, gs, at)
    {
      var members := gs[i].GetAttributeValues("member");
      var here := FindInGroup(filter, gs[i], members);
      MemberHitsNext(filter, rs, i);
      AtTimes(matches, gs, at, here, i);
      matches := matches + here;
      at := at + Times(i, |here|);
    }
    assert rs[..|rs|] == rs;
  }

  ghost predicate AllDifferent(es: seq<Node>) {
    forall i, j :: 0 <= i < j < |es| ==> es[i] != es[j]
  }

  lemma HoldsDifferent(rs: seq<Record>, es: seq<Node>, repr: set<object>)
    requires Holds(rs, es, repr)
    ensures AllDifferent(es)
    ensures forall i :: 0 <= i < |es| ==> es[i].dn == rs[i].dn
  {
  }

  lemma NewHitsNext(filter: string, rs: seq<Record>, known: seq<nat>, i: nat)
    requires i < |rs|
    ensures NewHits(Hits(filter, rs[..i + 1]), known) ==
            NewHits(Hits(filter, rs[..i]), known) + (if Matches(filter, rs[i].dn) && i !in known then [i] else [])
  {
    var hits, next := Hits(filter, rs[..i]), Hits(filter, rs[..i + 1]);
    assert rs[..i + 1][..i] == rs[..i];
    if Matches(filter, rs[i].dn) {
      assert next == hits + [i];
      NewHitsOne(hits, i, known);
    } else {
      assert next == hits;
    }
  }

  lemma NewHitsOne(hits: seq<nat>, i: nat, known: seq<nat>)
    ensures NewHits(hits + [i], known) == NewHits(hits, known) + (if i in known then [] else [i])
  {
    assert (hits + [i])[..|hits|] == hits;
  }

  lemma {:induction false} NewHitsAll(hits: seq<nat>)
    ensures NewHits(hits, []) == hits
  {
    if hits != [] {
      NewHitsAll(hits[..|hits| - 1]);
      assert hits == hits[..|hits| - 1] + [hits[|hits| - 1]];
    }
  }

  lemma NotYet(more: seq<Node>, gs: seq<Node>, at: seq<nat>, i: nat)
    requires At(more, gs, at) && i < |gs| && forall k :: 0 <= k < |at| ==> at[k] < i
    requires AllDifferent(gs)
    ensures gs[i] !in more
  {
  }

  /** One step of the loop below. */
  method AddIfNew(filter: string, gs: seq<Node>, found: seq<Node>, more: seq<Node>, i: nat,
                  ghost dn: string, ghost known: seq<nat>, ghost at: seq<nat>)
    returns (next: seq<Node>, ghost nextAt: seq<nat>)
    requires At(more, gs, at) && i < |gs| && (forall k :: 0 <= k < |at| ==> at[k] < i) && gs[i].dn == dn
    requires AllDifferent(gs) && (gs[i] in found <==> i in known)
    ensures nextAt == at + (if Matches(filter, dn) && i !in known then [i] else [])
    ensures At(next, gs, nextAt) && forall k :: 0 <= k < |nextAt| ==> nextAt[k] < i + 1
  {
    NotYet(more, gs, at, i);
    AtMore(more, gs, at, i);
    assert at + [] == at;
    next, nextAt := more, at;
    var ok := Match(filter, gs[i].dn);
    if ok && gs[i] !in found + more {
      next, nextAt := more + [gs[i]], at + [i];
    }
  }

  /** The entries to append to `found`: those whose DN matches, but for those that are there already. */
  method AddMatching(filter: string, gs: seq<Node>, found: seq<Node>, ghost rs: seq<Record>, ghost known: seq<nat>)
    returns (more: seq<Node>)
    requires |rs| == |gs| && forall i :: 0 <= i < |gs| ==> gs[i].dn == rs[i].dn
    requires AllDifferent(gs)
    requires forall i :: 0 <= i < |gs| ==> (gs[i] in found <==> i in known)
    ensures At(more, gs, NewHits(Hits(filter, rs), known))
  {
    ghost var at: seq<nat> := [];
    more := [];
    for i := 0 to |gs|
      invariant At(more, gs, at) && at == NewHits(Hits(filter, rs[..i]), known)
      invariant forall k :: 0 <= k < |at| ==> at[k] < i
    {
      more, at := AddIfNew(filter, gs, found, more, i, rs[i].dn, known, at);
      NewHitsNext(filter, rs, known, i);
    }
    assert rs[..|rs|] == rs;
  }

  lemma KnownAt(found: seq<Node>, gs: seq<Node>, at: seq<nat>)
    requires At(found, gs, at) && AllDifferent(gs)
    ensures forall i :: 0 <= i < |gs| ==> (gs[i] in found <==> i in at)
  {
    forall i | 0 <= i < |gs| && i in at ensures gs[i] in found {
      var k :| 0 <= k < |at| && at[k] == i;
      assert found[k] == gs[i];
    }
  }

  lemma ReadsPicked(rs: seq<Record>, es: seq<Node>, repr: set<object>, at: seq<nat>, entries: seq<Node>)
    requires Holds(rs, es, repr) && Within(at, rs) && At(entries, es, at)
    ensures Reads(Picked(rs, at), entries, repr)
  {
  }

  method GroupsMatching(filter: string, gs: seq<Node>, ghost rs: seq<Record>, ghost repr: set<object>)
    returns (entries: seq<Node>)
    requires Holds(rs, gs, repr)
    ensures Reads(Picked(rs, GroupHits(filter, rs)), entries, repr)
  {
    ghost var at := MemberHits(filter, rs);
    HoldsDifferent(rs, gs, repr);
    var members := FindMembers(filter, gs, rs, repr);
    KnownAt(members, gs, at);
    var more := AddMatching(filter, gs, members, rs, at);
    entries := members + more;
    ReadsPicked(rs, gs, repr, GroupHits(filter, rs), entries);
  }

  lemma ReadsBoth(rs: seq<Record>, es: seq<Node>, rs': seq<Record>, es': seq<Node>, repr: set<object>)
    requires Reads(rs, es, repr) && Reads(rs', es', repr)
    ensures Reads(rs + rs', es + es', repr)
  {
  }

  lemma NoneShared(d: Dir, us: seq<Node>, gs: seq<Node>, repr: set<object>, at: seq<nat>, entries: seq<Node>)
    requires Sound(d, us, gs, repr) && At(entries, us, at)
    ensures forall i :: 0 <= i < |gs| ==> gs[i] !in entries
  {
    forall i, k | 0 <= i < |gs| && 0 <= k < |entries| ensures gs[i] != entries[k] {
      assert Away(us[at[k]], gs[i]);
    }
  }

  method EverywhereMatching(filter: string, ghost d: Dir, us: seq<Node>, gs: seq<Node>, ghost repr: set<object>)
    returns (entries: seq<Node>)
    requires Sound(d, us, gs, repr)
    ensures Reads(GenericFound(d, filter), entries, repr)
  {
    HoldsDifferent(d.users, us, repr);
    HoldsDifferent(d.groups, gs, repr);
    var _, at, matches := Find(filter, us, d.users);
    NoneShared(d, us, gs, repr, at, matches);
    var more := AddMatching(filter, gs, matches, d.groups, []);
    entries := matches + more;
    ghost var hits := Hits(filter, d.groups);
    NewHitsAll(hits);
    ReadsPicked(d.users, us, repr, at, matches);
    ReadsPicked(d.groups, gs, repr, hits, more);
    ReadsBoth(Picked(d.users, at), matches, Picked(d.groups, hits), more, repr);
  }

  /** The attribute map of an add request. */
  method Collect(attributes: seq<Attribute>) returns (attrs: map<string, seq<string>>)
    ensures attrs == LastVals(attributes)
  {
    attrs := map[];
    for i := 0 to |attributes|
      invariant attrs == LastVals(attributes[..i])
    {
      assert attributes[..i + 1][..i] == attributes[..i];
      attrs := attrs[attributes[i].name := attributes[i].vals];
    }
    assert attributes[..|attributes|] == attributes;
  }

  // ---------- writing entries ----------

  /** `es` are `rs`, for as long as nothing changes them. */
  ghost predicate Reads(rs: seq<Record>, es: seq<Node>, repr: set<object>)
    reads repr
  {
    && |rs| == |es|
    && forall i :: 0 <= i < |es| ==> es[i] in repr && es[i].Parts() <= repr && es[i].View() == rs[i]
  }

  method NewEntryResponse(id: int64, e: Node) returns (result: Response)
    ensures result == EntryResponse(id, e.View())
  {
    ghost var attrs := AsAttributes(e.View().attrs);
    var attributes := [];
    for i := 0 to |e.attributes|
      invariant attributes == attrs[..i]
    {
      attributes := attributes + [Attribute(e.attributes[i].name, e.attributes[i].values)];
      assert attrs[..i + 1] == attrs[..i] + [attrs[i]];
    }
    assert attrs[..|attrs|] == attrs;
    result := Entry(id, e.dn, attributes);
  }

  /** Writes the entries in turn, up to the first that fails. */
  method WriteEntries(id: int64, es: seq<Node>, ok: Writes, ghost rs: seq<Record>, ghost repr: set<object>)
    returns (sent: seq<Response>, failed: bool)
    requires Reads(rs, es, repr)
    ensures failed <==> FirstFailure(ok, 0, |rs|) < |rs|
    ensures sent == EntryResponses(id, if failed then rs[..FirstFailure(ok, 0, |rs|) + 1] else rs)
  {
    sent, failed := [], false;
    for i := 0 to |es|
      invariant forall j :: 0 <= j < i ==> ok(j)
      invariant sent == EntryResponses(id, rs[..i])
    {
      var result := NewEntryResponse(id, es[i]);
      sent := sent + [result];
      assert sent == EntryResponses(id, rs[..i + 1]);
      if !ok(i) {
        failed := true;
        return;
      }
    }
    assert rs[..|rs|] == rs;
  }

  class Directory {
    var users: seq<Node>
    var groups: seq<Node>
    var tokenGroups: map<string, seq<Node>>
    var allowAnonymousBind: bool
    var controls: seq<Control>
    const userDN: string
    const groupDN: string
    /** What the two lists hold, and the objects that hold it. */
    ghost var model: Dir
    ghost var repr: set<object>

    ghost predicate Valid()
      reads this, repr
    {
      this !in repr && Sound(model, users, groups, repr)
    }

    /** A directory over entries the caller keeps apart. */
    constructor (users: seq<Node>, groups: seq<Node>, userDN: string, groupDN: string, allowAnonymousBind: bool,
                 ghost d: Dir, ghost repr: set<object>)
      requires Sound(d, users, groups, repr)
      ensures Valid() && this.model == d && this.repr == repr
      ensures Configured(Config(userDN, groupDN, allowAnonymousBind, [], map[]))
    {
      this.users, this.groups, this.tokenGroups := users, groups, map[];
      this.userDN, this.groupDN, this.allowAnonymousBind, this.controls := userDN, groupDN, allowAnonymousBind, [];
      this.model, this.repr := d, repr;
    }

    method HandleAdd(m: Message) returns (res: Response)
      requires Valid()
      modifies this`users, this`model, this`repr
      ensures Valid() && (model, res) == DirectoryModel.HandleAdd(old(model), m)
      ensures fresh(repr - old(repr))
    {
      res := Result(m.id, ADD_RESPONSE, OPERATIONS_ERROR, UNUSED, UNUSED, []);
      if !m.Add? {
        return;
      }
      var found, _, _ := Find(Parens(m.dn), users, model.users);
      if found {
        res := res.(code := ENTRY_ALREADY_EXISTS, diagnostic := "entry exists for DN: " + m.dn);
        return;
      }
      var attrs := Collect(m.attrs);
      AddEntry(m.dn, attrs);
      res := res.(code := SUCCESS);
    }

    method AddEntry(dn: string, attrs: map<string, seq<string>>)
      requires Valid()
      modifies this`users, this`model, this`repr
      ensures Valid() && model == Dir(old(model.users) + [NewRecord(dn, attrs)], old(model.groups))
      ensures fresh(repr - old(repr))
    {
      var e := new EntryObjects.Entry(dn, attrs);
      Adopt(e);
    }

    method Adopt(e: Node)
      requires Valid() && e.Valid() && e !in repr && e.Parts() !! repr
      modifies this`users, this`model, this`repr
      ensures Valid() && model == Dir(old(model.users) + [e.View()], old(model.groups))
      ensures repr == old(repr) + {e} + e.Parts()
    {
      SoundAppend(model, users, groups, repr, e);
      ghost var d, objects := Dir(model.users + [e.View()], model.groups), repr + {e} + e.Parts();
      users := users + [e];
      Become(d, objects);
    }

    method HandleDelete(m: Message) returns (res: Response)
      requires Valid()
      modifies this`users, this`groups, this`model
      ensures Valid() && (model, res) == DirectoryModel.HandleDelete(old(model), m)
    {
      if !m.Delete? {
        return Result(m.id, DEL_RESPONSE, NO_SUCH_OBJECT, UNUSED, UNUSED, []);
      }
      var _, foundAt, _ := Find(Parens(m.dn), users, model.users);
      var groupsAt := [];
      if |foundAt| == 0 {
        var _, at, _ := Find(Parens(m.dn), groups, model.groups);
        groupsAt := at;
      }
      res := DeleteAt(m.id, foundAt, groupsAt);
    }

    /** What a delete does with what it found; groups are looked at only when no user was found. */
    method DeleteAt(id: int64, us: seq<nat>, gs: seq<nat>) returns (res: Response)
      requires Valid() && Within(us, model.users) && Within(gs, model.groups)
      modifies this`users, this`groups, this`model
      ensures Valid() && (model, res) == DeleteFound(old(model), id, us, gs)
    {
      res := Result(id, DEL_RESPONSE, NO_SUCH_OBJECT, UNUSED, UNUSED, []);
      if |us| > 0 {
        if |us| > 1 {
          res := res.(code := INAPPROPRIATE_MATCHING, diagnostic := TooMany(|us|));
          return;
        }
        RemoveUser(us[0]);
        res := res.(code := SUCCESS);
        return;
      }
      if |gs| > 0 {
        if |gs| > 1 {
          res := res.(code := INAPPROPRIATE_MATCHING, diagnostic := TooMany(|gs|));
          return;
        }
        RemoveGroup(gs[0]);
        res := res.(code := SUCCESS);
      }
    }

    method RemoveUser(i: nat)
      requires Valid() && i < |users|
      modifies this`users, this`model
      ensures Valid() && model == Dir(Without(old(model.users), i), old(model.groups))
    {
      SoundWithoutUser(model, users, groups, repr, i);
      users, model := Without(users, i), Dir(Without(model.users, i), model.groups);
    }

    method RemoveGroup(i: nat)
      requires Valid() && i < |groups|
      modifies this`groups, this`model
      ensures Valid() && model == Dir(old(model.users), Without(old(model.groups), i))
    {
      SoundWithoutGroup(model, users, groups, repr, i);
      groups, model := Without(groups, i), Dir(model.users, Without(model.groups, i));
    }

    method HandleModify(m: Message) returns (res: Response)
      requires Valid()
      modifies this`model, this`repr, repr
      ensures Valid() && (model, res) == DirectoryModel.HandleModify(old(model), m)
      ensures fresh(repr - old(repr))
    {
      if !m.Modify? {
        return Result(m.id, MODIFY_RESPONSE, NO_SUCH_OBJECT, UNUSED, UNUSED, []);
      }
      var _, usersAt, _ := Find(Parens(m.dn), users, model.users);
      var groupsAt := [];
      if |usersAt| == 0 {
        var _, at, _ := Find(m.dn, groups, model.groups);
        groupsAt := at;
      }
      res := ModifyAll(m.id, m.changes, usersAt, groupsAt);
    }

    /** What a modify does with what it found; groups are looked at only when no user was found. */
    method ModifyAll(id: int64, changes: seq<Change>, us: seq<nat>, gs: seq<nat>) returns (res: Response)
      requires Valid() && Within(us, model.users) && Within(gs, model.groups)
      modifies this`model, this`repr, repr
      ensures Valid() && (model, res) == ModifyFound(old(model), id, changes, us, gs)
      ensures fresh(repr - old(repr))
    {
      res := Result(id, MODIFY_RESPONSE, NO_SUCH_OBJECT, UNUSED, UNUSED, []);
      var entries := if |us| > 0 then |us| else |gs|;
      if entries == 0 {
        return;
      }
      if entries > 1 {
        res := res.(code := INAPPROPRIATE_MATCHING, diagnostic := TooMany(entries));
        return;
      }
      if |us| > 0 {
        res := res.(matchedDN := users[us[0]].dn);
        ModifyUser(us[0], changes);
      } else {
        res := res.(matchedDN := groups[gs[0]].dn);
        ModifyGroup(gs[0], changes);
      }
      res := res.(code := SUCCESS);
    }

    /** Brings the ghost state up to date with entries that have changed. */
    ghost method Become(d: Dir, objects: set<object>)
      requires this !in objects && Sound(d, users, groups, objects)
      modifies this`model, this`repr
      ensures Valid() && model == d && repr == objects
    {
      model, repr := d, objects;
    }

    method ModifyUser(i: nat, changes: seq<Change>)
      requires Valid() && i < |users|
      modifies this`model, this`repr, repr
      ensures Valid() && model == Dir(Modified(old(model.users), i, changes), old(model.groups))
      ensures fresh(repr - old(repr))
    {
      assert users[i] in repr && users[i].Parts() <= repr;
      ModifyUserIn(model, users, groups, i, changes, repr);
      Become(Dir(Modified(model.users, i, changes), model.groups), repr + users[i].Parts());
    }

    method ModifyGroup(i: nat, changes: seq<Change>)
      requires Valid() && i < |groups|
      modifies this`model, this`repr, repr
      ensures Valid() && model == Dir(old(model.users), Modified(old(model.groups), i, changes))
      ensures fresh(repr - old(repr))
    {
      assert groups[i] in repr && groups[i].Parts() <= repr;
      ModifyGroupIn(model, users, groups, i, changes, repr);
      Become(Dir(model.users, Modified(model.groups, i, changes)), repr + groups[i].Parts());
    }

    method HandleBind(m: Message) returns (resp: Response)
      requires Valid()
      ensures forall c :: Configured(c) ==> resp == DirectoryModel.HandleBind(model, c, m)
    {
      resp := Result(m.id, BIND_RESPONSE, INVALID_CREDENTIALS, "", "", []);
      if !m.SimpleBind? || m.authChoice != SIMPLE {
        return;
      }
      if m.password == "" && allowAnonymousBind {
        resp := resp.(code := SUCCESS);
        return;
      }
      for i := 0 to |users|
        invariant forall j :: 0 <= j < i ==> !HasPassword(model.users[j], m.userName, m.password)
      {
        if users[i].dn == m.userName {
          var values := users[i].GetAttributeValues("password");
          if |values| > 0 && m.password == values[0] {
            assert HasPassword(model.users[i], m.userName, m.password);
            resp := resp.(code := SUCCESS, controls := controls);
            return;
          }
        }
      }
    }

    /** The settings as they stand. */
    ghost predicate Configured(c: Config)
      reads this
    {
      && c.userDN == userDN && c.groupDN == groupDN && c.allowAnonymousBind == allowAnonymousBind
      && c.controls == controls && c.tokenGroups.Keys == tokenGroups.Keys
    }

    /** How every search outside the SID branch ends: the entries found, and the closing result. */
    method Answer(id: int64, entries: seq<Node>, ok: Writes, ghost found: seq<Record>, ghost objects: set<object>)
      returns (stream: seq<Response>)
      requires Reads(found, entries, objects)
      ensures stream == Stream(id, found, DoneFor(id, found, controls), ok)
    {
      var res := Done(id, NO_SUCH_OBJECT, []);
      if |entries| == 0 {
        return [res];
      }
      var sent, failed := WriteEntries(id, entries, ok, found, objects);
      if failed {
        return sent + [res];
      }
      res := res.(controls := controls, code := SUCCESS);
      return sent + [res];
    }

    method HandleSearchUsers(m: Message, ok: Writes, ghost c: Config) returns (stream: seq<Response>)
      requires Valid() && Configured(c)
      ensures stream == SearchUsers(model, c, m, ok)
      ensures m.Search? ==> ContentTheorems.UsersAnswered(stream, m, model.users, c.controls, ok)
    {
      if !m.Search? {
        return [Done(m.id, NO_SUCH_OBJECT, [])];
      }
      var _, at, entries := Find(m.filter, users, model.users);
      ReadsPicked(model.users, users, repr, at, entries);
      stream := Answer(m.id, entries, ok, Picked(model.users, at), repr);
      ContentTheorems.UserSearch(model, c, m, ok);
    }

    method HandleSearchGroups(m: Message, ok: Writes, ghost c: Config) returns (stream: seq<Response>)
      requires Valid() && Configured(c)
      ensures stream == SearchGroups(model, c, m, ok)
      ensures m.Search? ==> ContentTheorems.GroupsAnswered(stream, m, model.groups, c.controls, ok)
    {
      if !m.Search? {
        return [Done(m.id, NO_SUCH_OBJECT, [])];
      }
      var entries := GroupsMatching(m.filter, groups, model.groups, repr);
      stream := Answer(m.id, entries, ok, Picked(model.groups, GroupHits(m.filter, model.groups)), repr);
      ContentTheorems.GroupSearchContent(model, c, m, ok);
    }

    /** `c` also says what the token groups hold. */
    ghost predicate TokensRead(c: Config, tokens: set<object>)
      reads this, tokens
    {
      c.tokenGroups.Keys == tokenGroups.Keys &&
      forall k :: k in tokenGroups ==> Reads(c.tokenGroups[k], tokenGroups[k], tokens)
    }

    method SearchTokenGroups(m: Message, ok: Writes, ghost c: Config, ghost tokens: set<object>)
      returns (stream: seq<Response>)
      requires m.Search? && BySid(c, m.baseDN) && TokensRead(c, tokens)
      ensures stream == SearchGeneric(Dir([], []), c, m, ok)
    {
      var sid := TrimSuffix(m.baseDN[|SID_PREFIX|..], '>');
      var entries := if sid in tokenGroups then tokenGroups[sid] else [];
      var sent, failed := WriteEntries(m.id, entries, ok, TokenGroups(c, m.baseDN), tokens);
      return sent + [Done(m.id, if failed then NO_SUCH_OBJECT else SUCCESS, [])];
    }

    method HandleSearchGeneric(m: Message, ok: Writes, ghost c: Config, ghost tokens: set<object>)
      returns (stream: seq<Response>)
      requires Valid() && Configured(c) && TokensRead(c, tokens)
      ensures stream == SearchGeneric(model, c, m, ok)
      ensures m.Search? ==> ContentTheorems.GenericAnswered(stream, m, model, c, ok)
    {
      if m.Search? {
        ContentTheorems.GenericContent(model, c, m, ok);
      }
      if !m.Search? {
        return [Done(m.id, NO_SUCH_OBJECT, [])];
      }
      var filter := m.filter;
      if Contains(m.baseDN, userDN) {
        filter := Parens(m.baseDN);
      }
      if |tokenGroups.Keys| > 0 && HasPrefix(m.baseDN, SID_PREFIX) {
        stream := SearchTokenGroups(m, ok, c, tokens);
        return;
      }
      var entries := EverywhereMatching(filter, model, users, groups, repr);
      stream := Answer(m.id, entries, ok, GenericFound(model, filter), repr);
    }

    /** One request that may change the directory. */
    method Serve(m: Message)
      requires Valid()
      modifies this`users, this`groups, this`model, this`repr, repr
      ensures Valid() && model == Next(old(model), m) && fresh(repr - old(repr))
    {
      match m
      case Add(_, _, _, _) =>
        var _ := HandleAdd(m);
      case Delete(_, _, _) =>
        var _ := HandleDelete(m);
      case Modify(_, _, _, _) =>
        var _ := HandleModify(m);
      case _ =>
    }

    /** Requests one at a time: the run that DirectoryModel speaks of. */
    method ServeAll(ms: seq<Message>)
      requires Valid()
      modifies this`users, this`groups, this`model, this`repr, repr
      ensures Valid() && model == RunAll(old(model), ms)
    {
      for i := 0 to |ms|
        invariant Valid() && fresh(repr - old(repr))
        invariant RunAll(old(model), ms) == RunAll(model, ms[i..])
      {
        assert ms[i..][0] == ms[i] && ms[i..][1..] == ms[i + 1..];
        Serve(ms[i]);
      }
    }
  }
}
