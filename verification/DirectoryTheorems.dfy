/** What the directory's handlers promise, one request at a time and over whole runs. */
module DirectoryTheorems {
  import opened Go
  import opened Controls
  import opened Messages
  import opened Responses
  import opened Matching
  import opened Entries
  import opened EntryTheorems
  import opened DirectoryModel

  predicate NoneMatch(filter: string, es: seq<Record>) {
    forall i :: 0 <= i < |es| ==> !Matches(filter, es[i].dn)
  }

  predicate OnlyMatch(filter: string, es: seq<Record>, i: nat) {
    i < |es| && Matches(filter, es[i].dn) && forall j :: 0 <= j < |es| && j != i ==> !Matches(filter, es[j].dn)
  }

  /** The indexes of all the entries that match and of no others, in order. */
  predicate Finds(hits: seq<nat>, filter: string, es: seq<Record>) {
    && (forall k :: 0 <= k < |hits| ==> hits[k] < |es| && Matches(filter, es[hits[k]].dn))
    && (forall i :: 0 <= i < |es| && Matches(filter, es[i].dn) ==> i in hits)
    && (forall j, k :: 0 <= j < k < |hits| ==> hits[j] < hits[k])
  }

  lemma FindsOneMore(hits: seq<nat>, filter: string, es: seq<Record>, e: Record)
    requires Finds(hits, filter, es)
    ensures Finds(hits + (if Matches(filter, e.dn) then [|es|] else []), filter, es + [e])
  {
    var more := hits + (if Matches(filter, e.dn) then [|es|] else []);
    forall i | 0 <= i <= |es| && Matches(filter, (es + [e])[i].dn) ensures i in more {
      assert i == |es| ==> more[|hits|] == i;
    }
  }

  lemma {:induction false} HitsMeaning(filter: string, es: seq<Record>)
    ensures Finds(Hits(filter, es), filter, es)
  {
    if es != [] {
      var last := |es| - 1;
      HitsMeaning(filter, es[..last]);
      FindsOneMore(Hits(filter, es[..last]), filter, es[..last], es[last]);
      assert es == es[..last] + [es[last]];
    }
  }

  lemma HitsNone(filter: string, es: seq<Record>)
    ensures Hits(filter, es) == [] <==> NoneMatch(filter, es)
  {
    var hits := Hits(filter, es);
    HitsMeaning(filter, es);
    if hits != [] {
      assert Matches(filter, es[hits[0]].dn);
    }
  }

  lemma HitsOnly(filter: string, es: seq<Record>, i: nat)
    requires OnlyMatch(filter, es, i)
    ensures Hits(filter, es) == [i]
  {
    var hits := Hits(filter, es);
    HitsMeaning(filter, es);
    assert i in hits;
    assert hits[0] == i && hits[|hits| - 1] == i;
  }

  lemma HitsOne(filter: string, es: seq<Record>)
    requires |Hits(filter, es)| == 1
    ensures OnlyMatch(filter, es, Hits(filter, es)[0])
  {
    var hits := Hits(filter, es);
    HitsMeaning(filter, es);
    assert forall j :: j in hits ==> j == hits[0];
  }

  // ---------- distinct user DNs ----------

  predicate DistinctDNs(es: seq<Record>) {
    forall i, j :: 0 <= i < j < |es| ==> es[i].dn != es[j].dn
  }

  /** Requests whose new DN, if they bring one, has no star and no line break. */
  predicate PlainAdd(m: Message) {
    m.Add? ==> Free(m.dn, '*') && Free(m.dn, '\n')
  }

  /** Requests whose new DN, if they bring one, is found by a lookup of that DN. */
  predicate FindableAdd(m: Message) {
    m.Add? ==> Matches(Parens(m.dn), m.dn)
  }

  lemma AddKeepsDistinct(d: Dir, m: Message)
    requires m.Add? && FindableAdd(m) && DistinctDNs(d.users)
    ensures DistinctDNs(HandleAdd(d, m).0.users)
  {
    HitsNone(Parens(m.dn), d.users);
    AddedDistinct(d, m.id, m.dn, m.attrs, Hits(Parens(m.dn), d.users) != []);
  }

  lemma AddedDistinct(d: Dir, id: int64, dn: string, attrs: seq<Attribute>, found: bool)
    requires DistinctDNs(d.users) && (found || forall i :: 0 <= i < |d.users| ==> d.users[i].dn != dn)
    ensures DistinctDNs(AddFound(d, id, dn, attrs, found).0.users)
  {
  }

  lemma DeletedDistinct(d: Dir, id: int64, us: seq<nat>, gs: seq<nat>)
    requires Within(us, d.users) && Within(gs, d.groups)
    ensures DistinctDNs(d.users) ==> DistinctDNs(DeleteFound(d, id, us, gs).0.users)
    ensures DistinctDNs(d.groups) ==> DistinctDNs(DeleteFound(d, id, us, gs).0.groups)
  {
  }

  lemma ModifiedDistinct(d: Dir, id: int64, changes: seq<Change>, us: seq<nat>, gs: seq<nat>)
    requires Within(us, d.users) && Within(gs, d.groups)
    ensures DistinctDNs(d.users) ==> DistinctDNs(ModifyFound(d, id, changes, us, gs).0.users)
    ensures DistinctDNs(d.groups) ==> DistinctDNs(ModifyFound(d, id, changes, us, gs).0.groups)
  {
  }

  lemma NextKeepsDistinct(d: Dir, m: Message)
    requires FindableAdd(m)
    ensures DistinctDNs(d.users) ==> DistinctDNs(Next(d, m).users)
    ensures DistinctDNs(d.groups) ==> DistinctDNs(Next(d, m).groups)
  {
    match m
    case Add(_, _, _, _) =>
      if DistinctDNs(d.users) {
        AddKeepsDistinct(d, m);
      }
    case Delete(id, dn, _) =>
      DeletedDistinct(d, id, Hits(Parens(dn), d.users), Hits(Parens(dn), d.groups));
    case Modify(id, dn, changes, _) =>
      ModifiedDistinct(d, id, changes, Hits(Parens(dn), d.users), Hits(dn, d.groups));
    case _ =>
  }

  /**
   Whatever requests a directory serves, its user DNs stay pairwise distinct, and its group DNs
   too, as long as a lookup of each DN added finds that DN.
   */
  lemma {:induction false} RunKeepsDistinct(d: Dir, ms: seq<Message>)
    requires forall i :: 0 <= i < |ms| ==> FindableAdd(ms[i])
    ensures DistinctDNs(d.users) ==> DistinctDNs(RunAll(d, ms).users)
    ensures DistinctDNs(d.groups) ==> DistinctDNs(RunAll(d, ms).groups)
    decreases |ms|
  {
    if ms != [] {
      NextKeepsDistinct(d, ms[0]);
      RunKeepsDistinct(Next(d, ms[0]), ms[1..]);
    }
  }

  /** It finds every DN without a star and a line break, so adding any of those is safe. */
  lemma PlainRunKeepsDistinct(d: Dir, ms: seq<Message>)
    requires forall i :: 0 <= i < |ms| ==> PlainAdd(ms[i])
    ensures DistinctDNs(d.users) ==> DistinctDNs(RunAll(d, ms).users)
    ensures DistinctDNs(d.groups) ==> DistinctDNs(RunAll(d, ms).groups)
  {
    forall i | 0 <= i < |ms| ensures FindableAdd(ms[i]) {
      if ms[i].Add? {
        PlainDNMatchesItself(ms[i].dn);
      }
    }
    RunKeepsDistinct(d, ms);
  }

  /** The requests add no DN but this one. */
  predicate AddsOnly(ms: seq<Message>, dn: string) {
    forall i :: 0 <= i < |ms| && ms[i].Add? ==> ms[i].dn == dn
  }

  /** And the condition is exact: a DN may be added in any run from any start just when a lookup of it finds it. */
  lemma SafeToAdd(dn: string)
    ensures (forall d: Dir, ms: seq<Message> :: DistinctDNs(d.users) && AddsOnly(ms, dn) ==> DistinctDNs(RunAll(d, ms).users))
            <==> Matches(Parens(dn), dn)
  {
    if Matches(Parens(dn), dn) {
      forall d: Dir, ms: seq<Message> | DistinctDNs(d.users) && AddsOnly(ms, dn) ensures DistinctDNs(RunAll(d, ms).users) {
        RunKeepsDistinct(d, ms);
      }
    } else {
      var m := Add(1, dn, [], []);
      AddTwice(Dir([], []), m, m);
      RunTwo(Dir([], []), m, m);
      assert AddsOnly([m, m], dn);
    }
  }

  lemma RunTwo(d: Dir, m: Message, n: Message)
    ensures RunAll(d, [m, n]) == Next(Next(d, m), n)
  {
    assert [m, n][1..] == [n] && [n][1..] == [];
    assert RunAll(d, [m, n]) == RunAll(Next(d, m), [n]);
    assert RunAll(Next(d, m), [n]) == RunAll(Next(Next(d, m), n), []);
  }

  lemma AddOnce(d: Dir, m: Message)
    requires m.Add? && NoneMatch(Parens(m.dn), d.users)
    ensures Next(d, m) == Dir(d.users + [NewRecord(m.dn, LastVals(m.attrs))], d.groups)
    ensures NoneMatch(Parens(m.dn), Next(d, m).users) <==> !Matches(Parens(m.dn), m.dn)
  {
    HitsNone(Parens(m.dn), d.users);
    NoneMatchMore(Parens(m.dn), d.users, NewRecord(m.dn, LastVals(m.attrs)));
  }

  lemma NoneMatchMore(filter: string, es: seq<Record>, e: Record)
    requires NoneMatch(filter, es)
    ensures NoneMatch(filter, es + [e]) <==> !Matches(filter, e.dn)
  {
    assert (es + [e])[|es|] == e;
  }

  lemma AddRefused(d: Dir, m: Message)
    requires m.Add? && !NoneMatch(Parens(m.dn), d.users)
    ensures Next(d, m) == d
  {
    HitsNone(Parens(m.dn), d.users);
  }

  /** Adding the same DN twice makes a duplicate exactly when the DN in parentheses does not match itself. */
  lemma AddTwice(d: Dir, m: Message, again: Message)
    requires m.Add? && again.Add? && again.dn == m.dn
    requires DistinctDNs(d.users) && NoneMatch(Parens(m.dn), d.users)
    ensures DistinctDNs(Next(Next(d, m), again).users) <==> Matches(Parens(m.dn), m.dn)
  {
    var e := Next(d, m);
    AddOnce(d, m);
    if Matches(Parens(m.dn), m.dn) {
      AddRefused(e, again);
      AddedDistinct(d, m.id, m.dn, m.attrs, false);
    } else {
      AddOnce(e, again);
      var us := Next(e, again).users;
      assert us[|d.users|].dn == us[|d.users| + 1].dn;
    }
  }

  /** So a star in a DN lets it in twice. */
  lemma StarredDNAddedTwice(x: string, y: string, id: int64)
    requires x != "" && y != "" && Ordinary(x + y)
    ensures !DistinctDNs(RunAll(Dir([], []), [Add(id, x + "*" + y, [], []), Add(id, x + "*" + y, [], [])]).users)
  {
    var m := Add(id, x + "*" + y, [], []);
    StarredDNDoesNotMatchItself(x, y);
    AddTwice(Dir([], []), m, m);
    RunTwo(Dir([], []), m, m);
  }

  // ---------- well-kept entries ----------

  predicate AllWellKept(es: seq<Record>) {
    forall i :: 0 <= i < |es| ==> WellKept(es[i].attrs)
  }

  lemma ModifiedKeeps(es: seq<Record>, i: nat, changes: seq<Change>)
    requires i < |es| && AllWellKept(es)
    ensures AllWellKept(Modified(es, i, changes))
  {
    ChangesEffect(es[i].attrs, changes, "");
  }

  lemma NextKeepsEntries(d: Dir, m: Message)
    requires AllWellKept(d.users) && AllWellKept(d.groups)
    ensures AllWellKept(Next(d, m).users) && AllWellKept(Next(d, m).groups)
  {
    match m
    case Add(id, dn, attrs, _) =>
      AddedWellKept(d, id, dn, attrs, Hits(Parens(dn), d.users) != []);
    case Delete(id, dn, _) =>
      DeletedWellKept(d, id, Hits(Parens(dn), d.users), Hits(Parens(dn), d.groups));
    case Modify(id, dn, changes, _) =>
      ModifiedWellKept(d, id, changes, Hits(Parens(dn), d.users), Hits(dn, d.groups));
    case _ =>
  }

  lemma AddedWellKept(d: Dir, id: int64, dn: string, attrs: seq<Attribute>, found: bool)
    requires AllWellKept(d.users)
    ensures AllWellKept(AddFound(d, id, dn, attrs, found).0.users)
    ensures AddFound(d, id, dn, attrs, found).0.groups == d.groups
  {
    NewRecordHolds(dn, LastVals(attrs), "");
  }

  lemma DeletedWellKept(d: Dir, id: int64, us: seq<nat>, gs: seq<nat>)
    requires AllWellKept(d.users) && AllWellKept(d.groups) && Within(us, d.users) && Within(gs, d.groups)
    ensures var e := DeleteFound(d, id, us, gs).0; AllWellKept(e.users) && AllWellKept(e.groups)
  {
  }

  lemma ModifiedWellKept(d: Dir, id: int64, changes: seq<Change>, us: seq<nat>, gs: seq<nat>)
    requires AllWellKept(d.users) && AllWellKept(d.groups) && Within(us, d.users) && Within(gs, d.groups)
    ensures var e := ModifyFound(d, id, changes, us, gs).0; AllWellKept(e.users) && AllWellKept(e.groups)
  {
    if |us| == 1 {
      ModifiedKeeps(d.users, us[0], changes);
    } else if |us| == 0 && |gs| == 1 {
      ModifiedKeeps(d.groups, gs[0], changes);
    }
  }

  /** Over every run, no entry has two attributes of one name or values out of step. */
  lemma {:induction false} RunKeepsEntries(d: Dir, ms: seq<Message>)
    requires AllWellKept(d.users) && AllWellKept(d.groups)
    ensures AllWellKept(RunAll(d, ms).users) && AllWellKept(RunAll(d, ms).groups)
    decreases |ms|
  {
    if ms != [] {
      NextKeepsEntries(d, ms[0]);
      RunKeepsEntries(Next(d, ms[0]), ms[1..]);
    }
  }

  // ---------- delete ----------

  lemma WithoutOnly(filter: string, es: seq<Record>, i: nat)
    requires OnlyMatch(filter, es, i)
    ensures NoneMatch(filter, Without(es, i))
  {
  }

  /** A delete takes out the one user that matches. */
  lemma DeleteUser(d: Dir, m: Message, i: nat)
    requires m.Delete? && OnlyMatch(Parens(m.dn), d.users, i)
    ensures HandleDelete(d, m).1.code == SUCCESS
    ensures HandleDelete(d, m).0 == Dir(Without(d.users, i), d.groups)
    ensures NoneMatch(Parens(m.dn), HandleDelete(d, m).0.users)
  {
    HitsOnly(Parens(m.dn), d.users, i);
    WithoutOnly(Parens(m.dn), d.users, i);
  }

  /** Where no user matches, it takes out the one group that does. */
  lemma DeleteGroup(d: Dir, m: Message, i: nat)
    requires m.Delete? && NoneMatch(Parens(m.dn), d.users) && OnlyMatch(Parens(m.dn), d.groups, i)
    ensures HandleDelete(d, m).1.code == SUCCESS
    ensures HandleDelete(d, m).0 == Dir(d.users, Without(d.groups, i))
    ensures NoneMatch(Parens(m.dn), HandleDelete(d, m).0.groups)
  {
    HitsNone(Parens(m.dn), d.users);
    HitsOnly(Parens(m.dn), d.groups, i);
    WithoutOnly(Parens(m.dn), d.groups, i);
  }

  lemma DeletedOtherwise(d: Dir, id: int64, us: seq<nat>, gs: seq<nat>)
    requires Within(us, d.users) && Within(gs, d.groups)
    ensures var (e, r) := DeleteFound(d, id, us, gs);
            if r.code == SUCCESS then |us| == 1 || (us == [] && |gs| == 1) else e == d
  {
  }

  /** Those are the only deletes that succeed, and one that does not succeed changes nothing. */
  lemma DeleteOtherwise(d: Dir, m: Message)
    requires m.Delete?
    ensures var (e, r) := HandleDelete(d, m);
            if r.code == SUCCESS then
              var f := Parens(m.dn);
              || (exists i :: OnlyMatch(f, d.users, i))
              || (NoneMatch(f, d.users) && exists i :: OnlyMatch(f, d.groups, i))
            else
              e == d
  {
    var f := Parens(m.dn);
    var (us, gs) := (Hits(f, d.users), Hits(f, d.groups));
    DeletedOtherwise(d, m.id, us, gs);
    if |us| == 1 {
      HitsOne(f, d.users);
    } else if us == [] && |gs| == 1 {
      HitsNone(f, d.users);
      HitsOne(f, d.groups);
    }
  }

  // ---------- modify ----------

  /** A bare DN can find a group, whatever the groups are, only if it has a parenthesised part. */
  lemma GroupReachable(dn: string)
    ensures NextGroup(dn, 0).Some? <==> exists name :: Matches(dn, name)
  {
    if NextGroup(dn, 0).Some? {
      var name := Clean(Groups(dn)[0]);
      assert OccursAt(name, name, 0);
      assert Matches(dn, name);
    }
  }

  lemma {:induction false} NoParenNoGroup(dn: string, i: nat)
    requires Free(dn, '(') && i <= |dn|
    ensures NextGroup(dn, i) == None
    decreases |dn| - i
  {
    if i < |dn| {
      NoParenNoGroup(dn, i + 1);
    }
  }

  /** So a modify whose DN has no parenthesis never changes a group. */
  lemma PlainModifySparesGroups(d: Dir, m: Message)
    requires m.Modify? && Free(m.dn, '(')
    ensures HandleModify(d, m).0.groups == d.groups
    ensures NoneMatch(Parens(m.dn), d.users) ==> HandleModify(d, m).1.code == NO_SUCH_OBJECT
  {
    NoParenNoGroup(m.dn, 0);
    GroupReachable(m.dn);
    HitsNone(m.dn, d.groups);
    HitsNone(Parens(m.dn), d.users);
  }

  /**
   `e` is `d` but for the entry at `i`; there the values of `name` are what the changes of that name
   make of them, and the attributes no change names are as they were, in order.
   */
  predicate Changed(d: seq<Record>, e: seq<Record>, i: nat, changes: seq<Change>, name: string) {
    && |e| == |d| && i < |d| && e[i].dn == d[i].dn
    && (forall j :: 0 <= j < |d| && j != i ==> e[j] == d[j])
    && GetValues(e[i].attrs, name) == ValuesAfter(GetValues(d[i].attrs, name), changes, name)
    && Others(e[i].attrs, Named(changes)) == Others(d[i].attrs, Named(changes))
    && WellKept(e[i].attrs)
  }

  lemma ModifiedChanged(es: seq<Record>, i: nat, changes: seq<Change>, name: string)
    requires i < |es| && AllWellKept(es)
    ensures Changed(es, Modified(es, i, changes), i, changes, name)
  {
    ChangesEffect(es[i].attrs, changes, name);
    ChangesKeepOthers(es[i].attrs, changes, Named(changes));
  }

  /** A modify changes the one user that matches and no other entry. */
  lemma ModifyUser(d: Dir, m: Message, i: nat, name: string)
    requires m.Modify? && AllWellKept(d.users) && OnlyMatch(Parens(m.dn), d.users, i)
    ensures HandleModify(d, m).1.code == SUCCESS && HandleModify(d, m).1.matchedDN == d.users[i].dn
    ensures Changed(d.users, HandleModify(d, m).0.users, i, m.changes, name)
    ensures HandleModify(d, m).0.groups == d.groups
  {
    HitsOnly(Parens(m.dn), d.users, i);
    ModifiedChanged(d.users, i, m.changes, name);
  }

  /** Where no user matches, it changes the one group that the bare DN matches. */
  lemma ModifyGroup(d: Dir, m: Message, i: nat, name: string)
    requires m.Modify? && AllWellKept(d.groups) && NoneMatch(Parens(m.dn), d.users) && OnlyMatch(m.dn, d.groups, i)
    ensures HandleModify(d, m).1.code == SUCCESS && HandleModify(d, m).1.matchedDN == d.groups[i].dn
    ensures Changed(d.groups, HandleModify(d, m).0.groups, i, m.changes, name)
    ensures HandleModify(d, m).0.users == d.users
  {
    HitsNone(Parens(m.dn), d.users);
    HitsOnly(m.dn, d.groups, i);
    ModifiedChanged(d.groups, i, m.changes, name);
  }

  lemma ModifiedOtherwise(d: Dir, id: int64, changes: seq<Change>, us: seq<nat>, gs: seq<nat>)
    requires Within(us, d.users) && Within(gs, d.groups)
    ensures var (e, r) := ModifyFound(d, id, changes, us, gs);
            if r.code == SUCCESS then |us| == 1 || (us == [] && |gs| == 1) else e == d
  {
  }

  /** Those are the only modifies that succeed, and one that does not succeed changes nothing. */
  lemma ModifyOtherwise(d: Dir, m: Message)
    requires m.Modify?
    ensures var (e, r) := HandleModify(d, m);
            if r.code == SUCCESS then
              || (exists i :: OnlyMatch(Parens(m.dn), d.users, i))
              || (NoneMatch(Parens(m.dn), d.users) && exists i :: OnlyMatch(m.dn, d.groups, i))
            else
              e == d
  {
    var (us, gs) := (Hits(Parens(m.dn), d.users), Hits(m.dn, d.groups));
    ModifiedOtherwise(d, m.id, m.changes, us, gs);
    if |us| == 1 {
      HitsOne(Parens(m.dn), d.users);
    } else if us == [] && |gs| == 1 {
      HitsNone(Parens(m.dn), d.users);
      HitsOne(m.dn, d.groups);
    }
  }

  // ---------- result codes ----------

  /** An add answers success or "already exists", by whether a user matches; nothing else changes the lists. */
  lemma AddResult(d: Dir, m: Message)
    requires m.Add?
    ensures var r := HandleAdd(d, m).1;
            && r.messageID == m.id && r.tag == ADD_RESPONSE
            && r.code == if NoneMatch(Parens(m.dn), d.users) then SUCCESS else ENTRY_ALREADY_EXISTS
    ensures HandleAdd(d, m).0.groups == d.groups
  {
    HitsNone(Parens(m.dn), d.users);
  }

  ghost predicate Matched(filter: string, es: seq<Record>) {
    exists i :: OnlyMatch(filter, es, i)
  }

  lemma MatchedOne(filter: string, es: seq<Record>)
    ensures Matched(filter, es) <==> |Hits(filter, es)| == 1
  {
    if |Hits(filter, es)| == 1 {
      HitsOne(filter, es);
    }
    if i: nat :| OnlyMatch(filter, es, i) {
      HitsOnly(filter, es, i);
    }
  }

  /** The code for a lookup that tries users and then groups: one match, none, or several. */
  ghost predicate CodeFor(code: int64, userFilter: string, groupFilter: string, d: Dir) {
    if NoneMatch(userFilter, d.users) then
      code == if NoneMatch(groupFilter, d.groups) then NO_SUCH_OBJECT
              else if Matched(groupFilter, d.groups) then SUCCESS
              else INAPPROPRIATE_MATCHING
    else
      code == if Matched(userFilter, d.users) then SUCCESS else INAPPROPRIATE_MATCHING
  }

  lemma DeleteCode(d: Dir, m: Message)
    requires m.Delete?
    ensures HandleDelete(d, m).1.messageID == m.id && HandleDelete(d, m).1.tag == DEL_RESPONSE
    ensures CodeFor(HandleDelete(d, m).1.code, Parens(m.dn), Parens(m.dn), d)
  {
    HitsNone(Parens(m.dn), d.users);
    HitsNone(Parens(m.dn), d.groups);
    MatchedOne(Parens(m.dn), d.users);
    MatchedOne(Parens(m.dn), d.groups);
  }

  lemma ModifyCode(d: Dir, m: Message)
    requires m.Modify?
    ensures HandleModify(d, m).1.messageID == m.id && HandleModify(d, m).1.tag == MODIFY_RESPONSE
    ensures CodeFor(HandleModify(d, m).1.code, Parens(m.dn), m.dn, d)
  {
    HitsNone(Parens(m.dn), d.users);
    HitsNone(m.dn, d.groups);
    MatchedOne(Parens(m.dn), d.users);
    MatchedOne(m.dn, d.groups);
  }

  // ---------- bind ----------

  /** A bind succeeds for an allowed anonymous client or a user who gives that user's first password, and no one else. */
  lemma BindSucceeds(d: Dir, c: Config, m: Message)
    requires m.SimpleBind? && m.authChoice == SIMPLE
    ensures HandleBind(d, c, m).code == SUCCESS <==>
            || (m.password == "" && c.allowAnonymousBind)
            || exists i, rest :: && 0 <= i < |d.users| && d.users[i].dn == m.userName
                                 && GetValues(d.users[i].attrs, "password") == [m.password] + rest
    ensures HandleBind(d, c, m).code == SUCCESS || HandleBind(d, c, m).code == INVALID_CREDENTIALS
    ensures HandleBind(d, c, m).controls ==
            if HandleBind(d, c, m).code == SUCCESS && !Anonymous(c, m) then c.controls else []
  {
    if IsUser(d.users, m.userName, m.password) {
      var i :| 0 <= i < |d.users| && HasPassword(d.users[i], m.userName, m.password);
      var values := GetValues(d.users[i].attrs, "password");
      assert values == [m.password] + values[1..];
    }
    if i, rest :| && 0 <= i < |d.users| && d.users[i].dn == m.userName
                  && GetValues(d.users[i].attrs, "password") == [m.password] + rest {
      assert HasPassword(d.users[i], m.userName, m.password);
    }
  }
}
