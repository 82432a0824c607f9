/**
 Which entries a search is answered with, said of the directory's lists and the filter: every entry
 that matches and no other, in list order, each as it stands, up to the first write that fails.
 */
module ContentTheorems {
  import opened Go
  import opened Controls
  import opened Messages
  import opened Responses
  import opened Matching
  import opened Entries
  import opened EntryTheorems
  import opened DirectoryModel
  import opened DirectoryTheorems
  import opened SearchTheorems

  /** A search result entry that shows a record: its DN, and its attributes with their values in order. */
  predicate Shows(r: Response, id: int64, e: Record) {
    && r.Entry? && r.messageID == id && r.dn == e.dn && |r.attributes| == |e.attrs|
    && forall i :: 0 <= i < |e.attrs| ==> r.attributes[i].name == e.attrs[i].name && r.attributes[i].vals == e.attrs[i].values
  }

  predicate AllOk(ok: Writes, n: nat) {
    forall i :: 0 <= i < n ==> ok(i)
  }

  /** A result with this code and these controls; its texts are empty. */
  predicate Ends(r: Response, id: int64, code: int64, controls: seq<Control>) {
    && IsDone(r, id) && r.code == code && r.controls == controls
    && r.matchedDN == "" && r.diagnostic == ""
  }

  /** The first `n` records and then the result, which tells whether a write failed. */
  predicate Shown(stream: seq<Response>, id: int64, es: seq<Record>, n: nat, code: int64, controls: seq<Control>) {
    && |stream| == n + 1 && n <= |es|
    && (forall k :: 0 <= k < n ==> Shows(stream[k], id, es[k]))
    && Ends(stream[n], id, code, controls)
  }

  /** The records are shown up to the first whose write fails, and then the result. */
  ghost predicate Answered(stream: seq<Response>, id: int64, es: seq<Record>, code: int64, controls: seq<Control>, ok: Writes) {
    if AllOk(ok, |es|) then Shown(stream, id, es, |es|, code, controls)
    else exists n :: 0 <= n < |es| && AllOk(ok, n) && !ok(n) && Shown(stream, id, es, n + 1, NO_SUCH_OBJECT, [])
  }

  lemma StreamAnswers(id: int64, es: seq<Record>, code: int64, controls: seq<Control>, ok: Writes)
    ensures Answered(Stream(id, es, Done(id, code, controls), ok), id, es, code, controls, ok)
  {
    var k := FirstFailure(ok, 0, |es|);
    if k < |es| {
      assert Shown(Stream(id, es, Done(id, code, controls), ok), id, es, k + 1, NO_SUCH_OBJECT, []);
    }
  }

  /** Success with the directory's controls if anything was found, and otherwise no such object. */
  ghost predicate Found(stream: seq<Response>, id: int64, es: seq<Record>, controls: seq<Control>, ok: Writes) {
    if es == [] then Answered(stream, id, es, NO_SUCH_OBJECT, [], ok)
    else Answered(stream, id, es, SUCCESS, controls, ok)
  }

  lemma FoundAnswers(id: int64, es: seq<Record>, controls: seq<Control>, ok: Writes)
    ensures Found(Stream(id, es, DoneFor(id, es, controls), ok), id, es, controls, ok)
  {
    if es == [] {
      StreamAnswers(id, es, NO_SUCH_OBJECT, [], ok);
    } else {
      StreamAnswers(id, es, SUCCESS, controls, ok);
    }
  }

  // ---------- users ----------

  /** The users that match the request's filter, all of them and in order. */
  ghost predicate UsersAnswered(stream: seq<Response>, m: Message, users: seq<Record>, controls: seq<Control>, ok: Writes)
    requires m.Search?
  {
    exists hits :: Finds(hits, m.filter, users) && Found(stream, m.id, Picked(users, hits), controls, ok)
  }

  lemma UserSearch(d: Dir, c: Config, m: Message, ok: Writes)
    requires m.Search?
    ensures UsersAnswered(SearchUsers(d, c, m, ok), m, d.users, c.controls, ok)
  {
    var hits := Hits(m.filter, d.users);
    HitsMeaning(m.filter, d.users);
    FoundAnswers(m.id, Picked(d.users, hits), c.controls, ok);
  }

  // ---------- groups ----------

  /** The members of a group that match, by their place in its list. */
  ghost function MatchingMembers(filter: string, members: seq<string>): set<nat> {
    set k: nat | k < |members| && Matches(filter, "member=" + members[k])
  }

  lemma OneMoreMember(filter: string, members: seq<string>, matches: bool)
    requires members != [] && matches == Matches(filter, "member=" + members[|members| - 1])
    ensures |MatchingMembers(filter, members)| == |MatchingMembers(filter, members[..|members| - 1])| + (if matches then 1 else 0)
  {
    var last := |members| - 1;
    var before := MatchingMembers(filter, members[..last]);
    assert forall k: nat :: k < last ==> members[..last][k] == members[k];
    assert last !in before;
    if matches {
      assert MatchingMembers(filter, members) == before + {last};
    } else {
      assert MatchingMembers(filter, members) == before;
    }
  }

  lemma {:induction false} MembersCounted(filter: string, members: seq<string>)
    ensures MembersMatching(filter, members) == |MatchingMembers(filter, members)|
  {
    if members == [] {
      assert MatchingMembers(filter, members) == {};
    } else {
      var last := |members| - 1;
      MembersCounted(filter, members[..last]);
      OneMoreMember(filter, members, Matches(filter, "member=" + members[last]));
    }
  }

  /** Groups found by their members, once for each member that matches, in list order. */
  ghost predicate FindsByMember(hits: seq<nat>, filter: string, gs: seq<Record>) {
    && (forall k :: 0 <= k < |hits| ==> hits[k] < |gs|)
    && (forall j, k :: 0 <= j < k < |hits| ==> hits[j] <= hits[k])
    && (forall i :: 0 <= i < |gs| ==> Occurrences(hits, i) == |MatchingMembers(filter, Members(gs[i]))|)
  }

  /** Groups found by their DN and by no member, each once, in list order. */
  ghost predicate FindsByDN(hits: seq<nat>, filter: string, gs: seq<Record>) {
    && (forall k :: 0 <= k < |hits| ==> hits[k] < |gs|)
    && (forall j, k :: 0 <= j < k < |hits| ==> hits[j] < hits[k])
    && (forall i :: 0 <= i < |gs| ==>
          (i in hits <==> Matches(filter, gs[i].dn) && MatchingMembers(filter, Members(gs[i])) == {}))
  }

  ghost predicate GroupsAnswered(stream: seq<Response>, m: Message, gs: seq<Record>, controls: seq<Control>, ok: Writes)
    requires m.Search?
  {
    exists a, b :: FindsByMember(a, m.filter, gs) && FindsByDN(b, m.filter, gs)
                   && Found(stream, m.id, Picked(gs, a + b), controls, ok)
  }

  lemma MemberHitsFind(filter: string, gs: seq<Record>)
    ensures FindsByMember(MemberHits(filter, gs), filter, gs)
  {
    MemberHitsAscend(filter, gs);
    forall i | 0 <= i < |gs| ensures Occurrences(MemberHits(filter, gs), i) == |MatchingMembers(filter, Members(gs[i]))| {
      MemberHitsCount(filter, gs, i);
      MembersCounted(filter, Members(gs[i]));
    }
  }

  lemma NewHitsFind(filter: string, gs: seq<Record>)
    ensures FindsByDN(NewHits(Hits(filter, gs), MemberHits(filter, gs)), filter, gs)
  {
    var a, hits := MemberHits(filter, gs), Hits(filter, gs);
    HitsMeaning(filter, gs);
    NewHitsAscend(hits, a);
    NewHitsWithin(hits, a, gs);
    forall i | 0 <= i < |gs|
      ensures i in NewHits(hits, a) <==> Matches(filter, gs[i].dn) && MatchingMembers(filter, Members(gs[i])) == {}
    {
      NewHitsMeaning(hits, a, i);
      HitsHas(filter, gs, i);
      MemberHitsCount(filter, gs, i);
      MembersCounted(filter, Members(gs[i]));
    }
  }

  lemma GroupSearchContent(d: Dir, c: Config, m: Message, ok: Writes)
    requires m.Search?
    ensures GroupsAnswered(SearchGroups(d, c, m, ok), m, d.groups, c.controls, ok)
  {
    MemberHitsFind(m.filter, d.groups);
    NewHitsFind(m.filter, d.groups);
    FoundAnswers(m.id, Picked(d.groups, GroupHits(m.filter, d.groups)), c.controls, ok);
  }

  // ---------- anywhere ----------

  /** The users and then the groups that match, all of them and in order. */
  ghost predicate AllAnswered(stream: seq<Response>, id: int64, filter: string, d: Dir, controls: seq<Control>, ok: Writes) {
    exists us, gs :: Finds(us, filter, d.users) && Finds(gs, filter, d.groups)
                     && Found(stream, id, Picked(d.users, us) + Picked(d.groups, gs), controls, ok)
  }

  /** Under the user base a search looks for its base DN in parentheses; elsewhere for its filter. */
  lemma GenericSearch(d: Dir, c: Config, m: Message, ok: Writes)
    requires m.Search? && !(c.tokenGroups != map[] && "<SID=" <= m.baseDN)
    ensures Contains(m.baseDN, c.userDN) ==>
              AllAnswered(SearchGeneric(d, c, m, ok), m.id, "(" + m.baseDN + ")", d, c.controls, ok)
    ensures !Contains(m.baseDN, c.userDN) ==>
              AllAnswered(SearchGeneric(d, c, m, ok), m.id, m.filter, d, c.controls, ok)
  {
    var filter := if Contains(m.baseDN, c.userDN) then "(" + m.baseDN + ")" else m.filter;
    HitsMeaning(filter, d.users);
    HitsMeaning(filter, d.groups);
    var found := Picked(d.users, Hits(filter, d.users)) + Picked(d.groups, Hits(filter, d.groups));
    FoundAnswers(m.id, found, c.controls, ok);
  }

  // ---------- by SID ----------

  /** The groups kept for a SID, and success whether there are any or not. */
  ghost predicate TokensAnswered(stream: seq<Response>, id: int64, sid: string, c: Config, ok: Writes) {
    Answered(stream, id, if sid in c.tokenGroups then c.tokenGroups[sid] else [], SUCCESS, [], ok)
  }

  /** "<SID=" and the key, with or without a closing bracket. */
  predicate NamesKey(base: string, sid: string) {
    base == "<SID=" + sid + ">" || (base == "<SID=" + sid && (sid == "" || sid[|sid| - 1] != '>'))
  }

  /** A base of "<SID=" and a key is looked up under that key. */
  lemma SidSearch(d: Dir, c: Config, m: Message, sid: string, ok: Writes)
    requires m.Search? && c.tokenGroups != map[]
    requires NamesKey(m.baseDN, sid)
    ensures TokensAnswered(SearchGeneric(d, c, m, ok), m.id, sid, c, ok)
  {
    assert |c.tokenGroups| > 0 by {
      var k :| k in c.tokenGroups;
      assert k in c.tokenGroups.Keys;
    }
    SidKey(m.baseDN, sid);
    StreamAnswers(m.id, TokenGroups(c, m.baseDN), SUCCESS, [], ok);
  }

  lemma SidKey(base: string, sid: string)
    requires NamesKey(base, sid)
    ensures HasPrefix(base, SID_PREFIX) && TrimSuffix(base[|SID_PREFIX|..], '>') == sid
  {
    if base == "<SID=" + sid + ">" {
      assert base[5..] == sid + ">";
    } else {
      assert base[5..] == sid;
    }
  }

  /** The whole of the generic search: by SID, by base DN or by filter. */
  ghost predicate GenericAnswered(stream: seq<Response>, m: Message, d: Dir, c: Config, ok: Writes)
    requires m.Search?
  {
    if c.tokenGroups != map[] && "<SID=" <= m.baseDN then
      exists sid :: NamesKey(m.baseDN, sid) && TokensAnswered(stream, m.id, sid, c, ok)
    else if Contains(m.baseDN, c.userDN) then
      AllAnswered(stream, m.id, "(" + m.baseDN + ")", d, c.controls, ok)
    else
      AllAnswered(stream, m.id, m.filter, d, c.controls, ok)
  }

  lemma SomeKey(base: string) returns (sid: string)
    requires "<SID=" <= base
    ensures NamesKey(base, sid)
  {
    sid := base[5..];
    assert base == "<SID=" + sid;
    if sid != "" && sid[|sid| - 1] == '>' {
      sid := sid[..|sid| - 1];
      assert base == "<SID=" + sid + ">";
    }
  }

  lemma GenericContent(d: Dir, c: Config, m: Message, ok: Writes)
    requires m.Search?
    ensures GenericAnswered(SearchGeneric(d, c, m, ok), m, d, c, ok)
  {
    if c.tokenGroups != map[] && "<SID=" <= m.baseDN {
      var sid := SomeKey(m.baseDN);
      SidSearch(d, c, m, sid, ok);
    } else {
      GenericSearch(d, c, m, ok);
    }
  }

  /** What is no search gets one result and no entries. */
  lemma NoSearch(d: Dir, c: Config, m: Message, ok: Writes)
    requires !m.Search?
    ensures Shown(SearchUsers(d, c, m, ok), m.id, [], 0, NO_SUCH_OBJECT, [])
    ensures Shown(SearchGroups(d, c, m, ok), m.id, [], 0, NO_SUCH_OBJECT, [])
    ensures Shown(SearchGeneric(d, c, m, ok), m.id, [], 0, NO_SUCH_OBJECT, [])
  {
  }
}
