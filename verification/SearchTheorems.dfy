/** What a client sees of a search: the shape of the stream, and which entries are in it. */
module SearchTheorems {
  import opened Go
  import opened Controls
  import opened Messages
  import opened Responses
  import opened Matching
  import opened Entries
  import opened EntryTheorems
  import opened DirectoryModel
  import opened DirectoryTheorems

  // ---------- the shape of the stream ----------

  predicate IsDone(r: Response, id: int64) {
    r.Result? && r.messageID == id && r.tag == SEARCH_RESULT_DONE
  }

  /** Entries and then exactly one result, as section 4.5.2 of RFC 4511 asks, all for one message. */
  predicate Shape(stream: seq<Response>, id: int64) {
    && |stream| > 0 && IsDone(stream[|stream| - 1], id)
    && forall i :: 0 <= i < |stream| - 1 ==> stream[i].Entry? && stream[i].messageID == id
  }

  /** Whether every entry of the stream got out. */
  predicate AllSent(stream: seq<Response>, ok: Writes) {
    forall i :: 0 <= i < |stream| - 1 ==> ok(i)
  }

  function LastOf(stream: seq<Response>): Response
    requires |stream| > 0
  {
    stream[|stream| - 1]
  }

  lemma StreamShape(id: int64, es: seq<Record>, done: Response, ok: Writes)
    requires IsDone(done, id)
    ensures Shape(Stream(id, es, done, ok), id)
    ensures AllSent(Stream(id, es, done, ok), ok) ==> Stream(id, es, done, ok) == EntryResponses(id, es) + [done]
    ensures !AllSent(Stream(id, es, done, ok), ok) ==>
              LastOf(Stream(id, es, done, ok)) == Done(id, NO_SUCH_OBJECT, [])
  {
    var k := FirstFailure(ok, 0, |es|);
    if k < |es| {
      assert |Stream(id, es, done, ok)| == k + 2;
    }
  }

  /** Success, with the directory's controls, exactly when something was found and every entry of it got out. */
  predicate Honest(stream: seq<Response>, ok: Writes, controls: seq<Control>)
    requires |stream| > 0
  {
    LastOf(stream).Result? &&
    if |stream| > 1 && AllSent(stream, ok) then
      LastOf(stream).code == SUCCESS && LastOf(stream).controls == controls
    else
      LastOf(stream).code == NO_SUCH_OBJECT && LastOf(stream).controls == []
  }

  lemma FoundShape(id: int64, es: seq<Record>, controls: seq<Control>, ok: Writes)
    ensures var stream := Stream(id, es, DoneFor(id, es, controls), ok); Shape(stream, id) && Honest(stream, ok, controls)
  {
    StreamShape(id, es, DoneFor(id, es, controls), ok);
  }

  /** Every search handler answers in that shape, and outside the SID branch its result code is honest. */
  lemma SearchShape(d: Dir, c: Config, m: Message, ok: Writes)
    ensures Shape(SearchUsers(d, c, m, ok), m.id) && Honest(SearchUsers(d, c, m, ok), ok, c.controls)
    ensures Shape(SearchGroups(d, c, m, ok), m.id) && Honest(SearchGroups(d, c, m, ok), ok, c.controls)
    ensures Shape(SearchGeneric(d, c, m, ok), m.id)
    ensures !(m.Search? && BySid(c, m.baseDN)) ==> Honest(SearchGeneric(d, c, m, ok), ok, c.controls)
    ensures m.Search? && BySid(c, m.baseDN) ==>
              (LastOf(SearchGeneric(d, c, m, ok)).code == SUCCESS <==> AllSent(SearchGeneric(d, c, m, ok), ok))
  {
    if m.Search? {
      FoundShape(m.id, Picked(d.users, Hits(m.filter, d.users)), c.controls, ok);
      FoundShape(m.id, Picked(d.groups, GroupHits(m.filter, d.groups)), c.controls, ok);
      FoundShape(m.id, GenericFound(d, GenericFilter(c, m)), c.controls, ok);
      if BySid(c, m.baseDN) {
        StreamShape(m.id, TokenGroups(c, m.baseDN), Done(m.id, SUCCESS, []), ok);
      }
    }
  }

  // ---------- groups ----------

  lemma {:induction false} MembersSome(filter: string, members: seq<string>)
    ensures MembersMatching(filter, members) > 0 <==>
            exists i :: 0 <= i < |members| && Matches(filter, "member=" + members[i])
  {
    if members != [] {
      var last := |members| - 1;
      MembersSome(filter, members[..last]);
      assert forall i :: 0 <= i < last ==> members[..last][i] == members[i];
    }
  }

  function Occurrences(s: seq<nat>, i: nat): (n: nat)
    ensures n > 0 <==> i in s
  {
    multiset(s)[i]
  }

  lemma OccurrencesAppend(s: seq<nat>, t: seq<nat>, i: nat)
    ensures Occurrences(s + t, i) == Occurrences(s, i) + Occurrences(t, i)
  {
  }

  lemma {:induction false} TimesCount(i: nat, n: nat, j: nat)
    ensures Occurrences(Times(i, n), j) == if i == j then n else 0
  {
    if n > 0 {
      TimesCount(i, n - 1, j);
      assert Times(i, n) == Times(i, n - 1) + [i];
      OccurrencesAppend(Times(i, n - 1), [i], j);
    }
  }

  lemma {:induction false} MemberHitsCount(filter: string, gs: seq<Record>, i: nat)
    ensures Occurrences(MemberHits(filter, gs), i) ==
            if i < |gs| then MembersMatching(filter, Members(gs[i])) else 0
  {
    if gs != [] {
      var last := |gs| - 1;
      MemberHitsCount(filter, gs[..last], i);
      var n := MembersMatching(filter, Members(gs[last]));
      TimesCount(last, n, i);
      OccurrencesAppend(MemberHits(filter, gs[..last]), Times(last, n), i);
    }
  }

  /** Ascending lists hold each number at most once. */
  lemma {:induction false} AscendingCount(hits: seq<nat>, i: nat)
    requires forall j, k :: 0 <= j < k < |hits| ==> hits[j] < hits[k]
    ensures Occurrences(hits, i) == if i in hits then 1 else 0
  {
    if hits != [] {
      var last := |hits| - 1;
      assert hits == hits[..last] + [hits[last]];
      AscendingCount(hits[..last], i);
      OccurrencesAppend(hits[..last], [hits[last]], i);
    }
  }

  lemma {:induction false} NewHitsMeaning(hits: seq<nat>, found: seq<nat>, i: nat)
    ensures i in NewHits(hits, found) <==> i in hits && i !in found
  {
    if hits != [] {
      var last := |hits| - 1;
      NewHitsMeaning(hits[..last], found, i);
      assert hits == hits[..last] + [hits[last]];
    }
  }

  lemma {:induction false} NewHitsAscend(hits: seq<nat>, found: seq<nat>)
    requires forall j, k :: 0 <= j < k < |hits| ==> hits[j] < hits[k]
    ensures forall j, k :: 0 <= j < k < |NewHits(hits, found)| ==> NewHits(hits, found)[j] < NewHits(hits, found)[k]
  {
    if hits != [] {
      var last := |hits| - 1;
      NewHitsAscend(hits[..last], found);
      var before := NewHits(hits[..last], found);
      forall k | 0 <= k < |before| ensures before[k] in hits[..last] {
        NewHitsMeaning(hits[..last], found, before[k]);
      }
    }
  }

  lemma {:induction false} MemberHitsAscend(filter: string, gs: seq<Record>)
    ensures forall j, k :: 0 <= j < k < |MemberHits(filter, gs)| ==> MemberHits(filter, gs)[j] <= MemberHits(filter, gs)[k]
  {
    if gs != [] {
      MemberHitsAscend(filter, gs[..|gs| - 1]);
    }
  }

  /**
   A group search returns each group once for each member that matches, once if only its DN
   matches, and otherwise not at all; the groups found by member come first, both in list order.
   */
  lemma GroupSearch(filter: string, gs: seq<Record>, i: nat)
    requires i < |gs|
    ensures var n := MembersMatching(filter, Members(gs[i]));
            Occurrences(GroupHits(filter, gs), i) == if n > 0 then n else if Matches(filter, gs[i].dn) then 1 else 0
    ensures var (a, b) := (MemberHits(filter, gs), NewHits(Hits(filter, gs), MemberHits(filter, gs)));
            && GroupHits(filter, gs) == a + b
            && (forall j, k :: 0 <= j < k < |a| ==> a[j] <= a[k])
            && (forall j, k :: 0 <= j < k < |b| ==> b[j] < b[k])
            && (i in a <==> exists k :: 0 <= k < |Members(gs[i])| && Matches(filter, "member=" + Members(gs[i])[k]))
  {
    var (a, hits) := (MemberHits(filter, gs), Hits(filter, gs));
    var b := NewHits(hits, a);
    MemberHitsCount(filter, gs, i);
    MembersSome(filter, Members(gs[i]));
    HitsMeaning(filter, gs);
    NewHitsAscend(hits, a);
    NewHitsMeaning(hits, a, i);
    MemberHitsAscend(filter, gs);
    AscendingCount(b, i);
    OccurrencesAppend(a, b, i);
    HitsHas(filter, gs, i);
  }

  lemma HitsHas(filter: string, es: seq<Record>, i: nat)
    requires i < |es|
    ensures i in Hits(filter, es) <==> Matches(filter, es[i].dn)
  {
    HitsMeaning(filter, es);
  }

  // ---------- add, then search ----------

  /** No later attribute has the type of this one. */
  predicate LastOfType(attrs: seq<Attribute>, j: nat) {
    j < |attrs| && forall l :: j < l < |attrs| ==> attrs[l].name != attrs[j].name
  }

  lemma {:induction false} LastValsHolds(attrs: seq<Attribute>, j: nat)
    requires LastOfType(attrs, j)
    ensures attrs[j].name in LastVals(attrs) && LastVals(attrs)[attrs[j].name] == attrs[j].vals
  {
    var last := |attrs| - 1;
    if j < last {
      LastValsHolds(attrs[..last], j);
    }
  }

  lemma {:induction false} LastValsFrom(attrs: seq<Attribute>, name: string) returns (j: nat)
    requires name in LastVals(attrs)
    ensures LastOfType(attrs, j) && attrs[j].name == name
  {
    j := |attrs| - 1;
    if attrs[j].name != name {
      j := LastValsFrom(attrs[..j], name);
    }
  }

  ghost predicate IsLastOne(a: Attribute, sent: seq<Attribute>) {
    exists j: nat :: LastOfType(sent, j) && sent[j] == a
  }

  /** The attributes are the last ones of their types, each once, in order of type. */
  ghost predicate LastOnes(got: seq<Attribute>, sent: seq<Attribute>) {
    && (forall i, j :: 0 <= i < j < |got| ==> Less(got[i].name, got[j].name))
    && (forall j: nat :: LastOfType(sent, j) ==> sent[j] in got)
    && (forall i :: 0 <= i < |got| ==> IsLastOne(got[i], sent))
  }

  /** `got` lists a map in the order of `ks`. */
  ghost predicate Lists(got: seq<Attribute>, ks: seq<string>, m: map<string, seq<string>>) {
    && (forall k :: k in ks <==> k in m) && |got| == |ks|
    && forall i :: 0 <= i < |got| ==> got[i].name == ks[i] && ks[i] in m && got[i].vals == m[ks[i]]
  }

  lemma LastOneListed(got: seq<Attribute>, ks: seq<string>, sent: seq<Attribute>, j: nat)
    requires Lists(got, ks, LastVals(sent)) && LastOfType(sent, j)
    ensures sent[j] in got
  {
    LastValsHolds(sent, j);
    var i :| 0 <= i < |ks| && ks[i] == sent[j].name;
    assert got[i] == sent[j];
  }

  lemma ListedIsLast(got: seq<Attribute>, ks: seq<string>, sent: seq<Attribute>, i: nat) returns (j: nat)
    requires Lists(got, ks, LastVals(sent)) && i < |got|
    ensures LastOfType(sent, j) && sent[j] == got[i]
  {
    j := LastValsFrom(sent, ks[i]);
    LastValsHolds(sent, j);
  }

  lemma ListsLastOnes(got: seq<Attribute>, ks: seq<string>, sent: seq<Attribute>)
    requires Lists(got, ks, LastVals(sent)) && Ascending(ks)
    ensures LastOnes(got, sent)
  {
    forall j: nat | LastOfType(sent, j) ensures sent[j] in got {
      LastOneListed(got, ks, sent, j);
    }
    forall i | 0 <= i < |got| ensures IsLastOne(got[i], sent) {
      var j := ListedIsLast(got, ks, sent, i);
    }
  }

  lemma NewRecordLastOnes(dn: string, attrs: seq<Attribute>)
    ensures LastOnes(AsAttributes(NewRecord(dn, LastVals(attrs)).attrs), attrs)
  {
    ListsLastOnes(AsAttributes(NewRecord(dn, LastVals(attrs)).attrs), OrderedKeys(LastVals(attrs).Keys), attrs);
  }

  lemma FoundAdded(d: Dir, filter: string, e: Record) returns (k: nat)
    requires d.users != [] && d.users[|d.users| - 1] == e && Matches(filter, e.dn)
    ensures k < |GenericFound(d, filter)| && GenericFound(d, filter)[k] == e
  {
    var hits := Hits(filter, d.users);
    HitsHas(filter, d.users, |d.users| - 1);
    k :| 0 <= k < |hits| && hits[k] == |d.users| - 1;
    assert Picked(d.users, hits)[k] == e;
  }

  /**
   After a successful add, a search based at the new DN finds an entry of that DN that holds, for
   each type in the request, the values of the last attribute of that type.
   */
  lemma AddThenSearch(d: Dir, c: Config, add: Message, search: Message, ok: Writes) returns (k: nat)
    requires add.Add? && HandleAdd(d, add).1.code == SUCCESS && PlainAdd(add) && Contains(add.dn, c.userDN)
    requires search.Search? && search.baseDN == add.dn && !BySid(c, add.dn)
    requires forall i :: ok(i)
    ensures var stream := SearchGeneric(HandleAdd(d, add).0, c, search, ok);
            && k + 1 < |stream| && stream[k].Entry? && stream[k].messageID == search.id && stream[k].dn == add.dn
            && LastOnes(stream[k].attributes, add.attrs)
            && LastOf(stream) == Done(search.id, SUCCESS, c.controls)
  {
    var e := HandleAdd(d, add).0;
    var r := NewRecord(add.dn, LastVals(add.attrs));
    var f := Parens(add.dn);
    PlainDNMatchesItself(add.dn);
    assert e.users == d.users + [r];
    k := FoundAdded(e, f, r);
    NewRecordLastOnes(add.dn, add.attrs);
    var found := GenericFound(e, f);
    StreamShape(search.id, found, DoneFor(search.id, found, c.controls), ok);
  }
}
