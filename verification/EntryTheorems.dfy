/** What modify changes do to the attributes of an entry. */
module EntryTheorems {
  import opened Go
  import opened Messages
  import opened Entries

  predicate DistinctNames(attrs: seq<Attr>) {
    forall i, j :: 0 <= i < j < |attrs| ==> attrs[i].name != attrs[j].name
  }

  predicate InOrder(attrs: seq<Attr>) {
    forall i, j :: 0 <= i < j < |attrs| ==> Less(attrs[i].name, attrs[j].name)
  }

  /** No name twice, and the text and byte values in step. */
  predicate WellKept(attrs: seq<Attr>) {
    DistinctNames(attrs) && forall i :: 0 <= i < |attrs| ==> attrs[i].byteValues == attrs[i].values
  }

  lemma InOrderDistinct(attrs: seq<Attr>)
    requires InOrder(attrs)
    ensures DistinctNames(attrs)
  {
    forall i, j | 0 <= i < j < |attrs| ensures attrs[i].name != attrs[j].name {
      LessTotal(attrs[i].name, attrs[j].name);
    }
  }

  /** A new entry is well kept, in order of name, and holds what the map holds. */
  lemma NewRecordHolds(dn: string, attributes: map<string, seq<string>>, name: string)
    ensures var attrs := NewRecord(dn, attributes).attrs;
            && InOrder(attrs) && WellKept(attrs)
            && GetValues(attrs, name) == if name in attributes then attributes[name] else []
  {
    var attrs, ks := NewRecord(dn, attributes).attrs, OrderedKeys(attributes.Keys);
    InOrderDistinct(attrs);
    if name in attributes {
      var i :| 0 <= i < |ks| && ks[i] == name;
      ValuesAt(attrs, i);
    } else {
      NoValues(attrs, name);
    }
  }

  lemma {:induction false} NoValues(attrs: seq<Attr>, name: string)
    requires forall i :: 0 <= i < |attrs| ==> attrs[i].name != name
    ensures GetValues(attrs, name) == []
  {
    if attrs != [] {
      NoValues(attrs[1..], name);
    }
  }

  /** A lookup finds the first attribute of its name. */
  lemma {:induction false} ValuesOfFirst(attrs: seq<Attr>, i: nat)
    requires i < |attrs| && forall j :: 0 <= j < i ==> attrs[j].name != attrs[i].name
    ensures GetValues(attrs, attrs[i].name) == attrs[i].values
  {
    if i > 0 {
      ValuesOfFirst(attrs[1..], i - 1);
    }
  }

  /** With distinct names that is the only one. */
  lemma ValuesAt(attrs: seq<Attr>, i: nat)
    requires DistinctNames(attrs) && i < |attrs|
    ensures GetValues(attrs, attrs[i].name) == attrs[i].values
  {
    ValuesOfFirst(attrs, i);
  }

  /** The last-match scan of a change and the first-match scan of a lookup agree. */
  lemma ScansAgree(attrs: seq<Attr>, name: string)
    requires DistinctNames(attrs)
    ensures GetValues(attrs, name) == match LastAt(attrs, name) case None => [] case Some(i) => attrs[i].values
  {
    match LastAt(attrs, name)
    case None => NoValues(attrs, name);
    case Some(i) => ValuesAt(attrs, i);
  }

  lemma ChangeKeeps(attrs: seq<Attr>, c: Change)
    requires WellKept(attrs)
    ensures WellKept(ApplyChange(attrs, c))
  {
  }

  /** The attributes of all names but these, in order. */
  function Others(attrs: seq<Attr>, names: set<string>): seq<Attr> {
    if attrs == [] then []
    else if attrs[0].name in names then Others(attrs[1..], names)
    else [attrs[0]] + Others(attrs[1..], names)
  }

  lemma {:induction false} OthersAppend(a: seq<Attr>, b: seq<Attr>, names: set<string>)
    ensures Others(a + b, names) == Others(a, names) + Others(b, names)
  {
    if a == [] {
      assert a + b == b;
    } else {
      assert (a + b)[1..] == a[1..] + b;
      OthersAppend(a[1..], b, names);
    }
  }

  lemma OthersAround(a: seq<Attr>, mid: seq<Attr>, b: seq<Attr>, names: set<string>)
    requires forall i :: 0 <= i < |mid| ==> mid[i].name in names
    requires |mid| <= 1
    ensures Others(a + mid + b, names) == Others(a, names) + Others(b, names)
  {
    OthersAppend(a + mid, b, names);
    OthersAppend(a, mid, names);
  }

  /** A change leaves every attribute of another name as it was and where it was. */
  lemma ChangeKeepsOthers(attrs: seq<Attr>, c: Change, names: set<string>)
    requires c.modification.name in names
    ensures Others(ApplyChange(attrs, c), names) == Others(attrs, names)
  {
    var n, vals := c.modification.name, c.modification.vals;
    match LastAt(attrs, n)
    case None =>
      OthersAppend(attrs, [NewAttr(n, vals)], names);
    case Some(i) =>
      var before, after := attrs[..i], attrs[i + 1..];
      var a := AddValues(attrs[i], vals);
      assert attrs == before + [attrs[i]] + after;
      assert attrs[i := a] == before + [a] + after;
      assert before + [] + after == before + after;
      OthersAround(before, [attrs[i]], after, names);
      OthersAround(before, [a], after, names);
      OthersAround(before, [], after, names);
  }

  lemma {:induction false} ValuesAmongOthers(attrs: seq<Attr>, names: set<string>, n: string)
    requires n !in names
    ensures GetValues(attrs, n) == GetValues(Others(attrs, names), n)
  {
    if attrs != [] {
      ValuesAmongOthers(attrs[1..], names, n);
    }
  }

  /** The values of one attribute name after a list of changes, read off that name alone. */
  function ValuesAfter(values: seq<string>, changes: seq<Change>, name: string): seq<string>
    decreases |changes|
  {
    if changes == [] then values
    else
      var (op, m) := (changes[0].operation, changes[0].modification);
      var next :=
        if m.name != name then values
        else if op == ADD_ATTRIBUTE then values + m.vals
        else if op == DELETE_ATTRIBUTE then []
        else values;
      ValuesAfter(next, changes[1..], name)
  }

  lemma LastIs(attrs: seq<Attr>, name: string, i: nat)
    requires DistinctNames(attrs) && i < |attrs| && attrs[i].name == name
    ensures LastAt(attrs, name) == Some(i)
  {
    assert LastAt(attrs, name).Some?;
  }

  lemma ChangedAt(attrs: seq<Attr>, c: Change)
    requires WellKept(attrs) && WellKept(ApplyChange(attrs, c))
    ensures var (n, r) := (c.modification.name, ApplyChange(attrs, c));
            match LastAt(attrs, n)
            case None => LastAt(r, n) == if c.operation == ADD_ATTRIBUTE then Some(|attrs|) else None
            case Some(i) => LastAt(r, n) == if c.operation == DELETE_ATTRIBUTE then None else Some(i)
  {
    var (n, r) := (c.modification.name, ApplyChange(attrs, c));
    match LastAt(attrs, n)
    case None =>
      if c.operation == ADD_ATTRIBUTE {
        LastIs(r, n, |attrs|);
      }
    case Some(i) =>
      if c.operation == DELETE_ATTRIBUTE {
        assert forall j :: 0 <= j < |r| ==> r[j].name != n;
      } else {
        LastIs(r, n, i);
      }
  }

  lemma ChangeEffect(attrs: seq<Attr>, c: Change, name: string)
    requires WellKept(attrs)
    ensures GetValues(ApplyChange(attrs, c), name) == ValuesAfter(GetValues(attrs, name), [c], name)
  {
    var r := ApplyChange(attrs, c);
    if c.modification.name == name {
      ChangeKeeps(attrs, c);
      ScansAgree(attrs, name);
      ScansAgree(r, name);
      ChangedAt(attrs, c);
    } else {
      ChangeKeepsOthers(attrs, c, {c.modification.name});
      ValuesAmongOthers(attrs, {c.modification.name}, name);
      ValuesAmongOthers(r, {c.modification.name}, name);
    }
  }

  /**
   However many changes an entry goes through, its names stay distinct, its two value lists stay in
   step, and each name's values are what the changes of that name make of them.
   */
  lemma {:induction false} ChangesEffect(attrs: seq<Attr>, changes: seq<Change>, name: string)
    requires WellKept(attrs)
    ensures WellKept(ApplyChanges(attrs, changes))
    ensures GetValues(ApplyChanges(attrs, changes), name) == ValuesAfter(GetValues(attrs, name), changes, name)
    decreases |changes|
  {
    if changes != [] {
      ChangeKeeps(attrs, changes[0]);
      ChangeEffect(attrs, changes[0], name);
      ChangesEffect(ApplyChange(attrs, changes[0]), changes[1..], name);
    }
  }

  /** Attributes that no change names come through untouched and in order, whatever names the changes have. */
  lemma {:induction false} ChangesKeepOthers(attrs: seq<Attr>, changes: seq<Change>, names: set<string>)
    requires forall i :: 0 <= i < |changes| ==> changes[i].modification.name in names
    ensures Others(ApplyChanges(attrs, changes), names) == Others(attrs, names)
    decreases |changes|
  {
    if changes != [] {
      ChangeKeepsOthers(attrs, changes[0], names);
      ChangesKeepOthers(ApplyChange(attrs, changes[0]), changes[1..], names);
    }
  }

  /** The names the changes are about. */
  function Named(changes: seq<Change>): set<string> {
    set i | 0 <= i < |changes| :: changes[i].modification.name
  }

  /** A replace leaves the values section 4.6 of RFC 4511 asks for only where they were there already. */
  lemma ReplaceIsIgnored(attrs: seq<Attr>, m: Attribute)
    ensures ApplyChanges(attrs, [Change(REPLACE_ATTRIBUTE, m)]) == attrs
    ensures GetValues(ApplyChanges(attrs, [Change(REPLACE_ATTRIBUTE, m)]), m.name) == m.vals <==>
            GetValues(attrs, m.name) == m.vals
  {
    assert ApplyChanges(attrs, [Change(REPLACE_ATTRIBUTE, m)]) ==
           ApplyChanges(ApplyChange(attrs, Change(REPLACE_ATTRIBUTE, m)), []);
  }
}
