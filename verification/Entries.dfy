/** Directory entries and their attributes, as values and as the objects the directory updates. */
module Entries {
  import opened Go
  import opened Messages

  // ---------- names in order ----------

  /** The order of sort.Strings. */
  predicate Less(a: string, b: string) {
    if b == "" then false
    else if a == "" then true
    else if a[0] != b[0] then a[0] < b[0]
    else Less(a[1..], b[1..])
  }

  /** The two differ first at `i`. */
  predicate DifferFirst(a: string, b: string, i: nat) {
    i < |a| && i < |b| && a[i] != b[i] && a[..i] == b[..i]
  }

  lemma DifferLater(a: string, b: string, i: nat)
    requires a != "" && b != "" && a[0] == b[0]
    ensures DifferFirst(a, b, i + 1) <==> DifferFirst(a[1..], b[1..], i)
  {
    if i + 1 <= |a| && i + 1 <= |b| {
      assert a[..i + 1] == [a[0]] + a[1..][..i] && b[..i + 1] == [b[0]] + b[1..][..i];
      assert a[..i + 1][1..] == a[1..][..i] && b[..i + 1][1..] == b[1..][..i];
    }
  }

  /** Byte order: a proper prefix comes first, and otherwise the first byte that differs decides. */
  lemma {:induction false} LessMeans(a: string, b: string)
    ensures Less(a, b) <==> a < b || exists i: nat :: DifferFirst(a, b, i) && a[i] < b[i]
  {
    if a != "" && b != "" {
      if a[0] == b[0] {
        LessMeans(a[1..], b[1..]);
        assert a < b <==> a[1..] < b[1..] by {
          assert a == [a[0]] + a[1..] && b == [b[0]] + b[1..];
        }
        if i: nat :| DifferFirst(a, b, i) && a[i] < b[i] {
          DifferLater(a, b, i - 1);
        }
        if i: nat :| DifferFirst(a[1..], b[1..], i) && a[1..][i] < b[1..][i] {
          DifferLater(a, b, i);
        }
      } else {
        assert DifferFirst(a, b, 0);
      }
    }
  }

  lemma {:induction false} LessTotal(a: string, b: string)
    ensures a == b || Less(a, b) || Less(b, a)
    ensures !(Less(a, b) && Less(b, a))
    ensures Less(a, b) ==> a != b
  {
    if a != "" && b != "" && a[0] == b[0] {
      LessTotal(a[1..], b[1..]);
      assert a == [a[0]] + a[1..] && b == [b[0]] + b[1..];
    }
  }

  lemma {:induction false} LessTransitive(a: string, b: string, c: string)
    requires Less(a, b) && Less(b, c)
    ensures Less(a, c)
  {
    if a != "" && a[0] == b[0] == c[0] {
      LessTransitive(a[1..], b[1..], c[1..]);
    }
  }

  predicate Ascending(s: seq<string>) {
    forall i, j :: 0 <= i < j < |s| ==> Less(s[i], s[j])
  }

  function Insert(k: string, s: seq<string>): (r: seq<string>)
    ensures |r| == |s| + 1
    ensures forall x :: x in r <==> x == k || x in s
  {
    if s == [] then [k]
    else if Less(k, s[0]) then [k] + s
    else
      assert s == [s[0]] + s[1..];
      [s[0]] + Insert(k, s[1..])
  }

  lemma {:induction false} InsertAscending(k: string, s: seq<string>)
    requires Ascending(s) && k !in s
    ensures Ascending(Insert(k, s))
  {
    if s != [] {
      LessTotal(k, s[0]);
      if Less(k, s[0]) {
        forall j | 0 <= j < |s| ensures Less(k, s[j]) {
          if j > 0 {
            LessTransitive(k, s[0], s[j]);
          }
        }
      } else {
        InsertAscending(k, s[1..]);
        var r := Insert(k, s[1..]);
        forall j | 0 <= j < |r| ensures Less(s[0], r[j]) {
          assert r[j] in r;
        }
      }
    }
  }

  /** sort.Strings. */
  function Sort(s: seq<string>): (r: seq<string>)
    ensures |r| == |s|
    ensures forall x :: x in r <==> x in s
  {
    if s == [] then []
    else
      assert s == [s[0]] + s[1..];
      Insert(s[0], Sort(s[1..]))
  }

  lemma {:induction false} SortAscending(s: seq<string>)
    requires Distinct(s)
    ensures Ascending(Sort(s))
  {
    if s != [] {
      SortAscending(s[1..]);
      assert s[0] !in Sort(s[1..]);
      InsertAscending(s[0], Sort(s[1..]));
    }
  }

  lemma NotOneEmpty(s: seq<string>, t: seq<string>)
    requires forall x :: x in s <==> x in t
    ensures s == [] <==> t == []
  {
    assert |s| > 0 ==> s[0] in t;
    assert |t| > 0 ==> t[0] in s;
  }

  /** There is only one way to put a set of names in order. */
  lemma {:induction false} AscendingIsUnique(s: seq<string>, t: seq<string>)
    requires Ascending(s) && Ascending(t) && (forall x :: x in s <==> x in t)
    ensures s == t
  {
    NotOneEmpty(s, t);
    if s != [] {
      LessTotal(s[0], t[0]);
      assert s[0] in t && t[0] in s;
      forall x | true ensures x in s[1..] <==> x in t[1..] {
        LessTotal(s[0], s[0]);
        assert x in s[1..] ==> x in s && x != s[0];
        assert x in t[1..] ==> x in t && x != t[0];
      }
      AscendingIsUnique(s[1..], t[1..]);
      assert s == [s[0]] + s[1..] && t == [t[0]] + t[1..];
    }
  }

  // ---------- entries as values ----------

  datatype Attr = Attr(name: string, values: seq<string>, byteValues: seq<string>)

  datatype Record = Record(dn: string, attrs: seq<Attr>)

  function NewAttr(name: string, values: seq<string>): Attr {
    Attr(name, values, values)
  }

  /** GetAttributeValues: the values of the first attribute of that name. */
  function GetValues(attrs: seq<Attr>, name: string): seq<string> {
    if attrs == [] then []
    else if attrs[0].name == name then attrs[0].values
    else GetValues(attrs[1..], name)
  }

  /** The keys of an attribute map, in order. */
  ghost function OrderedKeys(keys: set<string>): (ks: seq<string>)
    ensures Ascending(ks)
    ensures forall x :: x in ks <==> x in keys
    decreases |keys|
  {
    if keys == {} then []
    else
      var k :| k in keys;
      InsertAscending(k, OrderedKeys(keys - {k}));
      Insert(k, OrderedKeys(keys - {k}))
  }

  function NewAttrs(names: seq<string>, attributes: map<string, seq<string>>): (attrs: seq<Attr>)
    requires forall n :: n in names ==> n in attributes
    ensures |attrs| == |names|
    ensures forall i :: 0 <= i < |names| ==> attrs[i] == NewAttr(names[i], attributes[names[i]])
  {
    if names == [] then [] else [NewAttr(names[0], attributes[names[0]])] + NewAttrs(names[1..], attributes)
  }

  /** NewEntry. */
  ghost function NewRecord(dn: string, attributes: map<string, seq<string>>): Record {
    Record(dn, NewAttrs(OrderedKeys(attributes.Keys), attributes))
  }

  // ---------- modify changes ----------

  const ADD_ATTRIBUTE: int64 := 0
  const DELETE_ATTRIBUTE: int64 := 1
  const REPLACE_ATTRIBUTE: int64 := 2

  /** The last attribute of that name, which is the one a change applies to. */
  function LastAt(attrs: seq<Attr>, name: string): (at: Option<nat>)
    ensures at.Some? ==> at.value < |attrs| && attrs[at.value].name == name
    ensures forall j :: (if at.Some? then at.value + 1 else 0) <= j < |attrs| ==> attrs[j].name != name
  {
    if attrs == [] then None
    else if attrs[|attrs| - 1].name == name then Some(|attrs| - 1)
    else LastAt(attrs[..|attrs| - 1], name)
  }

  function AddValues(a: Attr, vals: seq<string>): Attr {
    Attr(a.name, a.values + vals, a.byteValues + vals)
  }

  /** One change.  Replace only rebinds a local variable, so it changes nothing. */
  function ApplyChange(attrs: seq<Attr>, c: Change): seq<Attr> {
    var m := c.modification;
    var at := LastAt(attrs, m.name);
    if c.operation == ADD_ATTRIBUTE then
      if at.Some? then attrs[at.value := AddValues(attrs[at.value], m.vals)] else attrs + [NewAttr(m.name, m.vals)]
    else if c.operation == DELETE_ATTRIBUTE && at.Some? then attrs[..at.value] + attrs[at.value + 1..]
    else attrs
  }

  function ApplyChanges(attrs: seq<Attr>, changes: seq<Change>): seq<Attr>
    decreases |changes|
  {
    if changes == [] then attrs else ApplyChanges(ApplyChange(attrs, changes[0]), changes[1..])
  }
}
