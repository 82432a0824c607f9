/** Directory entries as the objects the handlers share and update in place. */
module EntryObjects {
  import opened Go
  import opened Messages
  import opened Entries

  class EntryAttribute {
    var name: string
    var values: seq<string>
    var byteValues: seq<string>

    ghost function View(): Attr
      reads this
    {
      Attr(name, values, byteValues)
    }

    constructor (name: string, values: seq<string>)
      ensures View() == NewAttr(name, values)
    {
      var bytes := [];
      for i := 0 to |values|
        invariant bytes == values[..i]
      {
        bytes := bytes + [values[i]];
      }
      this.name, this.values, this.byteValues := name, values, bytes;
    }

    method AddValue(vals: seq<string>)
      modifies this
      ensures View() == AddValues(old(View()), vals)
    {
      for i := 0 to |vals|
        invariant View() == AddValues(old(View()), vals[..i])
      {
        byteValues := byteValues + [vals[i]];
        values := values + [vals[i]];
        assert vals[..i + 1] == vals[..i] + [vals[i]];
      }
      assert vals[..|vals|] == vals;
    }
  }

  ghost function Views(attributes: seq<EntryAttribute>): (r: seq<Attr>)
    reads attributes
    ensures |r| == |attributes|
    ensures forall i :: 0 <= i < |r| ==> r[i] == attributes[i].View()
  {
    seq(|attributes|, i requires 0 <= i < |attributes| reads attributes => attributes[i].View())
  }

  /** The names in a map, which arrive in any order, sorted. */
  method SortedNames(attributes: map<string, seq<string>>) returns (names: seq<string>)
    ensures names == OrderedKeys(attributes.Keys)
  {
    names := [];
    var left := attributes.Keys;
    while left != {}
      invariant left <= attributes.Keys && Distinct(names)
      invariant forall n :: n in names <==> n in attributes.Keys - left
      decreases left
    {
      var n :| n in left;
      assert forall i :: 0 <= i < |names| ==> names[i] in names;
      names := names + [n];
      left := left - {n};
    }
    SortAscending(names);
    names := Sort(names);
    AscendingIsUnique(names, OrderedKeys(attributes.Keys));
  }

  ghost predicate Separate(attributes: seq<EntryAttribute>) {
    forall i, j :: 0 <= i < j < |attributes| ==> attributes[i] != attributes[j]
  }

  method NewAttributes(names: seq<string>, attributes: map<string, seq<string>>)
    returns (encoded: seq<EntryAttribute>)
    requires forall n :: n in names ==> n in attributes
    ensures Separate(encoded) && Views(encoded) == NewAttrs(names, attributes)
    ensures forall i :: 0 <= i < |encoded| ==> fresh(encoded[i])
  {
    encoded := [];
    for i := 0 to |names|
      invariant |encoded| == i && Separate(encoded)
      invariant forall k :: 0 <= k < i ==> fresh(encoded[k])
      invariant forall k :: 0 <= k < i ==> encoded[k].View() == NewAttr(names[k], attributes[names[k]])
    {
      var a := new EntryAttribute(names[i], attributes[names[i]]);
      encoded := encoded + [a];
    }
  }

  class Entry {
    var dn: string
    var attributes: seq<EntryAttribute>

    /** No attribute object is listed twice. */
    ghost predicate Valid()
      reads this
    {
      Separate(attributes)
    }

    ghost function Parts(): set<EntryAttribute>
      reads this
    {
      set a | a in attributes
    }

    ghost function View(): Record
      reads this, attributes
    {
      Record(dn, Views(attributes))
    }

    /** Map iteration gives the names in any order; sorting makes the entry the same every time. */
    constructor (dn: string, attributes: map<string, seq<string>>)
      ensures Valid() && View() == NewRecord(dn, attributes)
      ensures fresh(Parts())
    {
      var names := SortedNames(attributes);
      var encoded := NewAttributes(names, attributes);
      this.dn, this.attributes := dn, encoded;
    }

    method Append(a: EntryAttribute)
      requires Valid() && a !in Parts()
      modifies this`attributes
      ensures Valid() && Parts() == old(Parts()) + {a}
      ensures View() == Record(old(dn), old(View().attrs) + [a.View()])
    {
      attributes := attributes + [a];
      assert Views(attributes) == old(Views(attributes)) + [a.View()];
    }

    method AddValueAt(at: nat, vals: seq<string>)
      requires Valid() && at < |attributes|
      modifies attributes[at]
      ensures View() == Record(dn, old(View().attrs)[at := AddValues(old(View().attrs[at]), vals)])
    {
      attributes[at].AddValue(vals);
    }

    /** Slices one attribute out. */
    method RemoveAt(at: nat)
      requires Valid() && at < |attributes|
      modifies this`attributes
      ensures Valid() && Parts() <= old(Parts())
      ensures View() == Record(old(dn), old(View().attrs)[..at] + old(View().attrs)[at + 1..])
    {
      attributes := attributes[..at] + attributes[at + 1..];
    }

    method GetAttributeValues(attribute: string) returns (values: seq<string>)
      ensures values == GetValues(View().attrs, attribute)
    {
      ghost var attrs := View().attrs;
      for i := 0 to |attributes|
        invariant GetValues(attrs, attribute) == GetValues(attrs[i..], attribute)
      {
        assert attrs[i..][0] == attributes[i].View() && attrs[i..][1..] == attrs[i + 1..];
        if attributes[i].name == attribute {
          return attributes[i].values;
        }
      }
      return [];
    }
  }

  /** The scan a modify change begins with. */
  method FindLast(attributes: seq<EntryAttribute>, name: string) returns (at: Option<nat>)
    ensures at == LastAt(Views(attributes), name)
  {
    at := None;
    ghost var attrs := Views(attributes);
    for i := 0 to |attributes|
      invariant at == LastAt(attrs[..i], name)
    {
      assert attrs[..i + 1][..i] == attrs[..i];
      if attributes[i].name == name {
        at := Some(i);
      }
    }
    assert attrs[..|attrs|] == attrs;
  }

  method Apply(e: Entry, c: Change)
    requires e.Valid()
    modifies e`attributes, e.Parts()
    ensures e.Valid() && e.View() == Record(old(e.dn), ApplyChange(old(e.View().attrs), c))
    ensures fresh(e.Parts() - old(e.Parts()))
  {
    var at := FindLast(e.attributes, c.modification.name);
    if c.operation == ADD_ATTRIBUTE {
      if at.Some? {
        e.AddValueAt(at.value, c.modification.vals);
      } else {
        var a := new EntryAttribute(c.modification.name, c.modification.vals);
        e.Append(a);
      }
    } else if c.operation == DELETE_ATTRIBUTE {
      if at.Some? {
        e.RemoveAt(at.value);
      }
    }
  }

  method ApplyAll(e: Entry, changes: seq<Change>)
    requires e.Valid()
    modifies e`attributes, e.Parts()
    ensures e.Valid() && e.View() == Record(old(e.dn), ApplyChanges(old(e.View().attrs), changes))
    ensures fresh(e.Parts() - old(e.Parts()))
  {
    ghost var before := e.View().attrs;
    for i := 0 to |changes|
      invariant e.Valid() && e.dn == old(e.dn)
      invariant fresh(e.Parts() - old(e.Parts()))
      invariant ApplyChanges(before, changes) == ApplyChanges(e.View().attrs, changes[i..])
    {
      assert changes[i..][0] == changes[i] && changes[i..][1..] == changes[i + 1..];
      Apply(e, changes[i]);
    }
  }
}
