/** BER packets as the objects the encoders fill and the decoders rewrite in place. */
module BerObjects {
  import opened Go
  import opened Ber

  class BerPacket {
    const cls: Class
    const kind: Kind
    const tag: Tag
    var value: Value
    var data: string
    var children: seq<BerPacket>
    /** What the packet holds, and the packets that hold it. */
    ghost var view: Packet
    ghost var repr: set<BerPacket>

    /** A tree of packets in which no two share a part. */
    ghost predicate Valid()
      reads this, repr
      decreases repr
    {
      && this in repr
      && view == Packet(cls, kind, tag, value, data, view.children) && |view.children| == |children|
      && (forall i :: 0 <= i < |children| ==>
            && children[i] in repr && children[i].repr <= repr && this !in children[i].repr
            && children[i].Valid() && children[i].view == view.children[i])
      && (forall i, j :: 0 <= i < j < |children| ==> children[i].repr !! children[j].repr)
    }

    constructor (cls: Class, kind: Kind, tag: Tag, value: Value, data: string)
      ensures Valid() && view == Packet(cls, kind, tag, value, data, []) && repr == {this}
    {
      this.cls, this.kind, this.tag, this.value, this.data, this.children := cls, kind, tag, value, data, [];
      view, repr := Packet(cls, kind, tag, value, data, []), {this};
    }

    method Bytes() returns (s: string)
      requires Valid()
      ensures s == Serialise(view)
    {
      s := [Identifier(cls, kind, tag)] + Length(|data|) + data;
    }

    method AppendChild(child: BerPacket)
      requires Valid() && child.Valid() && child.repr !! repr
      modifies this
      ensures Valid() && view == Ber.AppendChild(old(view), child.view) && repr == old(repr) + child.repr
      ensures value == old(value)
    {
      var bytes := child.Bytes();
      data := data + bytes;
      children := children + [child];
      view := Ber.AppendChild(view, child.view);
      repr := repr + child.repr;
    }

    method SetValue(v: Value)
      requires Valid()
      modifies this
      ensures Valid() && view == old(view).(value := v) && repr == old(repr)
      ensures children == old(children)
    {
      value := v;
      view := view.(value := v);
    }

    /** Truncates Data and drops Value. */
    method Clear()
      requires Valid()
      modifies this
      ensures Valid() && view == old(view).(value := Nil, data := "") && repr == old(repr)
    {
      data, value := "", Nil;
      view := view.(value := Nil, data := "");
    }

    /** Adds a child that is already part of Data. */
    method Attach(child: BerPacket)
      requires Valid() && child.Valid() && child.repr !! repr
      modifies this
      ensures Valid() && view == old(view).(children := old(view).children + [child.view])
      ensures repr == old(repr) + child.repr
    {
      children := children + [child];
      view := view.(children := view.children + [child.view]);
      repr := repr + child.repr;
    }

    /** Sets the Value of a child. */
    method SetChildValue(i: nat, v: Value)
      requires Valid() && i < |children|
      modifies repr
      ensures Valid() && repr == old(repr)
      ensures children == old(children)
      ensures view == old(view).(children := old(view).children[i := old(view).children[i].(value := v)])
    {
      children[i].SetValue(v);
      Refresh(i);
    }

    /** Brings the ghost state up to date after a change inside child `i`. */
    ghost method Refresh(i: nat)
      requires OutOfDate(i)
      modifies this`view, this`repr
      ensures Valid() && view == old(view).(children := old(view).children[i := children[i].view])
      ensures repr == old(repr) + children[i].repr
    {
      view := view.(children := view.children[i := children[i].view]);
      repr := repr + children[i].repr;
    }

    /** Valid, but for what the ghost state says of child `i`. */
    ghost predicate OutOfDate(i: nat)
      reads this, repr, children, if i < |children| then children[i].repr else {}
    {
      && this in repr && i < |children| && children[i].Valid()
      && view == Packet(cls, kind, tag, value, data, view.children) && |view.children| == |children|
      && (forall j :: 0 <= j < |children| ==> children[j] in repr && this !in children[j].repr)
      && (forall j :: 0 <= j < |children| && j != i ==>
            && children[j].repr <= repr && children[j].Valid() && children[j].view == view.children[j]
            && children[j].repr !! children[i].repr)
      && (forall j, k :: 0 <= j < k < |children| && j != i && k != i ==> children[j].repr !! children[k].repr)
    }
  }

  /** The packet a value stands for, made of new objects. */
  method Load(p: Packet) returns (b: BerPacket)
    ensures b.Valid() && b.view == p && fresh(b.repr)
    decreases p
  {
    b := new BerPacket(p.cls, p.kind, p.tag, p.value, p.data);
    for i := 0 to |p.children|
      invariant b.Valid() && fresh(b.repr) && b.view == p.(children := p.children[..i])
    {
      var c := Load(p.children[i]);
      b.Attach(c);
      assert p.children[..i + 1] == p.children[..i] + [p.children[i]];
    }
    assert p.children[..|p.children|] == p.children;
  }

  /** ber.DecodePacketErr. */
  method DecodePacketErr(data: string) returns (r: Outcome<BerPacket>)
    ensures DecodePacket(data).Ok? <==> r.Ok?
    ensures r.Ok? ==> r.value.Valid() && r.value.view == DecodePacket(data).value && fresh(r.value.repr)
    ensures !r.Ok? ==> r == DecodePacket(data).PropagateFailure()
  {
    var p := DecodePacket(data);
    if !p.Ok? {
      return p.PropagateFailure();
    }
    var b := Load(p.value);
    return Ok(b);
  }
}
