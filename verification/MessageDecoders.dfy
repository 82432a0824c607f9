/**
 The loops of the request decoders, each proved to collect what Messages says, and the one loop
 that rewrites what it reads: the controls of a request.
 */
module MessageDecoders {
  import opened Go
  import opened Ber
  import opened BerObjects
  import opened Controls
  import opened ControlTheorems
  import opened ControlObjects
  import opened Messages

  method CollectStrings(ps: seq<Packet>) returns (r: Outcome<seq<string>>)
    ensures r == DecodeStrings(ps)
  {
    var vals := [];
    for i := 0 to |ps|
      invariant DecodeStrings(ps) == After(vals, DecodeStrings(ps[i..]))
    {
      assert ps[i..][0] == ps[i] && ps[i..][1..] == ps[i + 1..];
      if !Is(ps[i], Universal, Primitive, OCTET_STRING) {
        return Err(Other);
      }
      AfterOne(vals, ps[i].data, DecodeStrings(ps[i + 1..]));
      vals := vals + [ps[i].data];
    }
    return Ok(vals);
  }

  method CollectAttribute(p: Packet) returns (r: Outcome<Attribute>)
    ensures r == DecodeAttribute(p)
  {
    if !Is(p, Universal, Constructed, SEQUENCE) {
      return Err(InvalidParameter);
    }
    if !ChildIs(p, 0, Universal, Primitive, OCTET_STRING) {
      return Err(InvalidParameter);
    }
    if !ChildIs(p, 1, Universal, Constructed, SET) {
      return Err(InvalidParameter);
    }
    var vals :- CollectStrings(p.children[1].children);
    return Ok(Attribute(p.children[0].data, vals));
  }

  method CollectAttributes(ps: seq<Packet>) returns (r: Outcome<seq<Attribute>>)
    ensures r == DecodeAttributes(ps)
  {
    var attrs := [];
    for i := 0 to |ps|
      invariant DecodeAttributes(ps) == After(attrs, DecodeAttributes(ps[i..]))
    {
      assert ps[i..][0] == ps[i] && ps[i..][1..] == ps[i + 1..];
      var a :- CollectAttribute(ps[i]);
      AfterOne(attrs, a, DecodeAttributes(ps[i + 1..]));
      attrs := attrs + [a];
    }
    return Ok(attrs);
  }

  method CollectData(ps: seq<Packet>) returns (vals: seq<string>)
    ensures vals == AllData(ps)
  {
    vals := [];
    for i := 0 to |ps|
      invariant vals == AllData(ps[..i])
    {
      vals := vals + [ps[i].data];
    }
    assert ps[..|ps|] == ps;
  }

  method CollectChange(p: Packet) returns (r: Outcome<Change>)
    ensures r == DecodeChange(p)
  {
    if !Is(p, Universal, Constructed, SEQUENCE) || !ChildIs(p, 0, Universal, Primitive, ENUMERATED) {
      return Err(InvalidParameter);
    }
    if !p.children[0].value.Int? {
      return Err(Other);
    }
    if !ChildIs(p, 1, Universal, Constructed, SEQUENCE) {
      return Err(InvalidParameter);
    }
    var modification := p.children[1];
    if !ChildIs(modification, 0, Universal, Primitive, OCTET_STRING) || |modification.children| < 2 {
      return Err(InvalidParameter);
    }
    var vals := CollectData(modification.children[1..]);
    return Ok(Change(p.children[0].value.i, Attribute(modification.children[0].data, vals)));
  }

  method CollectChanges(ps: seq<Packet>) returns (r: Outcome<seq<Change>>)
    ensures r == DecodeChanges(ps)
  {
    var changes := [];
    for i := 0 to |ps|
      invariant DecodeChanges(ps) == After(changes, DecodeChanges(ps[i..]))
    {
      assert ps[i..][0] == ps[i] && ps[i..][1..] == ps[i + 1..];
      var c :- CollectChange(ps[i]);
      AfterOne(changes, c, DecodeChanges(ps[i + 1..]));
      changes := changes + [c];
    }
    return Ok(changes);
  }

  // ---------- controls ----------

  /** Every packet is as it was or as a decode leaves it. */
  predicate Rewritten(now: seq<Packet>, before: seq<Packet>) {
    |now| == |before| && forall i :: 0 <= i < |now| ==> now[i] == before[i] || now[i] == Decoded(before[i])
  }

  /** Whichever packets of a list have been rewritten, the list decodes as it did, failures included. */
  lemma {:induction false} DecodeAllTwice(now: seq<Packet>, before: seq<Packet>)
    requires Rewritten(now, before)
    ensures DecodeControls(now) == DecodeControls(before)
  {
    if before != [] {
      DecodeTwice(before[0]);
      DecodeAllTwice(now[1..], before[1..]);
    }
  }

  lemma DecodeStep(ps: seq<Packet>, cs: seq<Control>, i: nat)
    requires i < |ps| && DecodeControls(ps) == After(cs, DecodeControls(ps[i..]))
    ensures !DecodeControl(ps[i]).Ok? ==> DecodeControls(ps) == DecodeControl(ps[i]).PropagateFailure()
    ensures DecodeControl(ps[i]).Ok? ==>
              DecodeControls(ps) == After(cs + [DecodeControl(ps[i]).value], DecodeControls(ps[i + 1..]))
  {
    assert ps[i..][0] == ps[i] && ps[i..][1..] == ps[i + 1..];
    if DecodeControl(ps[i]).Ok? {
      AfterOne(cs, DecodeControl(ps[i]).value, DecodeControls(ps[i + 1..]));
    }
  }

  method DecodeControlAt(packet: BerPacket, i: nat, ghost p: Packet) returns (r: Outcome<Control>)
    requires packet.Valid() && i < |packet.children| && packet.view.children[i] == p
    modifies packet.repr
    ensures packet.Valid() && fresh(packet.repr - old(packet.repr)) && packet.children == old(packet.children)
    ensures r == DecodeControl(p)
    ensures packet.view == old(packet.view).(children := old(packet.view).children[i := Decoded(p)])
  {
    r := DecodeControlInPlace(packet.children[i]);
    packet.Refresh(i);
  }

  /** The packets with the first `n` of them rewritten. */
  ghost predicate RewrittenUpTo(now: seq<Packet>, ps: seq<Packet>, n: nat) {
    && |now| == |ps| && n <= |ps|
    && (forall i :: 0 <= i < n ==> now[i] == Decoded(ps[i])) && now[n..] == ps[n..]
  }

  lemma RewriteOne(now: seq<Packet>, ps: seq<Packet>, n: nat)
    requires RewrittenUpTo(now, ps, n) && n < |ps|
    ensures now[n] == ps[n] && RewrittenUpTo(now[n := Decoded(ps[n])], ps, n + 1)
  {
    assert now[n] == now[n..][0] && ps[n] == ps[n..][0];
    var next := now[n := Decoded(ps[n])];
    assert next[n + 1..] == now[n..][1..] && ps[n + 1..] == ps[n..][1..];
  }

  /** One step of the loop over the controls. */
  method CollectNext(packet: BerPacket, i: nat, ghost ps: seq<Packet>, cs: seq<Control>) returns (r: Outcome<Control>)
    requires packet.Valid() && |packet.children| == |ps| && i < |ps| && RewrittenUpTo(packet.view.children, ps, i)
    requires DecodeControls(ps) == After(cs, DecodeControls(ps[i..]))
    modifies packet.repr
    ensures packet.Valid() && fresh(packet.repr - old(packet.repr)) && packet.children == old(packet.children)
    ensures RewrittenUpTo(packet.view.children, ps, i + 1)
    ensures packet.view == old(packet.view).(children := packet.view.children)
    ensures r.Ok? ==> DecodeControls(ps) == After(cs + [r.value], DecodeControls(ps[i + 1..]))
    ensures !r.Ok? ==> DecodeControls(ps) == r.PropagateFailure()
  {
    DecodeStep(ps, cs, i);
    RewriteOne(packet.view.children, ps, i);
    r := DecodeControlAt(packet, i, ps[i]);
  }

  lemma UpToIsRewritten(now: seq<Packet>, ps: seq<Packet>, n: nat)
    requires RewrittenUpTo(now, ps, n)
    ensures Rewritten(now, ps)
  {
    forall i | 0 <= i < |now| ensures now[i] == ps[i] || now[i] == Decoded(ps[i]) {
      assert i >= n ==> now[i] == now[n..][i - n] && ps[i] == ps[n..][i - n];
    }
  }

  /** The loop every request decoder ends with. */
  method CollectControls(packet: BerPacket) returns (r: Outcome<seq<Control>>)
    requires packet.Valid()
    modifies packet.repr
    ensures packet.Valid() && fresh(packet.repr - old(packet.repr))
    ensures r == DecodeControls(old(packet.view).children)
    ensures packet.view == old(packet.view).(children := packet.view.children)
    ensures Rewritten(packet.view.children, old(packet.view).children)
    ensures r.Ok? ==> RewrittenUpTo(packet.view.children, old(packet.view).children, |old(packet.view).children|)
  {
    ghost var ps := packet.view.children;
    var cs := [];
    for i := 0 to |packet.children|
      invariant packet.Valid() && fresh(packet.repr - old(packet.repr)) && packet.children == old(packet.children)
      invariant RewrittenUpTo(packet.view.children, ps, i)
      invariant packet.view == old(packet.view).(children := packet.view.children)
      invariant DecodeControls(ps) == After(cs, DecodeControls(ps[i..]))
    {
      var c := CollectNext(packet, i, ps, cs);
      if !c.Ok? {
        UpToIsRewritten(packet.view.children, ps, i + 1);
        return c.PropagateFailure();
      }
      cs := cs + [c.value];
    }
    UpToIsRewritten(packet.view.children, ps, |ps|);
    return Ok(cs);
  }

  /** Describing every control of a list first changes nothing about how the list decodes. */
  lemma {:induction false} DescribeAllThenDecode(ps: seq<Packet>)
    requires DescribeAll(ps).Ok?
    ensures DecodeControls(DescribeAll(ps).value) == DecodeControls(ps)
  {
    if ps != [] {
      var described := DescribeAll(ps).value;
      DescribeThenDecode(ps[0]);
      DescribeAllThenDecode(ps[1..]);
      assert described[0] == DescribeControl(ps[0]).value && described[1..] == DescribeAll(ps[1..]).value;
    }
  }

  /** On one packet object: the controls described in place and then decoded are the controls decoded alone. */
  method DescribeThenCollect(packet: BerPacket) returns (described: Outcome<()>, r: Outcome<seq<Control>>)
    requires packet.Valid()
    modifies packet.repr
    ensures described.Ok? <==> DescribeAll(old(packet.view).children).Ok?
    ensures described.Ok? ==> r == DecodeControls(old(packet.view).children)
  {
    described := AddControlDescriptions(packet);
    if described.Ok? {
      DescribeAllThenDecode(old(packet.view).children);
    }
    r := CollectControls(packet);
  }

  /** And controls collected twice from one packet object come out the same, failures included. */
  method CollectTwice(packet: BerPacket) returns (first: Outcome<seq<Control>>, second: Outcome<seq<Control>>)
    requires packet.Valid()
    modifies packet.repr
    ensures first == DecodeControls(old(packet.view).children) && second == first
  {
    first := CollectControls(packet);
    DecodeAllTwice(packet.view.children, old(packet.view).children);
    second := CollectControls(packet);
  }
}
