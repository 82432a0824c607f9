/**
 The encoders as they work: packets made empty and filled by appending children, each proved to
 come out as the value that Controls and Messages describe.
 */
module PacketBuilders {
  import opened Go
  import opened Octets
  import opened Ber
  import opened BerObjects
  import opened Controls
  import opened Messages
  import opened Responses

  /** Appends a child to a packet that holds `parts` so far. */
  method Append(packet: BerPacket, child: BerPacket, ghost parts: seq<Packet>)
    requires packet.Valid() && child.Valid() && child.repr !! packet.repr
    requires packet.view == Node(packet.cls, packet.kind, packet.tag, parts)
    modifies packet
    ensures packet.Valid() && packet.repr == old(packet.repr) + child.repr
    ensures packet.view == Node(packet.cls, packet.kind, packet.tag, parts + [child.view])
  {
    packet.AppendChild(child);
    AppendToNode(packet.cls, packet.kind, packet.tag, parts, child.view);
  }

  /** Appends a leaf. */
  method AppendLeaf(packet: BerPacket, leaf: Packet, ghost parts: seq<Packet>)
    requires packet.Valid() && packet.view == Node(packet.cls, packet.kind, packet.tag, parts)
    modifies packet
    ensures packet.Valid() && fresh(packet.repr - old(packet.repr))
    ensures packet.view == Node(packet.cls, packet.kind, packet.tag, parts + [leaf])
  {
    var child := Load(leaf);
    Append(packet, child, parts);
  }

  /** Appends the next of the parts a packet is to hold. */
  method AppendNext(packet: BerPacket, child: BerPacket, ghost all: seq<Packet>, ghost i: nat)
    requires packet.Valid() && child.Valid() && child.repr !! packet.repr
    requires i < |all| && child.view == all[i]
    requires packet.view == Node(packet.cls, packet.kind, packet.tag, all[..i])
    modifies packet
    ensures packet.Valid() && packet.repr == old(packet.repr) + child.repr
    ensures packet.view == Node(packet.cls, packet.kind, packet.tag, all[..i + 1])
  {
    Append(packet, child, all[..i]);
    assert all[..i + 1] == all[..i] + [all[i]];
  }

  /** ber.Encode without a value. */
  method Empty(cls: Class, kind: Kind, tag: Tag) returns (packet: BerPacket)
    ensures packet.Valid() && fresh(packet.repr)
    ensures packet.cls == cls && packet.kind == kind && packet.tag == tag && packet.view == Node(cls, kind, tag, [])
  {
    packet := new BerPacket(cls, kind, tag, Nil, "");
  }

  /** A packet with one child. */
  method Around(cls: Class, kind: Kind, tag: Tag, child: BerPacket) returns (packet: BerPacket)
    requires child.Valid()
    ensures packet.Valid() && fresh(packet.repr - child.repr) && packet.view == Node(cls, kind, tag, [child.view])
  {
    packet := Empty(cls, kind, tag);
    Append(packet, child, []);
    assert [] + [child.view] == [child.view];
  }

  // ---------- controls ----------

  method PagingValuePacket(size: uint32, cookie: string) returns (value: BerPacket)
    ensures value.Valid() && fresh(value.repr) && value.view == Wrapped(PagingValue(size, cookie))
  {
    var s := Empty(Universal, Constructed, SEQUENCE);
    AppendLeaf(s, IntegerLeaf(size), []);
    var c := Packet(Universal, Primitive, OCTET_STRING, Raw(cookie), cookie, []);
    AppendLeaf(s, c, [] + [IntegerLeaf(size)]);
    assert [] + [IntegerLeaf(size)] + [c] == [IntegerLeaf(size), c];
    value := Around(Universal, Primitive, OCTET_STRING, s);
  }

  method WarningValuePacket(tag: Tag, n: int64) returns (value: BerPacket)
    ensures value.Valid() && fresh(value.repr) && value.view == Wrapped(WarningValue(tag, n))
  {
    var number := Load(NewInteger(Context, Primitive, tag, n));
    var context := Around(Context, Constructed, 0, number);
    var s := Around(Universal, Constructed, SEQUENCE, context);
    value := Around(Universal, Primitive, OCTET_STRING, s);
  }

  method ErrorValuePacket(code: int8) returns (value: BerPacket)
    ensures value.Valid() && fresh(value.repr) && value.view == Wrapped(ErrorValue(code))
  {
    var context := Load(Packet(Context, Primitive, 1, Int8(code), Signed(code), []));
    var s := Around(Universal, Constructed, SEQUENCE, context);
    value := Around(Universal, Primitive, OCTET_STRING, s);
  }

  /** The value packet of a control that has one. */
  method ValuePacket(c: Control) returns (value: BerPacket?)
    ensures value == null <==> EncodedValue(c).None?
    ensures value != null ==> value.Valid() && fresh(value.repr) && Some(value.view) == EncodedValue(c)
  {
    match c
    case ControlString(_, _, v) =>
      if v == "" {
        return null;
      }
      value := Load(StringLeaf(v));
    case Paging(size, cookie) =>
      value := PagingValuePacket(size, cookie);
    case Behera(expire, grace, error, _) =>
      if grace >= 0 {
        value := WarningValuePacket(1, grace);
      } else if expire >= 0 {
        value := WarningValuePacket(0, expire);
      } else if error >= 0 {
        value := ErrorValuePacket(error);
      } else {
        return null;
      }
    case VChuWarning(expire) =>
      value := Load(StringLeaf(FormatInt(expire)));
    case _ =>
      return null;
  }

  /** A control packet: type, criticality if set, value if there is one. */
  method PartsPacket(oid: string, criticality: bool, value: BerPacket?) returns (packet: BerPacket)
    requires value != null ==> value.Valid()
    ensures packet.Valid() && fresh(packet.repr - (if value == null then {} else value.repr))
    ensures packet.view == Sequence(Parts(oid, criticality, if value == null then None else Some(value.view)))
  {
    packet := Empty(Universal, Constructed, SEQUENCE);
    ghost var parts := [];
    AppendLeaf(packet, StringLeaf(oid), parts);
    parts := parts + [StringLeaf(oid)];
    if criticality {
      AppendLeaf(packet, TrueLeaf(), parts);
      parts := parts + [TrueLeaf()];
    }
    if value != null {
      Append(packet, value, parts);
      parts := parts + [value.view];
    }
    assert parts == Parts(oid, criticality, if value == null then None else Some(value.view));
  }

  /** The Encode methods of the controls. */
  method ControlPacket(c: Control) returns (packet: BerPacket)
    ensures packet.Valid() && fresh(packet.repr) && packet.view == EncodeControl(c)
  {
    var value := ValuePacket(c);
    packet := PartsPacket(Oid(c), Criticality(c), value);
  }

  method AppendControl(packet: BerPacket, cs: seq<Control>, i: nat, ghost all: seq<Packet>)
    requires i < |cs| && all == EncodedControls(cs) && packet.Valid()
    requires packet.view == Node(packet.cls, packet.kind, packet.tag, all[..i])
    modifies packet
    ensures packet.Valid() && fresh(packet.repr - old(packet.repr))
    ensures packet.view == Node(packet.cls, packet.kind, packet.tag, all[..i + 1])
  {
    var child := ControlPacket(cs[i]);
    AppendNext(packet, child, all, i);
  }

  /** encodeControls. */
  method ControlsPacket(cs: seq<Control>) returns (packet: BerPacket)
    ensures packet.Valid() && fresh(packet.repr) && packet.view == EncodeControls(cs)
  {
    ghost var all := EncodedControls(cs);
    packet := Empty(Context, Constructed, 0);
    for i := 0 to |cs|
      invariant packet.Valid() && fresh(packet.repr) && packet.cls == Context && packet.kind == Constructed && packet.tag == 0
      invariant packet.view == Node(Context, Constructed, 0, all[..i])
    {
      AppendControl(packet, cs, i, all);
    }
    assert all[..|all|] == all;
  }

  // ---------- attributes and changes ----------

  /** A packet of so many strings. */
  method StringsPacket(tag: Tag, ss: seq<string>) returns (packet: BerPacket)
    ensures packet.Valid() && fresh(packet.repr) && packet.view == Node(Universal, Constructed, tag, StringLeaves(ss))
  {
    ghost var all := StringLeaves(ss);
    packet := Empty(Universal, Constructed, tag);
    for i := 0 to |ss|
      invariant packet.Valid() && fresh(packet.repr)
      invariant packet.cls == Universal && packet.kind == Constructed && packet.tag == tag
      invariant packet.view == Node(Universal, Constructed, tag, all[..i])
    {
      AppendLeaf(packet, StringLeaf(ss[i]), all[..i]);
      assert all[..i + 1] == all[..i] + [all[i]];
    }
    assert all[..|all|] == all;
  }

  /** The encode methods of attributes, partial attributes and entry attributes. */
  method AttributePacket(a: Attribute) returns (packet: BerPacket)
    ensures packet.Valid() && fresh(packet.repr) && packet.view == EncodeAttribute(a)
  {
    packet := Empty(Universal, Constructed, SEQUENCE);
    AppendLeaf(packet, StringLeaf(a.name), []);
    var vals := StringsPacket(SET, a.vals);
    Append(packet, vals, [] + [StringLeaf(a.name)]);
    assert [] + [StringLeaf(a.name)] + [vals.view] == [StringLeaf(a.name), vals.view];
  }

  method ChangePacket(c: Change) returns (packet: BerPacket)
    ensures packet.Valid() && fresh(packet.repr) && packet.view == EncodeChange(c)
  {
    packet := Empty(Universal, Constructed, SEQUENCE);
    AppendLeaf(packet, Enumerated(c.operation), []);
    var modification := AttributePacket(c.modification);
    Append(packet, modification, [] + [Enumerated(c.operation)]);
    assert [] + [Enumerated(c.operation)] + [modification.view] == [Enumerated(c.operation), modification.view];
  }

  method AppendAttribute(packet: BerPacket, attrs: seq<Attribute>, i: nat, ghost all: seq<Packet>)
    requires i < |attrs| && all == EncodeAttributes(attrs) && packet.Valid()
    requires packet.view == Node(packet.cls, packet.kind, packet.tag, all[..i])
    modifies packet
    ensures packet.Valid() && fresh(packet.repr - old(packet.repr))
    ensures packet.view == Node(packet.cls, packet.kind, packet.tag, all[..i + 1])
  {
    var child := AttributePacket(attrs[i]);
    AppendNext(packet, child, all, i);
  }

  method AttributesPacket(attrs: seq<Attribute>) returns (packet: BerPacket)
    ensures packet.Valid() && fresh(packet.repr) && packet.view == Sequence(EncodeAttributes(attrs))
  {
    ghost var all := EncodeAttributes(attrs);
    packet := Empty(Universal, Constructed, SEQUENCE);
    for i := 0 to |attrs|
      invariant packet.Valid() && fresh(packet.repr)
      invariant packet.cls == Universal && packet.kind == Constructed && packet.tag == SEQUENCE
      invariant packet.view == Sequence(all[..i])
    {
      AppendAttribute(packet, attrs, i, all);
    }
    assert all[..|all|] == all;
  }

  method AppendChange(packet: BerPacket, changes: seq<Change>, i: nat, ghost all: seq<Packet>)
    requires i < |changes| && all == EncodeChanges(changes) && packet.Valid()
    requires packet.view == Node(packet.cls, packet.kind, packet.tag, all[..i])
    modifies packet
    ensures packet.Valid() && fresh(packet.repr - old(packet.repr))
    ensures packet.view == Node(packet.cls, packet.kind, packet.tag, all[..i + 1])
  {
    var child := ChangePacket(changes[i]);
    AppendNext(packet, child, all, i);
  }

  method ChangesPacket(changes: seq<Change>) returns (packet: BerPacket)
    ensures packet.Valid() && fresh(packet.repr) && packet.view == Sequence(EncodeChanges(changes))
  {
    ghost var all := EncodeChanges(changes);
    packet := Empty(Universal, Constructed, SEQUENCE);
    for i := 0 to |changes|
      invariant packet.Valid() && fresh(packet.repr)
      invariant packet.cls == Universal && packet.kind == Constructed && packet.tag == SEQUENCE
      invariant packet.view == Sequence(all[..i])
    {
      AppendChange(packet, changes, i, all);
    }
    assert all[..|all|] == all;
  }

  // ---------- requests and responses ----------

  method AppendLeaves(packet: BerPacket, leaves: seq<Packet>)
    requires packet.Valid() && packet.view == Node(packet.cls, packet.kind, packet.tag, [])
    modifies packet
    ensures packet.Valid() && fresh(packet.repr - old(packet.repr))
    ensures packet.view == Node(packet.cls, packet.kind, packet.tag, leaves)
  {
    for i := 0 to |leaves|
      invariant packet.Valid() && fresh(packet.repr - old(packet.repr))
      invariant packet.view == Node(packet.cls, packet.kind, packet.tag, leaves[..i])
    {
      AppendLeaf(packet, leaves[i], leaves[..i]);
      assert leaves[..i + 1] == leaves[..i] + [leaves[i]];
    }
    assert leaves[..|leaves|] == leaves;
  }

  /** An application packet of leaves. */
  method LeafPacket(tag: Tag, leaves: seq<Packet>) returns (pkt: BerPacket)
    ensures pkt.Valid() && fresh(pkt.repr) && pkt.view == Request(tag, leaves)
  {
    pkt := Empty(Application, Constructed, tag);
    AppendLeaves(pkt, leaves);
  }

  /** An application packet of leaves and then a list. */
  method ListPacket(tag: Tag, leaves: seq<Packet>, last: BerPacket, ghost all: seq<Packet>) returns (pkt: BerPacket)
    requires last.Valid() && all == leaves + [last.view]
    ensures pkt.Valid() && fresh(pkt.repr - last.repr) && pkt.view == Request(tag, all)
  {
    pkt := LeafPacket(tag, leaves);
    Append(pkt, last, leaves);
  }

  method SearchRequestPacket(m: Message, filter: Packet) returns (pkt: BerPacket)
    requires m.Search?
    ensures pkt.Valid() && fresh(pkt.repr) && pkt.view == BuildRequest(m, filter)
  {
    var leaves := [StringLeaf(m.baseDN), Enumerated(m.scope), Enumerated(m.derefAliases), IntegerLeaf(m.sizeLimit),
                   IntegerLeaf(m.timeLimit), NewBoolean(Universal, Primitive, BOOLEAN, m.typesOnly), filter];
    var last := StringsPacket(SEQUENCE, m.attributes);
    ghost var all := [leaves[0], leaves[1], leaves[2], leaves[3], leaves[4], leaves[5], leaves[6], last.view];
    assert all == leaves + [last.view];
    pkt := ListPacket(SEARCH_REQUEST, leaves, last, all);
  }

  method ModifyRequestPacket(m: Message, filter: Packet) returns (pkt: BerPacket)
    requires m.Modify?
    ensures pkt.Valid() && fresh(pkt.repr) && pkt.view == BuildRequest(m, filter)
  {
    var last := ChangesPacket(m.changes);
    pkt := ListPacket(MODIFY_REQUEST, [StringLeaf(m.dn)], last, [StringLeaf(m.dn), last.view]);
  }

  method AddRequestPacket(m: Message, filter: Packet) returns (pkt: BerPacket)
    requires m.Add?
    ensures pkt.Valid() && fresh(pkt.repr) && pkt.view == BuildRequest(m, filter)
  {
    var last := AttributesPacket(m.attrs);
    pkt := ListPacket(ADD_REQUEST, [StringLeaf(m.dn)], last, [StringLeaf(m.dn), last.view]);
  }

  method BuildRequestPacket(m: Message, filter: Packet) returns (pkt: BerPacket)
    ensures pkt.Valid() && fresh(pkt.repr) && pkt.view == BuildRequest(m, filter)
  {
    match m
    case SimpleBind(_, _, user, password, _) =>
      pkt := LeafPacket(
        BIND_REQUEST, [IntegerLeaf(3), StringLeaf(user), NewString(Context, Primitive, 0, password)]);
    case Search(_, _, _, _, _, _, _, _, _, _) =>
      pkt := SearchRequestPacket(m, filter);
    case Extended(_, name) =>
      pkt := LeafPacket(EXTENDED_REQUEST, [NewString(Context, Primitive, 0, name)]);
    case Modify(_, _, _, _) =>
      pkt := ModifyRequestPacket(m, filter);
    case Add(_, _, _, _) =>
      pkt := AddRequestPacket(m, filter);
    case Delete(_, dn, _) =>
      pkt := new BerPacket(Application, Constructed, DEL_REQUEST, Nil, dn);
    case Unbind(_) =>
      pkt := LeafPacket(UNBIND_REQUEST, []);
  }

  method HeadPacket(id: int64, pkt: BerPacket) returns (envelope: BerPacket)
    requires pkt.Valid()
    ensures envelope.Valid() && fresh(envelope) && fresh(envelope.repr - pkt.repr)
    ensures envelope.cls == Universal && envelope.kind == Constructed && envelope.tag == SEQUENCE
    ensures envelope.view == Sequence([IntegerLeaf(id), pkt.view])
  {
    envelope := Empty(Universal, Constructed, SEQUENCE);
    AppendLeaves(envelope, [IntegerLeaf(id)]);
    Append(envelope, pkt, [IntegerLeaf(id)]);
  }

  /** The envelope of a message: its ID, the operation, and the controls if there are any. */
  method EnvelopePacket(id: int64, pkt: BerPacket, controls: seq<Control>) returns (envelope: BerPacket)
    requires pkt.Valid()
    ensures envelope.Valid() && fresh(envelope.repr - pkt.repr) && envelope.view == Envelope(id, pkt.view, controls)
  {
    envelope := HeadPacket(id, pkt);
    ghost var head := [IntegerLeaf(id), pkt.view];
    if |controls| > 0 {
      var cs := ControlsPacket(controls);
      Append(envelope, cs, head);
    } else {
      assert head + [] == head;
    }
  }

  method BuildPacket(m: Message, filter: Packet) returns (envelope: BerPacket)
    ensures envelope.Valid() && fresh(envelope.repr) && envelope.view == Build(m, filter)
  {
    var pkt := BuildRequestPacket(m, filter);
    envelope := EnvelopePacket(m.id, pkt, ControlsOf(m));
  }

  /** The application part of a response. */
  method BodyPacket(r: Response) returns (pkt: BerPacket)
    ensures pkt.Valid() && fresh(pkt.repr) && pkt.view == Body(r)
  {
    match r
    case Result(_, tag, code, matchedDN, diagnostic, _) =>
      pkt := LeafPacket(tag, [Enumerated(code), StringLeaf(matchedDN), StringLeaf(diagnostic)]);
    case Entry(_, dn, attributes) =>
      var last := AttributesPacket(attributes);
      pkt := ListPacket(SEARCH_RESULT_ENTRY, [StringLeaf(dn)], last, [StringLeaf(dn), last.view]);
  }

  method BuildResponse(r: Response) returns (envelope: BerPacket)
    ensures envelope.Valid() && fresh(envelope.repr) && envelope.view == ResponsePacket(r)
  {
    var pkt := BodyPacket(r);
    envelope := EnvelopePacket(r.messageID, pkt, if r.Result? then r.controls else []);
  }
}
