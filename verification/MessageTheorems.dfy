/**
 Requests survive the trip through a packet tree and through bytes: the decoder gives back
 the message a builder was given, exactly when MessageRoundTrips holds.
 */
module MessageTheorems {
  import opened Go
  import opened Octets
  import opened Ber
  import opened Controls
  import opened ControlTheorems
  import opened Messages

  /** The messages decoding gives back: simple binds, and modifications that change nothing. */
  ghost predicate MessageRoundTrips(m: Message) {
    && (forall i :: 0 <= i < |ControlsOf(m)| ==> RoundTrips(ControlsOf(m)[i]))
    && (m.SimpleBind? ==> m.authChoice == SIMPLE)
    && (m.Modify? ==> m.changes == [])
  }

  /** Everything after the attribute type of a change, kept as one string of encoded values. */
  function RawChange(c: Change): Change {
    Change(c.operation, Attribute(c.modification.name, [SerialiseAll(StringLeaves(c.modification.vals))]))
  }

  function RawChanges(changes: seq<Change>): (raw: seq<Change>)
    ensures |raw| == |changes|
  {
    seq(|changes|, i requires 0 <= i < |changes| => RawChange(changes[i]))
  }

  /** What decoding makes of `m` once its controls have decoded to `cs`. */
  function Received(m: Message, cs: seq<Control>): Message {
    match m
    case SimpleBind(id, _, user, password, _) => SimpleBind(id, SIMPLE, user, password, cs)
    case Search(id, base, scope, deref, size, time, types, filter, attributes, _) =>
      Search(id, base, scope, deref, size, time, types, filter, attributes, cs)
    case Extended(_, _) => m
    case Modify(id, dn, changes, _) => Modify(id, dn, RawChanges(changes), cs)
    case Add(id, dn, attrs, _) => Add(id, dn, attrs, cs)
    case Delete(id, dn, _) => Delete(id, dn, cs)
    case Unbind(_) => m
  }

  /** No change is its own raw form: one encoded value is always longer than the value. */
  lemma RawChangeDiffers(c: Change)
    ensures RawChange(c) != c
  {
    var vals := c.modification.vals;
    if |vals| == 1 {
      SerialiseOne(StringLeaf(vals[0]));
      assert StringLeaves(vals) == [StringLeaf(vals[0])];
      assert |RawChange(c).modification.vals[0]| > |vals[0]|;
    }
  }

  lemma ReceivedIsSent(m: Message)
    ensures Received(m, ControlsOf(m)) == m <==> (m.SimpleBind? ==> m.authChoice == SIMPLE) && (m.Modify? ==> m.changes == [])
  {
    if m.Modify? && m.changes != [] {
      RawChangeDiffers(m.changes[0]);
      assert RawChanges(m.changes)[0] != m.changes[0];
    }
  }

  // ---------- lists ----------

  lemma {:induction false} DecodeControlsOf(ps: seq<Packet>, cs: seq<Control>)
    requires |ps| == |cs|
    requires forall i :: 0 <= i < |cs| ==> (DecodeControl(ps[i]) == Ok(cs[i]) <==> RoundTrips(cs[i]))
    ensures DecodeControls(ps) == Ok(cs) <==> forall i :: 0 <= i < |cs| ==> RoundTrips(cs[i])
  {
    if cs != [] {
      DecodeControlsOf(ps[1..], cs[1..]);
      assert cs == [cs[0]] + cs[1..];
      assert forall i :: 0 < i < |cs| ==> cs[i] == cs[1..][i - 1];
    }
  }

  lemma {:induction false} DecodeStringsOf(ps: seq<Packet>, ss: seq<string>)
    requires |ps| == |ss|
    requires forall i :: 0 <= i < |ss| ==> Is(ps[i], Universal, Primitive, OCTET_STRING) && ps[i].data == ss[i]
    ensures DecodeStrings(ps) == Ok(ss)
  {
    if ss != [] {
      DecodeStringsOf(ps[1..], ss[1..]);
      assert ss == [ss[0]] + ss[1..];
    }
  }

  lemma {:induction false} DecodeAttributesOf(ps: seq<Packet>, attrs: seq<Attribute>)
    requires |ps| == |attrs|
    requires forall i :: 0 <= i < |attrs| ==> DecodeAttribute(ps[i]) == Ok(attrs[i])
    ensures DecodeAttributes(ps) == Ok(attrs)
  {
    if attrs != [] {
      DecodeAttributesOf(ps[1..], attrs[1..]);
      assert attrs == [attrs[0]] + attrs[1..];
    }
  }

  lemma {:induction false} DecodeChangesOf(ps: seq<Packet>, changes: seq<Change>)
    requires |ps| == |changes|
    requires forall i :: 0 <= i < |changes| ==> DecodeChange(ps[i]) == Ok(changes[i])
    ensures DecodeChanges(ps) == Ok(changes)
  {
    if changes != [] {
      DecodeChangesOf(ps[1..], changes[1..]);
      assert changes == [changes[0]] + changes[1..];
    }
  }

  // ---------- the envelope ----------

  /** `p` is an envelope around a request, with these control packets. */
  ghost predicate IsEnvelope(p: Packet, id: int64, request: Packet, controls: seq<Packet>) {
    && Is(p, Universal, Constructed, SEQUENCE)
    && |p.children| == (if controls == [] then 2 else 3)
    && p.children[0] == IntegerLeaf(id)
    && p.children[1] == request
    && (controls != [] ==> p.children[2].cls.Context? && p.children[2].kind.Constructed?
                           && p.children[2].children == controls)
  }

  lemma EnvelopeParts(p: Packet, id: int64, request: Packet, controls: seq<Packet>)
    requires IsEnvelope(p, id, request, controls)
    ensures MessageID(p) == Ok(id)
    ensures EnvelopeControls(p) == DecodeControls(controls)
  {
  }

  /** The decoders look only at these parts of the request they are given. */
  ghost predicate Carries(request: Packet, m: Message, decompile: Decompile) {
    var cs := request.children;
    && request.cls.Application? && (request.kind.Constructed? || m.Delete?)
    && match m
       case SimpleBind(_, _, user, password, _) =>
         && request.tag == BIND_REQUEST && |cs| == 3 && cs[0] == IntegerLeaf(3)
         && Is(cs[1], Universal, Primitive, OCTET_STRING) && cs[1].data == user
         && Is(cs[2], Context, Primitive, 0) && cs[2].data == password
       case Search(_, base, scope, deref, size, time, types, filter, attributes, _) =>
         && request.tag == SEARCH_REQUEST && |cs| == 8
         && Is(cs[0], Universal, Primitive, OCTET_STRING) && cs[0].data == base
         && cs[1] == Enumerated(scope) && cs[2] == Enumerated(deref)
         && cs[3] == IntegerLeaf(size) && cs[4] == IntegerLeaf(time)
         && cs[5] == NewBoolean(Universal, Primitive, BOOLEAN, types)
         && decompile(cs[6]) == Ok(filter)
         && Is(cs[7], Universal, Constructed, SEQUENCE) && DecodeStrings(cs[7].children) == Ok(attributes)
       case Extended(_, name) =>
         && request.tag == EXTENDED_REQUEST && |cs| == 1
         && Is(cs[0], Context, Primitive, 0) && cs[0].data == name
       case Modify(_, dn, changes, _) =>
         && request.tag == MODIFY_REQUEST && |cs| == 2
         && Is(cs[0], Universal, Primitive, OCTET_STRING) && cs[0].data == dn
         && Is(cs[1], Universal, Constructed, SEQUENCE) && DecodeChanges(cs[1].children) == Ok(RawChanges(changes))
       case Add(_, dn, attrs, _) =>
         && request.tag == ADD_REQUEST && |cs| == 2
         && Is(cs[0], Universal, Primitive, OCTET_STRING) && cs[0].data == dn
         && Is(cs[1], Universal, Constructed, SEQUENCE) && DecodeAttributes(cs[1].children) == Ok(attrs)
       case Delete(_, dn, _) => request.tag == DEL_REQUEST && request.data == dn
       case Unbind(_) => request.tag == UNBIND_REQUEST
  }

  lemma CarriedRequest(p: Packet, m: Message, request: Packet, controls: seq<Packet>, decompile: Decompile)
    requires IsEnvelope(p, m.id, request, controls) && Carries(request, m, decompile)
    ensures RequestPacket(p) == Ok(request)
  {
  }

  predicate NoControls(m: Message) {
    m.Extended? || m.Unbind?
  }

  /** A carried message decodes to what Received says, unless a control fails to decode. */
  lemma DecodeCarried(p: Packet, m: Message, request: Packet, controls: seq<Packet>, decompile: Decompile)
    requires IsEnvelope(p, m.id, request, controls) && Carries(request, m, decompile)
    ensures NoControls(m) ==> NewMessage(p, decompile) == Ok(m)
    ensures !NoControls(m) && DecodeControls(controls).Ok? ==>
              NewMessage(p, decompile) == Ok(Received(m, DecodeControls(controls).value))
    ensures !NoControls(m) && !DecodeControls(controls).Ok? ==> !NewMessage(p, decompile).Ok?
  {
    CarriedRequest(p, m, request, controls, decompile);
    EnvelopeParts(p, m.id, request, controls);
  }

  /** Decoding with controls that decode like encodings of `m`'s own. */
  lemma CarriedRoundTrip(p: Packet, m: Message, request: Packet, controls: seq<Packet>, decompile: Decompile)
    requires IsEnvelope(p, m.id, request, controls) && Carries(request, m, decompile)
    requires |controls| == |ControlsOf(m)|
    requires forall i :: 0 <= i < |controls| ==>
               (DecodeControl(controls[i]) == Ok(ControlsOf(m)[i]) <==> RoundTrips(ControlsOf(m)[i]))
    ensures NewMessage(p, decompile) == Ok(m) <==> MessageRoundTrips(m)
  {
    DecodeCarried(p, m, request, controls, decompile);
    DecodeControlsOf(controls, ControlsOf(m));
    ReceivedIsSent(m);
    var d := DecodeControls(controls);
    if !NoControls(m) && d.Ok? {
      assert ControlsOf(Received(m, d.value)) == d.value;
    }
  }

  // ---------- from the packet tree ----------

  lemma BuiltAttribute(a: Attribute)
    ensures DecodeAttribute(EncodeAttribute(a)) == Ok(a)
  {
    DecodeStringsOf(StringLeaves(a.vals), a.vals);
  }

  lemma BuiltChange(c: Change)
    ensures DecodeChange(EncodeChange(c)) == Ok(RawChange(c))
  {
    var modification := EncodeAttribute(c.modification);
    assert AllData(modification.children[1..]) == [SerialiseAll(StringLeaves(c.modification.vals))];
  }

  lemma BuiltCarries(m: Message, filter: Packet, decompile: Decompile)
    requires m.Search? ==> decompile(filter) == Ok(m.filter)
    ensures Carries(BuildRequest(m, filter), m, decompile)
  {
    match m
    case Search(_, _, _, _, _, _, _, _, attributes, _) => DecodeStringsOf(StringLeaves(attributes), attributes);
    case Modify(_, _, changes, _) =>
      forall i | 0 <= i < |changes| ensures DecodeChange(EncodeChanges(changes)[i]) == Ok(RawChanges(changes)[i]) {
        BuiltChange(changes[i]);
      }
      DecodeChangesOf(EncodeChanges(changes), RawChanges(changes));
    case Add(_, _, attrs, _) =>
      forall i | 0 <= i < |attrs| ensures DecodeAttribute(EncodeAttributes(attrs)[i]) == Ok(attrs[i]) {
        BuiltAttribute(attrs[i]);
      }
      DecodeAttributesOf(EncodeAttributes(attrs), attrs);
    case _ =>
  }

  /** Decoding the packet tree a builder made gives the message back exactly when MessageRoundTrips holds. */
  lemma RequestRoundTrip(m: Message, filter: Packet, decompile: Decompile)
    requires m.Search? ==> decompile(filter) == Ok(m.filter)
    ensures NewMessage(Build(m, filter), decompile) == Ok(m) <==> MessageRoundTrips(m)
  {
    BuiltCarries(m, filter, decompile);
    var controls := EncodedControls(ControlsOf(m));
    forall i | 0 <= i < |controls|
      ensures DecodeControl(controls[i]) == Ok(ControlsOf(m)[i]) <==> RoundTrips(ControlsOf(m)[i])
    {
      ControlRoundTrip(ControlsOf(m)[i]);
    }
    CarriedRoundTrip(Build(m, filter), m, BuildRequest(m, filter), controls, decompile);
  }

  // ---------- from bytes ----------

  /** The request as it travels; a delete request is a primitive DN (section 4.8 of RFC 4511). */
  function WireRequest(m: Message, filter: Packet): Packet {
    if m.Delete? then Packet(Application, Primitive, DEL_REQUEST, Nil, m.dn, []) else BuildRequest(m, filter)
  }

  /** The test builder's delete request is typed as constructed, so its bytes are readable only if the DN happens to be BER. */
  lemma BuiltDeleteOnWire(m: Message, filter: Packet, rest: string)
    requires m.Delete? && |m.dn| < TWO_63
    ensures ReadPacket(Serialise(BuildRequest(m, filter)) + rest).Ok? <==> ReadChildren(m.dn).Ok?
  {
    SplitSerialised(BuildRequest(m, filter), rest);
    IdentifierInverts(Application, Constructed, DEL_REQUEST);
  }

  function OnWire(m: Message, filter: Packet): Packet {
    Envelope(m.id, WireRequest(m, filter), ControlsOf(m))
  }

  lemma LeavesWellFormed(ss: seq<string>)
    ensures forall i :: 0 <= i < |ss| ==> WellFormed(StringLeaves(ss)[i]) && !IsEOC(StringLeaves(ss)[i])
  {
  }

  lemma AttributeWellFormed(a: Attribute)
    ensures WellFormed(EncodeAttribute(a))
  {
    var vals := StringLeaves(a.vals);
    LeavesWellFormed(a.vals);
    NodeWellFormed(Universal, SET, vals);
    NodeWellFormed(Universal, SEQUENCE, [StringLeaf(a.name), Node(Universal, Constructed, SET, vals)]);
  }

  lemma ChangeWellFormed(c: Change)
    ensures WellFormed(EncodeChange(c))
  {
    AttributeWellFormed(c.modification);
    NodeWellFormed(Universal, SEQUENCE, [Enumerated(c.operation), EncodeAttribute(c.modification)]);
  }

  /** Every packet of the list can be read back. */
  ghost predicate AllWellFormed(ps: seq<Packet>) {
    forall i :: 0 <= i < |ps| ==> WellFormed(ps[i]) && !IsEOC(ps[i])
  }

  lemma ListsWellFormed(attributes: seq<string>, changes: seq<Change>, attrs: seq<Attribute>)
    ensures WellFormed(Sequence(StringLeaves(attributes)))
    ensures WellFormed(Sequence(EncodeChanges(changes)))
    ensures WellFormed(Sequence(EncodeAttributes(attrs)))
  {
    LeavesWellFormed(attributes);
    NodeWellFormed(Universal, SEQUENCE, StringLeaves(attributes));
    forall i | 0 <= i < |changes| ensures WellFormed(EncodeChanges(changes)[i]) {
      ChangeWellFormed(changes[i]);
    }
    NodeWellFormed(Universal, SEQUENCE, EncodeChanges(changes));
    forall i | 0 <= i < |attrs| ensures WellFormed(EncodeAttributes(attrs)[i]) {
      AttributeWellFormed(attrs[i]);
    }
    NodeWellFormed(Universal, SEQUENCE, EncodeAttributes(attrs));
  }

  lemma RequestWellFormed(m: Message, filter: Packet)
    requires m.Search? ==> WellFormed(filter) && !IsEOC(filter)
    ensures WellFormed(WireRequest(m, filter))
  {
    ListsWellFormed(if m.Search? then m.attributes else [], if m.Modify? then m.changes else [], if m.Add? then m.attrs else []);
    if !m.Delete? {
      var request := BuildRequest(m, filter);
      RequestChildren(m, filter);
      NodeWellFormed(Application, request.tag, request.children);
    }
  }

  /** Leaves of other tags than 0 are well formed, and so is what is added to them. */
  lemma LeavesAnd(leaves: seq<Packet>, more: seq<Packet>)
    requires forall i :: 0 <= i < |leaves| ==> leaves[i].kind.Primitive? && (leaves[i].cls.Context? || leaves[i].tag != EOC)
    requires AllWellFormed(more)
    ensures AllWellFormed(leaves + more)
  {
  }

  lemma SearchChildren(m: Message, filter: Packet)
    requires m.Search? && WellFormed(filter) && !IsEOC(filter) && WellFormed(Sequence(StringLeaves(m.attributes)))
    ensures AllWellFormed(BuildRequest(m, filter).children)
  {
    var leaves := [StringLeaf(m.baseDN), Enumerated(m.scope), Enumerated(m.derefAliases), IntegerLeaf(m.sizeLimit),
                   IntegerLeaf(m.timeLimit), NewBoolean(Universal, Primitive, BOOLEAN, m.typesOnly)];
    var more := [filter, Sequence(StringLeaves(m.attributes))];
    LeavesAnd(leaves, more);
    assert BuildRequest(m, filter).children == leaves + more;
  }

  lemma ListChildren(dn: string, list: Packet)
    requires WellFormed(list) && !IsEOC(list)
    ensures AllWellFormed([StringLeaf(dn), list])
  {
    LeavesAnd([StringLeaf(dn)], [list]);
  }

  lemma RequestChildren(m: Message, filter: Packet)
    requires !m.Delete? && (m.Search? ==> WellFormed(filter) && !IsEOC(filter) && WellFormed(Sequence(StringLeaves(m.attributes))))
    requires m.Modify? ==> WellFormed(Sequence(EncodeChanges(m.changes)))
    requires m.Add? ==> WellFormed(Sequence(EncodeAttributes(m.attrs)))
    ensures AllWellFormed(BuildRequest(m, filter).children)
  {
    match m
    case Search(_, _, _, _, _, _, _, _, _, _) => SearchChildren(m, filter);
    case Modify(_, dn, changes, _) => ListChildren(dn, Sequence(EncodeChanges(changes)));
    case Add(_, dn, attrs, _) => ListChildren(dn, Sequence(EncodeAttributes(attrs)));
    case SimpleBind(_, _, user, password, _) =>
      LeavesAnd([IntegerLeaf(3), StringLeaf(user), NewString(Context, Primitive, 0, password)], []);
    case Extended(_, name) => LeavesAnd([NewString(Context, Primitive, 0, name)], []);
    case Unbind(_) =>
  }

  lemma ControlsWellFormed(controls: seq<Control>)
    ensures WellFormed(EncodeControls(controls))
  {
    var encoded := EncodedControls(controls);
    forall i | 0 <= i < |encoded| ensures WellFormed(encoded[i]) && !IsEOC(encoded[i]) {
      PartsWellFormed(Oid(controls[i]), Criticality(controls[i]), EncodedValue(controls[i]));
    }
    NodeWellFormed(Context, 0, encoded);
  }

  lemma EnvelopeWellFormed(id: int64, request: Packet, controls: seq<Control>)
    requires WellFormed(request) && !IsEOC(request)
    ensures WellFormed(Envelope(id, request, controls))
  {
    var children := Envelope(id, request, controls).children;
    ControlsWellFormed(controls);
    assert AllWellFormed(children);
    NodeWellFormed(Universal, SEQUENCE, children);
  }

  /** Rereading an envelope rereads what is in it. */
  lemma RereadEnvelope(id: int64, request: Packet, controls: seq<Control>)
    ensures IsEnvelope(Reread(Envelope(id, request, controls)), id, Reread(request), RereadAll(EncodedControls(controls)))
  {
    RereadLeaves("", id, true);
    RereadNode(Context, 0, EncodedControls(controls));
    RereadNode(Universal, SEQUENCE, Envelope(id, request, controls).children);
  }

  lemma RereadAttribute(a: Attribute)
    ensures DecodeAttribute(Reread(EncodeAttribute(a))) == Ok(a)
  {
    var vals := StringLeaves(a.vals);
    RereadNode(Universal, SET, vals);
    RereadNode(Universal, SEQUENCE, EncodeAttribute(a).children);
    DecodeStringsOf(RereadAll(vals), a.vals);
  }

  lemma RereadModification(a: Attribute)
    ensures var q := Reread(EncodeAttribute(a));
            && Is(q, Universal, Constructed, SEQUENCE) && |q.children| == 2 && q.children[0] == StringLeaf(a.name)
            && q.children[1].data == SerialiseAll(StringLeaves(a.vals))
  {
    RereadNode(Universal, SEQUENCE, EncodeAttribute(a).children);
  }

  lemma DecodeChangeOf(q: Packet, c: Change, modification: Packet)
    requires Is(q, Universal, Constructed, SEQUENCE) && q.children == [Enumerated(c.operation), modification]
    requires Is(modification, Universal, Constructed, SEQUENCE) && |modification.children| == 2
    requires modification.children[0] == StringLeaf(c.modification.name)
    requires modification.children[1].data == SerialiseAll(StringLeaves(c.modification.vals))
    ensures DecodeChange(q) == Ok(RawChange(c))
  {
    assert AllData(modification.children[1..]) == [modification.children[1].data];
  }

  lemma RereadChange(c: Change)
    ensures DecodeChange(Reread(EncodeChange(c))) == Ok(RawChange(c))
  {
    RereadLeaves("", c.operation, true);
    RereadNode(Universal, SEQUENCE, EncodeChange(c).children);
    RereadModification(c.modification);
    DecodeChangeOf(Reread(EncodeChange(c)), c, Reread(EncodeAttribute(c.modification)));
  }

  lemma RereadBindCarries(m: Message, filter: Packet, decompile: Decompile)
    requires m.SimpleBind? || m.Extended? || m.Unbind?
    ensures Carries(Reread(BuildRequest(m, filter)), m, decompile)
  {
    var request := BuildRequest(m, filter);
    RereadNode(Application, request.tag, request.children);
    RereadLeaves("", 3, true);
  }

  lemma RereadSearchOf(request: Packet, m: Message, decompile: Decompile)
    requires m.Search? && Is(request, Application, Constructed, SEARCH_REQUEST) && |request.children| == 8
    requires var cs := request.children;
             && cs[0] == StringLeaf(m.baseDN) && cs[1] == Enumerated(m.scope) && cs[2] == Enumerated(m.derefAliases)
             && cs[3] == IntegerLeaf(m.sizeLimit) && cs[4] == IntegerLeaf(m.timeLimit)
             && cs[5] == NewBoolean(Universal, Primitive, BOOLEAN, m.typesOnly)
             && decompile(Reread(cs[6])) == Ok(m.filter)
             && Is(cs[7], Universal, Constructed, SEQUENCE) && cs[7].children == StringLeaves(m.attributes)
    ensures Carries(Reread(request), m, decompile)
  {
    RereadLeaves("", m.scope, m.typesOnly);
    RereadLeaves("", m.derefAliases, m.typesOnly);
    RereadLeaves("", m.sizeLimit, m.typesOnly);
    RereadLeaves("", m.timeLimit, m.typesOnly);
    DecodeStringsOf(Reread(request.children[7]).children, m.attributes);
  }

  lemma RereadSearchCarries(m: Message, filter: Packet, decompile: Decompile)
    requires m.Search? && decompile(Reread(filter)) == Ok(m.filter)
    ensures Carries(Reread(BuildRequest(m, filter)), m, decompile)
  {
    RereadSearchOf(BuildRequest(m, filter), m, decompile);
  }

  lemma RereadModifyCarries(m: Message, filter: Packet, decompile: Decompile)
    requires m.Modify?
    ensures Carries(Reread(BuildRequest(m, filter)), m, decompile)
  {
    var request := BuildRequest(m, filter);
    var ps := EncodeChanges(m.changes);
    RereadNode(Application, request.tag, request.children);
    forall i | 0 <= i < |ps| ensures DecodeChange(RereadAll(ps)[i]) == Ok(RawChanges(m.changes)[i]) {
      RereadChange(m.changes[i]);
    }
    RereadNode(Universal, SEQUENCE, ps);
    DecodeChangesOf(RereadAll(ps), RawChanges(m.changes));
  }

  lemma RereadAddCarries(m: Message, filter: Packet, decompile: Decompile)
    requires m.Add?
    ensures Carries(Reread(BuildRequest(m, filter)), m, decompile)
  {
    var request := BuildRequest(m, filter);
    var ps := EncodeAttributes(m.attrs);
    RereadNode(Application, request.tag, request.children);
    forall i | 0 <= i < |ps| ensures DecodeAttribute(RereadAll(ps)[i]) == Ok(m.attrs[i]) {
      RereadAttribute(m.attrs[i]);
    }
    RereadNode(Universal, SEQUENCE, ps);
    DecodeAttributesOf(RereadAll(ps), m.attrs);
  }

  lemma RereadCarries(m: Message, filter: Packet, decompile: Decompile)
    requires m.Search? ==> decompile(Reread(filter)) == Ok(m.filter)
    ensures Carries(Reread(WireRequest(m, filter)), m, decompile)
  {
    match m
    case Search(_, _, _, _, _, _, _, _, _, _) => RereadSearchCarries(m, filter, decompile);
    case Modify(_, _, _, _) => RereadModifyCarries(m, filter, decompile);
    case Add(_, _, _, _) => RereadAddCarries(m, filter, decompile);
    case Delete(_, _, _) =>
    case _ => RereadBindCarries(m, filter, decompile);
  }

  lemma ControlFits(id: int64, request: Packet, controls: seq<Control>, i: nat)
    requires i < |controls|
    ensures |EncodeControl(controls[i]).data| < |Envelope(id, request, controls).data|
  {
    ChildData(EncodedControls(controls), i);
    ChildData(Envelope(id, request, controls).children, 2);
  }

  /**
   The server's view of a request: the bytes of the message, whatever follows them, are read as
   one packet, and decoding that packet gives the message back exactly when MessageRoundTrips holds.
   */
  lemma RequestWireRoundTrip(m: Message, filter: Packet, decompile: Decompile, rest: string)
    requires m.Search? ==> WellFormed(filter) && !IsEOC(filter) && decompile(Reread(filter)) == Ok(m.filter)
    requires |OnWire(m, filter).data| < TWO_63
    ensures ReadPacket(Serialise(OnWire(m, filter)) + rest) == Ok((Reread(OnWire(m, filter)), rest))
    ensures NewMessage(Reread(OnWire(m, filter)), decompile) == Ok(m) <==> MessageRoundTrips(m)
  {
    var request := WireRequest(m, filter);
    RequestWellFormed(m, filter);
    EnvelopeWellFormed(m.id, request, ControlsOf(m));
    ReadSerialised(OnWire(m, filter), rest);
    RereadEnvelope(m.id, request, ControlsOf(m));
    RereadCarries(m, filter, decompile);
    var controls := RereadAll(EncodedControls(ControlsOf(m)));
    forall i | 0 <= i < |controls|
      ensures DecodeControl(controls[i]) == Ok(ControlsOf(m)[i]) <==> RoundTrips(ControlsOf(m)[i])
    {
      ControlFits(m.id, request, ControlsOf(m), i);
      ControlRoundTrip(ControlsOf(m)[i]);
      DecodeReread(ControlsOf(m)[i]);
    }
    CarriedRoundTrip(Reread(OnWire(m, filter)), m, Reread(request), controls, decompile);
  }

  // ---------- a bind that is not version 3 ----------

  /** Refusing a bind of another version panics: the refusal reads a Value that readers leave empty. */
  lemma BindVersionRefusal(p: Packet, id: int64, request: Packet, version: int64, controls: seq<Packet>, decompile: Decompile)
    requires IsEnvelope(p, id, request, controls)
    requires Is(request, Application, Constructed, BIND_REQUEST) && request.value.Nil?
    requires |request.children| > 0 && request.children[0] == IntegerLeaf(version)
    ensures RequestPacket(p) == if version == 3 then Ok(request) else Panic
    ensures version != 3 ==> NewMessage(p, decompile) == Panic
  {
  }
}
