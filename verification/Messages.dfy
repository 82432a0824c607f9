/**
 LDAP request messages and the decoders that read them out of a packet.  Filters are
 decompiled by a function the caller supplies.
 */
module Messages {
  import opened Go
  import opened Ber
  import opened Controls

  const BIND_REQUEST: Tag := 0
  const UNBIND_REQUEST: Tag := 2
  const SEARCH_REQUEST: Tag := 3
  const MODIFY_REQUEST: Tag := 6
  const ADD_REQUEST: Tag := 8
  const DEL_REQUEST: Tag := 10
  const EXTENDED_REQUEST: Tag := 23

  const SIMPLE := "simple"
  const START_TLS := "1.3.6.1.4.1.1466.20037"

  datatype Attribute = Attribute(name: string, vals: seq<string>)

  datatype Change = Change(operation: int64, modification: Attribute)

  datatype Message =
    | SimpleBind(id: int64, authChoice: string, userName: string, password: string, controls: seq<Control>)
    | Search(id: int64, baseDN: string, scope: int64, derefAliases: int64, sizeLimit: int64, timeLimit: int64,
             typesOnly: bool, filter: string, attributes: seq<string>, controls: seq<Control>)
    | Extended(id: int64, name: string)
    | Modify(id: int64, dn: string, changes: seq<Change>, controls: seq<Control>)
    | Add(id: int64, dn: string, attrs: seq<Attribute>, controls: seq<Control>)
    | Delete(id: int64, dn: string, controls: seq<Control>)
    | Unbind(id: int64)

  type Decompile = Packet -> Outcome<string>

  // ---------- the envelope ----------

  predicate Is(p: Packet, cls: Class, kind: Kind, tag: Tag) {
    p.cls == cls && p.kind == kind && p.tag == tag
  }

  /** packet.assert on a child: present, and of this class, type and tag. */
  predicate ChildIs(p: Packet, at: nat, cls: Class, kind: Kind, tag: Tag) {
    at < |p.children| && Is(p.children[at], cls, kind, tag)
  }

  predicate BasicValidation(p: Packet) {
    Is(p, Universal, Constructed, SEQUENCE) && |p.children| >= 2
  }

  /** The application request inside the envelope; a bind must carry version 3. */
  function RequestPacket(p: Packet): (r: Outcome<Packet>)
    ensures r.Ok? ==> BasicValidation(p) && r.value == p.children[1]
  {
    if !BasicValidation(p) then Err(InvalidParameter)
    else
      var request := p.children[1];
      if !request.cls.Application? then Err(Other)
      else if request.kind.Primitive? && request.tag != DEL_REQUEST && request.tag != UNBIND_REQUEST then Err(Other)
      else if request.tag != BIND_REQUEST then Ok(request)
      else if !ChildIs(request, 0, Universal, Primitive, INTEGER) then Err(Other)
      else if !request.children[0].value.Int? then Err(InvalidParameter)
      else if request.children[0].value.i == 3 then Ok(request)
      // the error text asserts that the bind request itself holds an integer
      else if request.value.Int? then Err(Other)
      else Panic
  }

  function MessageID(p: Packet): Outcome<int64> {
    if !BasicValidation(p) then Err(InvalidParameter)
    else if !Is(p.children[0], Universal, Primitive, INTEGER) then Err(Other)
    else if !p.children[0].value.Int? then Err(InvalidParameter)
    else Ok(p.children[0].value.i)
  }

  function DecodeControls(ps: seq<Packet>): Outcome<seq<Control>> {
    if ps == [] then Ok([])
    else
      var c :- DecodeControl(ps[0]);
      var rest :- DecodeControls(ps[1..]);
      Ok([c] + rest)
  }

  function EnvelopeControls(p: Packet): Outcome<seq<Control>> {
    if |p.children| <= 2 then Ok([])
    else if !p.children[2].cls.Context? || !p.children[2].kind.Constructed? then Err(InvalidParameter)
    else DecodeControls(p.children[2].children)
  }

  // ---------- the operations ----------

  function DecodeBind(id: int64, p: Packet): Outcome<Message> {
    var request :- RequestPacket(p);
    if !ChildIs(request, 1, Universal, Primitive, OCTET_STRING) then Err(InvalidParameter)
    else if |request.children| > 3 then Ok(SimpleBind(id, SIMPLE, request.children[1].data, "", []))
    else if !ChildIs(request, 2, Context, Primitive, 0) then Err(InvalidParameter)
    else
      var controls :- EnvelopeControls(p);
      Ok(SimpleBind(id, SIMPLE, request.children[1].data, request.children[2].data, controls))
  }

  /** The data of every packet, provided each is a universal octet string. */
  function DecodeStrings(ps: seq<Packet>): Outcome<seq<string>> {
    if ps == [] then Ok([])
    else if !Is(ps[0], Universal, Primitive, OCTET_STRING) then Err(Other)
    else
      var rest :- DecodeStrings(ps[1..]);
      Ok([ps[0].data] + rest)
  }

  function DecodeSearch(id: int64, p: Packet, decompile: Decompile): Outcome<Message> {
    var request :- RequestPacket(p);
    var cs := request.children;
    if request.tag != SEARCH_REQUEST then Err(InvalidParameter)
    else if !ChildIs(request, 0, Universal, Primitive, OCTET_STRING) then Err(InvalidParameter)
    else if !ChildIs(request, 1, Universal, Primitive, ENUMERATED) then Err(InvalidParameter)
    else if !cs[1].value.Int? then Err(Other)
    else if !ChildIs(request, 2, Universal, Primitive, ENUMERATED) then Err(InvalidParameter)
    else if !cs[2].value.Int? then Err(Other)
    else if !ChildIs(request, 3, Universal, Primitive, INTEGER) then Err(InvalidParameter)
    else if !cs[3].value.Int? then Err(Other)
    else if !ChildIs(request, 4, Universal, Primitive, INTEGER) then Err(InvalidParameter)
    else if !cs[4].value.Int? then Err(Other)
    else if !ChildIs(request, 5, Universal, Primitive, BOOLEAN) then Err(InvalidParameter)
    else if !cs[5].value.Bool? then Err(Other)
    else if |cs| < 7 then Err(InvalidParameter)
    else
      var filter :- decompile(cs[6]);
      var m := Search(id, cs[0].data, cs[1].value.i, cs[2].value.i, cs[3].value.i, cs[4].value.i,
                      cs[5].value.b, filter, [], []);
      // without an attribute list the controls are not looked at either
      if |cs| < 8 then Ok(m)
      else if !Is(cs[7], Universal, Constructed, SEQUENCE) then Err(Other)
      else
        var attributes :- DecodeStrings(cs[7].children);
        var controls :- EnvelopeControls(p);
        Ok(m.(attributes := attributes, controls := controls))
  }

  function DecodeExtended(id: int64, p: Packet): Outcome<Message> {
    var request :- RequestPacket(p);
    if request.tag != EXTENDED_REQUEST then Err(InvalidParameter)
    else if !ChildIs(request, 0, Context, Primitive, 0) then Err(InvalidParameter)
    else Ok(Extended(id, request.children[0].data))
  }

  function DecodeAttribute(p: Packet): Outcome<Attribute> {
    if !Is(p, Universal, Constructed, SEQUENCE) then Err(InvalidParameter)
    else if !ChildIs(p, 0, Universal, Primitive, OCTET_STRING) then Err(InvalidParameter)
    else if !ChildIs(p, 1, Universal, Constructed, SET) then Err(InvalidParameter)
    else
      var vals :- DecodeStrings(p.children[1].children);
      Ok(Attribute(p.children[0].data, vals))
  }

  function DecodeAttributes(ps: seq<Packet>): Outcome<seq<Attribute>> {
    if ps == [] then Ok([])
    else
      var a :- DecodeAttribute(ps[0]);
      var rest :- DecodeAttributes(ps[1..]);
      Ok([a] + rest)
  }

  function DecodeAdd(id: int64, p: Packet): Outcome<Message> {
    var request :- RequestPacket(p);
    if request.tag != ADD_REQUEST then Err(InvalidParameter)
    else if !ChildIs(request, 0, Universal, Primitive, OCTET_STRING) then Err(InvalidParameter)
    else if !ChildIs(request, 1, Universal, Constructed, SEQUENCE) then Err(InvalidParameter)
    else
      var attrs :- DecodeAttributes(request.children[1].children);
      var controls :- EnvelopeControls(p);
      Ok(Add(id, request.children[0].data, attrs, controls))
  }

  function AllData(ps: seq<Packet>): seq<string> {
    seq(|ps|, i requires 0 <= i < |ps| => ps[i].data)
  }

  /** A change keeps the raw data of everything after the attribute type. */
  function DecodeChange(p: Packet): Outcome<Change> {
    if !Is(p, Universal, Constructed, SEQUENCE) then Err(InvalidParameter)
    else if !ChildIs(p, 0, Universal, Primitive, ENUMERATED) then Err(InvalidParameter)
    else if !p.children[0].value.Int? then Err(Other)
    else if !ChildIs(p, 1, Universal, Constructed, SEQUENCE) then Err(InvalidParameter)
    else
      var modification := p.children[1];
      if !ChildIs(modification, 0, Universal, Primitive, OCTET_STRING) then Err(InvalidParameter)
      else if |modification.children| < 2 then Err(InvalidParameter)
      else Ok(Change(p.children[0].value.i,
                     Attribute(modification.children[0].data, AllData(modification.children[1..]))))
  }

  function DecodeChanges(ps: seq<Packet>): Outcome<seq<Change>> {
    if ps == [] then Ok([])
    else
      var c :- DecodeChange(ps[0]);
      var rest :- DecodeChanges(ps[1..]);
      Ok([c] + rest)
  }

  function DecodeModify(id: int64, p: Packet): Outcome<Message> {
    var request :- RequestPacket(p);
    if request.tag != MODIFY_REQUEST then Err(InvalidParameter)
    else if !ChildIs(request, 0, Universal, Primitive, OCTET_STRING) then Err(InvalidParameter)
    else if !ChildIs(request, 1, Universal, Constructed, SEQUENCE) then Err(InvalidParameter)
    else
      var changes :- DecodeChanges(request.children[1].children);
      var controls :- EnvelopeControls(p);
      Ok(Modify(id, request.children[0].data, changes, controls))
  }

  function DecodeDelete(id: int64, p: Packet): Outcome<Message> {
    var request :- RequestPacket(p);
    if request.tag != DEL_REQUEST then Err(InvalidParameter)
    else
      var controls :- EnvelopeControls(p);
      Ok(Delete(id, request.data, controls))
  }

  predicate Handled(tag: Tag) {
    tag in {BIND_REQUEST, UNBIND_REQUEST, SEARCH_REQUEST, MODIFY_REQUEST, ADD_REQUEST, DEL_REQUEST, EXTENDED_REQUEST}
  }

  function NewMessage(p: Packet, decompile: Decompile): Outcome<Message> {
    var request :- RequestPacket(p);
    if !Handled(request.tag) then Err(Internal)
    else
      var id :- MessageID(p);
      if request.tag == UNBIND_REQUEST then Ok(Unbind(id))
      else if request.tag == BIND_REQUEST then DecodeBind(id, p)
      else if request.tag == SEARCH_REQUEST then DecodeSearch(id, p, decompile)
      else if request.tag == EXTENDED_REQUEST then DecodeExtended(id, p)
      else if request.tag == MODIFY_REQUEST then DecodeModify(id, p)
      else if request.tag == ADD_REQUEST then DecodeAdd(id, p)
      else DecodeDelete(id, p)
  }

  // ---------- building request packets ----------

  function Envelope(id: int64, request: Packet, controls: seq<Control>): Packet {
    Sequence([IntegerLeaf(id), request] + if controls == [] then [] else [EncodeControls(controls)])
  }

  function Request(tag: Tag, children: seq<Packet>): Packet {
    Node(Application, Constructed, tag, children)
  }

  function Enumerated(i: int64): Packet {
    NewInteger(Universal, Primitive, ENUMERATED, i)
  }

  function StringLeaves(ss: seq<string>): (ps: seq<Packet>)
    ensures |ps| == |ss|
  {
    seq(|ss|, i requires 0 <= i < |ss| => StringLeaf(ss[i]))
  }

  function EncodeAttribute(a: Attribute): Packet {
    Sequence([StringLeaf(a.name), Node(Universal, Constructed, SET, StringLeaves(a.vals))])
  }

  function EncodeChange(c: Change): Packet {
    Sequence([Enumerated(c.operation), EncodeAttribute(c.modification)])
  }

  function EncodeAttributes(attrs: seq<Attribute>): (ps: seq<Packet>)
    ensures |ps| == |attrs|
  {
    seq(|attrs|, i requires 0 <= i < |attrs| => EncodeAttribute(attrs[i]))
  }

  function EncodeChanges(changes: seq<Change>): (ps: seq<Packet>)
    ensures |ps| == |changes|
  {
    seq(|changes|, i requires 0 <= i < |changes| => EncodeChange(changes[i]))
  }

  /** The request inside the envelope; `filter` is the compiled filter of a search. */
  function BuildRequest(m: Message, filter: Packet): Packet {
    match m
    case SimpleBind(_, _, user, password, _) =>
      Request(BIND_REQUEST, [IntegerLeaf(3), StringLeaf(user), NewString(Context, Primitive, 0, password)])
    case Search(_, base, scope, deref, size, time, types, _, attributes, _) =>
      Request(SEARCH_REQUEST,
              [StringLeaf(base), Enumerated(scope), Enumerated(deref), IntegerLeaf(size), IntegerLeaf(time),
               NewBoolean(Universal, Primitive, BOOLEAN, types), filter, Sequence(StringLeaves(attributes))])
    case Extended(_, name) => Request(EXTENDED_REQUEST, [NewString(Context, Primitive, 0, name)])
    case Modify(_, dn, changes, _) => Request(MODIFY_REQUEST, [StringLeaf(dn), Sequence(EncodeChanges(changes))])
    case Add(_, dn, attrs, _) => Request(ADD_REQUEST, [StringLeaf(dn), Sequence(EncodeAttributes(attrs))])
    // a delete request is typed as constructed but filled with the bare DN
    case Delete(_, dn, _) => Packet(Application, Constructed, DEL_REQUEST, Nil, dn, [])
    case Unbind(_) => Request(UNBIND_REQUEST, [])
  }

  function ControlsOf(m: Message): seq<Control> {
    if m.Extended? || m.Unbind? then [] else m.controls
  }

  function Build(m: Message, filter: Packet): Packet {
    Envelope(m.id, BuildRequest(m, filter), ControlsOf(m))
  }
}
