/**
 LDAP controls: how each kind is encoded as a packet, how a packet is decoded, and what
 decoding leaves behind in the packet it was given.
 */
module Controls {
  import opened Go
  import opened Octets
  import opened Ber

  const PAGING := "1.2.840.113556.1.4.319"
  const BEHERA := "1.3.6.1.4.1.42.2.27.8.5.1"
  const VCHU_MUST_CHANGE := "2.16.840.1.113730.3.4.4"
  const VCHU_WARNING := "2.16.840.1.113730.3.4.5"
  const MANAGE_DSA_IT := "2.16.840.1.113730.3.4.2"
  const MS_NOTIFICATION := "1.2.840.113556.1.4.528"
  const MS_SHOW_DELETED := "1.2.840.113556.1.4.417"
  const MS_SERVER_LINK_TTL := "1.2.840.113556.1.4.2309"

  datatype Control =
    | ControlString(controlType: string, criticality: bool, controlValue: string)
    | ManageDsaIT(criticality: bool)
    | Paging(size: uint32, cookie: string)
    | Behera(expire: int64, grace: int64, error: int8, errorString: Option<int8>)
    | VChuMustChange(mustChange: bool)
    | VChuWarning(expire: int64)
    | MsNotification
    | MsShowDeleted
    | MsServerLinkTTL

  datatype ControlKind =
    KString | KManageDsaIT | KPaging | KBehera | KMustChange | KWarning | KNotification | KShowDeleted | KServerLinkTTL

  /** The branch of the decoder a control type selects. */
  function KindOf(oid: string): ControlKind {
    if oid == MANAGE_DSA_IT then KManageDsaIT
    else if oid == PAGING then KPaging
    else if oid == BEHERA then KBehera
    else if oid == VCHU_MUST_CHANGE then KMustChange
    else if oid == VCHU_WARNING then KWarning
    else if oid == MS_NOTIFICATION then KNotification
    else if oid == MS_SHOW_DELETED then KShowDeleted
    else if oid == MS_SERVER_LINK_TTL then KServerLinkTTL
    else KString
  }

  lemma ReservedKinds()
    ensures KindOf(MANAGE_DSA_IT) == KManageDsaIT && KindOf(PAGING) == KPaging && KindOf(BEHERA) == KBehera
    ensures KindOf(VCHU_MUST_CHANGE) == KMustChange && KindOf(VCHU_WARNING) == KWarning
    ensures KindOf(MS_NOTIFICATION) == KNotification && KindOf(MS_SHOW_DELETED) == KShowDeleted
    ensures KindOf(MS_SERVER_LINK_TTL) == KServerLinkTTL
  {
    assert |PAGING| == |MS_NOTIFICATION| == |MS_SHOW_DELETED| == 22 && |BEHERA| == 25;
    assert |VCHU_MUST_CHANGE| == |VCHU_WARNING| == |MANAGE_DSA_IT| == |MS_SERVER_LINK_TTL| == 23;
    assert PAGING[19] == '3' && MS_NOTIFICATION[19] == '5' && MS_SHOW_DELETED[19] == '4';
    assert VCHU_MUST_CHANGE[22] == '4' && VCHU_WARNING[22] == '5' && MANAGE_DSA_IT[22] == '2' && MS_SERVER_LINK_TTL[22] == '9';
  }

  /** The entry of the error text table a code selects; there is none outside 0-8. */
  function ErrorText(code: int8): Option<int8> {
    if 0 <= code <= 8 then Some(code) else None
  }

  /** NewControlBeheraPasswordPolicy, on the option values after their uint to int conversion. */
  function NewBehera(grace: int64, expire: int64, code: int64): Outcome<Control> {
    if grace != -1 && expire != -1 then Err(InvalidParameter)
    else if grace != -1 && code != -1 then Err(InvalidParameter)
    else if expire != -1 && code != -1 then Err(InvalidParameter)
    else if code > 8 then Err(InvalidParameter)
    else Ok(Behera(expire, grace, Wrap8(code), if code != -1 then ErrorText(Wrap8(code)) else None))
  }

  /** An unsigned option value as the signed word it is kept in; -1 stands for an option not given. */
  function OptionWord(v: Option<uint64>): int64 {
    if v.None? then -1 else Wrap64(v.value)
  }

  /** NewControlBeheraPasswordPolicy on the option values its caller gives. */
  function NewControlBehera(grace: Option<uint64>, expire: Option<uint64>, code: Option<uint64>): Outcome<Control> {
    NewBehera(OptionWord(grace), OptionWord(expire), OptionWord(code))
  }

  const UNSET: Control := Behera(-1, -1, -1, None)

  // ---------- encoding ----------

  function TrueLeaf(): Packet {
    NewBoolean(Universal, Primitive, BOOLEAN, true)
  }

  /** The children of an encoded control: its type, then criticality if set, then its value if any. */
  function Parts(oid: string, criticality: bool, value: Option<Packet>): seq<Packet> {
    [StringLeaf(oid)] + (if criticality then [TrueLeaf()] else []) + (if value.Some? then [value.value] else [])
  }

  /** A control value that holds a packet of its own: a primitive octet string with a child. */
  function Wrapped(inner: Packet): Packet {
    Node(Universal, Primitive, OCTET_STRING, [inner])
  }

  function PagingValue(size: uint32, cookie: string): Packet {
    Sequence([IntegerLeaf(size), Packet(Universal, Primitive, OCTET_STRING, Raw(cookie), cookie, [])])
  }

  /** A password policy warning: tag 0 is the time before expiration, tag 1 the grace logins left. */
  function WarningValue(tag: Tag, n: int64): Packet {
    Sequence([Node(Context, Constructed, 0, [NewInteger(Context, Primitive, tag, n)])])
  }

  function ErrorValue(code: int8): Packet {
    Sequence([Packet(Context, Primitive, 1, Int8(code), Signed(code), [])])
  }

  function BeheraValue(expire: int64, grace: int64, error: int8): Option<Packet> {
    if grace >= 0 then Some(Wrapped(WarningValue(1, grace)))
    else if expire >= 0 then Some(Wrapped(WarningValue(0, expire)))
    else if error >= 0 then Some(Wrapped(ErrorValue(error)))
    else None
  }

  function Oid(c: Control): string {
    match c
    case ControlString(t, _, _) => t
    case ManageDsaIT(_) => MANAGE_DSA_IT
    case Paging(_, _) => PAGING
    case Behera(_, _, _, _) => BEHERA
    case VChuMustChange(_) => VCHU_MUST_CHANGE
    case VChuWarning(_) => VCHU_WARNING
    case MsNotification => MS_NOTIFICATION
    case MsShowDeleted => MS_SHOW_DELETED
    case MsServerLinkTTL => MS_SERVER_LINK_TTL
  }

  function Criticality(c: Control): bool {
    (c.ControlString? || c.ManageDsaIT?) && c.criticality
  }

  function EncodedValue(c: Control): Option<Packet> {
    match c
    case ControlString(_, _, v) => if v != "" then Some(StringLeaf(v)) else None
    case Paging(size, cookie) => Some(Wrapped(PagingValue(size, cookie)))
    case Behera(expire, grace, error, _) => BeheraValue(expire, grace, error)
    case VChuWarning(expire) => Some(StringLeaf(FormatInt(expire)))
    case _ => None
  }

  function EncodeControl(c: Control): Packet {
    Sequence(Parts(Oid(c), Criticality(c), EncodedValue(c)))
  }

  function EncodedControls(cs: seq<Control>): (ps: seq<Packet>)
    ensures |ps| == |cs|
  {
    seq(|cs|, i requires 0 <= i < |cs| => EncodeControl(cs[i]))
  }

  function EncodeControls(cs: seq<Control>): Packet {
    Node(Context, Constructed, 0, EncodedControls(cs))
  }

  // ---------- decoding ----------

  /** Which children of a control packet are its type, criticality and value. */
  datatype Layout = Layout(controlType: string, criticality: bool, valueAt: Option<nat>)

  function ReadLayout(children: seq<Packet>): (r: Outcome<Layout>)
    ensures r.Ok? && r.value.valueAt.Some? ==> 1 <= r.value.valueAt.value < |children|
  {
    if |children| == 0 || |children| > 3 then Err(Other)
    else if !children[0].value.Str? then Panic
    else
      var oid := children[0].value.s;
      if |children| == 1 then Ok(Layout(oid, false, None))
      else if |children| == 2 then
        if children[1].value.Bool? then Ok(Layout(oid, children[1].value.b, None))
        else Ok(Layout(oid, false, Some(1)))
      else if !children[1].value.Bool? then Panic
      else Ok(Layout(oid, children[1].value.b, Some(2)))
  }

  /** A paging or password policy value is re-decoded from its own bytes and hung under itself. */
  function Unwrap(v: Packet): Outcome<Packet> {
    if v.value.Nil? then Ok(v)
    else
      var inner :- DecodePacket(v.data);
      Ok(v.(value := Nil, data := Serialise(inner), children := v.children + [inner]))
  }

  function DecodePaging(w: Packet): Outcome<Control> {
    if |w.children| < 1 then Err(InvalidParameter)
    else
      var fields := w.children[0].children;
      if |fields| < 2 || !fields[0].value.Int? then Panic
      else Ok(Paging(fields[0].value.i % 0x1_0000_0000, fields[1].data))
  }

  /** One element of a password policy sequence, folded into the control read so far. */
  function DecodePolicyItem(item: Packet, c: Control): (r: Outcome<Control>)
    requires c.Behera?
    ensures r.Ok? ==> r.value.Behera?
  {
    if item.tag == 0 then
      if |item.children| == 0 then Panic
      else
        var n :- ParseInt64(item.children[0].data);
        if item.children[0].tag == 0 then Ok(c.(expire := n))
        else if item.children[0].tag == 1 then Ok(c.(grace := n))
        else Ok(c)
    else if item.tag == 1 then
      if |item.data| != 1 || item.data[0] as int > 8 then Err(Other)
      else Ok(c.(error := item.data[0] as int, errorString := ErrorText(item.data[0] as int)))
    else Ok(c)
  }

  function DecodePolicyItems(items: seq<Packet>, c: Control): (r: Outcome<Control>)
    requires c.Behera?
    ensures r.Ok? ==> r.value.Behera?
  {
    if items == [] then Ok(c)
    else
      var d :- DecodePolicyItem(items[0], c);
      DecodePolicyItems(items[1..], d)
  }

  function DecodePolicy(w: Packet): Outcome<Control> {
    if |w.children| == 0 then Err(InvalidParameter)
    else DecodePolicyItems(w.children[0].children, UNSET)
  }

  /** What decodeControl returns once it knows the type, the criticality and the value packet. */
  function DecodeValue(kind: ControlKind, oid: string, criticality: bool, value: Option<Packet>): Outcome<Control> {
    match kind
    case KManageDsaIT => Ok(ManageDsaIT(criticality))
    case KPaging =>
      if value.None? then Ok(Paging(0, ""))
      else
        var w :- Unwrap(value.value);
        DecodePaging(w)
    case KBehera =>
      if value.None? then Ok(UNSET)
      else
        var w :- Unwrap(value.value);
        DecodePolicy(w)
    case KMustChange => Ok(VChuMustChange(true))
    case KWarning =>
      if value.None? then Ok(VChuWarning(-1))
      else
        var n :- ParseInt(value.value.data);
        Ok(VChuWarning(n))
    case KNotification => Ok(MsNotification)
    case KShowDeleted => Ok(MsShowDeleted)
    case KServerLinkTTL => Ok(MsServerLinkTTL)
    case KString =>
      if value.None? then Ok(ControlString(oid, criticality, ""))
      else if !value.value.value.Str? then Panic
      else Ok(ControlString(oid, criticality, value.value.value.s))
  }

  function ChildAt(children: seq<Packet>, at: Option<nat>): Option<Packet>
    requires at.Some? ==> at.value < |children|
  {
    if at.Some? then Some(children[at.value]) else None
  }

  function DecodeControl(p: Packet): Outcome<Control> {
    var l :- ReadLayout(p.children);
    DecodeValue(KindOf(l.controlType), l.controlType, l.criticality, ChildAt(p.children, l.valueAt))
  }

  // ---------- what decoding leaves behind ----------

  /** The value packet of a paging control after decoding: its cookie's Value is set. */
  function MarkPaging(w: Packet): Packet
    requires |w.children| >= 1 && |w.children[0].children| >= 2
  {
    var inner := w.children[0];
    var cookie := inner.children[1].(value := Raw(inner.children[1].data));
    w.(children := w.children[0 := inner.(children := inner.children[1 := cookie])])
  }

  /** A password policy element after decoding: the number it carries is also its Value. */
  function MarkPolicyItem(item: Packet): Packet {
    if item.tag == 0 && |item.children| > 0 then
      var warning := item.children[0];
      if warning.tag <= 1 && ParseInt64(warning.data).Ok? then
        item.(children := item.children[0 := warning.(value := Int(ParseInt64(warning.data).value))])
      else item
    else if item.tag == 1 && |item.data| == 1 && item.data[0] as int <= 8 then
      item.(value := Int8(item.data[0] as int))
    else item
  }

  /** The elements of a password policy sequence after decoding: marked up to the first that fails. */
  function MarkItems(items: seq<Packet>, c: Control): (r: seq<Packet>)
    requires c.Behera?
    ensures |r| == |items|
  {
    if items == [] then []
    else
      var d := DecodePolicyItem(items[0], c);
      if d.Ok? then [MarkPolicyItem(items[0])] + MarkItems(items[1..], d.value) else items
  }

  function MarkPolicy(w: Packet): Packet {
    if |w.children| == 0 then w
    else w.(children := w.children[0 := w.children[0].(children := MarkItems(w.children[0].children, UNSET))])
  }

  /** The value packet after a decode, whether it succeeded or not. */
  function DecodedValue(kind: ControlKind, v: Packet): Packet {
    match kind
    case KPaging =>
      if !Unwrap(v).Ok? then v
      else if DecodePaging(Unwrap(v).value).Ok? then MarkPaging(Unwrap(v).value)
      else Unwrap(v).value
    case KBehera => if Unwrap(v).Ok? then MarkPolicy(Unwrap(v).value) else v
    case KWarning => if ParseInt(v.data).Ok? then v.(value := Int(ParseInt(v.data).value)) else v
    case _ => v
  }

  /** The control packet after a decode, whether it succeeded or not. */
  function Decoded(p: Packet): Packet {
    var l := ReadLayout(p.children);
    if !l.Ok? || l.value.valueAt.None? then p
    else
      var at := l.value.valueAt.value;
      p.(children := p.children[at := DecodedValue(KindOf(l.value.controlType), p.children[at])])
  }

  /** What addControlDescriptions makes of a control's value packet; texts are left out. */
  function DescribeValue(kind: ControlKind, v: Packet): Outcome<Packet> {
    match kind
    case KPaging =>
      if v.value.Nil? then
        if |v.children| == 0 || |v.children[0].children| < 2 then Panic else Ok(v)
      else
        var inner :- DecodePacket(v.data);
        if |inner.children| < 2 then Panic
        else
          var cookie := inner.children[1].(value := Raw(inner.children[1].data));
          var marked := inner.(children := inner.children[1 := cookie]);
          var w := v.(value := Nil, data := Serialise(marked), children := v.children + [marked]);
          if |w.children[0].children| < 2 then Panic else Ok(w)
    case KBehera =>
      var w :- Unwrap(v);
      if |w.children| == 0 then Panic
      else
        var _ :- DecodePolicyItems(w.children[0].children, UNSET);
        Ok(MarkPolicy(w))
    case _ => Ok(v)
  }

  /** The layout addControlDescriptions reads: like the decoder's, but with three children it trusts the middle one. */
  function DescribeLayout(children: seq<Packet>): (r: Outcome<(string, Option<nat>)>)
    ensures r.Ok? && r.value.1.Some? ==> 1 <= r.value.1.value < |children|
  {
    if |children| == 0 || |children| > 3 then Err(Other)
    else if !children[0].value.Str? then Panic
    else Ok((children[0].value.s,
             if |children| == 3 then Some(2)
             else if |children| == 2 && !children[1].value.Bool? then Some(1)
             else None))
  }

  function DescribeControl(p: Packet): Outcome<Packet> {
    var (oid, at) :- DescribeLayout(p.children);
    if at.None? then Ok(p)
    else
      var v :- DescribeValue(KindOf(oid), p.children[at.value]);
      Ok(p.(children := p.children[at.value := v]))
  }

  function DescribeAll(ps: seq<Packet>): (r: Outcome<seq<Packet>>)
    ensures r.Ok? ==> |r.value| == |ps|
  {
    if ps == [] then Ok([])
    else
      var p :- DescribeControl(ps[0]);
      var rest :- DescribeAll(ps[1..]);
      Ok([p] + rest)
  }
}
