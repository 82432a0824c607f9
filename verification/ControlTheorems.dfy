/**
 Controls survive the trip through a packet tree and through bytes, and decoding a packet
 in place does not change what a later decode of it returns.
 */
module ControlTheorems {
  import opened Go
  import opened Octets
  import opened Ber
  import opened Controls

  /** Exactly the controls that decoding gives back; NewBeheraRoundTrips says which policies these are. */
  predicate RoundTrips(c: Control) {
    match c
    case ControlString(t, _, _) => KindOf(t) == KString
    case Behera(expire, grace, error, text) =>
      || c == UNSET
      || (grace >= 0 && c == UNSET.(grace := grace))
      || (expire >= 0 && c == UNSET.(expire := expire))
      || (0 <= error <= 8 && c == UNSET.(error := error, errorString := ErrorText(error)))
    case VChuMustChange(must) => must
    case _ => true
  }

  lemma DecodeParts(p: Packet, oid: string, criticality: bool, value: Option<Packet>)
    requires p.children == Parts(oid, criticality, value)
    requires value.Some? ==> !value.value.value.Bool?
    ensures DecodeControl(p) == DecodeValue(KindOf(oid), oid, criticality, value)
  {
  }

  /** Policy values decode to a control in which only the encoded field is set. */
  lemma DecodeWarning(tag: Tag, inner: Packet, n: int64)
    requires tag <= 1 && |inner.children| == 1 && inner.children[0].tag == 0
    requires |inner.children[0].children| == 1
    requires inner.children[0].children[0].tag == tag && inner.children[0].children[0].data == Signed(n)
    ensures DecodePolicyItems(inner.children, UNSET) == Ok(if tag == 0 then UNSET.(expire := n) else UNSET.(grace := n))
  {
    ParseInt64Inverts(n);
    assert inner.children[1..] == [];
  }

  lemma DecodeError(inner: Packet, code: int8)
    requires code >= 0
    requires |inner.children| == 1 && inner.children[0].tag == 1 && inner.children[0].data == Signed(code)
    ensures DecodePolicyItems(inner.children, UNSET) ==
            if code <= 8 then Ok(UNSET.(error := code, errorString := ErrorText(code))) else Err(Other)
  {
    assert inner.children[1..] == [];
  }

  /** What a policy comes back as: only the field that was encoded, and no error code over 8. */
  function BeheraBack(c: Control): Outcome<Control>
    requires c.Behera?
  {
    if c.grace >= 0 then Ok(UNSET.(grace := c.grace))
    else if c.expire >= 0 then Ok(UNSET.(expire := c.expire))
    else if c.error > 8 then Err(Other)
    else if c.error >= 0 then Ok(UNSET.(error := c.error, errorString := ErrorText(c.error)))
    else Ok(UNSET)
  }

  lemma BeheraDecoded(c: Control, oid: string)
    requires c.Behera?
    ensures DecodeValue(KBehera, oid, false, EncodedValue(c)) == BeheraBack(c)
  {
    if c.grace >= 0 {
      DecodeWarning(1, WarningValue(1, c.grace), c.grace);
    } else if c.expire >= 0 {
      DecodeWarning(0, WarningValue(0, c.expire), c.expire);
    } else if c.error >= 0 {
      DecodeError(ErrorValue(c.error), c.error);
    }
  }

  lemma BeheraBackIsSame(c: Control)
    requires c.Behera?
    ensures BeheraBack(c) == Ok(c) <==> RoundTrips(c)
  {
  }

  /** The decoder's branch for an encoded control. */
  function Kind(c: Control): ControlKind {
    match c
    case ControlString(t, _, _) => KindOf(t)
    case ManageDsaIT(_) => KManageDsaIT
    case Paging(_, _) => KPaging
    case Behera(_, _, _, _) => KBehera
    case VChuMustChange(_) => KMustChange
    case VChuWarning(_) => KWarning
    case MsNotification => KNotification
    case MsShowDeleted => KShowDeleted
    case MsServerLinkTTL => KServerLinkTTL
  }

  lemma KindOfOid(c: Control)
    ensures KindOf(Oid(c)) == Kind(c)
  {
    ReservedKinds();
  }

  lemma ValueRoundTrip(c: Control)
    ensures DecodeValue(Kind(c), Oid(c), Criticality(c), EncodedValue(c)) == Ok(c) <==> RoundTrips(c)
  {
    match c
    case Behera(_, _, _, _) =>
      BeheraDecoded(c, Oid(c));
      BeheraBackIsSame(c);
    case VChuWarning(expire) => ParseIntInverts(expire);
    case _ =>
  }

  /** Decoding the packet tree an encoder built gives the control back exactly when RoundTrips holds. */
  lemma ControlRoundTrip(c: Control)
    ensures DecodeControl(EncodeControl(c)) == Ok(c) <==> RoundTrips(c)
  {
    KindOfOid(c);
    DecodeParts(EncodeControl(c), Oid(c), Criticality(c), EncodedValue(c));
    ValueRoundTrip(c);
  }

  /** The value asked for, or -1 if the option was not given. */
  function Asked(v: Option<uint64>): int {
    if v.None? then -1 else v.value
  }

  /** The control says what its maker asked for, error text included. */
  predicate AsAsked(c: Control, grace: Option<uint64>, expire: Option<uint64>, code: Option<uint64>) {
    && c.Behera? && c.grace == Asked(grace) && c.expire == Asked(expire) && c.error == Asked(code)
    && c.errorString == if code.None? then None else ErrorText(c.error)
  }

  predicate AtMostOne(grace: Option<uint64>, expire: Option<uint64>, code: Option<uint64>) {
    !(grace.Some? && expire.Some?) && !(grace.Some? && code.Some?) && !(expire.Some? && code.Some?)
  }

  predicate InRange(grace: Option<uint64>, expire: Option<uint64>, code: Option<uint64>) {
    && (grace.Some? ==> grace.value < TWO_63) && (expire.Some? ==> expire.value < TWO_63)
    && (code.Some? ==> code.value <= 8)
  }

  /** Made, encoded and decoded, the policy says what was asked. */
  predicate SaysWhatWasAsked(grace: Option<uint64>, expire: Option<uint64>, code: Option<uint64>) {
    var made := NewControlBehera(grace, expire, code);
    made.Ok? && var got := DecodeControl(EncodeControl(made.value)); got.Ok? && AsAsked(got.value, grace, expire, code)
  }

  lemma MadeAsAsked(grace: Option<uint64>, expire: Option<uint64>, code: Option<uint64>)
    requires AtMostOne(grace, expire, code) && InRange(grace, expire, code)
    ensures var made := NewControlBehera(grace, expire, code);
            made.Ok? && AsAsked(made.value, grace, expire, code) && RoundTrips(made.value)
  {
  }

  lemma DecodeBehera(c: Control)
    requires c.Behera?
    ensures DecodeControl(EncodeControl(c)) == BeheraBack(c)
  {
    KindOfOid(c);
    DecodeParts(EncodeControl(c), Oid(c), Criticality(c), EncodedValue(c));
    BeheraDecoded(c, Oid(c));
  }

  /**
   The constructor's promise, on the values its caller gives: the control can be made and decodes to
   what was asked exactly when at most one option is given and its value is in range.
   */
  lemma BeheraAsAsked(grace: Option<uint64>, expire: Option<uint64>, code: Option<uint64>)
    ensures SaysWhatWasAsked(grace, expire, code) <==> AtMostOne(grace, expire, code) && InRange(grace, expire, code)
  {
    if AtMostOne(grace, expire, code) && InRange(grace, expire, code) {
      MadeAsAsked(grace, expire, code);
      ControlRoundTrip(NewControlBehera(grace, expire, code).value);
    } else if SaysWhatWasAsked(grace, expire, code) {
      DecodeBehera(NewControlBehera(grace, expire, code).value);
    }
  }

  lemma WordSign(v: Option<uint64>)
    ensures OptionWord(v) >= -1 <==> v.None? || v.value < TWO_63 || v.value == TWO_64 - 1
  {
  }

  lemma LowByte(w: int)
    ensures -1 <= Wrap8(w) <= 8 <==> (w + 1) % 256 <= 9
  {
    var (q, r) := (w / 256, w % 256);
    assert w == 256 * q + r;
  }

  lemma CodeWord(v: Option<uint64>)
    ensures -1 <= Wrap8(OptionWord(v)) <= 8 <==> v.None? || (v.value + 1) % 256 <= 9
  {
    if v.Some? {
      var w: int := OptionWord(v);
      assert w == v.value || w == v.value - 256 * 0x100_0000_0000_0000;
      LowByte(w);
    }
  }

  lemma WordsRoundTrip(grace: int64, expire: int64, code: int64)
    requires NewBehera(grace, expire, code).Ok?
    ensures RoundTrips(NewBehera(grace, expire, code).value) <==>
            grace >= -1 && expire >= -1 && -1 <= Wrap8(code) <= 8
  {
  }

  /** A policy that can be made survives the round trip, asked for or not, exactly in these cases. */
  lemma NewBeheraRoundTrips(grace: Option<uint64>, expire: Option<uint64>, code: Option<uint64>)
    requires NewControlBehera(grace, expire, code).Ok?
    ensures RoundTrips(NewControlBehera(grace, expire, code).value) <==>
            && (grace.None? || grace.value < TWO_63 || grace.value == TWO_64 - 1)
            && (expire.None? || expire.value < TWO_63 || expire.value == TWO_64 - 1)
            && (code.None? || (code.value + 1) % 256 <= 9)
  {
    WordsRoundTrip(OptionWord(grace), OptionWord(expire), OptionWord(code));
    WordSign(grace);
    WordSign(expire);
    CodeWord(code);
  }

  /** Out of range, the constructor may accept what it was not meant to: two options, or a code of over 8. */
  lemma HugeOptionsAccepted()
    ensures NewControlBehera(Some(TWO_64 - 1), Some(5), None) == Ok(Behera(5, -1, -1, None))
    ensures NewControlBehera(None, None, Some(TWO_64 - 248)) == Ok(Behera(-1, -1, 8, Some(8)))
    ensures NewControlBehera(Some(TWO_63), None, None) == Ok(Behera(-1, -TWO_63, -1, None))
  {
  }

  // ---------- over the wire ----------

  function RereadOption(v: Option<Packet>): Option<Packet> {
    if v.Some? then Some(Reread(v.value)) else None
  }

  lemma RereadParts(oid: string, criticality: bool, value: Option<Packet>)
    ensures RereadAll(Parts(oid, criticality, value)) == Parts(oid, criticality, RereadOption(value))
  {
    RereadLeaves(oid, 0, true);
    var (ps, qs) := (Parts(oid, criticality, value), Parts(oid, criticality, RereadOption(value)));
    assert |ps| == |qs|;
    forall i | 0 <= i < |ps| ensures RereadAll(ps)[i] == qs[i] {
    }
  }

  lemma PartsWellFormed(oid: string, criticality: bool, value: Option<Packet>)
    requires value.Some? ==> value.value.kind.Primitive? && value.value.tag == OCTET_STRING
    ensures WellFormed(Sequence(Parts(oid, criticality, value)))
  {
    NodeWellFormed(Universal, SEQUENCE, Parts(oid, criticality, value));
  }

  /** What a reader makes of a wrapped value: an octet string of the bytes of the packet inside. */
  lemma RereadWrapped(inner: Packet)
    ensures Reread(Wrapped(inner)) == StringLeaf(Serialise(inner))
    ensures Wrapped(Reread(inner)) == Packet(Universal, Primitive, OCTET_STRING, Nil, Serialise(Reread(inner)), [Reread(inner)])
  {
    SerialiseOne(inner);
    SerialiseOne(Reread(inner));
  }

  /** Reading a wrapped value gives an octet string; unwrapping it reads the packet inside. */
  lemma UnwrapReread(inner: Packet)
    requires WellFormed(inner) && |inner.data| < TWO_63
    ensures Unwrap(Reread(Wrapped(inner))) == Ok(Wrapped(Reread(inner)))
  {
    RereadWrapped(inner);
    DecodeSerialised(inner);
    UnwrapString(Serialise(inner), Reread(inner));
  }

  lemma UnwrapString(bytes: string, p: Packet)
    requires DecodePacket(bytes) == Ok(p)
    ensures Unwrap(StringLeaf(bytes)) == Ok(Packet(Universal, Primitive, OCTET_STRING, Nil, Serialise(p), [p]))
  {
    assert [] + [p] == [p];
  }

  lemma DecodeRereadItem(item: Packet, c: Control)
    requires c.Behera? && (item.tag == 0 ==> item.kind.Constructed?)
    ensures DecodePolicyItem(Reread(item), c) == DecodePolicyItem(item, c)
  {
    if item.kind.Constructed? && |item.children| > 0 {
      assert Reread(item).children[0] == Reread(item.children[0]);
    }
  }

  lemma {:induction false} DecodeRereadItems(items: seq<Packet>, c: Control)
    requires c.Behera?
    requires forall i :: 0 <= i < |items| && items[i].tag == 0 ==> items[i].kind.Constructed?
    ensures DecodePolicyItems(RereadAll(items), c) == DecodePolicyItems(items, c)
  {
    if items != [] {
      var d := DecodePolicyItem(items[0], c);
      DecodeRereadItem(items[0], c);
      RereadFirst(items);
      assert RereadAll(items)[1..] == RereadAll(items[1..]);
      if d.Ok? {
        DecodeRereadItems(items[1..], d.value);
      }
    }
  }

  lemma PolicyWireValue(inner: Packet, oid: string)
    requires WellFormed(inner) && |inner.data| < TWO_63 && inner.kind.Constructed?
    requires forall i :: 0 <= i < |inner.children| && inner.children[i].tag == 0 ==> inner.children[i].kind.Constructed?
    ensures DecodeValue(KBehera, oid, false, Some(Reread(Wrapped(inner))))
            == DecodeValue(KBehera, oid, false, Some(Wrapped(inner)))
  {
    UnwrapReread(inner);
    DecodeRereadItems(inner.children, UNSET);
    assert Reread(inner).children == RereadAll(inner.children);
    DecodeUnwrapped(Reread(Wrapped(inner)), Reread(inner), oid);
    DecodeUnwrapped(Wrapped(inner), inner, oid);
  }

  lemma DecodeUnwrapped(v: Packet, inner: Packet, oid: string)
    requires Unwrap(v) == Ok(Wrapped(inner))
    ensures DecodeValue(KBehera, oid, false, Some(v)) == DecodePolicyItems(inner.children, UNSET)
  {
  }

  lemma PolicyValueWellFormed(tag: Tag, n: int64, code: int8)
    ensures WellFormed(WarningValue(tag, n)) && WellFormed(ErrorValue(code))
  {
    SignedRoundTrip(n);
    SignedRoundTrip(code);
    var warning := Node(Context, Constructed, 0, [NewInteger(Context, Primitive, tag, n)]);
    NodeWellFormed(Context, 0, [NewInteger(Context, Primitive, tag, n)]);
    NodeWellFormed(Universal, SEQUENCE, [warning]);
    NodeWellFormed(Universal, SEQUENCE, [Packet(Context, Primitive, 1, Int8(code), Signed(code), [])]);
  }

  lemma BeheraWireValue(c: Control, oid: string)
    requires c.Behera?
    requires EncodedValue(c).Some? ==> |EncodedValue(c).value.data| < TWO_63
    ensures DecodeValue(KBehera, oid, false, RereadOption(EncodedValue(c)))
            == DecodeValue(KBehera, oid, false, EncodedValue(c))
  {
    if EncodedValue(c).Some? {
      var inner := EncodedValue(c).value.children[0];
      PolicyValueWellFormed(if c.grace >= 0 then 1 else 0, if c.grace >= 0 then c.grace else c.expire, c.error);
      SerialiseOne(inner);
      PolicyWireValue(inner, oid);
    }
  }

  lemma DecodePagingOf(v: Packet, q: Packet, oid: string, size: uint32)
    requires Unwrap(v) == Ok(Wrapped(q))
    requires |q.children| == 2 && q.children[0].value == Int(size)
    ensures DecodeValue(KPaging, oid, false, Some(v)) == Ok(Paging(size, q.children[1].data))
  {
  }

  lemma PagingFields(inner: Packet, oid: string, size: uint32)
    requires WellFormed(inner) && |inner.data| < TWO_63 && inner.kind.Constructed?
    requires |inner.children| == 2 && inner.children[0] == IntegerLeaf(size)
    ensures DecodeValue(KPaging, oid, false, Some(Reread(Wrapped(inner)))) == Ok(Paging(size, inner.children[1].data))
  {
    UnwrapReread(inner);
    RereadLeaves("", size, true);
    DecodePagingOf(Reread(Wrapped(inner)), Reread(inner), oid, size);
  }

  lemma PagingWireValue(size: uint32, cookie: string, oid: string)
    requires |Wrapped(PagingValue(size, cookie)).data| < TWO_63
    ensures DecodeValue(KPaging, oid, false, Some(Reread(Wrapped(PagingValue(size, cookie))))) == Ok(Paging(size, cookie))
  {
    var inner := PagingValue(size, cookie);
    NodeWellFormed(Universal, SEQUENCE, inner.children);
    SerialiseOne(inner);
    PagingFields(inner, oid, size);
  }

  /** A value read off the wire decodes like the value that was encoded. */
  lemma WireValue(c: Control)
    requires EncodedValue(c).Some? ==> |EncodedValue(c).value.data| < TWO_63
    ensures DecodeValue(Kind(c), Oid(c), Criticality(c), RereadOption(EncodedValue(c)))
            == DecodeValue(Kind(c), Oid(c), Criticality(c), EncodedValue(c))
  {
    match c
    case ControlString(_, _, v) => RereadLeaves(v, 0, true);
    case VChuWarning(expire) => RereadLeaves(FormatInt(expire), 0, true);
    case Paging(size, cookie) =>
      PagingWireValue(size, cookie, Oid(c));
      ValueRoundTrip(c);
    case Behera(_, _, _, _) => BeheraWireValue(c, Oid(c));
    case _ =>
  }

  lemma ValueFits(oid: string, criticality: bool, value: Option<Packet>)
    ensures value.Some? ==> |value.value.data| < |Sequence(Parts(oid, criticality, value)).data|
  {
    if value.Some? {
      ChildData(Parts(oid, criticality, value), |Parts(oid, criticality, value)| - 1);
    }
  }

  /** Decoding what a reader makes of an encoded control's bytes. */
  lemma DecodeReread(c: Control)
    requires |EncodeControl(c).data| < TWO_63
    ensures DecodeControl(Reread(EncodeControl(c))) == DecodeControl(EncodeControl(c))
  {
    KindOfOid(c);
    ValueFits(Oid(c), Criticality(c), EncodedValue(c));
    WireValue(c);
    EncodedValueKind(c);
    DecodeRereadOf(EncodeControl(c), Oid(c), Criticality(c), EncodedValue(c));
  }

  lemma EncodedValueKind(c: Control)
    ensures EncodedValue(c).Some? ==>
              !EncodedValue(c).value.value.Bool? && EncodedValue(c).value.kind.Primitive? && EncodedValue(c).value.tag == OCTET_STRING
  {
  }

  lemma DecodeRereadOf(p: Packet, oid: string, criticality: bool, value: Option<Packet>)
    requires p == Sequence(Parts(oid, criticality, value))
    requires value.Some? ==> !value.value.value.Bool? && value.value.kind.Primitive? && value.value.tag == OCTET_STRING
    requires DecodeValue(KindOf(oid), oid, criticality, RereadOption(value)) == DecodeValue(KindOf(oid), oid, criticality, value)
    ensures DecodeControl(Reread(p)) == DecodeControl(p)
  {
    RereadNode(Universal, SEQUENCE, Parts(oid, criticality, value));
    RereadParts(oid, criticality, value);
    DecodeBoth(p, Reread(p), oid, criticality, value, RereadOption(value));
  }

  /** Two packets of the same parts but for their values decode alike if their values do. */
  lemma DecodeBoth(p: Packet, q: Packet, oid: string, criticality: bool, v: Option<Packet>, w: Option<Packet>)
    requires p.children == Parts(oid, criticality, v) && q.children == Parts(oid, criticality, w)
    requires v.Some? ==> !v.value.value.Bool?
    requires w.Some? ==> !w.value.value.Bool?
    requires DecodeValue(KindOf(oid), oid, criticality, w) == DecodeValue(KindOf(oid), oid, criticality, v)
    ensures DecodeControl(q) == DecodeControl(p)
  {
    DecodeParts(p, oid, criticality, v);
    DecodeParts(q, oid, criticality, w);
  }

  /**
   The wire round trip: encode to bytes, read the bytes back with anything following them, and
   decode.  The control comes back exactly when RoundTrips holds.
   */
  lemma ControlWireRoundTrip(c: Control, rest: string)
    requires |EncodeControl(c).data| < TWO_63
    ensures ReadPacket(Serialise(EncodeControl(c)) + rest) == Ok((Reread(EncodeControl(c)), rest))
    ensures DecodeControl(Reread(EncodeControl(c))) == Ok(c) <==> RoundTrips(c)
  {
    PartsWellFormed(Oid(c), Criticality(c), EncodedValue(c));
    ReadSerialised(EncodeControl(c), rest);
    DecodeReread(c);
    ControlRoundTrip(c);
  }

  // ---------- decoding in place ----------

  lemma DecodeMarkedItem(item: Packet, c: Control)
    requires c.Behera? && DecodePolicyItem(item, c).Ok?
    ensures DecodePolicyItem(MarkPolicyItem(item), c) == DecodePolicyItem(item, c)
  {
  }

  lemma {:induction false} DecodeMarkedItems(items: seq<Packet>, c: Control)
    requires c.Behera?
    ensures DecodePolicyItems(MarkItems(items, c), c) == DecodePolicyItems(items, c)
  {
    if items != [] {
      var d := DecodePolicyItem(items[0], c);
      if d.Ok? {
        DecodeMarkedItem(items[0], c);
        DecodeMarkedItems(items[1..], d.value);
        assert MarkItems(items, c)[1..] == MarkItems(items[1..], d.value);
      }
    }
  }

  lemma DecodeMarkedPolicy(w: Packet)
    ensures DecodePolicy(MarkPolicy(w)) == DecodePolicy(w)
    ensures MarkPolicy(w).value == w.value
  {
    if |w.children| > 0 {
      DecodeMarkedItems(w.children[0].children, UNSET);
    }
  }

  lemma DecodeValueTwice(kind: ControlKind, oid: string, criticality: bool, v: Packet)
    ensures var v' := DecodedValue(kind, v);
            && (v'.value.Bool? ==> v.value.Bool?)
            && DecodeValue(kind, oid, criticality, Some(v')) == DecodeValue(kind, oid, criticality, Some(v))
  {
    if kind == KBehera && Unwrap(v).Ok? {
      DecodeMarkedPolicy(Unwrap(v).value);
    }
  }

  lemma LayoutAfterUpdate(children: seq<Packet>, v: Packet)
    requires ReadLayout(children).Ok? && ReadLayout(children).value.valueAt.Some?
    requires !v.value.Bool? || children[ReadLayout(children).value.valueAt.value].value.Bool?
    ensures ReadLayout(children[ReadLayout(children).value.valueAt.value := v]) == ReadLayout(children)
  {
  }

  /** Decoding rewrites the packet; decoding the rewritten packet ends as the first decode did, errors and panics included. */
  lemma DecodeTwice(p: Packet)
    ensures DecodeControl(Decoded(p)) == DecodeControl(p)
  {
    var l := ReadLayout(p.children);
    if l.Ok? && l.value.valueAt.Some? {
      var v := p.children[l.value.valueAt.value];
      DecodeValueTwice(KindOf(l.value.controlType), l.value.controlType, l.value.criticality, v);
      LayoutAfterUpdate(p.children, DecodedValue(KindOf(l.value.controlType), v));
    }
  }

  lemma DecodeDescribedValue(kind: ControlKind, oid: string, criticality: bool, v: Packet)
    requires DescribeValue(kind, v).Ok?
    ensures var v' := DescribeValue(kind, v).value;
            && (v'.value.Bool? ==> v.value.Bool?)
            && DecodeValue(kind, oid, criticality, Some(v')) == DecodeValue(kind, oid, criticality, Some(v))
  {
    if kind == KBehera {
      DecodeMarkedPolicy(Unwrap(v).value);
    }
  }

  lemma LayoutAfterDescribe(children: seq<Packet>, at: nat, v: Packet)
    requires DescribeLayout(children).Ok? && DescribeLayout(children).value.1 == Some(at)
    requires !v.value.Bool? || children[at].value.Bool?
    ensures ReadLayout(children[at := v]) == ReadLayout(children)
    ensures ReadLayout(children).Ok? ==> ReadLayout(children).value.valueAt == Some(at)
  {
  }

  /** Describing a control first changes nothing about how it then decodes, errors and panics included. */
  lemma DescribeThenDecode(p: Packet)
    requires DescribeControl(p).Ok?
    ensures DecodeControl(DescribeControl(p).value) == DecodeControl(p)
  {
    var (oid, at) := DescribeLayout(p.children).value;
    if at.Some? {
      var v := DescribeValue(KindOf(oid), p.children[at.value]).value;
      var l := ReadLayout(p.children);
      DecodeDescribedValue(KindOf(oid), oid, if l.Ok? then l.value.criticality else false, p.children[at.value]);
      LayoutAfterDescribe(p.children, at.value, v);
    }
  }
}
