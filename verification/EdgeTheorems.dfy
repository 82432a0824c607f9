/** What the decoders make of requests and controls that are short, long or malformed. */
module EdgeTheorems {
  import opened Go
  import opened Octets
  import opened Ber
  import opened Controls
  import opened Messages
  import opened MessageTheorems
  import opened PolicyTheorems

  // ---------- controls ----------

  /** Which control packets have a readable layout, and how the others fail. */
  lemma ControlShape(p: Packet)
    ensures |p.children| == 0 || |p.children| > 3 ==> DecodeControl(p) == Err(Other)
    ensures 1 <= |p.children| <= 3 && !p.children[0].value.Str? ==> DecodeControl(p) == Panic
    ensures |p.children| == 3 && !p.children[1].value.Bool? ==> DecodeControl(p) == Panic
  {
  }

  /** A control that is nothing but its type: paging of size 0, a policy and a warning without numbers. */
  lemma BareControl(p: Packet, oid: string)
    requires |p.children| == 1 && p.children[0].value == Str(oid)
    ensures oid == "1.2.840.113556.1.4.319" ==> DecodeControl(p) == Ok(Paging(0, ""))
    ensures oid == "1.3.6.1.4.1.42.2.27.8.5.1" ==> DecodeControl(p) == Ok(Behera(-1, -1, -1, None))
    ensures oid == "2.16.840.1.113730.3.4.5" ==> DecodeControl(p) == Ok(VChuWarning(-1))
    ensures oid == "2.16.840.1.113730.3.4.2" ==> DecodeControl(p) == Ok(ManageDsaIT(false))
    ensures KindOf(oid) == KString ==> DecodeControl(p) == Ok(ControlString(oid, false, ""))
  {
    ReservedKinds();
  }

  /** A page size is the number sent, modulo two to the thirty-second; the cookie is the second field's bytes. */
  lemma PagingNumbers(w: Packet, n: int64) returns (k: int)
    requires |w.children| > 0 && |w.children[0].children| >= 2 && w.children[0].children[0].value == Int(n)
    ensures DecodePaging(w).Ok? && DecodePaging(w).value.Paging?
    ensures n == DecodePaging(w).value.size + k * 0x1_0000_0000
    ensures DecodePaging(w).value.cookie == w.children[0].children[1].data
  {
    k := n / 0x1_0000_0000;
  }

  /** What decoding leaves in a paging value: the cookie read from it as its second field's Value, and all else as it was. */
  lemma MarkedPaging(w: Packet)
    requires DecodePaging(w).Ok?
    ensures var (inner, marked) := (w.children[0], MarkPaging(w));
            && marked.children[0].children[1].value == Raw(DecodePaging(w).value.cookie)
            && marked.children[0].children[1].(value := Nil) == inner.children[1].(value := Nil)
            && marked.(children := []) == w.(children := []) && marked.children[1..] == w.children[1..]
            && marked.children[0].(children := []) == inner.(children := [])
            && marked.children[0].children[..1] == inner.children[..1]
            && marked.children[0].children[2..] == inner.children[2..]
  {
  }

  /** And in a warning: the number read from it. */
  lemma MarkedWarning(v: Packet, oid: string, criticality: bool, n: int64)
    requires DecodeValue(KWarning, oid, criticality, Some(v)) == Ok(VChuWarning(n))
    ensures DecodedValue(KWarning, v) == v.(value := Int(n))
  {
  }

  predicate HasPage(w: Packet) {
    |w.children| > 0 && |w.children[0].children| >= 2
  }

  /** Describing a paging value: it is unwrapped if it was not, and panics where the page's two fields are missing. */
  lemma DescribedPaging(v: Packet)
    requires v.value.Nil? || v.children == []
    ensures DescribeValue(KPaging, v) ==
            if !Unwrap(v).Ok? then Unwrap(v)
            else if !HasPage(Unwrap(v).value) then Panic
            else if v.value.Nil? then Ok(v)
            else Ok(MarkPaging(Unwrap(v).value).(data := Serialise(MarkPaging(Unwrap(v).value).children[0])))
  {
    if !v.value.Nil? && DecodePacket(v.data).Ok? {
      var inner := DecodePacket(v.data).value;
      assert v.children + [inner] == [inner];
      if |inner.children| >= 2 {
        var cookie := inner.children[1].(value := Raw(inner.children[1].data));
        var marked := inner.(children := inner.children[1 := cookie]);
        assert v.children + [marked] == [marked] == [inner][0 := marked];
      }
    }
  }

  /** Describing a policy value panics without a sequence, fails as the sequence does, and otherwise marks it. */
  lemma DescribedPolicy(v: Packet, w: Packet)
    requires Unwrap(v) == Ok(w)
    ensures |w.children| == 0 ==> DescribeValue(KBehera, v) == Panic
    ensures |w.children| > 0 && AllOk(w.children[0].children) ==>
              DescribeValue(KBehera, v).Ok? &&
              MarksPolicy(w.children[0].children, DescribeValue(KBehera, v).value.children[0].children)
    ensures |w.children| > 0 && !AllOk(w.children[0].children) ==> !DescribeValue(KBehera, v).Ok?
  {
    if |w.children| > 0 {
      PolicyMeaning(w.children[0].children);
      PolicyMarks(w.children[0].children);
    }
  }

  // ---------- requests ----------

  /** The message's list of controls; a bind of more than three parts and a search without a list take none. */
  predicate TakesControls(p: Packet, m: Message)
    requires |p.children| >= 2
  {
    m.Modify? || m.Add? || m.Delete? || (m.SimpleBind? && |p.children[1].children| <= 3) || (m.Search? && |p.children[1].children| > 7)
  }

  /** Whatever packet decodes: its controls are those of its third part, which is context-specific and constructed. */
  lemma ControlsFromEnvelope(p: Packet, decompile: Decompile)
    requires NewMessage(p, decompile).Ok?
    ensures |p.children| >= 2
    ensures var m := NewMessage(p, decompile).value;
            if !TakesControls(p, m) then ControlsOf(m) == []
            else if |p.children| == 2 then ControlsOf(m) == []
            else p.children[2].cls.Context? && p.children[2].kind.Constructed?
                 && DecodeControls(p.children[2].children) == Ok(ControlsOf(m))
  {
    ControlsTaken(p, decompile);
  }

  lemma ControlsTaken(p: Packet, decompile: Decompile)
    requires NewMessage(p, decompile).Ok?
    ensures |p.children| >= 2
    ensures var m := NewMessage(p, decompile).value;
            if TakesControls(p, m) then EnvelopeControls(p) == Ok(ControlsOf(m)) else ControlsOf(m) == []
  {
  }

  /** A bind with more than three parts is taken, without its password and without its controls. */
  lemma LongBind(p: Packet, id: int64, request: Packet, controls: seq<Packet>, decompile: Decompile)
    requires IsEnvelope(p, id, request, controls) && Is(request, Application, Constructed, 0) && |request.children| > 3
    requires request.children[0] == IntegerLeaf(3) && Is(request.children[1], Universal, Primitive, 4)
    ensures NewMessage(p, decompile) == Ok(SimpleBind(id, "simple", request.children[1].data, "", []))
  {
    EnvelopeParts(p, id, request, controls);
  }

  /** A search without an attribute list is taken, without its controls whatever they are. */
  lemma ShortSearch(p: Packet, id: int64, request: Packet, controls: seq<Packet>, scope: int64, deref: int64, size: int64,
                    time: int64, types: bool, filter: string, decompile: Decompile)
    requires IsEnvelope(p, id, request, controls) && Is(request, Application, Constructed, 3) && |request.children| == 7
    requires Is(request.children[0], Universal, Primitive, 4)
    requires request.children[1] == Enumerated(scope) && request.children[2] == Enumerated(deref)
    requires request.children[3] == IntegerLeaf(size) && request.children[4] == IntegerLeaf(time)
    requires request.children[5] == NewBoolean(Universal, Primitive, BOOLEAN, types)
    requires decompile(request.children[6]) == Ok(filter)
    ensures NewMessage(p, decompile)
         == Ok(Search(id, request.children[0].data, scope, deref, size, time, types, filter, [], []))
  {
    EnvelopeParts(p, id, request, controls);
  }

  /** An integer of more than eight bytes reads as zero, and a boolean of that length as false. */
  lemma LongNumber(content: string)
    requires |content| > 8
    ensures ReadValue(Universal, INTEGER, content) == ReadValue(Universal, ENUMERATED, content) == Int(0)
    ensures ReadValue(Universal, BOOLEAN, content) == Bool(false)
  {
  }
}
