/**
 Controls read from and written to packets in place, each method proved to do what Controls
 says of the packet's value, and to leave the packet as Controls says.
 */
module ControlObjects {
  import opened Go
  import opened Octets
  import opened Ber
  import opened BerObjects
  import opened Controls
  import opened ControlTheorems
  import opened PolicyTheorems

  // ---------- decoding ----------

  /** One step of the loop over a password policy sequence. */
  method DecodeItem(item: BerPacket, c: Control) returns (r: Outcome<Control>)
    requires item.Valid() && c.Behera?
    modifies item.repr
    ensures item.Valid() && item.repr == old(item.repr)
    ensures r == DecodePolicyItem(old(item.view), c)
    ensures item.view == if r.Ok? then MarkPolicyItem(old(item.view)) else old(item.view)
  {
    if item.tag == 0 {
      if |item.children| == 0 {
        return Panic;
      }
      var warning := item.children[0];
      var val :- ParseInt64(warning.data);
      if warning.tag == 0 {
        item.SetChildValue(0, Int(val));
        return Ok(c.(expire := val));
      } else if warning.tag == 1 {
        item.SetChildValue(0, Int(val));
        return Ok(c.(grace := val));
      }
      return Ok(c);
    } else if item.tag == 1 {
      if |item.data| != 1 || item.data[0] as int > 8 {
        return Err(Other);
      }
      var val: int8 := item.data[0] as int;
      item.SetValue(Int8(val));
      return Ok(c.(error := val, errorString := ErrorText(val)));
    }
    return Ok(c);
  }

  method DecodeItemAt(sequence: BerPacket, i: nat, c: Control) returns (r: Outcome<Control>)
    requires sequence.Valid() && i < |sequence.children| && c.Behera?
    modifies sequence.repr
    ensures sequence.Valid() && sequence.repr == old(sequence.repr) && sequence.children == old(sequence.children)
    ensures r == DecodePolicyItem(old(sequence.view).children[i], c)
    ensures r.Ok? ==> sequence.view == old(sequence.view).(
                        children := old(sequence.view).children[i := MarkPolicyItem(old(sequence.view).children[i])])
    ensures !r.Ok? ==> sequence.view == old(sequence.view)
  {
    r := DecodeItem(sequence.children[i], c);
    sequence.Refresh(i);
  }

  /** One step of the loop over a sequence, with `done` of its elements marked. */
  lemma ItemsStep(items: seq<Packet>, done: seq<Packet>, i: nat, c: Control)
    requires i < |items| && c.Behera? && |done| == i
    ensures var d := DecodePolicyItem(items[i], c);
            if d.Ok? then
              && DecodePolicyItems(items[i..], c) == DecodePolicyItems(items[i + 1..], d.value)
              && done + MarkItems(items[i..], c) == done + [MarkPolicyItem(items[i])] + MarkItems(items[i + 1..], d.value)
            else
              DecodePolicyItems(items[i..], c) == d && MarkItems(items[i..], c) == items[i..]
    ensures (done + items[i..])[i] == items[i]
    ensures (done + items[i..])[i := MarkPolicyItem(items[i])] == done + [MarkPolicyItem(items[i])] + items[i + 1..]
  {
    assert items[i..][0] == items[i] && items[i..][1..] == items[i + 1..];
    var d := DecodePolicyItem(items[i], c);
    if d.Ok? {
      Associate(done, [MarkPolicyItem(items[i])], MarkItems(items[i + 1..], d.value));
    }
  }

  /** What is still to come of a sequence when `c` has been read and the rest of it is `items`. */
  ghost predicate ItemsLeft(result: Outcome<Control>, marked: seq<Packet>, done: seq<Packet>, items: seq<Packet>, c: Control) {
    c.Behera? && result == DecodePolicyItems(items, c) && marked == done + MarkItems(items, c)
  }

  method DecodeNext(sequence: BerPacket, i: nat, c: Control, ghost result: Outcome<Control>, ghost marked: seq<Packet>,
                    ghost items: seq<Packet>, ghost done: seq<Packet>)
    returns (r: Outcome<Control>, ghost more: seq<Packet>)
    requires sequence.Valid() && |sequence.children| == |items| && i < |items| && |done| == i
    requires sequence.view.children == done + items[i..] && ItemsLeft(result, marked, done, items[i..], c)
    modifies sequence.repr
    ensures sequence.Valid() && sequence.repr == old(sequence.repr) && sequence.children == old(sequence.children)
    ensures r.Ok? ==> |more| == i + 1 && ItemsLeft(result, marked, more, items[i + 1..], r.value)
    ensures r.Ok? ==> sequence.view == old(sequence.view).(children := more + items[i + 1..])
    ensures !r.Ok? ==> r == result && sequence.view == old(sequence.view).(children := marked)
  {
    ItemsStep(items, done, i, c);
    r := DecodeItemAt(sequence, i, c);
    more := done + [MarkPolicyItem(items[i])];
  }

  method DecodeEach(sequence: BerPacket) returns (r: Outcome<Control>)
    requires sequence.Valid()
    modifies sequence.repr
    ensures sequence.Valid() && sequence.repr == old(sequence.repr)
    ensures r == DecodePolicyItems(old(sequence.view).children, UNSET)
    ensures sequence.view == old(sequence.view).(children := MarkItems(old(sequence.view).children, UNSET))
  {
    ghost var items := sequence.view.children;
    ghost var result, marked := DecodePolicyItems(items, UNSET), MarkItems(items, UNSET);
    ghost var done: seq<Packet> := [];
    var c := UNSET;
    assert items[0..] == items && [] + items == items && [] + marked == marked;
    for i := 0 to |sequence.children|
      invariant sequence.Valid() && sequence.repr == old(sequence.repr) && sequence.children == old(sequence.children)
      invariant |done| == i && ItemsLeft(result, marked, done, items[i..], c)
      invariant sequence.view == old(sequence.view).(children := done + items[i..])
    {
      var next, more := DecodeNext(sequence, i, c, result, marked, items, done);
      if !next.Ok? {
        return next;
      }
      done := more;
      c := next.value;
    }
    return Ok(c);
  }

  /** The loop over a password policy sequence, and what it says and leaves of the sequence as a whole. */
  method DecodeItems(sequence: BerPacket) returns (r: Outcome<Control>)
    requires sequence.Valid()
    modifies sequence.repr
    ensures sequence.Valid() && sequence.repr == old(sequence.repr)
    ensures r == DecodePolicyItems(old(sequence.view).children, UNSET)
    ensures sequence.view == old(sequence.view).(children := MarkItems(old(sequence.view).children, UNSET))
    ensures SaysPolicy(old(sequence.view).children, r)
    ensures MarksPolicy(old(sequence.view).children, sequence.view.children)
  {
    PolicyMeaning(sequence.view.children);
    PolicyMarks(sequence.view.children);
    r := DecodeEach(sequence);
  }

  /** Re-decodes a value from its own bytes and hangs the result under it. */
  method UnwrapInPlace(value: BerPacket) returns (r: Outcome<()>)
    requires value.Valid()
    modifies value
    ensures value.Valid() && fresh(value.repr - old(value.repr))
    ensures r.Ok? <==> Unwrap(old(value.view)).Ok?
    ensures r.Ok? ==> value.view == Unwrap(old(value.view)).value
    ensures !r.Ok? ==> r == Unwrap(old(value.view)).PropagateFailure() && value.view == old(value.view)
  {
    if !value.value.Nil? {
      var decoded := DecodePacketErr(value.data);
      if !decoded.Ok? {
        return decoded.PropagateFailure();
      }
      value.Clear();
      value.AppendChild(decoded.value);
    }
    return Ok(());
  }

  method DecodePagingInPlace(value: BerPacket) returns (r: Outcome<Control>)
    requires value.Valid()
    modifies value.repr
    ensures value.Valid() && value.repr == old(value.repr)
    ensures r == DecodePaging(old(value.view))
    ensures value.view == if r.Ok? then MarkPaging(old(value.view)) else old(value.view)
  {
    if |value.children| < 1 {
      return Err(InvalidParameter);
    }
    var inner := value.children[0];
    assert forall i :: 0 <= i < |inner.children| ==> inner.children[i].Valid();
    if |inner.children| < 2 || !inner.children[0].value.Int? {
      return Panic;
    }
    var size := inner.children[0].value.i % 0x1_0000_0000;
    var cookie := inner.children[1].data;
    inner.SetChildValue(1, Raw(cookie));
    value.Refresh(0);
    return Ok(Paging(size, cookie));
  }

  /** The sequence is the first child of the unwrapped value. */
  method DecodeSequence(value: BerPacket) returns (r: Outcome<Control>)
    requires value.Valid()
    modifies value.repr
    ensures value.Valid() && value.repr == old(value.repr)
    ensures r == DecodePolicy(old(value.view))
    ensures value.view == MarkPolicy(old(value.view))
  {
    if |value.children| == 0 {
      return Err(InvalidParameter);
    }
    r := DecodeItems(value.children[0]);
    value.Refresh(0);
  }

  method DecodePolicyInPlace(value: BerPacket) returns (r: Outcome<Control>)
    requires value.Valid()
    modifies value.repr
    ensures value.Valid() && value.repr == old(value.repr)
    ensures r == DecodePolicy(old(value.view)) && SaysControl(old(value.view), r)
    ensures value.view == MarkPolicy(old(value.view))
  {
    PolicyValueMeaning(value.view);
    r := DecodeSequence(value);
  }

  /** The branch a control type selects, on its value packet. */
  method DecodeValueInPlace(kind: ControlKind, oid: string, criticality: bool, value: BerPacket)
    returns (r: Outcome<Control>)
    requires value.Valid()
    modifies value.repr
    ensures value.Valid() && fresh(value.repr - old(value.repr))
    ensures r == DecodeValue(kind, oid, criticality, Some(old(value.view)))
    ensures value.view == DecodedValue(kind, old(value.view))
  {
    match kind
    case KManageDsaIT => return Ok(ManageDsaIT(criticality));
    case KPaging =>
      var unwrapped := UnwrapInPlace(value);
      if !unwrapped.Ok? {
        return unwrapped.PropagateFailure();
      }
      r := DecodePagingInPlace(value);
    case KBehera =>
      var unwrapped := UnwrapInPlace(value);
      if !unwrapped.Ok? {
        return unwrapped.PropagateFailure();
      }
      r := DecodePolicyInPlace(value);
    case KMustChange => return Ok(VChuMustChange(true));
    case KWarning =>
      var expire :- ParseInt(value.data);
      value.SetValue(Int(expire));
      return Ok(VChuWarning(expire));
    case KNotification => return Ok(MsNotification);
    case KShowDeleted => return Ok(MsShowDeleted);
    case KServerLinkTTL => return Ok(MsServerLinkTTL);
    case KString =>
      if !value.value.Str? {
        return Panic;
      }
      return Ok(ControlString(oid, criticality, value.value.s));
  }

  method ReadLayoutOf(packet: BerPacket) returns (r: Outcome<Layout>)
    requires packet.Valid()
    ensures r == ReadLayout(packet.view.children)
  {
    var cs := packet.children;
    assert forall i :: 0 <= i < |cs| ==> cs[i].Valid();
    if |cs| == 0 || |cs| > 3 {
      return Err(Other);
    }
    if !cs[0].value.Str? {
      return Panic;
    }
    var controlType := cs[0].value.s;
    if |cs| == 1 {
      return Ok(Layout(controlType, false, None));
    }
    if |cs| == 2 {
      if cs[1].value.Bool? {
        return Ok(Layout(controlType, cs[1].value.b, None));
      }
      return Ok(Layout(controlType, false, Some(1)));
    }
    if !cs[1].value.Bool? {
      return Panic;
    }
    return Ok(Layout(controlType, cs[1].value.b, Some(2)));
  }

  /** The branch on the value that is child `at` of a control packet. */
  method DecodeValueAt(packet: BerPacket, at: nat, kind: ControlKind, oid: string, criticality: bool)
    returns (r: Outcome<Control>)
    requires packet.Valid() && at < |packet.children|
    modifies packet.repr
    ensures packet.Valid() && fresh(packet.repr - old(packet.repr))
    ensures r == DecodeValue(kind, oid, criticality, Some(old(packet.view).children[at]))
    ensures packet.view == old(packet.view).(
              children := old(packet.view).children[at := DecodedValue(kind, old(packet.view).children[at])])
  {
    r := DecodeValueInPlace(kind, oid, criticality, packet.children[at]);
    packet.Refresh(at);
  }

  method DecodeControlInPlace(packet: BerPacket?) returns (r: Outcome<Control>)
    requires packet != null ==> packet.Valid()
    modifies if packet != null then packet.repr else {}
    ensures packet == null ==> r == Err(InvalidParameter)
    ensures packet != null ==> packet.Valid() && fresh(packet.repr - old(packet.repr))
    ensures packet != null ==> r == DecodeControl(old(packet.view))
    ensures packet != null ==> packet.view == Decoded(old(packet.view))
  {
    if packet == null {
      return Err(InvalidParameter);
    }
    var l :- ReadLayoutOf(packet);
    var kind := KindOf(l.controlType);
    if l.valueAt.None? {
      return DecodeValue(kind, l.controlType, l.criticality, None);
    }
    r := DecodeValueAt(packet, l.valueAt.value, kind, l.controlType, l.criticality);
  }

  /** Decoding a packet a second time, after the first has rewritten it, ends as the first did. */
  method DecodeControlTwice(packet: BerPacket) returns (first: Outcome<Control>, second: Outcome<Control>)
    requires packet.Valid()
    modifies packet.repr
    ensures first == DecodeControl(old(packet.view)) && second == first
  {
    first := DecodeControlInPlace(packet);
    DecodeTwice(old(packet.view));
    second := DecodeControlInPlace(packet);
  }

  // ---------- descriptions ----------

  /** The paging branch, on a value that has not been unwrapped. */
  method DescribePagingInPlace(value: BerPacket) returns (r: Outcome<()>)
    requires value.Valid() && !value.value.Nil?
    modifies value.repr
    ensures value.Valid() && fresh(value.repr - old(value.repr))
    ensures r.Ok? <==> DescribeValue(KPaging, old(value.view)).Ok?
    ensures r.Ok? ==> value.view == DescribeValue(KPaging, old(value.view)).value
    ensures !r.Ok? ==> r == DescribeValue(KPaging, old(value.view)).PropagateFailure()
  {
    var decoded := DecodePacketErr(value.data);
    if !decoded.Ok? {
      return decoded.PropagateFailure();
    }
    var inner := decoded.value;
    value.Clear();
    if |inner.children| < 2 {
      return Panic;
    }
    assert inner.children[1].Valid();
    inner.SetChildValue(1, Raw(inner.children[1].data));
    value.AppendChild(inner);
    if |value.children[0].children| < 2 {
      return Panic;
    }
    return Ok(());
  }

  method DescribeValueInPlace(kind: ControlKind, value: BerPacket) returns (r: Outcome<()>)
    requires value.Valid()
    modifies value.repr
    ensures value.Valid() && fresh(value.repr - old(value.repr))
    ensures r.Ok? <==> DescribeValue(kind, old(value.view)).Ok?
    ensures r.Ok? ==> value.view == DescribeValue(kind, old(value.view)).value
    ensures !r.Ok? ==> r == DescribeValue(kind, old(value.view)).PropagateFailure()
  {
    if kind == KPaging {
      if !value.value.Nil? {
        r := DescribePagingInPlace(value);
        return;
      }
      if |value.children| == 0 || |value.children[0].children| < 2 {
        return Panic;
      }
    } else if kind == KBehera {
      r := UnwrapInPlace(value);
      if !r.Ok? {
        return;
      }
      if |value.children| == 0 {
        return Panic;
      }
      var c := DecodePolicyInPlace(value);
      if !c.Ok? {
        return c.PropagateFailure();
      }
    }
    return Ok(());
  }

  method DescribeLayoutOf(child: BerPacket) returns (r: Outcome<(string, Option<nat>)>)
    requires child.Valid()
    ensures r == DescribeLayout(child.view.children)
  {
    var cs := child.children;
    assert forall i :: 0 <= i < |cs| ==> cs[i].Valid();
    if |cs| == 0 || |cs| > 3 {
      return Err(Other);
    }
    if !cs[0].value.Str? {
      return Panic;
    }
    var controlType := cs[0].value.s;
    if |cs| == 1 {
      return Ok((controlType, None));
    }
    if |cs| == 2 {
      return Ok((controlType, if cs[1].value.Bool? then None else Some(1)));
    }
    return Ok((controlType, Some(2)));
  }

  method DescribeValueAt(child: BerPacket, at: nat, kind: ControlKind) returns (r: Outcome<()>)
    requires child.Valid() && at < |child.children|
    modifies child.repr
    ensures child.Valid() && fresh(child.repr - old(child.repr))
    ensures r.Ok? <==> DescribeValue(kind, old(child.view).children[at]).Ok?
    ensures r.Ok? ==> child.view == old(child.view).(
                        children := old(child.view).children[at := DescribeValue(kind, old(child.view).children[at]).value])
    ensures !r.Ok? ==> r == DescribeValue(kind, old(child.view).children[at]).PropagateFailure()
  {
    r := DescribeValueInPlace(kind, child.children[at]);
    child.Refresh(at);
  }

  method DescribeControlInPlace(child: BerPacket) returns (r: Outcome<()>)
    requires child.Valid()
    modifies child.repr
    ensures child.Valid() && fresh(child.repr - old(child.repr))
    ensures r.Ok? <==> DescribeControl(old(child.view)).Ok?
    ensures r.Ok? ==> child.view == DescribeControl(old(child.view)).value
    ensures !r.Ok? ==> r == DescribeControl(old(child.view)).PropagateFailure()
  {
    var layout :- DescribeLayoutOf(child);
    var (controlType, valueAt) := layout;
    if valueAt.None? {
      return Ok(());
    }
    r := DescribeValueAt(child, valueAt.value, KindOf(controlType));
  }

  method DescribeAt(packet: BerPacket, i: nat) returns (r: Outcome<()>)
    requires packet.Valid() && i < |packet.children|
    modifies packet.repr
    ensures packet.Valid() && fresh(packet.repr - old(packet.repr)) && packet.children == old(packet.children)
    ensures r.Ok? <==> DescribeControl(old(packet.view).children[i]).Ok?
    ensures r.Ok? ==> packet.view == old(packet.view).(
                        children := old(packet.view).children[i := DescribeControl(old(packet.view).children[i]).value])
    ensures !r.Ok? ==> r == DescribeControl(old(packet.view).children[i]).PropagateFailure()
  {
    r := DescribeControlInPlace(packet.children[i]);
    packet.Refresh(i);
  }

  lemma DescribeCons(p: Packet, ps: seq<Packet>)
    ensures DescribeAll([p] + ps)
         == if DescribeControl(p).Ok? then After([DescribeControl(p).value], DescribeAll(ps))
            else DescribeControl(p).PropagateFailure()
  {
    assert ([p] + ps)[1..] == ps;
  }

  /** A list of which `done` is described, and the outcome `d` for the next of it. */
  lemma DescribeJoin(whole: Outcome<seq<Packet>>, done: seq<Packet>, d: Outcome<Packet>, rest: Outcome<seq<Packet>>)
    requires whole == After(done, if d.Ok? then After([d.value], rest) else d.PropagateFailure())
    ensures if d.Ok? then whole == After(done + [d.value], rest) else whole == d.PropagateFailure()
  {
    if d.Ok? {
      AfterOne(done, d.value, rest);
    }
  }

  lemma DescribeStep(whole: Outcome<seq<Packet>>, ps: seq<Packet>, done: seq<Packet>, i: nat)
    requires i < |ps| && whole == After(done, DescribeAll(ps[i..]))
    ensures var d := DescribeControl(ps[i]);
            if d.Ok? then whole == After(done + [d.value], DescribeAll(ps[i + 1..])) else whole == d.PropagateFailure()
  {
    var p, tail := ps[i], ps[i + 1..];
    assert ps[i..] == [p] + tail;
    DescribeCons(p, tail);
    DescribeJoin(whole, done, DescribeControl(p), DescribeAll(tail));
  }

  /** One step of the loop over the controls, with `done` of them described. */
  method DescribeNext(packet: BerPacket, i: nat, ghost whole: Outcome<seq<Packet>>, ghost ps: seq<Packet>, ghost done: seq<Packet>)
    returns (r: Outcome<()>, ghost more: seq<Packet>)
    requires packet.Valid() && |packet.children| == |ps| && i < |ps| && |done| == i
    requires packet.view.children == done + ps[i..] && whole == After(done, DescribeAll(ps[i..]))
    modifies packet.repr
    ensures packet.Valid() && fresh(packet.repr - old(packet.repr)) && packet.children == old(packet.children)
    ensures r.Ok? ==> |more| == i + 1 && whole == After(more, DescribeAll(ps[i + 1..]))
    ensures r.Ok? ==> packet.view == old(packet.view).(children := more + ps[i + 1..])
    ensures !r.Ok? ==> !whole.Ok? && r == whole.PropagateFailure()
  {
    DescribeStep(whole, ps, done, i);
    assert (done + ps[i..])[i] == ps[i];
    r := DescribeAt(packet, i);
    ghost var p := DescribeControl(ps[i]);
    more := if p.Ok? then done + [p.value] else [];
    assert p.Ok? ==> (done + ps[i..])[i := p.value] == more + ps[i + 1..];
  }

  method AddControlDescriptions(packet: BerPacket?) returns (r: Outcome<()>)
    requires packet != null ==> packet.Valid()
    modifies if packet != null then packet.repr else {}
    ensures packet == null ==> r == Err(InvalidParameter)
    ensures packet != null ==> packet.Valid() && fresh(packet.repr - old(packet.repr))
    ensures packet != null ==> (r.Ok? <==> DescribeAll(old(packet.view).children).Ok?)
    ensures packet != null && r.Ok? ==>
              packet.view == old(packet.view).(children := DescribeAll(old(packet.view).children).value)
    ensures packet != null && !r.Ok? ==> r == DescribeAll(old(packet.view).children).PropagateFailure()
  {
    if packet == null {
      return Err(InvalidParameter);
    }
    ghost var ps := packet.view.children;
    ghost var whole := DescribeAll(ps);
    ghost var done: seq<Packet> := [];
    for i := 0 to |packet.children|
      invariant packet.Valid() && fresh(packet.repr - old(packet.repr)) && packet.children == old(packet.children)
      invariant |done| == i && whole == After(done, DescribeAll(ps[i..]))
      invariant packet.view == old(packet.view).(children := done + ps[i..])
    {
      var described, more := DescribeNext(packet, i, whole, ps, done);
      if !described.Ok? {
        return described;
      }
      done := more;
    }
    return Ok(());
  }
}
