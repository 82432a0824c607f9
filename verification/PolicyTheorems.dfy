/**
 What decoding a password policy sequence yields, said of the sequence as a whole: for each field of
 the control the last element that sets it, and for a malformed sequence the first element that fails.
 */
module PolicyTheorems {
  import opened Go
  import opened Octets
  import opened Ber
  import opened Controls

  datatype Field = ExpireField | GraceField | ErrorField

  /** A warning element holds its number in a child with context tag 0 or 1; an error element is one byte. */
  predicate Sets(item: Packet, field: Field) {
    match field
    case ExpireField => item.tag == 0 && |item.children| > 0 && item.children[0].tag == 0
    case GraceField => item.tag == 0 && |item.children| > 0 && item.children[0].tag == 1
    case ErrorField => item.tag == 1
  }

  predicate ItemOk(item: Packet) {
    && (item.tag == 0 ==> |item.children| > 0 && |item.children[0].data| <= 8)
    && (item.tag == 1 ==> |item.data| == 1 && item.data[0] <= 8 as char)
  }

  /** The place of the last element that sets a field. */
  function LastSet(items: seq<Packet>, field: Field): (r: Option<nat>)
    ensures r.None? ==> forall i :: 0 <= i < |items| ==> !Sets(items[i], field)
    ensures r.Some? ==> r.value < |items| && Sets(items[r.value], field)
    ensures r.Some? ==> forall i :: r.value < i < |items| ==> !Sets(items[i], field)
  {
    if items == [] then None
    else
      var later := LastSet(items[1..], field);
      assert forall i :: 0 < i < |items| ==> items[i] == items[1..][i - 1];
      if later.Some? then Some(later.value + 1)
      else if Sets(items[0], field) then Some(0)
      else None
  }

  /** The number a warning element carries: its bytes in two's complement. */
  function Number(item: Packet): int64
    requires ItemOk(item) && item.tag == 0
  {
    Wrap64(FromSigned(item.children[0].data))
  }

  predicate AllOk(items: seq<Packet>) {
    forall i :: 0 <= i < |items| ==> ItemOk(items[i])
  }

  function LastNumber(items: seq<Packet>, field: Field, otherwise: int64): int64
    requires AllOk(items) && !field.ErrorField?
  {
    if LastSet(items, field).Some? then Number(items[LastSet(items, field).value]) else otherwise
  }

  /** The code of the last error element. */
  function LastError(items: seq<Packet>): Option<int8>
    requires AllOk(items)
  {
    var at := LastSet(items, ErrorField);
    if at.Some? then Some(items[at.value].data[0] as int) else None
  }

  lemma OneItem(item: Packet, c: Control)
    requires c.Behera? && ItemOk(item)
    ensures DecodePolicyItem(item, c) == Ok(Behera(if Sets(item, ExpireField) then Number(item) else c.expire,
                                                   if Sets(item, GraceField) then Number(item) else c.grace,
                                                   if item.tag == 1 then item.data[0] as int else c.error,
                                                   if item.tag == 1 then Some(item.data[0] as int) else c.errorString))
  {
  }

  lemma LastNumberCons(items: seq<Packet>, field: Field, otherwise: int64)
    requires items != [] && AllOk(items) && !field.ErrorField?
    ensures AllOk(items[1..])
    ensures LastNumber(items, field, otherwise)
         == LastNumber(items[1..], field, if Sets(items[0], field) then Number(items[0]) else otherwise)
  {
  }

  /** From any control on, a sequence of sound elements leaves for each field what its last setter says. */
  lemma {:induction false} SoundItems(items: seq<Packet>, c: Control)
    requires c.Behera? && AllOk(items)
    ensures DecodePolicyItems(items, c)
         == Ok(Behera(LastNumber(items, ExpireField, c.expire), LastNumber(items, GraceField, c.grace),
                      if LastError(items).Some? then LastError(items).value else c.error,
                      if LastError(items).Some? then LastError(items) else c.errorString))
    decreases |items|
  {
    if items != [] {
      OneItem(items[0], c);
      LastNumberCons(items, ExpireField, c.expire);
      LastNumberCons(items, GraceField, c.grace);
      SoundItems(items[1..], DecodePolicyItem(items[0], c).value);
    }
  }

  /** A warning without a child is a panic; a number or an error code that cannot be read is an error. */
  function Failure(item: Packet): Outcome<Control> {
    if item.tag == 0 && |item.children| == 0 then Panic else Err(Other)
  }

  /** The first unsound element decides how the whole decode fails. */
  lemma {:induction false} FirstBadItem(items: seq<Packet>, at: nat, c: Control)
    requires c.Behera? && at < |items| && AllOk(items[..at]) && !ItemOk(items[at])
    ensures DecodePolicyItems(items, c) == Failure(items[at])
    decreases at
  {
    if at > 0 {
      assert items[..at][0] == items[0];
      OneItem(items[0], c);
      assert items[1..][..at - 1] == items[..at][1..];
      FirstBadItem(items[1..], at - 1, DecodePolicyItem(items[0], c).value);
    }
  }

  /** What a password policy sequence says: -1 for a number no element gives, no text without an error element. */
  ghost predicate SaysPolicy(items: seq<Packet>, r: Outcome<Control>) {
    if AllOk(items) then
      r == Ok(Behera(LastNumber(items, ExpireField, -1), LastNumber(items, GraceField, -1),
                     if LastError(items).Some? then LastError(items).value else -1, LastError(items)))
    else
      exists i :: 0 <= i < |items| && AllOk(items[..i]) && !ItemOk(items[i]) && r == Failure(items[i])
  }

  lemma FirstBad(items: seq<Packet>) returns (at: nat)
    requires !AllOk(items)
    ensures at < |items| && AllOk(items[..at]) && !ItemOk(items[at])
  {
    at := 0;
    while ItemOk(items[at])
      invariant at < |items| && AllOk(items[..at]) && !AllOk(items[at..])
      decreases |items| - at
    {
      assert items[..at + 1] == items[..at] + [items[at]];
      assert items[at..] == [items[at]] + items[at + 1..];
      at := at + 1;
    }
  }

  lemma PolicyMeaning(items: seq<Packet>)
    ensures SaysPolicy(items, DecodePolicyItems(items, UNSET))
  {
    if AllOk(items) {
      SoundItems(items, UNSET);
    } else {
      var at := FirstBad(items);
      FirstBadItem(items, at, UNSET);
    }
  }

  /** A value that has been unwrapped holds the sequence as its first child. */
  ghost predicate SaysControl(w: Packet, r: Outcome<Control>) {
    if |w.children| == 0 then r == Err(InvalidParameter) else SaysPolicy(w.children[0].children, r)
  }

  lemma PolicyValueMeaning(w: Packet)
    ensures SaysControl(w, DecodePolicy(w))
  {
    if |w.children| > 0 {
      PolicyMeaning(w.children[0].children);
    }
  }

  // ---------- what decoding leaves in the sequence ----------

  /** The element with what was read from it as its own Value, or its child's. */
  ghost predicate IsMarked(item: Packet, marked: Packet) {
    if Sets(item, ExpireField) || Sets(item, GraceField) then
      ItemOk(item) && marked == item.(children := [item.children[0].(value := Int(Number(item)))] + item.children[1..])
    else if Sets(item, ErrorField) then
      ItemOk(item) && marked == item.(value := Int8(item.data[0] as int))
    else
      marked == item
  }

  lemma MarkedItem(item: Packet)
    requires ItemOk(item)
    ensures IsMarked(item, MarkPolicyItem(item))
  {
    if item.tag == 0 {
      var value := Int(Number(item));
      assert item.children[0 := item.children[0].(value := value)] == [item.children[0].(value := value)] + item.children[1..];
    }
  }

  /** Decoding marks the elements before the first unsound one, and no other. */
  lemma {:induction false} MarkedItems(items: seq<Packet>, c: Control, i: nat)
    requires c.Behera? && i < |items|
    ensures if AllOk(items[..i + 1]) then IsMarked(items[i], MarkItems(items, c)[i]) else MarkItems(items, c)[i] == items[i]
    decreases i
  {
    assert items[..i + 1][0] == items[0];
    if ItemOk(items[0]) {
      OneItem(items[0], c);
      MarkedItem(items[0]);
      if i > 0 {
        var d := DecodePolicyItem(items[0], c).value;
        MarkedItems(items[1..], d, i - 1);
        assert items[..i + 1] == [items[0]] + items[1..][..i];
        assert MarkItems(items, c)[i] == MarkItems(items[1..], d)[i - 1];
      }
    } else {
      FirstBadItem(items, 0, c);
    }
  }

  ghost predicate MarksPolicy(items: seq<Packet>, marked: seq<Packet>) {
    && |marked| == |items|
    && forall i :: 0 <= i < |items| ==> if AllOk(items[..i + 1]) then IsMarked(items[i], marked[i]) else marked[i] == items[i]
  }

  lemma PolicyMarks(items: seq<Packet>)
    ensures MarksPolicy(items, MarkItems(items, UNSET))
  {
    forall i | 0 <= i < |items|
      ensures if AllOk(items[..i + 1]) then IsMarked(items[i], MarkItems(items, UNSET)[i]) else MarkItems(items, UNSET)[i] == items[i]
    {
      MarkedItems(items, UNSET, i);
    }
  }
}
