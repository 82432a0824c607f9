/**
 The path of a modification's values: encoded one by one, received as one string, and
 turned back into text by ConvertString, which relies on readLength.
 */
module ModifyValues {
  import opened Go
  import opened Octets
  import opened Ber
  import opened Controls
  import opened ControlTheorems
  import opened Messages
  import opened MessageTheorems

  lemma WrapStep(x: int, b: int)
    ensures Wrap64(Wrap64(x) * 256 + b) == Wrap64(x * 256 + b)
  {
    var q := (x + TWO_63) / TWO_64;
    assert Wrap64(x) == x - q * TWO_64;
    assert (x * 256 + b - 256 * q * TWO_64 + TWO_63) % TWO_64 == (x * 256 + b + TWO_63) % TWO_64;
  }

  /** readLength: the length, and how many bytes it took. */
  method ReadLength(bytes: string) returns (r: Outcome<(int, nat)>)
    ensures r == LengthOf(bytes)
  {
    if |bytes| == 0 {
      return Panic;
    }
    var b := bytes[0] as int;
    var read := 1;
    if b == 0xFF {
      return Err(Other);
    } else if b == 0x80 {
      return Ok((-1, read));
    } else if b < 0x80 {
      return Ok((b, read));
    }
    var lengthBytes := b - 0x80;
    if lengthBytes > 8 {
      return Err(Other);
    }
    var length64: int64 := 0;
    var i := 0;
    while i < lengthBytes
      invariant 0 <= i <= lengthBytes && read == 1 + i <= |bytes|
      invariant length64 == Wrap64(FromUnsigned(bytes[1..read]))
    {
      if read >= |bytes| {
        return Panic;
      }
      WrapStep(FromUnsigned(bytes[1..read]), bytes[read] as int);
      assert bytes[1..read + 1][..read - 1] == bytes[1..read];
      length64 := Wrap64(length64 * 256 + bytes[read] as int);
      read := read + 1;
      i := i + 1;
    }
    return Ok((length64, read));
  }

  /** An encoded octet or general string without its tag and length; what follows them is kept whole. */
  function ConvertOne(s: string): Outcome<string> {
    if s == "" then Panic
    else if s[0] as int != OCTET_STRING && s[0] as int != GENERAL_STRING then Err(InvalidParameter)
    else
      var (_, used) :- LengthOf(s[1..]);
      Ok(s[1 + used..])
  }

  function Convert(ss: seq<string>): Outcome<seq<string>> {
    if ss == [] then Ok([])
    else
      var s :- ConvertOne(ss[0]);
      var rest :- Convert(ss[1..]);
      Ok([s] + rest)
  }

  lemma ConvertSingleton(s: string)
    ensures ConvertOne(s).Ok? ==> Convert([s]) == Ok([ConvertOne(s).value])
    ensures !ConvertOne(s).Ok? ==> Convert([s]) == ConvertOne(s).PropagateFailure()
  {
    assert Convert([s][1..]) == Ok([]);
    if ConvertOne(s).Ok? {
      assert [ConvertOne(s).value] + [] == [ConvertOne(s).value];
    }
  }

  method ConvertString(octetStrings: seq<string>) returns (r: Outcome<seq<string>>)
    ensures r == Convert(octetStrings)
  {
    var converted: seq<string> := [];
    var i := 0;
    while i < |octetStrings|
      invariant 0 <= i <= |octetStrings|
      invariant Convert(octetStrings) == After(converted, Convert(octetStrings[i..]))
    {
      var data := octetStrings[i];
      assert octetStrings[i..][1..] == octetStrings[i + 1..];
      if |data| == 0 {
        return Panic;
      }
      if data[0] as int == OCTET_STRING || data[0] as int == GENERAL_STRING {
        var length := ReadLength(data[1..]);
        if !length.Ok? {
          return length.PropagateFailure();
        }
        var s := data[1 + length.value.1..];
        AfterOne(converted, s, Convert(octetStrings[i + 1..]));
        converted := converted + [s];
      } else {
        return Err(InvalidParameter);
      }
      i := i + 1;
    }
    return Ok(converted);
  }

  /** Only the first value loses its header; the headers of the rest stay in the text. */
  lemma ConvertEncoded(v: string, rest: string)
    requires |v| < TWO_63
    ensures ConvertOne(Serialise(StringLeaf(v)) + rest) == Ok(v + rest)
  {
    CutSerialised(StringLeaf(v), rest);
    LengthOfInverts(|v|, v + rest);
  }

  /** Strings of tag 4 and tag 27 are converted, and every other tag is refused. */
  lemma ConvertByTag(tag: char, v: string, rest: string)
    requires |v| < TWO_63
    ensures ConvertOne([tag] + Length(|v|) + v + rest)
         == if tag == 4 as char || tag == 27 as char then Ok(v + rest) else Err(InvalidParameter)
  {
    var s := [tag] + Length(|v|) + v + rest;
    assert s[1..] == Length(|v|) + (v + rest);
    assert s[1 + |Length(|v|)|..] == v + rest;
    LengthOfInverts(|v|, v + rest);
  }

  /**
   What a server gets by converting the values of a received change: the values that were sent
   exactly when there was one of them.
   */
  lemma ConvertReceived(c: Change)
    requires forall i :: 0 <= i < |c.modification.vals| ==> |c.modification.vals[i]| < TWO_63
    ensures Convert(RawChange(c).modification.vals) == Ok(c.modification.vals) <==> |c.modification.vals| == 1
    ensures |c.modification.vals| == 0 ==> Convert(RawChange(c).modification.vals) == Panic
    ensures |c.modification.vals| > 0 ==>
              Convert(RawChange(c).modification.vals)
              == Ok([c.modification.vals[0] + SerialiseAll(StringLeaves(c.modification.vals[1..]))])
  {
    var vals := c.modification.vals;
    var raw := RawChange(c).modification.vals;
    ConvertSingleton(raw[0]);
    if |vals| > 0 {
      var rest := SerialiseAll(StringLeaves(vals[1..]));
      assert StringLeaves(vals)[1..] == StringLeaves(vals[1..]);
      assert raw[0] == Serialise(StringLeaf(vals[0])) + rest;
      ConvertEncoded(vals[0], rest);
      if |vals| == 1 {
        assert StringLeaves(vals[1..]) == [];
        assert vals[0] + rest == vals[0] && [vals[0]] == vals;
      }
    }
  }

  /** A modify on the wire arrives with every change in its raw form and all else as it was sent. */
  lemma ModifyArrives(m: Message, filter: Packet, decompile: Decompile)
    requires m.Modify? && |OnWire(m, filter).data| < TWO_63
    requires forall i :: 0 <= i < |m.controls| ==> RoundTrips(m.controls[i])
    ensures NewMessage(Reread(OnWire(m, filter)), decompile)
            == Ok(Modify(m.id, m.dn, RawChanges(m.changes), m.controls))
  {
    var request := WireRequest(m, filter);
    var controls := RereadAll(EncodedControls(m.controls));
    RereadEnvelope(m.id, request, m.controls);
    RereadCarries(m, filter, decompile);
    forall i | 0 <= i < |controls| ensures DecodeControl(controls[i]) == Ok(m.controls[i]) {
      ControlFits(m.id, request, m.controls, i);
      ControlRoundTrip(m.controls[i]);
      DecodeReread(m.controls[i]);
    }
    DecodeControlsOf(controls, m.controls);
    DecodeCarried(Reread(OnWire(m, filter)), m, Reread(request), controls, decompile);
  }
}
