/** Responses to requests, and the packets they are sent as. */
module Responses {
  import opened Go
  import opened Ber
  import opened Controls
  import opened ControlTheorems
  import opened Messages
  import opened MessageTheorems

  const SUCCESS: int64 := 0
  const OPERATIONS_ERROR: int64 := 1
  const INAPPROPRIATE_MATCHING: int64 := 18
  const NO_SUCH_OBJECT: int64 := 32
  const INVALID_CREDENTIALS: int64 := 49
  const UNWILLING_TO_PERFORM: int64 := 53
  const ENTRY_ALREADY_EXISTS: int64 := 68

  const BIND_RESPONSE: Tag := 1
  const SEARCH_RESULT_ENTRY: Tag := 4
  const SEARCH_RESULT_DONE: Tag := 5
  const MODIFY_RESPONSE: Tag := 7
  const ADD_RESPONSE: Tag := 9
  const DEL_RESPONSE: Tag := 11
  const EXTENDED_RESPONSE: Tag := 24

  /** `Result` covers every response that is a result code with its texts. */
  datatype Response =
    | Result(messageID: int64, tag: Tag, code: int64, matchedDN: string, diagnostic: string, controls: seq<Control>)
    | Entry(messageID: int64, dn: string, attributes: seq<Attribute>)

  function Body(r: Response): Packet {
    match r
    case Result(_, tag, code, matchedDN, diagnostic, _) =>
      Request(tag, [Enumerated(code), StringLeaf(matchedDN), StringLeaf(diagnostic)])
    case Entry(_, dn, attributes) =>
      Request(SEARCH_RESULT_ENTRY, [StringLeaf(dn), Sequence(EncodeAttributes(attributes))])
  }

  function ResponsePacket(r: Response): Packet {
    Envelope(r.messageID, Body(r), if r.Result? then r.controls else [])
  }

  /** Every response packet can be read back, and its first part is the message ID. */
  lemma ResponseReadsBack(r: Response, rest: string)
    requires |ResponsePacket(r).data| < TWO_63
    ensures ReadPacket(Serialise(ResponsePacket(r)) + rest) == Ok((Reread(ResponsePacket(r)), rest))
    ensures MessageID(Reread(ResponsePacket(r))) == Ok(r.messageID)
    ensures WellFormed(ResponsePacket(r)) && !IsEOC(ResponsePacket(r))
  {
    ListsWellFormed([], [], if r.Entry? then r.attributes else []);
    assert AllWellFormed(Body(r).children);
    NodeWellFormed(Application, Body(r).tag, Body(r).children);
    var controls := if r.Result? then r.controls else [];
    EnvelopeWellFormed(r.messageID, Body(r), controls);
    ReadSerialised(ResponsePacket(r), rest);
    RereadEnvelope(r.messageID, Body(r), controls);
    EnvelopeParts(Reread(ResponsePacket(r)), r.messageID, Reread(Body(r)), RereadAll(EncodedControls(controls)));
  }

  /** A client that reads an entry finds its DN and its attributes, in order. */
  lemma EntryReadsBack(r: Response)
    requires r.Entry?
    ensures var body := Reread(Body(r));
            && |body.children| == 2 && body.children[0].data == r.dn
            && DecodeAttributes(body.children[1].children) == Ok(r.attributes)
  {
    var ps := EncodeAttributes(r.attributes);
    RereadNode(Universal, SEQUENCE, ps);
    forall i | 0 <= i < |ps| ensures DecodeAttribute(RereadAll(ps)[i]) == Ok(r.attributes[i]) {
      RereadAttribute(r.attributes[i]);
    }
    DecodeAttributesOf(RereadAll(ps), r.attributes);
  }

  /** A client that reads a result finds its code and texts. */
  lemma ResultReadsBack(r: Response)
    requires r.Result?
    ensures var body := Reread(Body(r));
            && body.tag == r.tag && |body.children| == 3 && body.children[0].value == Int(r.code)
            && body.children[1].data == r.matchedDN && body.children[2].data == r.diagnostic
  {
    RereadLeaves("", r.code, true);
  }

  /** A client that decodes the controls of a response gets them back exactly when each of them round trips. */
  lemma ControlsReadBack(r: Response)
    requires r.Result? && |ResponsePacket(r).data| < TWO_63
    ensures EnvelopeControls(Reread(ResponsePacket(r))) == Ok(r.controls) <==>
            forall i :: 0 <= i < |r.controls| ==> RoundTrips(r.controls[i])
  {
    var encoded := RereadAll(EncodedControls(r.controls));
    RereadEnvelope(r.messageID, Body(r), r.controls);
    EnvelopeParts(Reread(ResponsePacket(r)), r.messageID, Reread(Body(r)), encoded);
    forall i | 0 <= i < |r.controls| ensures DecodeControl(encoded[i]) == Ok(r.controls[i]) <==> RoundTrips(r.controls[i]) {
      ControlFits(r.messageID, Body(r), r.controls, i);
      ControlRoundTrip(r.controls[i]);
      DecodeReread(r.controls[i]);
    }
    DecodeControlsOf(encoded, r.controls);
  }

  /** An entry is sent without controls. */
  lemma EntryHasNoControls(r: Response)
    requires r.Entry?
    ensures EnvelopeControls(Reread(ResponsePacket(r))) == Ok([])
  {
    RereadEnvelope(r.messageID, Body(r), []);
    EnvelopeParts(Reread(ResponsePacket(r)), r.messageID, Reread(Body(r)), []);
  }
}
