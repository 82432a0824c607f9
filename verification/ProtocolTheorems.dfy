/**
 The numbers on the wire, written out: the first byte of every request and response, the result codes
 the directory answers with and when, what each modify operation does, and the types of the controls.
 */
module ProtocolTheorems {
  import opened Go
  import opened Octets
  import opened Ber
  import opened Controls
  import opened Messages
  import opened MessageTheorems
  import opened Responses
  import opened Routing
  import opened Matching
  import opened Entries
  import opened EntryTheorems
  import opened DirectoryModel
  import DirectoryTheorems

  /** The byte a packet starts with. */
  function FirstByte(p: Packet): nat {
    Serialise(p)[0] as int
  }

  // ---------- requests ----------

  /** What a client sends starts with the byte of its operation; inside the envelope, which starts with 0x30. */
  lemma RequestBytes(m: Message, filter: Packet)
    ensures FirstByte(OnWire(m, filter)) == 0x30
    ensures FirstByte(WireRequest(m, filter)) ==
            match m
            case SimpleBind(_, _, _, _, _) => 0x60
            case Search(_, _, _, _, _, _, _, _, _, _) => 0x63
            case Extended(_, _) => 0x77
            case Modify(_, _, _, _) => 0x66
            case Add(_, _, _, _) => 0x68
            case Delete(_, _, _) => 0x4A
            case Unbind(_) => 0x62
  {
  }

  /** The message a request byte stands for; the constructed and the primitive form of delete and unbind are both taken. */
  predicate StandsFor(b: nat, m: Message) {
    match m
    case SimpleBind(_, _, _, _, _) => b == 0x60
    case Search(_, _, _, _, _, _, _, _, _, _) => b == 0x63
    case Extended(_, _) => b == 0x77
    case Modify(_, _, _, _) => b == 0x66
    case Add(_, _, _, _) => b == 0x68
    case Delete(_, _, _) => b == 0x4A || b == 0x6A
    case Unbind(_) => b == 0x42 || b == 0x62
  }

  lemma ByteOfRequest(request: Packet)
    requires request.cls.Application? && (request.kind.Primitive? ==> request.tag == 2 || request.tag == 10)
    ensures FirstByte(request) == (if request.kind.Primitive? then 0x40 else 0x60) + request.tag
  {
  }

  /** The request that a decoder takes out of an envelope. */
  lemma TakenRequest(p: Packet)
    requires RequestPacket(p).Ok?
    ensures |p.children| >= 2 && RequestPacket(p).value == p.children[1] && p.children[1].cls.Application?
    ensures p.children[1].kind.Primitive? ==> p.children[1].tag == 2 || p.children[1].tag == 10
  {
  }

  predicate OfKind(tag: Tag, m: Message) {
    match m
    case SimpleBind(_, _, _, _, _) => tag == 0
    case Search(_, _, _, _, _, _, _, _, _, _) => tag == 3
    case Extended(_, _) => tag == 23
    case Modify(_, _, _, _) => tag == 6
    case Add(_, _, _, _) => tag == 8
    case Delete(_, _, _) => tag == 10
    case Unbind(_) => tag == 2
  }

  lemma DecodedKind(p: Packet, decompile: Decompile)
    requires NewMessage(p, decompile).Ok?
    ensures RequestPacket(p).Ok? && OfKind(RequestPacket(p).value.tag, NewMessage(p, decompile).value)
    ensures MessageID(p) == Ok(NewMessage(p, decompile).value.id)
  {
  }

  /** Whatever packet decodes, its request's first byte says as what, and its first part is the message ID. */
  lemma DecodedByByte(p: Packet, decompile: Decompile)
    requires NewMessage(p, decompile).Ok?
    ensures |p.children| >= 2 && StandsFor(FirstByte(p.children[1]), NewMessage(p, decompile).value)
    ensures p.children[0].value == Int(NewMessage(p, decompile).value.id)
  {
    DecodedKind(p, decompile);
    TakenRequest(p);
    ByteOfRequest(p.children[1]);
  }

  /** Any other operation is refused with an internal error. */
  lemma UnknownOperation(p: Packet, decompile: Decompile)
    requires RequestPacket(p).Ok?
    ensures RequestPacket(p).value.tag !in {0, 2, 3, 6, 8, 10, 23} ==> NewMessage(p, decompile) == Err(Internal)
  {
  }

  // ---------- results ----------

  /** A result for this message, by its first byte, its code and its texts. */
  predicate Replies(r: Response, id: int64, first: nat, code: int64, matchedDN: string, diagnostic: string) {
    && r.Result? && r.messageID == id && FirstByte(Body(r)) == first && r.code == code
    && r.matchedDN == matchedDN && r.diagnostic == diagnostic
  }

  /** Two lists of the entries that match are the same list. */
  lemma FindsOnce(hits: seq<nat>, filter: string, es: seq<Record>)
    requires DirectoryTheorems.Finds(hits, filter, es)
    ensures hits == Hits(filter, es)
  {
    DirectoryTheorems.HitsMeaning(filter, es);
    SameAscending(hits, Hits(filter, es));
  }

  lemma {:induction false} SameAscending(a: seq<nat>, b: seq<nat>)
    requires forall j, k :: 0 <= j < k < |a| ==> a[j] < a[k]
    requires forall j, k :: 0 <= j < k < |b| ==> b[j] < b[k]
    requires forall i :: i in a <==> i in b
    ensures a == b
  {
    assert a != [] ==> a[0] in b;
    assert b != [] ==> b[0] in a;
    if a != [] {
      assert a[0] == b[0];
      forall i | true ensures i in a[1..] <==> i in b[1..] {
        assert i in a[1..] ==> i in a && i > a[0];
        assert i in b[1..] ==> i in b && i > b[0];
      }
      SameAscending(a[1..], b[1..]);
      assert a == [a[0]] + a[1..] && b == [b[0]] + b[1..];
    }
  }

  /** An add succeeds just when no user's DN matches the new one; otherwise the entry exists already. */
  lemma AddReply(d: Dir, m: Message)
    ensures var r := HandleAdd(d, m).1;
            && r.controls == []
            && if !m.Add? then Replies(r, m.id, 0x69, 1, "Unused", "Unused")
               else if DirectoryTheorems.NoneMatch("(" + m.dn + ")", d.users) then Replies(r, m.id, 0x69, 0, "Unused", "Unused")
               else Replies(r, m.id, 0x69, 68, "Unused", "entry exists for DN: " + m.dn)
  {
    if m.Add? {
      DirectoryTheorems.HitsNone("(" + m.dn + ")", d.users);
    }
  }

  lemma DeleteReplyOf(d: Dir, id: int64, us: seq<nat>, gs: seq<nat>)
    requires Within(us, d.users) && Within(gs, d.groups)
    ensures var r := DeleteFound(d, id, us, gs).1;
            && r.controls == []
            && if |us| == 1 || (us == [] && |gs| == 1) then Replies(r, id, 0x6B, 0, "Unused", "Unused")
               else if us == [] && gs == [] then Replies(r, id, 0x6B, 32, "Unused", "Unused")
               else Replies(r, id, 0x6B, 18, "Unused", TooMany(if us == [] then |gs| else |us|))
  {
  }

  /** A delete: success for one match among the users or, failing any there, the groups; no such object for none. */
  lemma DeleteReply(d: Dir, m: Message, us: seq<nat>, gs: seq<nat>)
    requires m.Delete? && DirectoryTheorems.Finds(us, "(" + m.dn + ")", d.users)
    requires DirectoryTheorems.Finds(gs, "(" + m.dn + ")", d.groups)
    ensures var r := HandleDelete(d, m).1;
            && r.controls == []
            && if |us| == 1 || (us == [] && |gs| == 1) then Replies(r, m.id, 0x6B, 0, "Unused", "Unused")
               else if us == [] && gs == [] then Replies(r, m.id, 0x6B, 32, "Unused", "Unused")
               else Replies(r, m.id, 0x6B, 18, "Unused", TooMany(if us == [] then |gs| else |us|))
  {
    FindsOnce(us, "(" + m.dn + ")", d.users);
    FindsOnce(gs, "(" + m.dn + ")", d.groups);
    DeleteReplyOf(d, m.id, us, gs);
  }

  lemma ModifyReplyOf(d: Dir, id: int64, changes: seq<Change>, us: seq<nat>, gs: seq<nat>)
    requires Within(us, d.users) && Within(gs, d.groups)
    ensures var r := ModifyFound(d, id, changes, us, gs).1;
            && r.controls == []
            && if |us| == 1 then Replies(r, id, 0x67, 0, d.users[us[0]].dn, "Unused")
               else if us == [] && |gs| == 1 then Replies(r, id, 0x67, 0, d.groups[gs[0]].dn, "Unused")
               else if us == [] && gs == [] then Replies(r, id, 0x67, 32, "Unused", "Unused")
               else Replies(r, id, 0x67, 18, "Unused", TooMany(if us == [] then |gs| else |us|))
  {
  }

  /** A modify: as a delete, but the groups are matched by the bare DN, and the matched DN is told. */
  lemma ModifyReply(d: Dir, m: Message, us: seq<nat>, gs: seq<nat>)
    requires m.Modify? && DirectoryTheorems.Finds(us, "(" + m.dn + ")", d.users)
    requires DirectoryTheorems.Finds(gs, m.dn, d.groups)
    ensures var r := HandleModify(d, m).1;
            && r.controls == []
            && if |us| == 1 then Replies(r, m.id, 0x67, 0, d.users[us[0]].dn, "Unused")
               else if us == [] && |gs| == 1 then Replies(r, m.id, 0x67, 0, d.groups[gs[0]].dn, "Unused")
               else if us == [] && gs == [] then Replies(r, m.id, 0x67, 32, "Unused", "Unused")
               else Replies(r, m.id, 0x67, 18, "Unused", TooMany(if us == [] then |gs| else |us|))
  {
    FindsOnce(us, "(" + m.dn + ")", d.users);
    FindsOnce(gs, m.dn, d.groups);
    ModifyReplyOf(d, m.id, m.changes, us, gs);
  }

  /** "more than one match: N entries". */
  lemma TooManyText(n: nat)
    requires n < 10
    ensures TooMany(n) == "more than one match: " + ["0123456789"[n]] + " entries"
  {
    assert Decimal(n) == [("0123456789"[n])];
  }

  /** A bind succeeds without a password where that is allowed, or with the first password of an entry of that name. */
  lemma BindReply(d: Dir, c: Config, m: Message)
    requires m.SimpleBind? && m.authChoice == "simple"
    ensures var r := HandleBind(d, c, m);
            var known := exists i :: 0 <= i < |d.users| && d.users[i].dn == m.userName
                                     && [m.password] <= GetValues(d.users[i].attrs, "password");
            && Replies(r, m.id, 0x61, if (m.password == "" && c.allowAnonymousBind) || known then 0 else 49, "", "")
            && r.controls == (if known && !(m.password == "" && c.allowAnonymousBind) then c.controls else [])
  {
    forall i | 0 <= i < |d.users|
      ensures HasPassword(d.users[i], m.userName, m.password)
              <==> d.users[i].dn == m.userName && [m.password] <= GetValues(d.users[i].attrs, "password")
    {
      FirstIs(GetValues(d.users[i].attrs, "password"), m.password);
    }
  }

  lemma FirstIs(values: seq<string>, v: string)
    ensures [v] <= values <==> |values| > 0 && values[0] == v
  {
  }

  /** An entry starts with 0x64, and the result that closes a search with 0x65. */
  lemma SearchBytes(id: int64, e: Record, code: int64, controls: seq<Control>)
    ensures FirstByte(Body(EntryResponse(id, e))) == 0x64 && FirstByte(Body(Done(id, code, controls))) == 0x65
  {
  }

  // ---------- no handler ----------

  /** A request nobody handles is answered, under its own message ID, with unwilling to perform. */
  lemma NoHandlerReply(req: Incoming)
    ensures Replies(NoHandler(req), req.message.id, 0x78, 53, "Unused", "No matching handler found")
    ensures NoHandler(req).controls == []
  {
  }

  lemma NoHandlerFits(req: Incoming)
    ensures |ResponsePacket(NoHandler(req)).data| < TWO_63
  {
    var r := NoHandler(req);
    assert Pow256(7) == 0x100_0000_0000_0000;
    SignedLength(req.message.id, 7);
    var id, body := IntegerLeaf(req.message.id), Body(r);
    assert |Serialise(id)| <= 10;
    var a, b, c := Enumerated(53), StringLeaf("Unused"), StringLeaf("No matching handler found");
    assert |Serialise(a)| == 3 && |Serialise(b)| == 8 && |Serialise(c)| == 27;
    ThreeParts(a, b, c);
    assert |Serialise(body)| == 40;
    TwoParts(id, body);
    assert [id, body] + [] == [id, body];
  }

  lemma TwoParts(a: Packet, b: Packet)
    ensures SerialiseAll([a, b]) == Serialise(a) + Serialise(b)
  {
    assert [a, b][1..] == [b];
    SerialiseOne(b);
  }

  lemma ThreeParts(a: Packet, b: Packet, c: Packet)
    ensures SerialiseAll([a, b, c]) == Serialise(a) + (Serialise(b) + Serialise(c))
  {
    assert [a, b, c][1..] == [b, c];
    TwoParts(b, c);
  }

  /** Its bytes are read by the client as that: an extended response with code 53 and the text. */
  lemma NoHandlerOnWire(req: Incoming, rest: string) returns (p: Packet)
    ensures ReadPacket(Serialise(ResponsePacket(NoHandler(req))) + rest) == Ok((p, rest))
    ensures MessageID(p) == Ok(req.message.id) && |p.children| == 2
    ensures p.children[1].cls.Application? && p.children[1].tag == 24 && |p.children[1].children| == 3
    ensures p.children[1].children[0].value == Int(53)
    ensures p.children[1].children[2].data == "No matching handler found"
  {
    var r := NoHandler(req);
    NoHandlerFits(req);
    ResponseReadsBack(r, rest);
    ResultReadsBack(r);
    RereadEnvelope(r.messageID, Body(r), []);
    RereadNode(Application, 24, Body(r).children);
    p := Reread(ResponsePacket(r));
  }

  // ---------- modify operations ----------

  /** Change 0 adds values, change 1 takes the attribute away, and change 2 and every other leaves it. */
  lemma ChangeNumbers(attrs: seq<Attr>, c: Change)
    requires WellKept(attrs)
    ensures var (before, after) := (GetValues(attrs, c.modification.name), GetValues(ApplyChange(attrs, c), c.modification.name));
            && (c.operation == 0 ==> after == before + c.modification.vals)
            && (c.operation == 1 ==> after == [])
            && (c.operation != 0 && c.operation != 1 ==> ApplyChange(attrs, c) == attrs)
  {
    ChangeEffect(attrs, c, c.modification.name);
    assert [c][1..] == [];
  }

  // ---------- numbers as bytes ----------

  /** Samples of the integer and length forms, at the places where they grow. */
  lemma IntegerBytes()
    ensures Serialise(IntegerLeaf(127)) == [2 as char, 1 as char, 0x7F as char]
    ensures Serialise(IntegerLeaf(128)) == [2 as char, 2 as char, 0 as char, 0x80 as char]
    ensures Serialise(IntegerLeaf(-128)) == [2 as char, 1 as char, 0x80 as char]
    ensures Serialise(IntegerLeaf(-129)) == [2 as char, 2 as char, 0xFF as char, 0x7F as char]
    ensures Serialise(Enumerated(53)) == [0x0A as char, 1 as char, 0x35 as char]
    ensures Serialise(TrueLeaf()) == [1 as char, 1 as char, 1 as char]
  {
    assert Signed(128) == Signed(0) + [0x80 as char] && Signed(-129) == Signed(-1) + [0x7F as char];
  }

  lemma LengthBytes()
    ensures Length(127) == [0x7F as char] && Length(128) == [0x81 as char, 0x80 as char]
    ensures Length(256) == [0x82 as char, 1 as char, 0 as char]
  {
    assert Unsigned(256) == Unsigned(1) + [0 as char];
  }

  /** Lengths that are not lengths: indefinite, reserved, too long, and cut short. */
  lemma OddLengths(rest: string)
    ensures LengthOf([0x80 as char] + rest) == Ok((-1, 1)) && LengthOf([0xFF as char] + rest) == Err(Other)
    ensures LengthOf([0x89 as char] + rest) == Err(Other)
    ensures LengthOf("") == Panic && (rest == "" ==> LengthOf([0x81 as char] + rest) == Panic)
  {
  }

  lemma CutLength(n: nat, k: nat)
    requires 127 < n < TWO_63 && k < |Length(n)|
    ensures LengthOf(Length(n)[..k]) == Panic
  {
    assert Pow256(8) == TWO_64;
    UnsignedLength(n, 8);
  }

  lemma CutHeader(p: Packet, k: nat)
    requires |p.data| < TWO_63 && 0 < k <= |Length(|p.data|)|
    ensures !Split(Serialise(p)[..k]).Ok?
  {
    var n, s := |p.data|, Serialise(p)[..k];
    assert s[1..] == Length(n)[..k - 1];
    if n <= 127 {
      assert s[1..] == "";
    } else {
      CutLength(n, k - 1);
    }
  }

  lemma CutContent(p: Packet, k: nat)
    requires |p.data| < TWO_63 && |Length(|p.data|)| < k < |Serialise(p)|
    ensures !Split(Serialise(p)[..k]).Ok?
  {
    var n, s := |p.data|, Serialise(p)[..k];
    var l := Length(n);
    assert s[1..] == l + p.data[..k - 1 - |l|];
    LengthOfInverts(n, p.data[..k - 1 - |l|]);
  }

  /** No proper prefix of a packet's bytes reads as a packet, so a reader knows where a packet ends. */
  lemma NoPacketInPrefix(p: Packet, k: nat)
    requires |p.data| < TWO_63 && k < |Serialise(p)|
    ensures !ReadPacket(Serialise(p)[..k]).Ok?
  {
    if 0 < k <= |Length(|p.data|)| {
      CutHeader(p, k);
    } else if k > 0 {
      CutContent(p, k);
    }
  }

  /** Two's complement, as the weight of the sign bit: what the reader computes of any content octets. */
  lemma {:induction false} TwosComplement(s: string)
    requires s != []
    ensures FromSigned(s) == FromUnsigned(s) - (if s[0] as int >= 128 then Pow256(|s|) else 0)
  {
    if |s| == 1 {
      assert FromUnsigned(s[..0]) == 0 && Pow256(1) == 256 * Pow256(0);
    } else {
      TwosComplement(s[..|s| - 1]);
    }
  }

  // ---------- control types ----------

  lemma ControlTypes(c: Control)
    ensures EncodeControl(c).children[0].data ==
            match c
            case ControlString(t, _, _) => t
            case ManageDsaIT(_) => "2.16.840.1.113730.3.4.2"
            case Paging(_, _) => "1.2.840.113556.1.4.319"
            case Behera(_, _, _, _) => "1.3.6.1.4.1.42.2.27.8.5.1"
            case VChuMustChange(_) => "2.16.840.1.113730.3.4.4"
            case VChuWarning(_) => "2.16.840.1.113730.3.4.5"
            case MsNotification => "1.2.840.113556.1.4.528"
            case MsShowDeleted => "1.2.840.113556.1.4.417"
            case MsServerLinkTTL => "1.2.840.113556.1.4.2309"
  {
  }
}
