/**
 BER packets as values: what ber.Packet holds, the bytes a packet stands for (section 8.1
 of ITU-T X.690, definite length), and what reading those bytes back gives.
 */
module Ber {
  import opened Go
  import opened Octets

  datatype Class = Universal | Application | Context | Private

  datatype Kind = Primitive | Constructed

  /** Tag numbers of the one-byte identifier form. */
  type Tag = t: nat | t < 31

  const EOC: Tag := 0
  const BOOLEAN: Tag := 1
  const INTEGER: Tag := 2
  const OCTET_STRING: Tag := 4
  const ENUMERATED: Tag := 10
  const SEQUENCE: Tag := 16
  const SET: Tag := 17
  const GENERAL_STRING: Tag := 27

  /** The dynamic type and value of a packet's Value field. */
  datatype Value =
    | Nil
    | Bool(b: bool)
    | Int(i: int64)
    | Int8(e: int8)
    | Str(s: string)
    | Raw(bytes: string)

  datatype Packet = Packet(cls: Class, kind: Kind, tag: Tag, value: Value, data: string, children: seq<Packet>)

  // ---------- building ----------

  /** ber.Encode without a value. */
  function Encode(cls: Class, kind: Kind, tag: Tag): Packet {
    Packet(cls, kind, tag, Nil, "", [])
  }

  function NewString(cls: Class, kind: Kind, tag: Tag, s: string): Packet {
    Packet(cls, kind, tag, Str(s), s, [])
  }

  function NewInteger(cls: Class, kind: Kind, tag: Tag, i: int64): Packet {
    Packet(cls, kind, tag, Int(i), Signed(i), [])
  }

  function NewBoolean(cls: Class, kind: Kind, tag: Tag, b: bool): Packet {
    Packet(cls, kind, tag, Bool(b), Signed(if b then 1 else 0), [])
  }

  function AppendChild(p: Packet, child: Packet): Packet {
    p.(data := p.data + Serialise(child), children := p.children + [child])
  }

  /** A packet filled by appending `children` in order. */
  function Node(cls: Class, kind: Kind, tag: Tag, children: seq<Packet>): Packet {
    Packet(cls, kind, tag, Nil, SerialiseAll(children), children)
  }

  lemma SerialiseOne(p: Packet)
    ensures SerialiseAll([p]) == Serialise(p)
  {
    assert SerialiseAll([p][1..]) == "";
  }

  function Sequence(children: seq<Packet>): Packet {
    Node(Universal, Constructed, SEQUENCE, children)
  }

  function StringLeaf(s: string): Packet {
    NewString(Universal, Primitive, OCTET_STRING, s)
  }

  function IntegerLeaf(i: int64): Packet {
    NewInteger(Universal, Primitive, INTEGER, i)
  }

  lemma {:induction false} SerialiseAllAppend(ps: seq<Packet>, p: Packet)
    ensures SerialiseAll(ps + [p]) == SerialiseAll(ps) + Serialise(p)
  {
    if ps == [] {
      assert [p][1..] == [];
    } else {
      SerialiseAllAppend(ps[1..], p);
      assert (ps + [p])[0] == ps[0] && (ps + [p])[1..] == ps[1..] + [p];
      Associate(Serialise(ps[0]), SerialiseAll(ps[1..]), Serialise(p));
    }
  }

  /** Appending a child to a filled packet fills it with one more. */
  lemma AppendToNode(cls: Class, kind: Kind, tag: Tag, children: seq<Packet>, child: Packet)
    ensures AppendChild(Node(cls, kind, tag, children), child) == Node(cls, kind, tag, children + [child])
  {
    SerialiseAllAppend(children, child);
  }

  // ---------- the byte form ----------

  function ClassBits(cls: Class): nat {
    match cls
    case Universal => 0
    case Application => 64
    case Context => 128
    case Private => 192
  }

  function Identifier(cls: Class, kind: Kind, tag: Tag): char {
    (ClassBits(cls) + (if kind.Constructed? then 32 else 0) + tag) as char
  }

  /** Length octets: one byte up to 127, otherwise a count of bytes and then the bytes. */
  function Length(n: nat): string {
    if n <= 127 then Unsigned(n)
    else [((128 + |Unsigned(n)|) % 256) as char] + Unsigned(n)
  }

  function Serialise(p: Packet): string {
    [Identifier(p.cls, p.kind, p.tag)] + Length(|p.data|) + p.data
  }

  function SerialiseAll(ps: seq<Packet>): string {
    if ps == [] then "" else Serialise(ps[0]) + SerialiseAll(ps[1..])
  }

  // ---------- reading ----------

  /**
   The value readLength computes, with the number of bytes it used.  Lengths accumulate in
   a 64-bit word; -1 stands for the indefinite form.  Running off the end is a panic.
   */
  function LengthOf(bs: string): Outcome<(int, nat)> {
    if bs == [] then Panic
    else
      var b := bs[0] as int;
      if b == 0xFF then Err(Other)
      else if b == 0x80 then Ok((-1, 1))
      else if b < 0x80 then Ok((b, 1))
      else if b - 0x80 > 8 then Err(Other)
      else if |bs| < 1 + (b - 0x80) then Panic
      else Ok((Wrap64(FromUnsigned(bs[1..1 + (b - 0x80)])), 1 + (b - 0x80)))
  }

  lemma LongLength(bs: string, k: nat, n: nat)
    requires 1 <= k <= 8 && |bs| >= 1 + k && bs[0] as int == 128 + k
    requires FromUnsigned(bs[1..1 + k]) == n < TWO_63
    ensures LengthOf(bs) == Ok((n, 1 + k))
  {
  }

  lemma {:induction false} LengthOfInverts(n: nat, rest: string)
    requires n < TWO_63
    ensures LengthOf(Length(n) + rest) == Ok((n, |Length(n)|))
  {
    assert Pow256(8) == TWO_64;
    UnsignedLength(n, 8);
    UnsignedRoundTrip(n);
    if n > 127 {
      var (bs, bytes) := (Length(n) + rest, Unsigned(n));
      assert bs[1..1 + |bytes|] == bytes;
      LongLength(bs, |bytes|, n);
    }
  }

  /** The Value the reader gives a primitive packet; only universal tags carry one. */
  function ReadValue(cls: Class, tag: Tag, content: string): Value {
    if !cls.Universal? then Nil
    else if tag == BOOLEAN then Bool(ReadInt(content) != 0)
    else if tag == INTEGER || tag == ENUMERATED then Int(ReadInt(content))
    else if tag == OCTET_STRING then Str(content)
    else Nil
  }

  /** The reader drops ParseInt64's error and keeps its zero. */
  function ReadInt(content: string): int64 {
    match ParseInt64(content)
    case Ok(i) => i
    case Err(_) => 0
    case Panic => 0
  }

  function ReadClass(b: nat): Class {
    if b < 64 then Universal else if b < 128 then Application else if b < 192 then Context else Private
  }

  predicate IsEOC(p: Packet) {
    p.cls.Universal? && p.kind.Primitive? && p.tag == EOC && p.data == ""
  }

  /** Cuts the first packet of `s` into its identifier byte and content, and what follows it. */
  function Split(s: string): (r: Outcome<(nat, string, string)>)
    ensures r.Ok? ==> r.value.0 < 256 && r.value.0 % 32 != 31
    ensures r.Ok? ==> |r.value.1| < |s| && |r.value.2| < |s|
  {
    if s == [] || s[0] as int >= 256 || s[0] as int % 32 == 31 then Err(Other)
    else
      match LengthOf(s[1..])
      case Err(e) => Err(e)
      case Panic => Err(Other)
      case Ok((n, used)) =>
        if n < 0 || |s| < 1 + used + n then Err(Other)
        else Ok((s[0] as int, s[1 + used..1 + used + n], s[1 + used + n..]))
  }

  /** Reads one packet off the front of `s`; the second component is what is left. */
  function ReadPacket(s: string): (r: Outcome<(Packet, string)>)
    ensures r.Ok? ==> |r.value.1| < |s|
    decreases |s|, 1
  {
    var (b, content, rest) :- Split(s);
    var cls, tag: Tag := ReadClass(b), b % 32;
    if b / 32 % 2 == 0 then
      Ok((Packet(cls, Primitive, tag, ReadValue(cls, tag, content), content, []), rest))
    else
      var children :- ReadChildren(content);
      Ok((Packet(cls, Constructed, tag, Nil, SerialiseAll(children), children), rest))
  }

  function ReadChildren(s: string): Outcome<seq<Packet>>
    decreases |s|, 2
  {
    if s == [] then Ok([])
    else
      var (child, rest) :- ReadPacket(s);
      if IsEOC(child) then Err(Other)
      else
        var more :- ReadChildren(rest);
        Ok([child] + more)
  }

  /** ber.DecodePacketErr: the first packet of the buffer. */
  function DecodePacket(s: string): Outcome<Packet> {
    var (p, _) :- ReadPacket(s);
    Ok(p)
  }

  // ---------- reading back what was serialised ----------

  /** A constructed packet's data is exactly its children's bytes, all the way down. */
  ghost predicate WellFormed(p: Packet) {
    p.kind.Constructed? ==>
      && p.data == SerialiseAll(p.children)
      && forall i :: 0 <= i < |p.children| ==> WellFormed(p.children[i]) && !IsEOC(p.children[i])
  }

  lemma NodeWellFormed(cls: Class, tag: Tag, children: seq<Packet>)
    requires forall i :: 0 <= i < |children| ==> WellFormed(children[i]) && !IsEOC(children[i])
    ensures WellFormed(Node(cls, Constructed, tag, children))
  {
  }

  /** What a reader makes of the bytes of `p`. */
  function Reread(p: Packet): (q: Packet)
    ensures q.cls == p.cls && q.kind == p.kind && q.tag == p.tag && q.data == p.data
    ensures Serialise(q) == Serialise(p)
  {
    if p.kind.Primitive? then
      Packet(p.cls, p.kind, p.tag, ReadValue(p.cls, p.tag, p.data), p.data, [])
    else
      Packet(p.cls, p.kind, p.tag, Nil, p.data,
             seq(|p.children|, i requires 0 <= i < |p.children| => Reread(p.children[i])))
  }

  function RereadAll(ps: seq<Packet>): (qs: seq<Packet>)
    ensures |qs| == |ps|
  {
    seq(|ps|, i requires 0 <= i < |ps| => Reread(ps[i]))
  }

  lemma {:induction false} SerialiseRereadAll(ps: seq<Packet>)
    ensures SerialiseAll(RereadAll(ps)) == SerialiseAll(ps)
  {
    if ps != [] {
      assert RereadAll(ps)[1..] == RereadAll(ps[1..]);
      SerialiseRereadAll(ps[1..]);
    }
  }

  lemma IdentifierInverts(cls: Class, kind: Kind, tag: Tag)
    ensures var b := Identifier(cls, kind, tag) as int;
            && b < 256 && b % 32 == tag && (b / 32 % 2 == 0 <==> kind.Primitive?) && ReadClass(b) == cls
  {
  }

  lemma {:induction false} ChildData(ps: seq<Packet>, i: nat)
    requires i < |ps|
    ensures |ps[i].data| < |SerialiseAll(ps)|
  {
    if i > 0 {
      ChildData(ps[1..], i - 1);
    }
  }

  /** The bytes of a packet and what follows them, cut where the length ends and where the data ends. */
  lemma CutSerialised(p: Packet, rest: string)
    ensures var (s, used, n) := (Serialise(p) + rest, |Length(|p.data|)|, |p.data|);
            && |s| == 1 + used + n + |rest| && s[0] == Identifier(p.cls, p.kind, p.tag)
            && s[1..] == Length(n) + (p.data + rest)
            && s[1 + used..] == p.data + rest
            && s[1 + used..1 + used + n] == p.data && s[1 + used + n..] == rest
  {
    Cut(Identifier(p.cls, p.kind, p.tag), Length(|p.data|), p.data, rest);
  }

  lemma Cut(id: char, length: string, data: string, rest: string)
    ensures var (s, used, n) := ([id] + length + data + rest, |length|, |data|);
            && s[1..] == length + (data + rest)
            && s[1 + used..] == data + rest
            && s[1 + used..1 + used + n] == data && s[1 + used + n..] == rest
  {
  }

  lemma SplitSerialised(p: Packet, rest: string)
    requires |p.data| < TWO_63
    ensures Split(Serialise(p) + rest) == Ok((Identifier(p.cls, p.kind, p.tag) as int, p.data, rest))
  {
    CutSerialised(p, rest);
    LengthOfInverts(|p.data|, p.data + rest);
    IdentifierInverts(p.cls, p.kind, p.tag);
  }

  lemma {:induction false} ReadSerialised(p: Packet, rest: string)
    requires WellFormed(p) && |p.data| < TWO_63
    ensures ReadPacket(Serialise(p) + rest) == Ok((Reread(p), rest))
    decreases p, 1
  {
    var s := Serialise(p) + rest;
    SplitSerialised(p, rest);
    IdentifierInverts(p.cls, p.kind, p.tag);
    if p.kind.Constructed? {
      forall i | 0 <= i < |p.children| ensures |p.children[i].data| < TWO_63 {
        ChildData(p.children, i);
      }
      ReadAllSerialised(p.children);
      SerialiseRereadAll(p.children);
      assert ReadChildren(p.data) == Ok(RereadAll(p.children));
      assert Reread(p).children == RereadAll(p.children);
    }
  }

  lemma ReadChildrenStep(s: string, child: Packet, rest: string, more: seq<Packet>)
    requires ReadPacket(s) == Ok((child, rest)) && !IsEOC(child) && ReadChildren(rest) == Ok(more)
    ensures ReadChildren(s) == Ok([child] + more)
  {
  }

  lemma {:induction false} ReadAllSerialised(ps: seq<Packet>)
    requires forall i :: 0 <= i < |ps| ==> WellFormed(ps[i]) && !IsEOC(ps[i])
    requires forall i :: 0 <= i < |ps| ==> |ps[i].data| < TWO_63
    ensures ReadChildren(SerialiseAll(ps)) == Ok(RereadAll(ps))
    decreases ps, 0
  {
    if ps != [] {
      var rest := SerialiseAll(ps[1..]);
      ReadSerialised(ps[0], rest);
      ReadAllSerialised(ps[1..]);
      ReadChildrenStep(Serialise(ps[0]) + rest, Reread(ps[0]), rest, RereadAll(ps[1..]));
      RereadFirst(ps);
    }
  }

  lemma RereadFirst(ps: seq<Packet>)
    requires ps != []
    ensures RereadAll(ps) == [Reread(ps[0])] + RereadAll(ps[1..])
  {
  }

  lemma RereadNode(cls: Class, tag: Tag, children: seq<Packet>)
    ensures Reread(Node(cls, Constructed, tag, children)) == Node(cls, Constructed, tag, RereadAll(children))
  {
    SerialiseRereadAll(children);
  }

  lemma RereadLeaves(s: string, i: int64, b: bool)
    ensures Reread(StringLeaf(s)) == StringLeaf(s)
    ensures Reread(IntegerLeaf(i)) == IntegerLeaf(i)
    ensures Reread(NewInteger(Universal, Primitive, ENUMERATED, i)) == NewInteger(Universal, Primitive, ENUMERATED, i)
    ensures Reread(NewBoolean(Universal, Primitive, BOOLEAN, b)) == NewBoolean(Universal, Primitive, BOOLEAN, b)
  {
    ParseInt64Inverts(i);
    ParseInt64Inverts(if b then 1 else 0);
  }

  /** Serialising and reading back loses only what the bytes do not carry. */
  lemma DecodeSerialised(p: Packet)
    requires WellFormed(p) && |p.data| < TWO_63
    ensures DecodePacket(Serialise(p)) == Ok(Reread(p))
  {
    ReadSerialised(p, "");
    assert Serialise(p) + "" == Serialise(p);
  }
}
