/** Security identifiers: their binary form and their text. */
module Sid {
  import opened Go
  import opened Octets

  predicate IsBytes(b: string) {
    forall i :: 0 <= i < |b| ==> b[i] as int < 256
  }

  /** A big-endian 16-bit number. */
  function Big16(hi: char, lo: char): nat {
    hi as int * 0x100 + lo as int
  }

  /** A little-endian 32-bit number. */
  function Little32(b: string): nat
    requires |b| == 4
  {
    b[0] as int + b[1] as int * 0x100 + b[2] as int * 0x1_0000 + b[3] as int * 0x100_0000
  }

  /** Three big-endian 16-bit numbers put together. */
  function Authority(b: string): nat
    requires |b| == 6
  {
    Big16(b[0], b[1]) * 0x1_0000_0000 + Big16(b[2], b[3]) * 0x1_0000 + Big16(b[4], b[5])
  }

  /** So many little-endian 32-bit numbers. */
  function SubAuthorities(b: string, count: nat): (subs: seq<nat>)
    requires |b| >= 4 * count
    ensures |subs| == count
  {
    if count == 0 then [] else [Little32(b[..4])] + SubAuthorities(b[4..], count - 1)
  }

  function Dashed(ns: seq<nat>): string {
    if ns == [] then "" else "-" + Decimal(ns[0]) + Dashed(ns[1..])
  }

  predicate Complete(b: string) {
    |b| >= 8 && |b| >= 8 + 4 * b[1] as int
  }

  /** Revision, authority and sub-authorities. */
  function Numbers(b: string): seq<nat>
    requires Complete(b)
  {
    [b[0] as int, Authority(b[2..8])] + SubAuthorities(b[8..], b[1] as int)
  }

  function SidText(b: string): Outcome<string> {
    if Complete(b) then Ok("S" + Dashed(Numbers(b))) else Err(Other)
  }

  method ReadSubAuthorities(b: string, count: nat) returns (subs: seq<nat>)
    requires |b| >= 4 * count
    ensures subs == SubAuthorities(b, count)
  {
    subs := [];
    for i := 0 to count
      invariant SubAuthorities(b, count) == subs + SubAuthorities(b[4 * i..], count - i)
    {
      var rest := b[4 * i..];
      assert rest[4..] == b[4 * (i + 1)..];
      subs := subs + [Little32(rest[..4])];
    }
  }

  method Print(revision: nat, authority: nat, subs: seq<nat>) returns (result: string)
    ensures result == "S" + Dashed([revision, authority] + subs)
  {
    var head := [revision, authority];
    result := "S-" + Decimal(revision) + "-" + Decimal(authority);
    DashedTwo(revision, authority);
    assert head + subs[..0] == head;
    for i := 0 to |subs|
      invariant result == "S" + Dashed(head + subs[..i])
    {
      DashedAppend(head + subs[..i], [subs[i]]);
      assert head + subs[..i + 1] == (head + subs[..i]) + [subs[i]];
      assert Dashed([subs[i]]) == "-" + Decimal(subs[i]) + Dashed([]);
      result := result + ("-" + Decimal(subs[i]));
    }
    assert subs[..|subs|] == subs;
  }

  method SIDBytesToString(b: string) returns (r: Outcome<string>)
    ensures r == SidText(b)
  {
    if |b| < 1 {
      return Err(Other);
    }
    var revision := b[0] as int;
    if |b| < 2 {
      return Err(Other);
    }
    var count := b[1] as int;
    if |b| < 8 {
      return Err(Other);
    }
    var authority := Big16(b[2], b[3]) * 0x1_0000_0000 + Big16(b[4], b[5]) * 0x1_0000 + Big16(b[6], b[7]);
    assert authority == Authority(b[2..8]);
    if |b| < 8 + 4 * count {
      return Err(Other);
    }
    var subAuthority := ReadSubAuthorities(b[8..], count);
    var result := Print(revision, authority, subAuthority);
    return Ok(result);
  }

  // ---------- the text determines the identifier ----------

  lemma DashedTwo(a: nat, b: nat)
    ensures "S" + Dashed([a, b]) == "S-" + Decimal(a) + "-" + Decimal(b)
  {
    assert [a, b][1..] == [b] && [b][1..] == [];
    assert Dashed([b]) == "-" + Decimal(b);
  }

  lemma {:induction false} DashedAppend(ns: seq<nat>, ms: seq<nat>)
    ensures Dashed(ns + ms) == Dashed(ns) + Dashed(ms)
  {
    if ns == [] {
      assert ns + ms == ms;
    } else {
      assert (ns + ms)[1..] == ns[1..] + ms;
      DashedAppend(ns[1..], ms);
    }
  }

  /** Where a number in the text stops: at the next dash or at the end. */
  predicate Stops(s: string) {
    s == "" || s[0] == '-'
  }

  lemma FirstNumber(a: nat, x: string, b: nat, y: string)
    requires Decimal(a) + x == Decimal(b) + y && Stops(x) && Stops(y)
    ensures a == b && x == y
  {
    var (p, q) := (Decimal(a), Decimal(b));
    DecimalRoundTrip(a);
    DecimalRoundTrip(b);
    var s := p + x;
    assert |x| > 0 ==> s[|p|] == '-';
    assert |y| > 0 ==> s[|q|] == '-';
    assert forall k :: 0 <= k < |p| ==> s[k] == p[k];
    assert forall k :: 0 <= k < |q| ==> s[k] == q[k];
    assert |p| == |q|;
    assert p == s[..|p|] && q == s[..|q|];
    assert x == s[|p|..] && y == s[|q|..];
  }

  lemma {:induction false} DashedInjective(ns: seq<nat>, ms: seq<nat>)
    requires Dashed(ns) == Dashed(ms)
    ensures ns == ms
  {
    if ns != [] && ms != [] {
      assert Dashed(ns)[1..] == Decimal(ns[0]) + Dashed(ns[1..]);
      assert Dashed(ms)[1..] == Decimal(ms[0]) + Dashed(ms[1..]);
      FirstNumber(ns[0], Dashed(ns[1..]), ms[0], Dashed(ms[1..]));
      DashedInjective(ns[1..], ms[1..]);
      assert ns == [ns[0]] + ns[1..] && ms == [ms[0]] + ms[1..];
    }
  }

  lemma LastByte(x: char, a: int, y: char, b: int)
    requires x as int < 256 && y as int < 256 && x as int + 0x100 * a == y as int + 0x100 * b
    ensures x == y && a == b
  {
  }

  lemma LittleInjective(b: string, c: string)
    requires |b| == |c| == 4 && IsBytes(b) && IsBytes(c) && Little32(b) == Little32(c)
    ensures b == c
  {
    var (b2, c2) := (b[2] as int + 0x100 * b[3] as int, c[2] as int + 0x100 * c[3] as int);
    var (b1, c1) := (b[1] as int + 0x100 * b2, c[1] as int + 0x100 * c2);
    LastByte(b[0], b1, c[0], c1);
    LastByte(b[1], b2, c[1], c2);
    LastByte(b[2], b[3] as int, c[2], c[3] as int);
  }

  lemma AuthorityInjective(b: string, c: string)
    requires |b| == |c| == 6 && IsBytes(b) && IsBytes(c) && Authority(b) == Authority(c)
    ensures b == c
  {
    var (b1, c1) := (b[1] as int + 0x100 * b[0] as int, c[1] as int + 0x100 * c[0] as int);
    var (b2, c2) := (b[2] as int + 0x100 * b1, c[2] as int + 0x100 * c1);
    var (b3, c3) := (b[3] as int + 0x100 * b2, c[3] as int + 0x100 * c2);
    var (b4, c4) := (b[4] as int + 0x100 * b3, c[4] as int + 0x100 * c3);
    LastByte(b[5], b4, c[5], c4);
    LastByte(b[4], b3, c[4], c3);
    LastByte(b[3], b2, c[3], c2);
    LastByte(b[2], b1, c[2], c1);
    LastByte(b[1], b[0] as int, c[1], c[0] as int);
  }

  lemma {:induction false} SubAuthoritiesInjective(b: string, c: string, count: nat)
    requires |b| == |c| == 4 * count && IsBytes(b) && IsBytes(c)
    requires SubAuthorities(b, count) == SubAuthorities(c, count)
    ensures b == c
    decreases count
  {
    if count > 0 {
      var (x, y) := (SubAuthorities(b, count), SubAuthorities(c, count));
      assert x[0] == y[0] && x[1..] == y[1..];
      LittleInjective(b[..4], c[..4]);
      SubAuthoritiesInjective(b[4..], c[4..], count - 1);
      assert b == b[..4] + b[4..] && c == c[..4] + c[4..];
    }
  }

  /** Of exactly the length its count calls for. */
  predicate Exact(b: string) {
    IsBytes(b) && Complete(b) && |b| == 8 + 4 * b[1] as int
  }

  /** Two identifiers of exact length that print alike are alike. */
  lemma SidTextInjective(b: string, c: string)
    requires Exact(b) && Exact(c) && SidText(b) == SidText(c)
    ensures b == c
  {
    var (ns, ms) := (Numbers(b), Numbers(c));
    assert ("S" + Dashed(ns))[1..] == Dashed(ns) && ("S" + Dashed(ms))[1..] == Dashed(ms);
    DashedInjective(ns, ms);
    assert ns[0] == ms[0] && ns[1] == ms[1] && ns[2..] == ms[2..];
    AuthorityInjective(b[2..8], c[2..8]);
    SubAuthoritiesInjective(b[8..], c[8..], b[1] as int);
    assert b == [b[0], b[1]] + b[2..8] + b[8..] && c == [c[0], c[1]] + c[2..8] + c[8..];
  }

  lemma {:induction false} SubAuthoritiesPrefix(b: string, extra: string, count: nat)
    requires |b| >= 4 * count
    ensures SubAuthorities(b + extra, count) == SubAuthorities(b, count)
    decreases count
  {
    if count > 0 {
      assert (b + extra)[..4] == b[..4] && (b + extra)[4..] == b[4..] + extra;
      SubAuthoritiesPrefix(b[4..], extra, count - 1);
    }
  }

  /** Without the exact length they need not be: bytes past the last sub-authority are not printed. */
  lemma TrailingBytesIgnored(b: string, extra: string)
    requires Complete(b)
    ensures SidText(b + extra) == SidText(b)
  {
    assert (b + extra)[2..8] == b[2..8] && (b + extra)[8..] == b[8..] + extra;
    SubAuthoritiesPrefix(b[8..], extra, b[1] as int);
  }

  // ---------- making an identifier ----------

  method SIDBytes(revision: uint8, identifierAuthority: uint16) returns (b: string)
    ensures Exact(b) && SidText(b) == Ok("S-" + Decimal(revision) + "-" + Decimal(identifierAuthority))
  {
    b := [revision as char];
    b := b + [0 as char];
    var parts := [0, 0, identifierAuthority];
    b := b + [(parts[0] / 0x100) as char, (parts[0] % 0x100) as char];
    b := b + [(parts[1] / 0x100) as char, (parts[1] % 0x100) as char];
    b := b + [(parts[2] / 0x100) as char, (parts[2] % 0x100) as char];
    assert |b| == 8 && b[0] as int == revision && b[1] as int == 0;
    assert Authority(b[2..8]) == identifierAuthority;
    assert Numbers(b) == [revision, identifierAuthority];
    DashedTwo(revision, identifierAuthority);
  }

  // ---------- every identifier, from its numbers ----------

  function Byte(n: nat): char
    requires n < 256
  {
    n as char
  }

  /** Least significant byte first. */
  function LittleBytes(n: uint32): (b: string)
    ensures |b| == 4
  {
    [Byte(n % 256), Byte(n / 256 % 256), Byte(n / 0x1_0000 % 256), Byte(n / 0x100_0000)]
  }

  /** Most significant byte first. */
  function BigBytes(n: nat): (b: string)
    requires n < 0x1_0000_0000_0000
    ensures |b| == 6
  {
    [Byte(n / 0x100_0000_0000), Byte(n / 0x1_0000_0000 % 256), Byte(n / 0x100_0000 % 256),
     Byte(n / 0x1_0000 % 256), Byte(n / 0x100 % 256), Byte(n % 256)]
  }

  function AllLittleBytes(ns: seq<uint32>): (b: string)
    ensures |b| == 4 * |ns|
  {
    if ns == [] then "" else LittleBytes(ns[0]) + AllLittleBytes(ns[1..])
  }

  /** The identifier with these numbers in its fields. */
  function SidOf(revision: uint8, authority: nat, subs: seq<uint32>): string
    requires authority < 0x1_0000_0000_0000 && |subs| < 256
  {
    [Byte(revision), Byte(|subs|)] + BigBytes(authority) + AllLittleBytes(subs)
  }

  /** The numbers, each after a dash. */
  function Listed(ns: seq<nat>): string {
    if ns == [] then "" else Listed(ns[..|ns| - 1]) + "-" + Decimal(ns[|ns| - 1])
  }

  lemma LittleBytesRead(n: uint32)
    ensures Little32(LittleBytes(n)) == n
  {
    var n1, n2 := n / 256, n / 0x1_0000;
    assert n == 256 * n1 + n % 256;
    assert n2 == n1 / 256 && n1 == 256 * n2 + n1 % 256;
    assert n / 0x100_0000 == n2 / 256 && n2 == 256 * (n2 / 256) + n2 % 256;
  }

  lemma BigBytesRead(n: nat)
    requires n < 0x1_0000_0000_0000
    ensures Authority(BigBytes(n)) == n
  {
    var n1, n2, n3, n4 := n / 0x100, n / 0x1_0000, n / 0x100_0000, n / 0x1_0000_0000;
    assert n == 256 * n1 + n % 256;
    assert n2 == n1 / 256 && n1 == 256 * n2 + n1 % 256;
    assert n3 == n2 / 256 && n2 == 256 * n3 + n2 % 256;
    assert n4 == n3 / 256 && n3 == 256 * n4 + n3 % 256;
    assert n / 0x100_0000_0000 == n4 / 256 && n4 == 256 * (n4 / 256) + n4 % 256;
  }

  lemma {:induction false} AllLittleBytesRead(ns: seq<uint32>)
    ensures SubAuthorities(AllLittleBytes(ns), |ns|) == ns
  {
    if ns != [] {
      var b := AllLittleBytes(ns);
      LittleBytesRead(ns[0]);
      AllLittleBytesRead(ns[1..]);
      assert b[..4] == LittleBytes(ns[0]) && b[4..] == AllLittleBytes(ns[1..]);
    }
  }

  lemma {:induction false} ListedIsDashed(ns: seq<nat>)
    ensures Listed(ns) == Dashed(ns)
  {
    if ns != [] {
      var front, last := ns[..|ns| - 1], ns[|ns| - 1];
      ListedIsDashed(front);
      DashedAppend(front, [last]);
      assert Dashed([last]) == "-" + Decimal(last) + Dashed([]);
      assert front + [last] == ns;
    }
  }

  lemma SidOfNumbers(revision: uint8, authority: nat, subs: seq<uint32>)
    requires authority < 0x1_0000_0000_0000 && |subs| < 256
    ensures var b := SidOf(revision, authority, subs); Exact(b) && Numbers(b) == [revision, authority] + subs
  {
    var b := SidOf(revision, authority, subs);
    BytesOfAll(subs);
    assert b[2..8] == BigBytes(authority) && b[8..] == AllLittleBytes(subs);
    BigBytesRead(authority);
    AllLittleBytesRead(subs);
  }

  lemma {:induction false} BytesOfAll(ns: seq<uint32>)
    ensures IsBytes(AllLittleBytes(ns))
  {
    if ns != [] {
      BytesOfAll(ns[1..]);
    }
  }

  /**
   Every revision, 48-bit authority and up to 255 32-bit sub-authorities print as S-R-A-S1-S2-..., from
   the bytes that hold the authority most significant byte first and the others least significant first.
   */
  lemma SidPrints(revision: uint8, authority: nat, subs: seq<uint32>)
    requires authority < 0x1_0000_0000_0000 && |subs| < 256
    ensures SidText(SidOf(revision, authority, subs))
         == Ok("S-" + Decimal(revision) + "-" + Decimal(authority) + Listed(subs))
  {
    SidOfNumbers(revision, authority, subs);
    TextOfNumbers(revision, authority, subs);
  }

  lemma TextOfNumbers(revision: nat, authority: nat, subs: seq<nat>)
    ensures "S" + Dashed([revision, authority] + subs) == "S-" + Decimal(revision) + "-" + Decimal(authority) + Listed(subs)
  {
    DashedTwo(revision, authority);
    ListedIsDashed(subs);
    DashedAppend([revision, authority], subs);
    Associate("S", Dashed([revision, authority]), Dashed(subs));
  }

  /** And every identifier of exact length is one of those. */
  lemma EverySidPrints(b: string) returns (revision: uint8, authority: nat, subs: seq<uint32>)
    requires Exact(b)
    ensures authority < 0x1_0000_0000_0000 && |subs| < 256 && b == SidOf(revision, authority, subs)
  {
    revision, authority := b[0] as int, Authority(b[2..8]);
    var count := b[1] as int;
    SubAuthoritiesFit(b[8..], count);
    subs := SubAuthorities(b[8..], count);
    SidOfNumbers(revision, authority, subs);
    SidTextInjective(b, SidOf(revision, authority, subs));
  }

  lemma {:induction false} SubAuthoritiesFit(b: string, count: nat)
    requires |b| >= 4 * count && IsBytes(b)
    ensures forall i :: 0 <= i < count ==> SubAuthorities(b, count)[i] < 0x1_0000_0000
    decreases count
  {
    if count > 0 {
      SubAuthoritiesFit(b[4..], count - 1);
    }
  }

  const DOMAIN_SID: string :=
    [1 as char, 1 as char, 0 as char, 0 as char, 0 as char, 0 as char, 0 as char, 5 as char,
     0x15 as char, 0 as char, 0 as char, 0 as char]

  lemma WellKnownBytes()
    ensures SidOf(1, 5, [21]) == DOMAIN_SID
  {
    assert [21][1..] == [] && AllLittleBytes([21]) == LittleBytes(21) + "" == LittleBytes(21);
  }

  lemma WellKnownText()
    ensures "S-" + Decimal(1) + "-" + Decimal(5) + Listed([21]) == "S-1-5-21"
  {
    assert Decimal(21) == Decimal(2) + "1" == "21";
    assert [21][..0] == [] && Listed([21]) == "" + "-" + Decimal(21) == "-21";
  }

  /** The bytes 01 01 00 00 00 00 00 05 15 00 00 00 are S-1-5-21. */
  lemma WellKnownSid()
    ensures SidText(DOMAIN_SID) == Ok("S-1-5-21")
  {
    WellKnownBytes();
    WellKnownText();
    SidPrints(1, 5, [21]);
  }
}
