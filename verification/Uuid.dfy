/** JACK uuids: generation, decimal printing, and parsing. */
module Uuid {
  import opened Bits

  const U32: nat := 0x1_0000_0000
  const U64: nat := 0x1_0000_0000_0000_0000
  const STRING_SIZE: nat := 37

  // ---------------------------------------------------------------------
  // Printing and scanning

  function Digit(d: nat): char
    requires d < 10
  {
    '0' + d as char
  }

  predicate IsDigit(c: char) {
    '0' <= c <= '9'
  }

  function Decimal(n: nat): string {
    if n < 10 then [Digit(n)] else Decimal(n / 10) + [Digit(n % 10)]
  }

  /** jack_uuid_unparse: snprintf keeps what fits before the terminator. */
  function Unparse(id: nat): string {
    var s := Decimal(id);
    if |s| < STRING_SIZE then s else s[..STRING_SIZE - 1]
  }

  predicate IsSpace(c: char) {
    c == ' ' || c == '\t' || c == '\n' || c == '\r' || c as int == 11 || c as int == 12
  }

  function SkipSpaces(s: string): string {
    if s != [] && IsSpace(s[0]) then SkipSpaces(s[1..]) else s
  }

  /** The number read by consuming leading digits, and how many there were. */
  function ScanDigits(s: string, acc: nat): (nat, nat) {
    if s == [] || !IsDigit(s[0]) then (acc, 0)
    else
      var (v, k) := ScanDigits(s[1..], acc * 10 + (s[0] - '0') as int);
      (v, k + 1)
  }

  datatype Scan = NoNumber | Number(value: nat)

  /** The conversion of sscanf for an unsigned 64-bit number: it skips white
      space, takes a sign, saturates, and negates modulo 2^64. */
  function ScanU64(s: string): Scan {
    var t := SkipSpaces(s);
    var signed := t != [] && (t[0] == '-' || t[0] == '+');
    var (v, k) := ScanDigits(if signed then t[1..] else t, 0);
    if k == 0 then NoNumber
    else if v >= U64 then Number(U64 - 1)
    else if signed && t[0] == '-' then Number((U64 - v) % U64)
    else Number(v)
  }

  /** The return value of jack_uuid_parse with the uuid it stores. */
  datatype Parsed = Accepted(id: nat) | Refused

  function Parse(s: string): Parsed {
    match ScanU64(s)
    case NoNumber => Refused
    case Number(v) => if v < U32 then Refused else Accepted(v)
  }

  predicate AllDigits(s: string) {
    forall i :: 0 <= i < |s| ==> IsDigit(s[i])
  }

  lemma {:induction false} ScanAppend(a: string, b: string, acc: nat)
    requires AllDigits(a)
    ensures ScanDigits(a + b, acc).0 == ScanDigits(b, ScanDigits(a, acc).0).0
    ensures ScanDigits(a + b, acc).1 == |a| + ScanDigits(b, ScanDigits(a, acc).0).1
    ensures ScanDigits(a, acc).1 == |a|
    decreases |a|
  {
    if a == [] {
      assert a + b == b;
    } else {
      assert (a + b)[1..] == a[1..] + b;
      ScanAppend(a[1..], b, acc * 10 + (a[0] - '0') as int);
    }
  }

  lemma {:induction false} DecimalDigits(n: nat)
    ensures Decimal(n) != [] && AllDigits(Decimal(n))
  {
    if n >= 10 { DecimalDigits(n / 10); }
  }

  /** Scanning a printed number, followed by anything but a digit, reads it back. */
  lemma {:induction false} ScanDecimal(n: nat, rest: string)
    requires rest == [] || !IsDigit(rest[0])
    ensures ScanDigits(Decimal(n) + rest, 0) == (n, |Decimal(n)|)
    decreases n
  {
    DecimalDigits(n);
    ScanAppend(Decimal(n), rest, 0);
    if n < 10 {
      assert Decimal(n)[1..] == [];
    } else {
      DecimalDigits(n / 10);
      ScanAppend(Decimal(n / 10), [Digit(n % 10)], 0);
      ScanDecimal(n / 10, []);
      assert Decimal(n / 10) + [] == Decimal(n / 10);
    }
  }

  function Pow10(k: nat): nat {
    if k == 0 then 1 else 10 * Pow10(k - 1)
  }

  lemma {:induction false} DecimalLength(n: nat, k: nat)
    requires k >= 1 && n < Pow10(k)
    ensures |Decimal(n)| <= k
    decreases k
  {
    if n >= 10 {
      assert k >= 2 by { assert Pow10(1) == 10 * Pow10(0); }
      DecimalLength(n / 10, k - 1);
    }
  }

  lemma TwentyDigits()
    ensures U64 <= Pow10(20)
  {
    assert Pow10(5) == 100000;
    assert Pow10(10) == 10000000000;
    assert Pow10(15) == 1000000000000000;
    assert Pow10(20) == 100000000000000000000;
  }

  lemma FirstIsDigit(n: nat)
    ensures SkipSpaces(Decimal(n)) == Decimal(n) && Decimal(n)[0] != '-' && Decimal(n)[0] != '+'
  {
    DecimalDigits(n);
    assert IsDigit(Decimal(n)[0]);
  }

  /** Printing a uuid never truncates it, and parsing what was printed gives it
      back if it has type bits, that is from 2^32 on, and refuses it otherwise. */
  lemma ParseUnparse(id: nat)
    requires id < U64
    ensures Unparse(id) == Decimal(id)
    ensures Parse(Unparse(id)) == if id >= U32 then Accepted(id) else Refused
  {
    TwentyDigits();
    hide Pow10;
    DecimalLength(id, 20);
    FirstIsDigit(id);
    ScanDecimal(id, []);
    DecimalDigits(id);
    assert Decimal(id) + [] == Decimal(id);
  }

  lemma ScanWithSign(t: string, n: nat)
    requires t != [] && IsDigit(t[0]) && ScanDigits(t, 0).0 == n < U64 && ScanDigits(t, 0).1 > 0
    ensures ScanU64(t) == ScanU64(['+'] + t) == Number(n)
    ensures ScanU64(['-'] + t) == Number(if n == 0 then 0 else U64 - n)
  {
    hide ScanDigits;
    assert (['+'] + t)[1..] == t && (['-'] + t)[1..] == t;
  }

  /** What else the conversion takes: a sign, and anything that is no digit after the
      number; `-` negates modulo 2^64. */
  lemma ScanSigned(n: nat, rest: string)
    requires n < U64 && (rest == [] || !IsDigit(rest[0]))
    ensures var t := Decimal(n) + rest;
            && ScanU64(t) == ScanU64(['+'] + t) == Number(n)
            && ScanU64(['-'] + t) == Number(if n == 0 then 0 else U64 - n)
  {
    hide Decimal, ScanDigits, ScanU64;
    DecimalDigits(n);
    ScanDecimal(n, rest);
    assert IsDigit(Decimal(n)[0]);
    ScanWithSign(Decimal(n) + rest, n);
  }

  lemma ScanSkips(c: char, s: string)
    ensures IsSpace(c) ==> ScanU64([c] + s) == ScanU64(s)
    ensures c in " \t\n\r" ==> IsSpace(c)
  {
    assert ([c] + s)[1..] == s;
  }

  /** A number too long for 64 bits saturates; no digits, no number. */
  lemma ScanLimits(n: nat, s: string)
    ensures n >= U64 ==> ScanU64(Decimal(n)) == Number(U64 - 1)
    ensures s == [] || (!IsSpace(s[0]) && !IsDigit(s[0]) && s[0] != '-' && s[0] != '+') ==> Parse(s) == Refused
  {
    FirstIsDigit(n);
    ScanDecimal(n, []);
    DecimalDigits(n);
    assert Decimal(n) + [] == Decimal(n);
  }

  // ---------------------------------------------------------------------
  // Generation

  function PortUuid(portId: nat): nat {
    BitOr(1 * U32, (portId + 1) % U32)
  }

  function ClientUuid(count: nat): nat {
    BitOr(2 * U32, count % U32)
  }

  function ToIndex(id: nat): nat {
    (BitAnd(id, 0xffffff) + U32 - 1) % U32
  }

  lemma Powers()
    ensures Pow2(24) == 0x100_0000 && Pow2(32) == U32
  {
    assert Pow2(8) == 256;
    Pow2Add(8, 8);
    Pow2Add(16, 8);
    Pow2Add(24, 8);
  }

  lemma UuidValues(n: nat)
    ensures PortUuid(n) == U32 + (n + 1) % U32
    ensures ClientUuid(n) == 2 * U32 + n % U32
  {
    Powers();
    hide BitOr, Pow2;
    OrIsAdd(1, (n + 1) % U32, 32);
    OrIsAdd(2, n % U32, 32);
  }

  lemma ToIndexValue(portId: nat)
    requires portId < U32
    ensures ToIndex(PortUuid(portId)) == ((portId + 1) % 0x100_0000 + U32 - 1) % U32
  {
    hide BitAnd, BitOr, PortUuid;
    UuidValues(portId);
    Low24(PortUuid(portId));
  }

  lemma Low24(x: nat)
    ensures BitAnd(x, 0xffffff) == x % 0x100_0000
  {
    Powers();
    hide BitAnd, Pow2;
    MaskIsMod(x, 24);
  }

  /** to_index undoes port generation exactly for ids below 2^24 - 1, and for
      the one whose increment wraps. */
  lemma ToIndexInvertsIff(portId: nat)
    requires portId < U32
    ensures ToIndex(PortUuid(portId)) == portId <==> portId < 0xffffff || portId == U32 - 1
  {
    hide ToIndex, PortUuid;
    ToIndexValue(portId);
  }

  /** For instance port 2^24 - 1 comes back as 2^32 - 1, and port 2^24 as 0. */
  lemma ToIndexConfuses(portId: nat)
    requires portId == 0xffffff
    ensures ToIndex(PortUuid(portId)) == U32 - 1
    ensures ToIndex(PortUuid(portId + 1)) == 0
  {
    hide ToIndex, PortUuid;
    ToIndexValue(portId);
    ToIndexValue(portId + 1);
  }

  /** Port and client uuids never collide. */
  lemma KindsDisjoint(portId: nat, count: nat)
    ensures PortUuid(portId) != ClientUuid(count)
  {
    hide BitOr, PortUuid, ClientUuid;
    UuidValues(portId);
    UuidValues(count);
  }

  /** Every generated uuid has type bits: printed and parsed it comes back. */
  lemma GeneratedParse(n: nat)
    ensures Parse(Unparse(PortUuid(n))) == Accepted(PortUuid(n))
    ensures Parse(Unparse(ClientUuid(n))) == Accepted(ClientUuid(n))
  {
    hide BitOr, PortUuid, ClientUuid, Parse, Unparse;
    UuidValues(n);
    ParseUnparse(PortUuid(n));
    ParseUnparse(ClientUuid(n));
  }

  /** Generated client uuids do not repeat within 2^32 calls. */
  lemma ClientsDistinct(i: nat, j: nat)
    requires i < j < i + U32
    ensures ClientUuid(i) != ClientUuid(j)
  {
    UuidValues(i);
    UuidValues(j);
    hide BitOr, ClientUuid;
  }

  /** The counter, and every uuid it has given out. */
  class ClientUuids {
    var count: nat
    ghost var issued: seq<nat>

    ghost predicate Valid()
      reads this
    {
      && count == |issued| % U32
      && forall i :: 0 <= i < |issued| ==> issued[i] == ClientUuid(i + 1)
    }

    constructor ()
      ensures Valid() && issued == []
    {
      count, issued := 0, [];
    }

    /** jack_client_uuid_generate: a uuid that none of the 2^32 - 1 calls before
        gave out, no port has, and that survives printing and parsing. */
    method Generate() returns (id: nat)
      requires Valid()
      modifies this
      ensures Valid() && issued == old(issued) + [id]
      ensures forall i :: 0 <= i < |old(issued)| < i + U32 ==> old(issued)[i] != id
      ensures forall portId: nat :: id != PortUuid(portId)
      ensures Parse(Unparse(id)) == Accepted(id)
    {
      hide BitOr, PortUuid, Parse, Unparse;
      var n := |issued| + 1;
      count := (count + 1) % U32;
      id := BitOr(2 * U32, count);
      assert id == ClientUuid(n);
      GeneratedParse(n);
      forall portId: nat ensures id != PortUuid(portId) { KindsDisjoint(portId, n); }
      forall i | 0 <= i < |issued| < i + U32 ensures issued[i] != id {
        if i + 1 < n { ClientsDistinct(i + 1, n); }
      }
      issued := issued + [id];
    }
  }
}
