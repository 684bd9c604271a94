/** Base64 with the URL-safe alphabet and no padding, decoded strictly: no other character, no
    impossible length, no stray bits in the last one. */
module Base64Url {
  import opened ByteStrings
  import opened Results

  type Sextet = v: nat | v < 64

  function Digit(v: Sextet): char {
    if v < 26 then 'A' + v as char
    else if v < 52 then 'a' + (v - 26) as char
    else if v < 62 then '0' + (v - 52) as char
    else if v == 62 then '-' else '_'
  }

  function Value(c: char): Option<Sextet> {
    if 'A' <= c <= 'Z' then Some(c as int - 'A' as int)
    else if 'a' <= c <= 'z' then Some(c as int - 'a' as int + 26)
    else if '0' <= c <= '9' then Some(c as int - '0' as int + 52)
    else if c == '-' then Some(62)
    else if c == '_' then Some(63)
    else None
  }

  lemma DigitValue(v: Sextet)
    ensures Value(Digit(v)) == Some(v) && Digit(v) != '.'
  {}

  /** Three bytes as four sextets; a tail of one or two bytes as two or three. */
  function Sextets(b: Bytes): (s: seq<Sextet>)
    ensures |s| == (4 * |b| + 2) / 3
  {
    if b == [] then []
    else if |b| == 1 then [b[0] / 4, b[0] % 4 * 16]
    else if |b| == 2 then [b[0] / 4, b[0] % 4 * 16 + b[1] / 16, b[1] % 16 * 4]
    else [b[0] / 4, b[0] % 4 * 16 + b[1] / 16, b[1] % 16 * 4 + b[2] / 64, b[2] % 64] + Sextets(b[3..])
  }

  // The bytes a group of sextets carries.
  function First(x: Sextet, y: Sextet): Byte { (x as int) * 4 + y as int / 16 }
  function Second(y: Sextet, z: Sextet): Byte { (y as int) % 16 * 16 + z as int / 4 }
  function Third(z: Sextet, w: Sextet): Byte { (z as int) % 4 * 64 + w as int }

  function Octets(s: seq<Sextet>): Option<Bytes> {
    if s == [] then Some([])
    else if |s| == 1 then None
    else if |s| == 2 then (if s[1] % 16 != 0 then None else Some([First(s[0], s[1])]))
    else if |s| == 3 then (if s[2] % 4 != 0 then None else Some([First(s[0], s[1]), Second(s[1], s[2])]))
    else
      var rest := Octets(s[4..]);
      if rest.None? then None
      else Some([First(s[0], s[1]), Second(s[1], s[2]), Third(s[2], s[3])] + rest.value)
  }

  lemma Group(x: Byte, y: Byte, z: Byte)
    ensures First(x / 4, x % 4 * 16 + y / 16) == x
    ensures Second(x % 4 * 16 + y / 16, y % 16 * 4 + z / 64) == y
    ensures Third(y % 16 * 4 + z / 64, z % 64) == z
  {}

  lemma {:induction false} OctetsSextets(b: Bytes)
    ensures Octets(Sextets(b)) == Some(b)
  {
    if |b| >= 3 {
      OctetsSextets(b[3..]);
      OctetsGroup(b);
    } else {
      OctetsTail(b);
    }
  }

  lemma {:induction false} OctetsGroup(b: Bytes)
    requires |b| >= 3 && Octets(Sextets(b[3..])) == Some(b[3..])
    ensures Octets(Sextets(b)) == Some(b)
  {
    Group(b[0], b[1], b[2]);
    assert Sextets(b)[4..] == Sextets(b[3..]);
    assert b == [b[0], b[1], b[2]] + b[3..];
  }

  lemma {:induction false} OctetsTail(b: Bytes)
    requires |b| < 3
    ensures Octets(Sextets(b)) == Some(b)
  {
    if |b| == 2 {
      assert b == [b[0], b[1]];
    } else if |b| == 1 {
      assert b == [b[0]];
    }
  }

  function Digits(s: seq<Sextet>): (t: string)
    ensures |t| == |s|
  {
    if s == [] then "" else [Digit(s[0])] + Digits(s[1..])
  }

  function Encode(b: Bytes): string { Digits(Sextets(b)) }

  function Values(t: string): Option<seq<Sextet>> {
    if t == "" then Some([])
    else if Value(t[0]).None? || Values(t[1..]).None? then None
    else Some([Value(t[0]).value] + Values(t[1..]).value)
  }

  function Decode(t: string): Option<Bytes> {
    var s := Values(t);
    if s.None? then None else Octets(s.value)
  }

  lemma ValuesCons(c: char, t: string)
    requires Value(c).Some? && Values(t).Some?
    ensures Values([c] + t) == Some([Value(c).value] + Values(t).value)
  {
    assert ([c] + t)[1..] == t;
  }

  lemma {:induction false} ValuesDigits(s: seq<Sextet>)
    ensures Values(Digits(s)) == Some(s) && '.' !in Digits(s)
  {
    if s != [] {
      ValuesDigits(s[1..]);
      DigitValue(s[0]);
      ValuesCons(Digit(s[0]), Digits(s[1..]));
      assert s == [s[0]] + s[1..];
    }
  }

  lemma DecodeEncode(b: Bytes)
    ensures Decode(Encode(b)) == Some(b)
    ensures '.' !in Encode(b) && |Encode(b)| == (4 * |b| + 2) / 3
  {
    ValuesDigits(Sextets(b));
    OctetsSextets(b);
  }

  lemma {:induction false} ValuesAt(t: string, i: nat)
    requires Values(t).Some? && i < |t|
    ensures |Values(t).value| == |t| && Value(t[i]) == Some(Values(t).value[i])
  {
    if |t| > 1 {
      ValuesAt(t[1..], if i == 0 then 0 else i - 1);
    }
  }

  /** The number whose digits in base 64 these are. */
  function FromSextets(v: seq<Sextet>): nat {
    if v == [] then 0 else FromSextets(v[..|v| - 1]) * 64 + v[|v| - 1]
  }

  lemma {:induction false} Number64(v: seq<Sextet>)
    requires 2 <= |v| <= 4
    ensures var high := v[0] as int * 64 + v[1];
      FromSextets(v) == if |v| == 2 then high else if |v| == 3 then high * 64 + v[2] else (high * 64 + v[2]) * 64 + v[3]
  {
    if |v| == 2 {
      assert v[..1][..0] == [] && FromSextets(v[..1]) == v[0];
    } else {
      Number64(v[..|v| - 1]);
    }
  }

  lemma {:induction false} Number256(b: Bytes)
    requires 1 <= |b| <= 3
    ensures var high := b[0] as int * 256;
      FromBigEndian(b) == if |b| == 1 then b[0] else if |b| == 2 then high + b[1] else (high + b[1]) * 256 + b[2]
  {
    if |b| > 1 {
      Number256(b[..|b| - 1]);
    } else {
      assert b[..0] == [];
    }
  }

  /** Group g, as in section 4 of RFC 4648: four characters are the 24-bit number of three bytes, and the last two
      or three are the number of 8 or 16 bits with zeros after them. */
  predicate CarriesGroup(v: seq<Sextet>, b: Bytes, g: nat) {
    if |b| <= 3 * g then |v| <= 4 * g
    else if |b| == 3 * g + 1 then |v| == 4 * g + 2 && FromSextets(v[4 * g..]) == FromBigEndian(b[3 * g..]) * 16
    else if |b| == 3 * g + 2 then |v| == 4 * g + 3 && FromSextets(v[4 * g..]) == FromBigEndian(b[3 * g..]) * 4
    else |v| >= 4 * g + 4 && FromSextets(v[4 * g..4 * g + 4]) == FromBigEndian(b[3 * g..3 * g + 3])
  }

  lemma FirstGroup(b: Bytes)
    ensures CarriesGroup(Sextets(b), b, 0)
  {
    if b != [] {
      var k := if |b| < 3 then |b| else 3;
      var v := Sextets(b)[..k + 1];
      assert |b| < 3 ==> Sextets(b)[0..] == v && b[0..] == b[..k];
      Number64(v);
      Number256(b[..k]);
    }
  }

  lemma {:induction false} SextetsOnBytes(b: Bytes, g: nat)
    ensures CarriesGroup(Sextets(b), b, g)
    decreases g
  {
    if |b| < 3 || g == 0 {
      FirstGroup(b);
    } else {
      SextetsOnBytes(b[3..], g - 1);
      GroupShifts(Sextets(b), b, g);
      assert Sextets(b)[4..] == Sextets(b[3..]);
    }
  }

  lemma GroupShifts(v: seq<Sextet>, b: Bytes, g: nat)
    requires g > 0 && |v| >= 4 && |b| >= 3
    ensures CarriesGroup(v[4..], b[3..], g - 1) <==> CarriesGroup(v, b, g)
  {
    if |b| > 3 * g && |v| > 4 * g {
      Shifted(v, 4, 4 * g, |v|);
      Shifted(b, 3, 3 * g, |b|);
      if |b| >= 3 * g + 3 && |v| >= 4 * g + 4 {
        Shifted(v, 4, 4 * g, 4 * g + 4);
        Shifted(b, 3, 3 * g, 3 * g + 3);
      }
    }
  }

  lemma Shifted<T>(s: seq<T>, d: nat, i: nat, j: nat)
    requires d <= i <= j <= |s|
    ensures s[d..][i - d..j - d] == s[i..j]
  {}

  /** The values of the characters of an encoding carry the bits of the bytes, group by group. */
  lemma EncodeOnBytes(b: Bytes, v: seq<Sextet>, g: nat)
    requires |v| == |Encode(b)| && forall i :: 0 <= i < |v| ==> Value(Encode(b)[i]) == Some(v[i])
    ensures CarriesGroup(v, b, g)
  {
    ValuesDigits(Sextets(b));
    forall i | 0 <= i < |v| ensures v[i] == Sextets(b)[i] {
      ValuesAt(Encode(b), i);
    }
    assert v == Sextets(b);
    SextetsOnBytes(b, g);
  }

  lemma ValueIsDigit(c: char)
    requires Value(c).Some?
    ensures Digit(Value(c).value) == c
  {}

  lemma {:induction false} DigitsOfValues(t: string)
    requires Values(t).Some?
    ensures Digits(Values(t).value) == t
  {
    if t != "" {
      DigitsOfValues(t[1..]);
      ValueIsDigit(t[0]);
      DigitsCons(Value(t[0]).value, Values(t[1..]).value);
    }
  }

  lemma DigitsCons(v: Sextet, s: seq<Sextet>)
    ensures Digits([v] + s) == [Digit(v)] + Digits(s)
  {
    assert ([v] + s)[1..] == s;
  }

  lemma Ungroup(x: Sextet, y: Sextet, z: Sextet, w: Sextet)
    ensures First(x, y) / 4 == x && First(x, y) % 4 * 16 + Second(y, z) / 16 == y
    ensures Second(y, z) % 16 * 4 + Third(z, w) / 64 == z && Third(z, w) % 64 == w
    ensures z % 4 == 0 ==> Second(y, z) % 16 * 4 == z
    ensures y % 16 == 0 ==> First(x, y) % 4 * 16 == y
  {}

  lemma {:induction false} SextetsOfOctets(s: seq<Sextet>)
    requires Octets(s).Some?
    ensures Sextets(Octets(s).value) == s
  {
    if |s| == 2 {
      Ungroup(s[0], s[1], 0, 0);
      assert s == [s[0], s[1]];
    } else if |s| == 3 {
      Ungroup(s[0], s[1], s[2], 0);
      assert s == [s[0], s[1], s[2]];
    } else if |s| > 3 {
      SextetsOfOctets(s[4..]);
      Ungroup(s[0], s[1], s[2], s[3]);
      SextetsCons(First(s[0], s[1]), Second(s[1], s[2]), Third(s[2], s[3]), Octets(s[4..]).value);
      assert s == [s[0], s[1], s[2], s[3]] + s[4..];
    }
  }

  lemma SextetsCons(x: Byte, y: Byte, z: Byte, rest: Bytes)
    ensures Sextets([x, y, z] + rest)
         == [x / 4, x % 4 * 16 + y / 16, y % 16 * 4 + z / 64, z % 64] + Sextets(rest)
  {
    assert ([x, y, z] + rest)[3..] == rest;
  }

  /** Decoding is strict: a text decodes to a byte string only if it is that string's encoding. */
  lemma EncodeDecode(t: string)
    requires Decode(t).Some?
    ensures Encode(Decode(t).value) == t
  {
    DigitsOfValues(t);
    SextetsOfOctets(Values(t).value);
  }
}

/** Signed proof-of-work tickets (server/src/pow_ticket.rs). `mac` is HMAC-SHA256 under the server's
    ticket key, over the domain string and the payload. */
module PowTicket {
  import opened ByteStrings
  import opened Results
  import B = Base64Url

  const PREFIX: string := "v1."
  const PAYLOAD_LEN: nat := 72
  const MAX_ARGON_M_COST_KIB: nat := 64 * 1024
  const MAX_TICKET_CHARS: nat := 256

  type Mac = m: Bytes | |m| == 32 witness Zeros(32)

  datatype ArgonParams = ArgonParams(mCostKib: nat, tCost: nat, difficulty: nat)
  datatype Ticket = Ticket(
    id: Bytes, challenge: Bytes, difficulty: nat, argon: Option<ArgonParams>, issuedAtMs: nat, expiresAt: int)

  predicate ParamsOk(difficulty: nat, argon: Option<ArgonParams>) {
    && 1 <= difficulty <= 31
    && (argon.Some? ==>
          var a := argon.value;
          8 <= a.mCostKib <= MAX_ARGON_M_COST_KIB && 1 <= a.tCost <= 8 && 1 <= a.difficulty <= 16)
  }

  /** The widths of the fields in Rust. */
  predicate Fits(t: Ticket) {
    |t.id| == 16 && |t.challenge| == 32 && t.issuedAtMs < Pow256(8) &&
    -0x8000_0000_0000_0000 <= t.expiresAt < 0x8000_0000_0000_0000
  }

  function Unsigned(n: int): nat
    requires -0x8000_0000_0000_0000 <= n < 0x8000_0000_0000_0000
  {
    if n < 0 then n + 0x1_0000_0000_0000_0000 else n
  }

  function Signed(n: nat): int { if n < 0x8000_0000_0000_0000 then n else n - 0x1_0000_0000_0000_0000 }

  function ArgonOr0(argon: Option<ArgonParams>): ArgonParams { if argon.Some? then argon.value else ArgonParams(0, 0, 0) }

  function Payload(t: Ticket): (p: Bytes)
    requires Fits(t) && ParamsOk(t.difficulty, t.argon)
    ensures |p| == PAYLOAD_LEN
  {
    var a := ArgonOr0(t.argon);
    t.id + t.challenge + [t.difficulty, if t.argon.Some? then 1 else 0] + BigEndian(a.mCostKib, 4) +
    [a.tCost, a.difficulty] + BigEndian(t.issuedAtMs, 8) + BigEndian(Unsigned(t.expiresAt), 8)
  }

  function Parse(p: Bytes): Option<Ticket>
    requires |p| == PAYLOAD_LEN
  {
    if p[49] > 1 then None else
    var argon := if p[49] == 0 then None else Some(ArgonParams(FromBigEndian(p[50..54]), p[54], p[55]));
    if !ParamsOk(p[48], argon) then None
    else Some(Ticket(p[..16], p[16..48], p[48], argon, FromBigEndian(p[56..64]), Signed(FromBigEndian(p[64..72]))))
  }

  method Mint(mac: Bytes -> Mac, t: Ticket) returns (r: Option<string>)
    requires Fits(t)
    ensures r.Some? <==> ParamsOk(t.difficulty, t.argon)
    ensures r.Some? ==> r.value == PREFIX + B.Encode(Payload(t)) + "." + B.Encode(mac(Payload(t)))
    ensures r.Some? ==> Open(mac, r.value) == Some(t)
  {
    if !ParamsOk(t.difficulty, t.argon) {
      return None;
    }
    var p := FillPayload(t);
    r := Some(PREFIX + B.Encode(p) + "." + B.Encode(mac(p)));
    OpenMinted(mac, t);
  }

  // The vector is filled field by field.
  method FillPayload(t: Ticket) returns (p: Bytes)
    requires Fits(t) && ParamsOk(t.difficulty, t.argon)
    ensures p == Payload(t)
  {
    var a := ArgonOr0(t.argon);
    p := t.id + t.challenge;
    p := p + [t.difficulty, if t.argon.Some? then 1 else 0];
    p := p + BigEndian(a.mCostKib, 4);
    p := p + [a.tCost, a.difficulty];
    p := p + BigEndian(t.issuedAtMs, 8);
    p := p + BigEndian(Unsigned(t.expiresAt), 8);
  }

  /** The parts before and after the first dot. */
  function SplitOnce(s: string): Option<(string, string)> {
    if s == "" then None
    else if s[0] == '.' then Some(("", s[1..]))
    else var rest := SplitOnce(s[1..]);
         if rest.None? then None else Some(([s[0]] + rest.value.0, rest.value.1))
  }

  function Open(mac: Bytes -> Mac, s: string): Option<Ticket> {
    if |s| > MAX_TICKET_CHARS || !(PREFIX <= s) then None else
    var parts := SplitOnce(s[|PREFIX|..]);
    if parts.None? then None else
    var p, m := B.Decode(parts.value.0), B.Decode(parts.value.1);
    if p.None? || m.None? || |p.value| != PAYLOAD_LEN || m.value != mac(p.value) then None
    else Parse(p.value)
  }

  lemma {:induction false} SplitAtDot(a: string, b: string)
    requires '.' !in a
    ensures SplitOnce(a + "." + b) == Some((a, b))
  {
    var s := a + "." + b;
    if a == "" {
      assert s[1..] == b;
    } else {
      SplitAtDot(a[1..], b);
      assert s[1..] == a[1..] + "." + b;
      assert a == [a[0]] + a[1..];
    }
  }

  lemma Slices(t: Ticket, p: Bytes, m: Bytes, i: Bytes, e: Bytes)
    requires Fits(t) && ParamsOk(t.difficulty, t.argon) && |m| == 4 && |i| == |e| == 8
    requires var a := ArgonOr0(t.argon);
             p == t.id + t.challenge + [t.difficulty, if t.argon.Some? then 1 else 0] + m + [a.tCost, a.difficulty] + i + e
    ensures |p| == PAYLOAD_LEN && p[..16] == t.id && p[16..48] == t.challenge && p[48] == t.difficulty
    ensures p[49] == (if t.argon.Some? then 1 else 0) && p[50..54] == m
    ensures p[54] == ArgonOr0(t.argon).tCost && p[55] == ArgonOr0(t.argon).difficulty && p[56..64] == i && p[64..72] == e
  {}

  lemma ParsePayload(t: Ticket)
    requires Fits(t) && ParamsOk(t.difficulty, t.argon)
    ensures Parse(Payload(t)) == Some(t)
  {
    var a := ArgonOr0(t.argon);
    Slices(t, Payload(t), BigEndian(a.mCostKib, 4), BigEndian(t.issuedAtMs, 8), BigEndian(Unsigned(t.expiresAt), 8));
    assert Pow256(4) == 0x1_0000_0000 && Pow256(8) == 0x1_0000_0000_0000_0000;
    BigEndianRoundTrip(a.mCostKib, 4);
    BigEndianRoundTrip(t.issuedAtMs, 8);
    BigEndianRoundTrip(Unsigned(t.expiresAt), 8);
  }

  /** Opening a minted ticket returns exactly what was minted, under any MAC. */
  lemma OpenMinted(mac: Bytes -> Mac, t: Ticket)
    requires Fits(t) && ParamsOk(t.difficulty, t.argon)
    ensures Open(mac, PREFIX + B.Encode(Payload(t)) + "." + B.Encode(mac(Payload(t)))) == Some(t)
  {
    ParsePayload(t);
    OpenEncoded(mac, Payload(t));
  }

  lemma OpenEncoded(mac: Bytes -> Mac, p: Bytes)
    requires |p| == PAYLOAD_LEN
    ensures Open(mac, PREFIX + B.Encode(p) + "." + B.Encode(mac(p))) == Parse(p)
  {
    var a, b := B.Encode(p), B.Encode(mac(p));
    B.DecodeEncode(p);
    B.DecodeEncode(mac(p));
    var s := PREFIX + a + "." + b;
    assert s[|PREFIX|..] == a + "." + b;
    SplitAtDot(a, b);
  }

  lemma {:induction false} SplitOnceIs(s: string)
    requires SplitOnce(s).Some?
    ensures s == SplitOnce(s).value.0 + "." + SplitOnce(s).value.1
  {
    if s[0] != '.' {
      SplitOnceIs(s[1..]);
      assert s == [s[0]] + s[1..];
    } else {
      assert s == "." + s[1..];
    }
  }

  // ---------- what opens, exactly ----------

  /** The payload, by position, carries the fields of t, which are in range. The six bytes from 50 mean
      something only where byte 49 is 1. */
  predicate Carries(p: Bytes, t: Ticket) {
    && |p| == PAYLOAD_LEN && ParamsOk(t.difficulty, t.argon)
    && p[0..16] == t.id && p[16..48] == t.challenge && p[48] == t.difficulty
    && p[49] == (if t.argon.Some? then 1 else 0)
    && (t.argon.Some? ==> FromBigEndian(p[50..54]) == t.argon.value.mCostKib && p[54] == t.argon.value.tCost && p[55] == t.argon.value.difficulty)
    && FromBigEndian(p[56..64]) == t.issuedAtMs
    && FromBigEndian(p[64..72]) % 0x1_0000_0000_0000_0000 == t.expiresAt % 0x1_0000_0000_0000_0000
    && -0x8000_0000_0000_0000 <= t.expiresAt < 0x8000_0000_0000_0000
  }

  function Text(mac: Bytes -> Mac, p: Bytes): string { PREFIX + B.Encode(p) + "." + B.Encode(mac(p)) }

  lemma ParseIff(p: Bytes, t: Ticket)
    requires |p| == PAYLOAD_LEN
    ensures Parse(p) == Some(t) <==> Carries(p, t)
  {
    FromBigEndianBound(p[64..72]);
    assert Pow256(8) == 0x1_0000_0000_0000_0000;
    assert p[..16] == p[0..16];
  }

  lemma OpenIsText(mac: Bytes -> Mac, s: string) returns (p: Bytes)
    requires Open(mac, s).Some?
    ensures |p| == PAYLOAD_LEN && s == Text(mac, p) && Open(mac, s) == Parse(p)
  {
    var rest := s[|PREFIX|..];
    SplitOnceIs(rest);
    var a, b := SplitOnce(rest).value.0, SplitOnce(rest).value.1;
    p := B.Decode(a).value;
    B.EncodeDecode(a);
    B.EncodeDecode(b);
    assert s == PREFIX + rest;
    assert PREFIX + (a + "." + b) == PREFIX + a + "." + b;
  }

  /** A text opens to a ticket if and only if it is the prefix, the encoding of a payload that carries the
      ticket, a dot, and the encoding of that payload's own MAC. */
  lemma OpenIff(mac: Bytes -> Mac, s: string, t: Ticket)
    ensures Open(mac, s) == Some(t) <==> exists p: Bytes :: Carries(p, t) && s == PREFIX + B.Encode(p) + "." + B.Encode(mac(p))
  {
    if Open(mac, s) == Some(t) {
      var p := OpenIsText(mac, s);
      ParseIff(p, t);
    }
    if p: Bytes :| Carries(p, t) && s == PREFIX + B.Encode(p) + "." + B.Encode(mac(p)) {
      OpenEncoded(mac, p);
      ParseIff(p, t);
    }
  }

  /** The bytes from 50 to 56 of a payload without Argon2id parameters are zero. */
  predicate Canonical(p: Bytes) { |p| == PAYLOAD_LEN && (p[49] == 0 ==> p[50..56] == [0, 0, 0, 0, 0, 0]) }

  /** What mint writes: of the payloads that carry a ticket, the canonical one and no other. */
  lemma PayloadIff(p: Bytes, t: Ticket)
    requires Fits(t) && ParamsOk(t.difficulty, t.argon)
    ensures p == Payload(t) <==> Carries(p, t) && Canonical(p)
  {
    PayloadCarries(t);
    if Carries(p, t) && Canonical(p) {
      SamePayload(p, Payload(t), t);
    }
  }

  lemma PayloadCarries(t: Ticket)
    requires Fits(t) && ParamsOk(t.difficulty, t.argon)
    ensures Carries(Payload(t), t) && Canonical(Payload(t))
  {
    var a, p := ArgonOr0(t.argon), Payload(t);
    ParsePayload(t);
    ParseIff(p, t);
    Slices(t, p, BigEndian(a.mCostKib, 4), BigEndian(t.issuedAtMs, 8), BigEndian(Unsigned(t.expiresAt), 8));
    if t.argon.None? {
      ZeroBytes();
      assert p[50..56] == p[50..54] + [p[54], p[55]];
    }
  }

  lemma ZeroBytes()
    ensures BigEndian(0, 4) == [0, 0, 0, 0]
  {
    assert BigEndian(0, 0) == [];
    assert BigEndian(0, 1) == [0];
    assert BigEndian(0, 2) == [0, 0];
    assert BigEndian(0, 3) == [0, 0, 0];
  }

  lemma SamePayload(p: Bytes, q: Bytes, t: Ticket)
    requires Carries(p, t) && Carries(q, t) && Canonical(p) && Canonical(q)
    ensures p == q
  {
    SameNumber(p[56..64], q[56..64]);
    FromBigEndianBound(p[64..72]);
    FromBigEndianBound(q[64..72]);
    assert Pow256(8) == 0x1_0000_0000_0000_0000;
    SameNumber(p[64..72], q[64..72]);
    SameArgon(p, q, t);
    Pieces(p);
    Pieces(q);
  }

  lemma SameArgon(p: Bytes, q: Bytes, t: Ticket)
    requires Carries(p, t) && Carries(q, t) && Canonical(p) && Canonical(q)
    ensures p[50..56] == q[50..56]
  {
    if t.argon.Some? {
      SameNumber(p[50..54], q[50..54]);
      assert p[50..56] == p[50..54] + [p[54], p[55]] && q[50..56] == q[50..54] + [q[54], q[55]];
    }
  }

  lemma Pieces(p: Bytes)
    requires |p| == PAYLOAD_LEN
    ensures p == p[0..16] + p[16..48] + [p[48], p[49]] + p[50..56] + p[56..64] + p[64..72]
  {}

  lemma SameNumber(a: Bytes, b: Bytes)
    requires |a| == |b| && FromBigEndian(a) == FromBigEndian(b)
    ensures a == b
  {
    BigEndianInverse(a);
    BigEndianInverse(b);
  }

  /** Not every text that opens to a ticket is the one mint wrote: the code ignores six bytes of a payload
      without Argon2id parameters. Such a text needs the MAC of its own payload all the same. */
  lemma IgnoredBytes(mac: Bytes -> Mac, t: Ticket)
    requires Fits(t) && ParamsOk(t.difficulty, t.argon) && t.argon.None?
    ensures var p := Payload(t)[54 := 1];
      p != Payload(t) && Open(mac, PREFIX + B.Encode(p) + "." + B.Encode(mac(p))) == Some(t)
  {
    PayloadCarries(t);
    var q := Payload(t);
    var p := q[54 := 1];
    assert q[50..56][4] == q[54];
    assert p[0..16] == q[0..16] && p[16..48] == q[16..48] && p[56..64] == q[56..64] && p[64..72] == q[64..72];
    OpenIff(mac, PREFIX + B.Encode(p) + "." + B.Encode(mac(p)), t);
  }
}
