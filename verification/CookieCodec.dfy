/** The proxy cookie of the workbench broker (workbench-broker/server.js): base64url, the
    signed cookie text, and reading it back from a request header. */
module CookieCodec {
  import opened Prelude
  import opened Splitting

  type byte = x: int | 0 <= x < 256

  // ------------------------------------------------------------- base64

  function Symbol(d: int): char
    requires 0 <= d < 64
  {
    if d < 26 then ('A' as int + d) as char
    else if d < 52 then ('a' as int + d - 26) as char
    else if d < 62 then ('0' as int + d - 52) as char
    else if d == 62 then '+'
    else '/'
  }

  /** The digit of a symbol of the standard alphabet; -1 for any other character. */
  function Value(c: char): (d: int)
    ensures -1 <= d < 64
  {
    if 'A' <= c <= 'Z' then c as int - 'A' as int
    else if 'a' <= c <= 'z' then c as int - 'a' as int + 26
    else if '0' <= c <= '9' then c as int - '0' as int + 52
    else if c == '+' then 62
    else if c == '/' then 63
    else -1
  }

  /** `buf.toString('base64')`, with its padding. */
  function Base64(b: seq<byte>): string {
    if b == [] then ""
    else if |b| == 1 then [Symbol(b[0] / 4), Symbol(b[0] % 4 * 16)] + "=="
    else if |b| == 2 then
      [Symbol(b[0] / 4), Symbol(b[0] % 4 * 16 + b[1] / 16), Symbol(b[1] % 16 * 4)] + "="
    else
      [Symbol(b[0] / 4), Symbol(b[0] % 4 * 16 + b[1] / 16), Symbol(b[1] % 16 * 4 + b[2] / 64), Symbol(b[2] % 64)]
      + Base64(b[3..])
  }

  function Replaced(s: string, from: char, to: char): (r: string)
    ensures |r| == |s| && forall i :: 0 <= i < |s| ==> r[i] == if s[i] == from then to else s[i]
  {
    seq(|s|, i requires 0 <= i < |s| => if s[i] == from then to else s[i])
  }

  function B64Url(b: seq<byte>): string {
    StripRight(Replaced(Replaced(Base64(b), '+', '-'), '/', '_'), Pads)
  }

  predicate IsStandard(s: string) {
    |s| % 4 != 1 && forall i :: 0 <= i < |s| ==> Value(s[i]) >= 0
  }

  /** The bytes of an unpadded text over the standard alphabet. */
  function Unpadded(s: string): seq<byte>
    requires IsStandard(s)
  {
    if s == "" then []
    else
      var x := Value(s[0]) * 4 + Value(s[1]) / 16;
      if |s| == 2 then [x]
      else
        var y := Value(s[1]) % 16 * 16 + Value(s[2]) / 4;
        if |s| == 3 then [x, y]
        else [x, y, Value(s[2]) % 4 * 64 + Value(s[3])] + Unpadded(s[4..])
  }

  // --------------------------------------------- what the broker builds on

  datatype Session = Session(sub: string, domain: string, exp: int)

  /** The keyed hash, the JSON printer and parser, and what the platform does with texts the
      broker itself never makes: base64 outside the alphabet and percent sequences. */
  datatype Platform = Platform(
    hmac: string -> seq<byte>,
    stringify: Session -> seq<byte>,
    parse: seq<byte> -> Option<Session>,
    lenient: string -> seq<byte>,
    percentDecode: string -> string,
    percentEncode: string -> string)

  ghost predicate RoundTrips(p: Platform) {
    forall c :: p.parse(p.stringify(c)) == Some(c)
  }

  function B64UrlToBuf(p: Platform, s: string): seq<byte> {
    var t := Replaced(Replaced(s, '-', '+'), '_', '/');
    if IsStandard(t) then Unpadded(t) else p.lenient(t)
  }

  const LIFETIME: int := 60 * 60 * 12

  function MintProxyCookie(p: Platform, sub: string, domain: string, now: int): string {
    var body := B64Url(p.stringify(Session(sub, domain, now + LIFETIME)));
    body + "." + B64Url(p.hmac(body))
  }

  /** `null` and the empty text are both refused. */
  function VerifyProxyCookie(p: Platform, raw: Option<string>, now: int): Option<Session> {
    if raw.None? || raw.value == "" || '.' !in raw.value then None
    else
      var pieces := Split(raw.value, '.');
      DotSplitsInTwo(raw.value);
      var body, sig := pieces[0], pieces[1];
      if p.hmac(body) != B64UrlToBuf(p, sig) then None
      else
        var c := p.parse(B64UrlToBuf(p, body));
        if c.None? || c.value.exp < now then None else c
  }

  /** `encodeURIComponent` leaves these alone. */
  predicate IsUnreserved(c: char) {
    'A' <= c <= 'Z' || 'a' <= c <= 'z' || '0' <= c <= '9' || c in "-_.!~*'()"
  }

  function EncodeUri(p: Platform, s: string): string {
    if forall i :: 0 <= i < |s| ==> IsUnreserved(s[i]) then s else p.percentEncode(s)
  }

  function DecodeUri(p: Platform, s: string): string {
    if '%' !in s then s else p.percentDecode(s)
  }

  function CookieName(part: string): string {
    Split(Trim(part), '=')[0]
  }

  function FirstCookie(p: Platform, parts: seq<string>, name: string): Option<string> {
    if parts == [] then None
    else if CookieName(parts[0]) == name then Some(DecodeUri(p, Join(Split(Trim(parts[0]), '=')[1..], '=')))
    else FirstCookie(p, parts[1..], name)
  }

  function ReadCookie(p: Platform, header: Option<string>, name: string): Option<string> {
    if header.None? || header.value == "" then None else FirstCookie(p, Split(header.value, ';'), name)
  }

  lemma DotSplitsInTwo(s: string)
    requires '.' in s
    ensures |Split(s, '.')| >= 2
  {
    if |Split(s, '.')| == 1 {
      JoinSplit(s, '.');
    }
  }

  // ---------------------------------------------- base64url round trip

  predicate IsUrlSymbol(c: char) {
    'A' <= c <= 'Z' || 'a' <= c <= 'z' || '0' <= c <= '9' || c == '-' || c == '_'
  }

  /** The encoding without its padding. */
  function Digits(b: seq<byte>): (r: string)
    ensures |r| == (4 * |b| + 2) / 3
  {
    if b == [] then ""
    else if |b| == 1 then [Symbol(b[0] / 4), Symbol(b[0] % 4 * 16)]
    else if |b| == 2 then [Symbol(b[0] / 4), Symbol(b[0] % 4 * 16 + b[1] / 16), Symbol(b[1] % 16 * 4)]
    else
      [Symbol(b[0] / 4), Symbol(b[0] % 4 * 16 + b[1] / 16), Symbol(b[1] % 16 * 4 + b[2] / 64), Symbol(b[2] % 64)]
      + Digits(b[3..])
  }

  lemma SymbolValue(d: int)
    requires 0 <= d < 64
    ensures Value(Symbol(d)) == d && Symbol(d) != '='
  {
  }

  lemma CapitalAt(d: int)
    requires 0 <= d < 26
    ensures |CAPITALS| == 26 && Symbol(d) == CAPITALS[d]
  {
  }

  lemma SmallAt(d: int)
    requires 0 <= d < 26
    ensures |SMALLS| == 26 && Symbol(26 + d) == SMALLS[d]
  {
  }

  lemma FigureAt(d: int)
    requires 0 <= d < 10
    ensures |FIGURES| == 10 && Symbol(52 + d) == FIGURES[d]
  {
  }

  /** The standard alphabet: capital letters, small letters, figures, and two signs. */
  lemma SymbolsAreSpelt(d: int)
    requires 0 <= d < 64
    ensures Symbol(d) == (CAPITALS + SMALLS + FIGURES + "+/")[d]
  {
    if d < 26 {
      CapitalAt(d);
    } else if d < 52 {
      SmallAt(d - 26);
    } else if d < 62 {
      FigureAt(d - 52);
    }
  }

  // ------------------------------------------------ digits as a number

  /** The number that bytes stand for, most significant first, after `high`. */
  function BytesNumber(high: nat, b: seq<byte>): nat
    decreases |b|
  {
    if b == [] then high else BytesNumber(high * 256 + b[0], b[1..])
  }

  /** The number that symbols stand for in base 64, most significant first, after `high`. */
  function SymbolsNumber(high: nat, s: string): nat
    requires forall i :: 0 <= i < |s| ==> Value(s[i]) >= 0
    decreases |s|
  {
    if s == "" then high else SymbolsNumber(high * 64 + Value(s[0]), s[1..])
  }

  lemma {:induction false} DigitsAreStandard(b: seq<byte>)
    ensures forall i :: 0 <= i < |Digits(b)| ==> Value(Digits(b)[i]) >= 0
    ensures IsStandard(Digits(b))
  {
    if |b| >= 3 {
      DigitsAreStandard(b[3..]);
    }
  }

  lemma OneByteRoundTrip(x: byte)
    ensures var s := [Symbol(x / 4), Symbol(x % 4 * 16)]; IsStandard(s) && Unpadded(s) == [x]
  {
    SymbolValue(x / 4);
    SymbolValue(x % 4 * 16);
    assert x / 4 * 4 + x % 4 * 16 / 16 == x;
  }

  lemma TwoBytesRoundTrip(x: byte, y: byte)
    ensures var s := [Symbol(x / 4), Symbol(x % 4 * 16 + y / 16), Symbol(y % 16 * 4)];
      IsStandard(s) && Unpadded(s) == [x, y]
  {
    var d1, d2 := x % 4 * 16 + y / 16, y % 16 * 4;
    SymbolValue(x / 4);
    SymbolValue(d1);
    SymbolValue(d2);
    assert x / 4 * 4 + d1 / 16 == x && d1 % 16 * 16 + d2 / 4 == y;
  }

  lemma GroupRoundTrip(x: byte, y: byte, z: byte, rest: string)
    requires IsStandard(rest)
    ensures var s := [Symbol(x / 4), Symbol(x % 4 * 16 + y / 16), Symbol(y % 16 * 4 + z / 64), Symbol(z % 64)] + rest;
      IsStandard(s) && Unpadded(s) == [x, y, z] + Unpadded(rest)
  {
    var d0, d1, d2, d3 := x / 4, x % 4 * 16 + y / 16, y % 16 * 4 + z / 64, z % 64;
    SymbolValue(d0);
    SymbolValue(d1);
    SymbolValue(d2);
    SymbolValue(d3);
    var s := [Symbol(d0), Symbol(d1), Symbol(d2), Symbol(d3)] + rest;
    assert s[4..] == rest;
    assert forall i :: 4 <= i < |s| ==> s[i] == rest[i - 4];
    assert d0 * 4 + d1 / 16 == x && d1 % 16 * 16 + d2 / 4 == y && d2 % 4 * 64 + d3 == z;
  }

  lemma {:induction false} UnpaddedDigits(b: seq<byte>)
    ensures IsStandard(Digits(b)) && Unpadded(Digits(b)) == b
  {
    if |b| == 1 {
      OneByteRoundTrip(b[0]);
    } else if |b| == 2 {
      TwoBytesRoundTrip(b[0], b[1]);
    } else if |b| >= 3 {
      UnpaddedDigits(b[3..]);
      GroupRoundTrip(b[0], b[1], b[2], Digits(b[3..]));
      assert b == [b[0], b[1], b[2]] + b[3..];
    }
  }

  lemma GroupNumber(high: nat, x: byte, y: byte, z: byte, next: nat)
    requires next == ((high * 256 + x) * 256 + y) * 256 + z
    ensures (((high * 64 + x / 4) * 64 + (x % 4 * 16 + y / 16)) * 64 + (y % 16 * 4 + z / 64)) * 64 + z % 64 == next
  {
  }

  predicate AreSymbols(s: string) {
    forall i :: 0 <= i < |s| ==> Value(s[i]) >= 0
  }

  lemma OneSymbol(high: nat, d: int, rest: string)
    requires 0 <= d < 64 && AreSymbols(rest)
    ensures AreSymbols([Symbol(d)] + rest)
    ensures SymbolsNumber(high, [Symbol(d)] + rest) == SymbolsNumber(high * 64 + d, rest)
  {
    SymbolValue(d);
    assert ([Symbol(d)] + rest)[1..] == rest;
  }

  lemma TwoSymbols(high: nat, d0: int, d1: int, rest: string)
    requires 0 <= d0 < 64 && 0 <= d1 < 64 && AreSymbols(rest)
    ensures var s := [Symbol(d0), Symbol(d1)] + rest;
      AreSymbols(s) && SymbolsNumber(high, s) == SymbolsNumber((high * 64 + d0) * 64 + d1, rest)
  {
    OneSymbol(high * 64 + d0, d1, rest);
    OneSymbol(high, d0, [Symbol(d1)] + rest);
    assert [Symbol(d0)] + ([Symbol(d1)] + rest) == [Symbol(d0), Symbol(d1)] + rest;
  }

  lemma FourSymbols(high: nat, d0: int, d1: int, d2: int, d3: int, rest: string)
    requires 0 <= d0 < 64 && 0 <= d1 < 64 && 0 <= d2 < 64 && 0 <= d3 < 64 && AreSymbols(rest)
    ensures var s := [Symbol(d0), Symbol(d1), Symbol(d2), Symbol(d3)] + rest;
      && AreSymbols(s)
      && SymbolsNumber(high, s) == SymbolsNumber((((high * 64 + d0) * 64 + d1) * 64 + d2) * 64 + d3, rest)
  {
    TwoSymbols((high * 64 + d0) * 64 + d1, d2, d3, rest);
    TwoSymbols(high, d0, d1, [Symbol(d2), Symbol(d3)] + rest);
    assert [Symbol(d0), Symbol(d1)] + ([Symbol(d2), Symbol(d3)] + rest)
        == [Symbol(d0), Symbol(d1), Symbol(d2), Symbol(d3)] + rest;
  }

  lemma LastByte(high: nat, x: byte)
    ensures var s := [Symbol(x / 4), Symbol(x % 4 * 16)];
      AreSymbols(s) && SymbolsNumber(high, s) == (high * 256 + x) * 16
  {
    TwoSymbols(high, x / 4, x % 4 * 16, "");
    assert [Symbol(x / 4), Symbol(x % 4 * 16)] + "" == [Symbol(x / 4), Symbol(x % 4 * 16)];
  }

  lemma LastBytes(high: nat, x: byte, y: byte)
    ensures var s := [Symbol(x / 4), Symbol(x % 4 * 16 + y / 16), Symbol(y % 16 * 4)];
      AreSymbols(s) && SymbolsNumber(high, s) == ((high * 256 + x) * 256 + y) * 4
  {
    var d0, d1, d2 := x / 4, x % 4 * 16 + y / 16, y % 16 * 4;
    OneSymbol((high * 64 + d0) * 64 + d1, d2, "");
    TwoSymbols(high, d0, d1, [Symbol(d2)] + "");
    assert [Symbol(d0), Symbol(d1)] + ([Symbol(d2)] + "") == [Symbol(d0), Symbol(d1), Symbol(d2)];
  }

  lemma OneByte(high: nat, x: byte, rest: seq<byte>)
    ensures BytesNumber(high, [x] + rest) == BytesNumber(high * 256 + x, rest)
  {
    assert ([x] + rest)[1..] == rest;
  }

  lemma ThreeBytes(high: nat, x: byte, y: byte, z: byte, next: nat, rest: seq<byte>)
    requires next == ((high * 256 + x) * 256 + y) * 256 + z
    ensures BytesNumber(high, [x, y, z] + rest) == BytesNumber(next, rest)
  {
    OneByte((high * 256 + x) * 256 + y, z, rest);
    OneByte(high * 256 + x, y, [z] + rest);
    OneByte(high, x, [y] + ([z] + rest));
    assert [x] + ([y] + ([z] + rest)) == [x, y, z] + rest;
  }

  lemma GroupSymbols(high: nat, x: byte, y: byte, z: byte, next: nat, s: string)
    requires next == ((high * 256 + x) * 256 + y) * 256 + z && AreSymbols(s)
    ensures var all := [Symbol(x / 4), Symbol(x % 4 * 16 + y / 16), Symbol(y % 16 * 4 + z / 64), Symbol(z % 64)] + s;
      AreSymbols(all) && SymbolsNumber(high, all) == SymbolsNumber(next, s)
  {
    GroupNumber(high, x, y, z, next);
    FourSymbols(high, x / 4, x % 4 * 16 + y / 16, y % 16 * 4 + z / 64, z % 64, s);
  }

  /** The zero bits that fill the last symbol, as a factor. */
  function Fill(length: nat): nat {
    if length % 3 == 0 then 1 else if length % 3 == 1 then 16 else 4
  }

  predicate SameNumber(high: nat, s: string, b: seq<byte>) {
    AreSymbols(s) && SymbolsNumber(high, s) == BytesNumber(high, b) * Fill(|b|)
  }

  lemma DigitsOfGroup(b: seq<byte>)
    requires |b| >= 3
    ensures Digits(b) == [Symbol(b[0] / 4), Symbol(b[0] % 4 * 16 + b[1] / 16), Symbol(b[1] % 16 * 4 + b[2] / 64),
                          Symbol(b[2] % 64)] + Digits(b[3..])
    ensures b == [b[0], b[1], b[2]] + b[3..] && Fill(|b|) == Fill(|b[3..]|)
  {
    assert (|b| - 3) % 3 == |b| % 3;
  }

  lemma OneIsNumber(high: nat, x: byte, s: string, b: seq<byte>)
    requires s == [Symbol(x / 4), Symbol(x % 4 * 16)] && b == [x] + []
    ensures SameNumber(high, s, b)
  {
    LastByte(high, x);
    OneByte(high, x, []);
  }

  lemma TwoAreNumber(high: nat, x: byte, y: byte, s: string, b: seq<byte>)
    requires s == [Symbol(x / 4), Symbol(x % 4 * 16 + y / 16), Symbol(y % 16 * 4)] && b == [x] + ([y] + [])
    ensures SameNumber(high, s, b)
  {
    LastBytes(high, x, y);
    OneByte(high * 256 + x, y, []);
    OneByte(high, x, [y] + []);
  }

  lemma GroupIsNumber(high: nat, next: nat, s: string, r: string, b: seq<byte>, rest: seq<byte>)
    requires SameNumber(next, r, rest) && AreSymbols(s) && SymbolsNumber(high, s) == SymbolsNumber(next, r)
    requires BytesNumber(high, b) == BytesNumber(next, rest) && Fill(|b|) == Fill(|rest|)
    ensures SameNumber(high, s, b)
  {
  }

  /** Symbols and bytes stand for the same number, up to the zero bits that fill the last symbol
      (section 4 of RFC 4648). */
  lemma {:induction false} DigitsAreNumber(high: nat, b: seq<byte>)
    ensures SameNumber(high, Digits(b), b)
    decreases |b|
  {
    if |b| == 1 {
      OneIsNumber(high, b[0], Digits(b), b);
    } else if |b| == 2 {
      TwoAreNumber(high, b[0], b[1], Digits(b), b);
    } else if |b| >= 3 {
      var next, rest := ((high * 256 + b[0]) * 256 + b[1]) * 256 + b[2], b[3..];
      DigitsAreNumber(next, rest);
      DigitsOfGroup(b);
      GroupSymbols(high, b[0], b[1], b[2], next, Digits(rest));
      ThreeBytes(high, b[0], b[1], b[2], next, rest);
      GroupIsNumber(high, next, Digits(b), Digits(rest), b, rest);
    }
  }

  /** `Base64` is the digits and as many `=` as fill the last group. */
  lemma {:induction false} PaddedDigits(b: seq<byte>) returns (pad: string)
    ensures Base64(b) == Digits(b) + pad && forall i :: 0 <= i < |pad| ==> pad[i] == '='
  {
    if b == [] {
      pad := "";
    } else if |b| == 1 {
      pad := "==";
    } else if |b| == 2 {
      pad := "=";
    } else {
      pad := PaddedDigits(b[3..]);
      assert Base64(b) == Digits(b) + pad;
    }
  }

  /** The URL form of the digits. */
  function UrlDigits(b: seq<byte>): string {
    Replaced(Replaced(Digits(b), '+', '-'), '/', '_')
  }

  lemma ReplacedAppend(s: string, t: string, from: char, to: char)
    ensures Replaced(s + t, from, to) == Replaced(s, from, to) + Replaced(t, from, to)
  {
  }

  lemma UrlDigitsAreSymbols(b: seq<byte>)
    ensures forall c :: c in UrlDigits(b) ==> IsUrlSymbol(c)
  {
    DigitsAreStandard(b);
  }

  lemma B64UrlIsDigits(b: seq<byte>)
    ensures B64Url(b) == UrlDigits(b)
  {
    var pad := PaddedDigits(b);
    ReplacedAppend(Digits(b), pad, '+', '-');
    ReplacedAppend(Replaced(Digits(b), '+', '-'), pad, '/', '_');
    assert Replaced(pad, '+', '-') == pad && Replaced(pad, '/', '_') == pad;
    UrlDigitsAreSymbols(b);
    assert UrlDigits(b) != "" ==> UrlDigits(b)[|UrlDigits(b)| - 1] in UrlDigits(b);
    StripRightPadded(UrlDigits(b), pad, Pads);
  }

  lemma SwapBack(s: string)
    requires '-' !in s && '_' !in s
    ensures var t := Replaced(Replaced(s, '+', '-'), '/', '_'); Replaced(Replaced(t, '-', '+'), '_', '/') == s
  {
  }

  /** Decoding undoes encoding, for all byte strings; the encoding holds only URL symbols, so
      no dot, no equals sign and no semicolon; and it has no padding. */
  lemma Base64UrlRoundTrip(p: Platform, b: seq<byte>)
    ensures B64UrlToBuf(p, B64Url(b)) == b
    ensures forall c :: c in B64Url(b) ==> IsUrlSymbol(c)
    ensures |B64Url(b)| == (4 * |b| + 2) / 3
  {
    B64UrlIsDigits(b);
    UrlDigitsAreSymbols(b);
    DigitsAreStandard(b);
    SwapBack(Digits(b));
    UnpaddedDigits(b);
  }

  // ------------------------------------------------ cookie round trip

  /** The cookie text survives both URI encodings, and has exactly one dot. */
  lemma MintedShape(p: Platform, sub: string, domain: string, now: int)
    ensures var body := B64Url(p.stringify(Session(sub, domain, now + LIFETIME)));
      var cookie := MintProxyCookie(p, sub, domain, now);
      && Split(cookie, '.') == [body, B64Url(p.hmac(body))]
      && cookie != "" && (forall c :: c in cookie ==> IsUrlSymbol(c) || c == '.')
  {
    var body := B64Url(p.stringify(Session(sub, domain, now + LIFETIME)));
    var sig := B64Url(p.hmac(body));
    Base64UrlRoundTrip(p, p.stringify(Session(sub, domain, now + LIFETIME)));
    Base64UrlRoundTrip(p, p.hmac(body));
    SplitAppend(body, sig, '.');
    SplitSingle(body, '.');
    SplitSingle(sig, '.');
  }

  /** A minted cookie verifies to the same subject and domain exactly until it expires. */
  lemma MintedVerifies(p: Platform, sub: string, domain: string, now: int, later: int)
    requires RoundTrips(p)
    ensures VerifyProxyCookie(p, Some(MintProxyCookie(p, sub, domain, now)), later)
         == if later <= now + 43200 then Some(Session(sub, domain, now + 43200)) else None
  {
    var c := Session(sub, domain, now + LIFETIME);
    var body := B64Url(p.stringify(c));
    MintedShape(p, sub, domain, now);
    Base64UrlRoundTrip(p, p.stringify(c));
    Base64UrlRoundTrip(p, p.hmac(body));
    assert '.' in MintProxyCookie(p, sub, domain, now) by {
      assert MintProxyCookie(p, sub, domain, now)[|body|] == '.';
    }
  }

  /** A part of the header that gives the named cookie the value; the name alone gives the empty one. */
  predicate Gives(part: string, name: string, value: string) {
    Trim(part) == name + "=" + value || (Trim(part) == name && value == "")
  }

  lemma GivenIsRead(p: Platform, parts: seq<string>, name: string, value: string)
    requires parts != [] && '=' !in name && Gives(parts[0], name, value)
    ensures FirstCookie(p, parts, name) == Some(DecodeUri(p, value))
  {
    SplitSingle(name, '=');
    SplitAppend(name, value, '=');
    JoinSplit(value, '=');
    assert ([name] + Split(value, '='))[1..] == Split(value, '=');
  }

  lemma {:induction false} FirstOfItsName(p: Platform, parts: seq<string>, k: nat, name: string, value: string)
    requires k < |parts| && '=' !in name && Gives(parts[k], name, value)
    requires forall i :: 0 <= i < k ==> Trim(parts[i]) != name && !(name + "=" <= Trim(parts[i]))
    ensures FirstCookie(p, parts, name) == Some(DecodeUri(p, value))
  {
    if k == 0 {
      GivenIsRead(p, parts, name, value);
    } else {
      NamedCookieIff(parts[0], name);
      FirstOfItsName(p, parts[1..], k - 1, name, value);
    }
  }

  /** What is read is the value of the first part of the header that is a cookie of the name, all
      that follows its first equals sign, percent sequences decoded. */
  lemma FirstCookieIsRead(p: Platform, header: string, name: string, k: nat, value: string)
    requires header != "" && '=' !in name
    requires k < |Split(header, ';')| && Gives(Split(header, ';')[k], name, value)
    requires forall i :: 0 <= i < k ==>
      Trim(Split(header, ';')[i]) != name && !(name + "=" <= Trim(Split(header, ';')[i]))
    ensures ReadCookie(p, Some(header), name) == Some(if '%' in value then p.percentDecode(value) else value)
  {
    FirstOfItsName(p, Split(header, ';'), k, name, value);
  }

  lemma JoinedIsNotEmpty(parts: seq<string>, k: nat)
    requires k < |parts| && parts[k] != ""
    requires Split(Join(parts, ';'), ';') == parts
    ensures Join(parts, ';') != ""
  {
  }

  /** The whole way: minted, set, sent back in any header where it is the first cookie of its
      name, read and verified. */
  lemma CookieRoundTrip(p: Platform, sub: string, domain: string, now: int, later: int,
                        name: string, parts: seq<string>, k: nat)
    requires RoundTrips(p)
    requires k < |parts| && '=' !in name
    requires forall part :: part in parts ==> ';' !in part
    requires Trim(parts[k]) == name + "=" + EncodeUri(p, MintProxyCookie(p, sub, domain, now))
    requires forall i :: 0 <= i < k ==> Trim(parts[i]) != name && !(name + "=" <= Trim(parts[i]))
    ensures var raw := ReadCookie(p, Some(Join(parts, ';')), name);
      && raw == Some(MintProxyCookie(p, sub, domain, now))
      && VerifyProxyCookie(p, raw, later)
         == if later <= now + 43200 then Some(Session(sub, domain, now + 43200)) else None
  {
    var cookie := MintProxyCookie(p, sub, domain, now);
    MintedIsPlain(p, sub, domain, now);
    assert (name + "=" + cookie)[|name|] == '=';
    TrimOfEmpty(parts[k]);
    SplitJoin(parts, ';');
    JoinedIsNotEmpty(parts, k);
    FirstCookieIsRead(p, Join(parts, ';'), name, k, cookie);
    MintedVerifies(p, sub, domain, now, later);
  }

  /** A part of the header is a cookie of the name exactly if it is the name alone or starts with
      the name and an equals sign. */
  lemma NamedCookieIff(part: string, name: string)
    requires '=' !in name
    ensures CookieName(part) == name <==> Trim(part) == name || name + "=" <= Trim(part)
  {
    var t := Trim(part);
    JoinSplit(t, '=');
    var pieces := Split(t, '=');
    if name + "=" <= t {
      var rest := t[|name| + 1..];
      assert t == name + "=" + rest;
      SplitAppend(name, rest, '=');
      SplitSingle(name, '=');
    }
    if t == name {
      SplitSingle(name, '=');
    }
    if pieces[0] == name && |pieces| > 1 {
      assert t == name + "=" + Join(pieces[1..], '=');
    }
  }

  /** Nothing is read exactly if there is no header, or no part of it is a cookie of the name. */
  lemma NothingReadIff(p: Platform, header: Option<string>, name: string)
    requires '=' !in name
    ensures ReadCookie(p, header, name) == None
       <==> || header.None? || header.value == ""
            || forall part :: part in Split(header.value, ';') ==> Trim(part) != name && !(name + "=" <= Trim(part))
  {
    if header.Some? {
      NoneOfItsName(p, Split(header.value, ';'), name);
    }
  }

  lemma {:induction false} NoneOfItsName(p: Platform, parts: seq<string>, name: string)
    requires '=' !in name
    ensures FirstCookie(p, parts, name) == None
       <==> forall part :: part in parts ==> Trim(part) != name && !(name + "=" <= Trim(part))
  {
    if parts != [] {
      NamedCookieIff(parts[0], name);
      NoneOfItsName(p, parts[1..], name);
      assert forall part :: part in parts <==> part == parts[0] || part in parts[1..];
    }
  }

  lemma MintedIsPlain(p: Platform, sub: string, domain: string, now: int)
    ensures var cookie := MintProxyCookie(p, sub, domain, now);
      EncodeUri(p, cookie) == cookie && '=' !in cookie && '%' !in cookie && ';' !in cookie
  {
    MintedShape(p, sub, domain, now);
    PlainStays(p, MintProxyCookie(p, sub, domain, now));
  }

  lemma PlainStays(p: Platform, s: string)
    requires forall c :: c in s ==> IsUrlSymbol(c) || c == '.'
    ensures EncodeUri(p, s) == s && '=' !in s && '%' !in s && ';' !in s
  {
    assert forall i :: 0 <= i < |s| ==> s[i] in s;
  }

  lemma TrimOfEmpty(s: string)
    requires Trim(s) != ""
    ensures s != ""
  {
  }

  /** What verification accepts was signed: of its first two dot-separated pieces the second
      decodes to the hash of the first, and the first to the session. */
  lemma AcceptedIsSigned(p: Platform, raw: string, now: int) returns (body: string, sig: string, rest: string)
    requires VerifyProxyCookie(p, Some(raw), now).Some?
    ensures var c := VerifyProxyCookie(p, Some(raw), now).value;
      now <= c.exp && p.parse(B64UrlToBuf(p, body)) == Some(c)
    ensures B64UrlToBuf(p, sig) == p.hmac(body)
    ensures raw == body + "." + sig + rest && '.' !in body && '.' !in sig && (rest == "" || rest[0] == '.')
  {
    var pieces := Split(raw, '.');
    DotSplitsInTwo(raw);
    JoinSplit(raw, '.');
    PiecesHoldNone(raw, '.');
    body, sig := pieces[0], pieces[1];
    rest := AfterTwo(pieces);
  }

  lemma AfterTwo(pieces: seq<string>) returns (rest: string)
    requires |pieces| >= 2
    ensures Join(pieces, '.') == pieces[0] + "." + pieces[1] + rest
    ensures rest == "" || rest[0] == '.'
  {
    var more := pieces[1..];
    if |pieces| == 2 {
      rest := "";
      assert Join(more, '.') == pieces[1];
    } else {
      rest := "." + Join(more[1..], '.');
      assert Join(more, '.') == pieces[1] + rest;
    }
  }

  /** The text starts with two pieces between dots. */
  predicate IsPair(raw: string, body: string, sig: string, rest: string) {
    raw == body + "." + sig + rest && '.' !in body && '.' !in sig && (rest == "" || rest[0] == '.')
  }

  predicate IsSignedFor(p: Platform, raw: string, body: string, sig: string, rest: string, c: Session) {
    && IsPair(raw, body, sig, rest)
    && B64UrlToBuf(p, sig) == p.hmac(body) && p.parse(B64UrlToBuf(p, body)) == Some(c)
  }

  /** Exactly such texts are accepted, until they expire: of the first two pieces the second
      decodes to the hash of the first, and the first to the session. */
  lemma VerifiesIff(p: Platform, raw: string, now: int, c: Session)
    ensures VerifyProxyCookie(p, Some(raw), now) == Some(c)
       <==> now <= c.exp && exists body, sig, rest :: IsSignedFor(p, raw, body, sig, rest, c)
  {
    if VerifyProxyCookie(p, Some(raw), now) == Some(c) {
      var body, sig, rest := AcceptedIsSigned(p, raw, now);
      assert IsSignedFor(p, raw, body, sig, rest, c);
    }
    if now <= c.exp && exists body, sig, rest :: IsSignedFor(p, raw, body, sig, rest, c) {
      var body, sig, rest :| IsSignedFor(p, raw, body, sig, rest, c);
      PairSplitsAtDots(raw, body, sig, rest);
    }
  }

  lemma PairSplitsAtDots(raw: string, body: string, sig: string, rest: string)
    requires IsPair(raw, body, sig, rest)
    ensures '.' in raw && |Split(raw, '.')| >= 2 && Split(raw, '.')[0] == body && Split(raw, '.')[1] == sig
  {
    assert raw == body + "." + (sig + rest) && raw[|body|] == '.';
    SplitAppend(body, sig + rest, '.');
    SplitSingle(body, '.');
    SplitSingle(sig, '.');
    if rest == "" {
      assert sig + rest == sig;
    } else {
      assert sig + rest == sig + "." + rest[1..];
      SplitAppend(sig, rest[1..], '.');
    }
  }
}
