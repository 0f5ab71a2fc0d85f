/**
 * The hand-rolled HS256 tokens: base64url on top of `Buffer`'s base64 (sections 4 and 5 of RFC 4648),
 * and generation and verification for an arbitrary MAC. JSON and UTF-8 are parameters.
 */
module Jwt {
  import opened ByteCodec
  import opened JsString
  import opened Wrappers

  type sextet = x: int | 0 <= x < 64

  const PAD := '='

  // ----- Bytes and sextets -----

  function Sextets(b: seq<byte>): seq<sextet> {
    if b == [] then []
    else if |b| == 1 then [b[0] / 4, b[0] % 4 * 16]
    else if |b| == 2 then [b[0] / 4, b[0] % 4 * 16 + b[1] / 16, b[1] % 16 * 4]
    else [b[0] / 4, b[0] % 4 * 16 + b[1] / 16, b[1] % 16 * 4 + b[2] / 64, b[2] % 64] + Sextets(b[3..])
  }

  function Byte0(a: int, b: int): byte
    requires 0 <= a < 64 && 0 <= b < 64
  {
    a * 4 + b / 16
  }

  function Byte1(b: int, c: int): byte
    requires 0 <= b < 64 && 0 <= c < 64
  {
    b % 16 * 16 + c / 4
  }

  function Byte2(c: int, d: int): byte
    requires 0 <= c < 64 && 0 <= d < 64
  {
    c % 4 * 64 + d
  }

  /** Groups of four give three bytes; two or three left over give one or two, one is dropped. */
  function BytesOf(v: seq<sextet>): seq<byte> {
    if |v| <= 1 then []
    else if |v| == 2 then [Byte0(v[0], v[1])]
    else if |v| == 3 then [Byte0(v[0], v[1]), Byte1(v[1], v[2])]
    else [Byte0(v[0], v[1]), Byte1(v[1], v[2]), Byte2(v[2], v[3])] + BytesOf(v[4..])
  }

  lemma {:induction false} SextetsRoundTrip(b: seq<byte>)
    ensures BytesOf(Sextets(b)) == b
  {
    if |b| >= 3 {
      SextetsRoundTrip(b[3..]);
      assert Sextets(b)[4..] == Sextets(b[3..]);
      assert b == [b[0], b[1], b[2]] + b[3..];
    }
  }

  lemma {:induction false} SextetsLength(b: seq<byte>)
    ensures |Sextets(b)| % 4 == if |b| % 3 == 0 then 0 else |b| % 3 + 1
  {
    if |b| >= 3 {
      SextetsLength(b[3..]);
    }
  }

  // ----- Characters -----

  function StandardChar(v: sextet): char {
    if v < 26 then ('A' as int + v) as char
    else if v < 52 then ('a' as int + v - 26) as char
    else if v < 62 then ('0' as int + v - 52) as char
    else if v == 62 then '+'
    else '/'
  }

  function CharValue(c: char): Option<sextet> {
    if 'A' <= c <= 'Z' then Some(c as int - 'A' as int)
    else if 'a' <= c <= 'z' then Some(c as int - 'a' as int + 26)
    else if '0' <= c <= '9' then Some(c as int - '0' as int + 52)
    else if c == '+' then Some(62)
    else if c == '/' then Some(63)
    else None
  }

  function ToUrl(c: char): char {
    if c == '+' then '-' else if c == '/' then '_' else c
  }

  function FromUrl(c: char): char {
    if c == '-' then '+' else if c == '_' then '/' else c
  }

  lemma CharFacts(v: sextet)
    ensures CharValue(StandardChar(v)) == Some(v)
    ensures FromUrl(ToUrl(StandardChar(v))) == StandardChar(v)
    ensures ToUrl(StandardChar(v)) != PAD && StandardChar(v) != PAD && ToUrl(StandardChar(v)) != '.'
  {
  }

  function Chars(v: seq<sextet>): (s: string)
    ensures |s| == |v|
  {
    if v == [] then "" else [StandardChar(v[0])] + Chars(v[1..])
  }

  function MapChars(f: char -> char, s: string): (r: string)
    ensures |r| == |s|
  {
    if s == [] then "" else [f(s[0])] + MapChars(f, s[1..])
  }

  function Pads(n: nat): (s: string)
    ensures |s| == n
  {
    seq(n, _ => PAD)
  }

  /** `s.replace(/=+$/, "")` */
  function StripPads(s: string): string {
    if s != [] && s[|s| - 1] == PAD then StripPads(s[..|s| - 1]) else s
  }

  /** The sextets of a base64 text: up to the padding, skipping what is not in the alphabet. */
  function Values(s: string): seq<sextet> {
    if s == [] || s[0] == PAD then []
    else if CharValue(s[0]).Some? then [CharValue(s[0]).value] + Values(s[1..])
    else Values(s[1..])
  }

  // ----- base64 and base64url -----

  function Base64(b: seq<byte>): string {
    Chars(Sextets(b)) + Pads((3 - |b| % 3) % 3)
  }

  function DecodeBase64(s: string): seq<byte> {
    BytesOf(Values(s))
  }

  function Base64Url(b: seq<byte>): string {
    StripPads(MapChars(ToUrl, Base64(b)))
  }

  function Base64UrlDecode(s: string): seq<byte> {
    var standard := MapChars(FromUrl, s);
    DecodeBase64(standard + Pads((4 - |standard| % 4) % 4))
  }

  lemma {:induction false} MapCharsConcat(f: char -> char, s: string, t: string)
    ensures MapChars(f, s + t) == MapChars(f, s) + MapChars(f, t)
  {
    if s == [] {
      assert s + t == t && "" + MapChars(f, t) == MapChars(f, t);
    } else {
      MapCharsConcat(f, s[1..], t);
      assert (s + t)[1..] == s[1..] + t;
    }
  }

  lemma {:induction false} PadsUnmapped(n: nat)
    ensures MapChars(ToUrl, Pads(n)) == Pads(n)
  {
    if n > 0 {
      assert Pads(n)[1..] == Pads(n - 1);
      PadsUnmapped(n - 1);
    }
  }

  lemma {:induction false} StripPadded(s: string, n: nat)
    requires PAD !in s
    ensures StripPads(s + Pads(n)) == s
  {
    if n == 0 {
      assert s + Pads(0) == s;
    } else {
      var whole := s + Pads(n);
      assert whole[..|whole| - 1] == s + Pads(n - 1);
      StripPadded(s, n - 1);
    }
  }

  /** The url alphabet is a renaming: it can be undone, and uses neither padding nor dots. */
  lemma {:induction false} UrlCharsFacts(v: seq<sextet>)
    ensures MapChars(FromUrl, MapChars(ToUrl, Chars(v))) == Chars(v)
    ensures PAD !in MapChars(ToUrl, Chars(v)) && '.' !in MapChars(ToUrl, Chars(v))
  {
    if v != [] {
      var c := StandardChar(v[0]);
      CharFacts(v[0]);
      UrlCharsFacts(v[1..]);
      assert Chars(v)[1..] == Chars(v[1..]);
      assert MapChars(ToUrl, Chars(v)) == [ToUrl(c)] + MapChars(ToUrl, Chars(v[1..]));
      assert MapChars(ToUrl, Chars(v))[1..] == MapChars(ToUrl, Chars(v[1..]));
    }
  }

  /** Stripping the padding loses nothing: what remains is the text of the sextets alone. */
  lemma Base64UrlText(b: seq<byte>)
    ensures Base64Url(b) == MapChars(ToUrl, Chars(Sextets(b)))
    ensures '.' !in Base64Url(b)
  {
    var n := (3 - |b| % 3) % 3;
    UrlCharsFacts(Sextets(b));
    MapCharsConcat(ToUrl, Chars(Sextets(b)), Pads(n));
    PadsUnmapped(n);
    StripPadded(MapChars(ToUrl, Chars(Sextets(b))), n);
  }

  /** The padding that decoding rebuilds from the length modulo 4 is the one encoding stripped. */
  lemma PaddingRebuilt(b: seq<byte>)
    ensures var standard := MapChars(FromUrl, Base64Url(b));
            standard + Pads((4 - |standard| % 4) % 4) == Base64(b)
  {
    Base64UrlText(b);
    UrlCharsFacts(Sextets(b));
    SextetsLength(b);
  }

  lemma {:induction false} ValuesOfChars(v: seq<sextet>, n: nat)
    ensures Values(Chars(v) + Pads(n)) == v
  {
    if v == [] {
      assert Chars(v) + Pads(n) == Pads(n);
    } else {
      var text := Chars(v) + Pads(n);
      CharFacts(v[0]);
      ValuesOfChars(v[1..], n);
      assert text[0] == StandardChar(v[0]) && text[1..] == Chars(v[1..]) + Pads(n);
    }
  }

  /** Decoding undoes encoding on every byte string. */
  lemma Base64UrlRoundTrip(b: seq<byte>)
    ensures Base64UrlDecode(Base64Url(b)) == b
  {
    PaddingRebuilt(b);
    ValuesOfChars(Sextets(b), (3 - |b| % 3) % 3);
    SextetsRoundTrip(b);
  }

  /** The alphabet of table 1 of RFC 4648: three runs of consecutive characters, then plus and slash. */
  lemma StandardAlphabet(v: sextet)
    ensures StandardChar(0) == 'A' && StandardChar(25) == 'Z' && StandardChar(26) == 'a' && StandardChar(51) == 'z'
    ensures StandardChar(52) == '0' && StandardChar(61) == '9' && StandardChar(62) == '+' && StandardChar(63) == '/'
    ensures v < 61 && v != 25 && v != 51 ==> StandardChar(v + 1) as int == StandardChar(v) as int + 1
  {
  }

  /**
   * Four sextets are the three bytes they come from, as one number of 24 bits; fewer bytes are padded with zero
   * bits.
   */
  lemma SextetsAreBits(a: byte, b: byte, c: byte, rest: seq<byte>)
    ensures var v := Sextets([a, b, c] + rest);
            |v| >= 4 && ((v[0] as int * 64 + v[1]) * 64 + v[2]) * 64 + v[3] == (a as int * 256 + b) * 256 + c
            && v[4..] == Sextets(rest)
    ensures var v := Sextets([a, b]);
            |v| == 3 && ((v[0] as int * 64 + v[1]) * 64 + v[2]) * 64 == (a as int * 256 + b) * 256
    ensures var v := Sextets([a]); |v| == 2 && (v[0] as int * 64 + v[1]) * 64 * 64 == a as int * 256 * 256
  {
    assert ([a, b, c] + rest)[3..] == rest;
  }

  lemma {:induction false} CharAt(v: seq<sextet>, i: nat)
    requires i < |v|
    ensures Chars(v)[i] == StandardChar(v[i])
  {
    if i > 0 {
      CharAt(v[1..], i - 1);
    }
  }

  /** The text is those sextets in the alphabet, padded to groups of four. */
  lemma Base64IsText(b: seq<byte>, i: nat)
    requires i < |Sextets(b)|
    ensures |Base64(b)| % 4 == 0 && |Base64(b)| < |Sextets(b)| + 3 && Base64(b)[i] == StandardChar(Sextets(b)[i])
    ensures forall k :: |Sextets(b)| <= k < |Base64(b)| ==> Base64(b)[k] == '='
  {
    SextetsLength(b);
    CharAt(Sextets(b), i);
  }

  lemma {:induction false} MapCharAt(f: char -> char, s: string, i: nat)
    requires i < |s|
    ensures MapChars(f, s)[i] == f(s[i])
  {
    if i > 0 {
      MapCharAt(f, s[1..], i - 1);
    }
  }

  /** The url form differs in two characters and carries no padding. */
  lemma Base64UrlIsText(b: seq<byte>, i: nat)
    requires i < |Sextets(b)|
    ensures |Base64Url(b)| == |Sextets(b)|
    ensures Base64Url(b)[i] == match Base64(b)[i] case '+' => '-' case '/' => '_' case c => c
  {
    Base64UrlText(b);
    MapCharAt(ToUrl, Chars(Sextets(b)), i);
  }

  // ----- Tokens -----

  /** `exp` is absent when the decoded JSON has no numeric one. */
  datatype Payload = Payload(sub: string, iat: int, exp: Option<int>)

  datatype Env = Env(
    mac: string -> seq<byte>,
    header: string,
    stringify: Payload -> string,
    parse: string -> Option<Payload>,
    toUtf8: string -> seq<byte>,
    fromUtf8: seq<byte> -> string,
    expirySeconds: int)

  function SignedPart(env: Env, payload: Payload): string {
    Base64Url(env.toUtf8(env.header)) + "." + Base64Url(env.toUtf8(env.stringify(payload)))
  }

  function GenerateJWT(env: Env, publicKey: string, nowSeconds: int): string {
    var payload := Payload(publicKey, nowSeconds, Some(nowSeconds + env.expirySeconds));
    SignedPart(env, payload) + "." + Base64Url(env.mac(SignedPart(env, payload)))
  }

  function VerifyJWT(env: Env, token: string, nowMs: int): Option<Payload> {
    var parts := Split(token, ".");
    if |parts| != 3 then None
    else if Base64UrlDecode(parts[2]) != env.mac(parts[0] + "." + parts[1]) then None
    else
      var payload := env.parse(env.fromUtf8(Base64UrlDecode(parts[1])));
      if payload.None? || payload.value.exp.None? || nowMs > 1000 * payload.value.exp.value then None
      else payload
  }

  /** JSON and UTF-8 give back what they were given. */
  ghost predicate Transparent(env: Env) {
    && (forall p :: env.parse(env.stringify(p)) == Some(p))
    && (forall s :: env.fromUtf8(env.toUtf8(s)) == s)
  }

  lemma SplitInThree(a: string, b: string, c: string)
    requires '.' !in a && '.' !in b && '.' !in c
    ensures Split(a + "." + b + "." + c, ".") == [a, b, c]
  {
    var parts := [a, b, c];
    assert parts[1..] == [b, c] && parts[1..][1..] == [c];
    assert Join([b, c], ".") == b + "." + c;
    assert Join(parts, ".") == a + "." + (b + "." + c);
    assert a + "." + (b + "." + c) == a + "." + b + "." + c;
    SplitJoinChar(parts, '.');
  }

  /** A generated token consists of exactly three parts, whatever the key, the clock and the MAC are. */
  lemma TokenParts(env: Env, payload: Payload)
    ensures var header, body := Base64Url(env.toUtf8(env.header)), Base64Url(env.toUtf8(env.stringify(payload)));
            var signature := Base64Url(env.mac(SignedPart(env, payload)));
            Split(SignedPart(env, payload) + "." + signature, ".") == [header, body, signature]
  {
    Base64UrlText(env.toUtf8(env.header));
    Base64UrlText(env.toUtf8(env.stringify(payload)));
    Base64UrlText(env.mac(SignedPart(env, payload)));
    SplitInThree(Base64Url(env.toUtf8(env.header)), Base64Url(env.toUtf8(env.stringify(payload))),
                 Base64Url(env.mac(SignedPart(env, payload))));
  }

  /** Verification of a token whose parts are known. */
  lemma VerifyParts(env: Env, token: string, header: string, body: string, signature: string, nowMs: int)
    requires Split(token, ".") == [header, body, signature]
    requires Base64UrlDecode(signature) == env.mac(header + "." + body)
    ensures var payload := env.parse(env.fromUtf8(Base64UrlDecode(body)));
            VerifyJWT(env, token, nowMs)
              == (if payload.None? || payload.value.exp.None? || nowMs > 1000 * payload.value.exp.value then None
                  else payload)
  {
  }

  /** A generated token verifies, and yields the same payload, exactly until it expires. */
  lemma GeneratedTokenVerifies(env: Env, publicKey: string, nowSeconds: int, laterMs: int)
    requires Transparent(env)
    ensures var exp := nowSeconds + env.expirySeconds;
            VerifyJWT(env, GenerateJWT(env, publicKey, nowSeconds), laterMs)
              == (if laterMs <= 1000 * exp then Some(Payload(publicKey, nowSeconds, Some(exp))) else None)
  {
    var payload := Payload(publicKey, nowSeconds, Some(nowSeconds + env.expirySeconds));
    var text, mac := env.stringify(payload), env.mac(SignedPart(env, payload));
    TokenParts(env, payload);
    Base64UrlRoundTrip(env.toUtf8(text));
    Base64UrlRoundTrip(mac);
    VerifyParts(env, GenerateJWT(env, publicKey, nowSeconds), Base64Url(env.toUtf8(env.header)),
                Base64Url(env.toUtf8(text)), Base64Url(mac), laterMs);
    assert env.fromUtf8(env.toUtf8(text)) == text;
  }

  lemma PartsOfToken(token: string)
    requires |Split(token, ".")| == 3
    ensures var parts := Split(token, ".");
            && token == parts[0] + "." + parts[1] + "." + parts[2]
            && '.' !in parts[0] && '.' !in parts[1] && '.' !in parts[2]
  {
    var parts := Split(token, ".");
    JoinSplit(token, ".");
    SplitPartsCharFree(token, '.');
    assert parts[0] in parts && parts[1] in parts && parts[2] in parts;
    assert parts[1..] == [parts[1], parts[2]] && parts[1..][1..] == [parts[2]];
    assert Join(parts[1..], ".") == parts[1] + "." + parts[2];
    assert parts[0] + "." + (parts[1] + "." + parts[2]) == parts[0] + "." + parts[1] + "." + parts[2];
  }

  /**
   * A token of three dot-free parts whose signature is right and whose payload, read from the second part, is
   * fresh.
   */
  ghost predicate Valid(env: Env, token: string, a: string, b: string, c: string, p: Payload, nowMs: int) {
    && '.' !in a && '.' !in b && '.' !in c && token == a + "." + b + "." + c
    && Base64UrlDecode(c) == env.mac(a + "." + b)
    && env.parse(env.fromUtf8(Base64UrlDecode(b))) == Some(p)
    && p.exp.Some? && nowMs <= 1000 * p.exp.value
  }

  /**
   * For every token whatever, forged ones included: verification yields a payload if and only if the token is
   * valid for it. In particular nothing is accepted whose signature is not the MAC of its first two parts.
   */
  lemma VerifiesExactly(env: Env, token: string, nowMs: int, p: Payload)
    ensures VerifyJWT(env, token, nowMs) == Some(p) <==> exists a, b, c :: Valid(env, token, a, b, c, p, nowMs)
  {
    if VerifyJWT(env, token, nowMs) == Some(p) {
      var parts := Split(token, ".");
      PartsOfToken(token);
      assert Valid(env, token, parts[0], parts[1], parts[2], p, nowMs);
    }
    if exists a, b, c :: Valid(env, token, a, b, c, p, nowMs) {
      var a, b, c :| Valid(env, token, a, b, c, p, nowMs);
      SplitInThree(a, b, c);
      VerifyParts(env, token, a, b, c, nowMs);
    }
  }
}
