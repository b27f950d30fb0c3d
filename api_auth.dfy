/**
 * The authentication interceptor of the API client. An access token that looks like a
 * JWT (three '.'-separated segments) is sent as a bearer token; anything else is an API
 * key, sent as HTTP basic credentials "apikey:<token>" in standard padded base64
 * (section 4 of RFC 4648). Every request carries the resulting value in two headers.
 */
module ApiAuth {
  import opened Wrappers
  import opened Strings
  import opened Utf8

  // ---------------------------------------------------------------------------
  // Standard base64 (section 4 of RFC 4648): alphabet A-Z a-z 0-9 + /, padding '='

  /** A 6-bit value. */
  type sextet = x: int | 0 <= x < 64

  /** The symbol for a 6-bit value. */
  function Symbol(v: sextet): (c: char)
    ensures c != '='
  {
    if v < 26 then ('A' as int + v) as char
    else if v < 52 then ('a' as int + v - 26) as char
    else if v < 62 then ('0' as int + v - 52) as char
    else if v == 62 then '+'
    else '/'
  }

  /** The 6-bit value of a symbol, if it is one. */
  function SymbolValue(c: char): (r: Option<sextet>)
    ensures r.Some? ==> Symbol(r.value) == c
    ensures c == '=' ==> r.None?
  {
    if 'A' <= c <= 'Z' then Some(c as int - 'A' as int)
    else if 'a' <= c <= 'z' then Some(c as int - 'a' as int + 26)
    else if '0' <= c <= '9' then Some(c as int - '0' as int + 52)
    else if c == '+' then Some(62)
    else if c == '/' then Some(63)
    else None
  }

  lemma SymbolValueOfSymbol(v: sextet)
    ensures SymbolValue(Symbol(v)) == Some(v)
  {
  }

  /** The four 6-bit fields of three bytes, most significant bits first. */
  function Sextets(b0: byte, b1: byte, b2: byte): (r: seq<sextet>)
    ensures |r| == 4
  {
    [b0 / 4, (b0 % 4) * 16 + b1 / 16, (b1 % 16) * 4 + b2 / 64, b2 % 64]
  }

  /** The three bytes spelled by four 6-bit fields. */
  function Octets(v0: sextet, v1: sextet, v2: sextet, v3: sextet): (r: seq<byte>)
    ensures |r| == 3
  {
    [v0 * 4 + v1 / 16, (v1 % 16) * 16 + v2 / 4, (v2 % 4) * 64 + v3]
  }

  /** Four symbols for three bytes, the last `4 - symbols` of them replaced by padding. */
  function EncodeQuantum(b0: byte, b1: byte, b2: byte, symbols: nat): (r: string)
    requires 2 <= symbols <= 4
    ensures |r| == 4
  {
    var f := Sextets(b0, b1, b2);
    [Symbol(f[0]), Symbol(f[1])]
      + (if symbols >= 3 then [Symbol(f[2])] else ['='])
      + (if symbols == 4 then [Symbol(f[3])] else ['='])
  }

  /** base64.StdEncoding.EncodeToString */
  function Base64Encode(b: seq<byte>): (r: string)
    ensures |r| == 4 * ((|b| + 2) / 3)
    decreases |b|
  {
    if |b| == 0 then ""
    else if |b| == 1 then EncodeQuantum(b[0], 0, 0, 2)
    else if |b| == 2 then EncodeQuantum(b[0], b[1], 0, 3)
    else
      QuantaStep(|b|);
      EncodeQuantum(b[0], b[1], b[2], 4) + Base64Encode(b[3..])
  }

  /** Three more bytes take one more quantum of four symbols. */
  lemma QuantaStep(n: int)
    requires n >= 3
    ensures 4 * ((n + 2) / 3) == 4 + 4 * ((n - 1) / 3)
  {
    assert (n + 2) / 3 == (n - 1) / 3 + 1;
  }

  /** The three bytes spelled by four symbols, or None if one of them is not a symbol. */
  function DecodeQuantum(s: string): (r: Option<seq<byte>>)
    requires |s| == 4
    ensures r.Some? ==> |r.value| == 3
  {
    var v0 := SymbolValue(s[0]);
    var v1 := SymbolValue(s[1]);
    var v2 := SymbolValue(s[2]);
    var v3 := SymbolValue(s[3]);
    if v0.None? || v1.None? || v2.None? || v3.None? then None
    else Some(Octets(v0.value, v1.value, v2.value, v3.value))
  }

  /** The bytes of the last quantum, honouring "=" and "==" padding (read as the zero symbol 'A'). */
  function DecodeLast(s: string): (r: Option<seq<byte>>)
    requires |s| == 4
  {
    if s[2] == '=' && s[3] == '=' then
      (match DecodeQuantum(s[..2] + "AA")
       case None => None
       case Some(b) => Some(b[..1]))
    else if s[3] == '=' then
      (match DecodeQuantum(s[..3] + "A")
       case None => None
       case Some(b) => Some(b[..2]))
    else DecodeQuantum(s)
  }

  /** A decoder for the same alphabet: the reference the encoder is checked against. */
  function Base64Decode(s: string): (r: Option<seq<byte>>)
    decreases |s|
  {
    if |s| == 0 then Some([])
    else if |s| < 4 then None
    else if |s| == 4 then DecodeLast(s)
    else
      match DecodeQuantum(s[..4])
      case None => None
      case Some(b) =>
        match Base64Decode(s[4..])
        case None => None
        case Some(rest) => Some(b + rest)
  }

  lemma OctetsOfSextets(b0: byte, b1: byte, b2: byte)
    ensures var f := Sextets(b0, b1, b2); Octets(f[0], f[1], f[2], f[3]) == [b0, b1, b2]
  {
    var f := Sextets(b0, b1, b2);
    assert f[1] / 16 == b0 % 4 && f[1] % 16 == b1 / 16;
    assert f[2] / 4 == b1 % 16 && f[2] % 4 == b2 / 64;
  }

  lemma DecodeEncodeQuantum(b0: byte, b1: byte, b2: byte)
    ensures DecodeQuantum(EncodeQuantum(b0, b1, b2, 4)) == Some([b0, b1, b2])
  {
    var f := Sextets(b0, b1, b2);
    SymbolValueOfSymbol(f[0]);
    SymbolValueOfSymbol(f[1]);
    SymbolValueOfSymbol(f[2]);
    SymbolValueOfSymbol(f[3]);
    OctetsOfSextets(b0, b1, b2);
  }

  /** A quantum of one byte ends in "==" and decodes back to that byte. */
  lemma RoundTripOne(b0: byte)
    ensures DecodeLast(EncodeQuantum(b0, 0, 0, 2)) == Some([b0])
  {
    var s := EncodeQuantum(b0, 0, 0, 2);
    var f := Sextets(b0, 0, 0);
    assert f[2] == 0 && f[3] == 0;
    assert Symbol(0) == 'A';
    var full := EncodeQuantum(b0, 0, 0, 4);
    assert full == [Symbol(f[0]), Symbol(f[1]), 'A', 'A'];
    assert s == [Symbol(f[0]), Symbol(f[1]), '=', '='];
    assert s[..2] + "AA" == full;
    DecodeEncodeQuantum(b0, 0, 0);
    assert DecodeQuantum(full) == Some([b0, 0, 0]);
    assert [b0, 0, 0][..1] == [b0];
  }

  /** A quantum of two bytes ends in "=" and decodes back to those bytes. */
  lemma RoundTripTwo(b0: byte, b1: byte)
    ensures DecodeLast(EncodeQuantum(b0, b1, 0, 3)) == Some([b0, b1])
  {
    var s := EncodeQuantum(b0, b1, 0, 3);
    var f := Sextets(b0, b1, 0);
    assert f[3] == 0;
    assert Symbol(0) == 'A';
    var full := EncodeQuantum(b0, b1, 0, 4);
    assert full == [Symbol(f[0]), Symbol(f[1]), Symbol(f[2]), 'A'];
    assert s == [Symbol(f[0]), Symbol(f[1]), Symbol(f[2]), '='];
    assert s[..3] + "A" == full;
    DecodeEncodeQuantum(b0, b1, 0);
    assert DecodeQuantum(full) == Some([b0, b1, 0]);
    assert s[2] != '=' && s[3] == '=';
    assert [b0, b1, 0][..2] == [b0, b1];
  }

  /** A full quantum has no padding and decodes back to its three bytes. */
  lemma RoundTripThree(b0: byte, b1: byte, b2: byte)
    ensures DecodeLast(EncodeQuantum(b0, b1, b2, 4)) == Some([b0, b1, b2])
  {
    var s := EncodeQuantum(b0, b1, b2, 4);
    var f := Sextets(b0, b1, b2);
    assert s == [Symbol(f[0]), Symbol(f[1]), Symbol(f[2]), Symbol(f[3])];
    assert s[2] != '=' && s[3] != '=';
    DecodeEncodeQuantum(b0, b1, b2);
  }

  /** A decodable quantum followed by decodable text decodes to the concatenation. */
  lemma DecodeCons(q: string, t: string, x: seq<byte>, y: seq<byte>)
    requires |q| == 4 && |t| > 0
    requires DecodeQuantum(q) == Some(x) && Base64Decode(t) == Some(y)
    ensures Base64Decode(q + t) == Some(x + y)
  {
    var s := q + t;
    assert s[..4] == q && s[4..] == t;
  }

  /** A sequence is its first three elements followed by the rest. */
  lemma SplitThree<T>(b: seq<T>)
    requires |b| >= 3
    ensures [b[0], b[1], b[2]] + b[3..] == b
  {
  }

  /** A short sequence is the display of its elements. */
  lemma ShortDisplay<T>(b: seq<T>)
    ensures |b| == 1 ==> [b[0]] == b
    ensures |b| == 2 ==> [b[0], b[1]] == b
    ensures |b| == 3 ==> [b[0], b[1], b[2]] == b
  {
  }

  /** Up to three bytes make one final quantum, which decodes back to them. */
  lemma RoundTripLast(b: seq<byte>)
    requires |b| <= 3
    ensures Base64Decode(Base64Encode(b)) == Some(b)
  {
    ShortDisplay(b);
    if |b| == 1 {
      RoundTripOne(b[0]);
    } else if |b| == 2 {
      RoundTripTwo(b[0], b[1]);
    } else if |b| == 3 {
      var q := EncodeQuantum(b[0], b[1], b[2], 4);
      assert Base64Encode(b[3..]) == "";
      assert Base64Encode(b) == q + "" == q;
      RoundTripThree(b[0], b[1], b[2]);
    }
  }

  /** A full first quantum round-trips in front of any rest that round-trips. */
  lemma RoundTripStep(b: seq<byte>)
    requires |b| > 3
    requires Base64Decode(Base64Encode(b[3..])) == Some(b[3..])
    ensures Base64Decode(Base64Encode(b)) == Some(b)
  {
    var q := EncodeQuantum(b[0], b[1], b[2], 4);
    var t := Base64Encode(b[3..]);
    assert Base64Encode(b) == q + t;
    DecodeEncodeQuantum(b[0], b[1], b[2]);
    DecodeCons(q, t, [b[0], b[1], b[2]], b[3..]);
    SplitThree(b);
  }

  /** Decoding undoes encoding, for every byte string. */
  lemma {:induction false} Base64RoundTrip(b: seq<byte>)
    ensures Base64Decode(Base64Encode(b)) == Some(b)
    decreases |b|
  {
    if |b| <= 3 {
      RoundTripLast(b);
    } else {
      Base64RoundTrip(b[3..]);
      RoundTripStep(b);
    }
  }

  // ---------------------------------------------------------------------------
  // The interceptor

  const BearerPrefix: string := "Bearer "
  const BasicPrefix: string := "Basic "
  const ApiKeyUser: string := "apikey:"
  const AuthorizationHeader: string := "Authorization"
  const CosAuthTokenHeader: string := "x-cos-auth-token"

  /** Does the token split into exactly three '.'-separated segments? */
  predicate LooksLikeJwt(token: string) {
    |Split(token, '.')| == 3
  }

  /** AuthInterceptor's transform of the access token into a header value. */
  function TransformToken(token: string): (r: string)
    ensures Count(token, '.') == 2 ==> r == BearerPrefix + token
    ensures Count(token, '.') != 2 ==>
      StartsWith(r, BasicPrefix) && Base64Decode(r[|BasicPrefix|..]) == Some(Encode(ApiKeyUser + token))
  {
    if LooksLikeJwt(token) then BearerPrefix + token
    else
      var r := BasicPrefix + Base64Encode(Encode(ApiKeyUser + token));
      assert r[|BasicPrefix|..] == Base64Encode(Encode(ApiKeyUser + token));
      Base64RoundTrip(Encode(ApiKeyUser + token));
      r
  }

  /** A token that is not a JWT is sent as Basic credentials. */
  lemma TransformBasic(token: string)
    requires Count(token, '.') != 2
    ensures TransformToken(token) == BasicPrefix + Base64Encode(Encode(ApiKeyUser + token))
  {
    assert !LooksLikeJwt(token);
  }

  /** An ASCII token's credentials encode to one byte per character. */
  lemma CredentialsBytes(token: string)
    requires IsAscii(token)
    ensures |Encode(ApiKeyUser + token)| == |ApiKeyUser| + |token|
  {
    AsciiAppend(ApiKeyUser, token);
    EncodeAscii(ApiKeyUser + token);
  }

  /** The basic credentials are ASCII text, four symbols per three bytes of "apikey:<token>". */
  lemma BasicCredentialsLength(token: string)
    requires Count(token, '.') != 2 && IsAscii(token)
    ensures |TransformToken(token)| == |BasicPrefix| + 4 * ((|ApiKeyUser| + |token| + 2) / 3)
  {
    TransformBasic(token);
    CredentialsBytes(token);
  }

  /** A request's (or stream's) header map: Set replaces every value of a key. */
  class Header {
    var values: map<string, seq<string>>

    constructor()
      ensures values == map[]
    {
      values := map[];
    }

    method Set(key: string, value: string)
      modifies this
      ensures values == old(values)[key := [value]]
    {
      values := values[key := [value]];
    }
  }

  class AuthInterceptor {
    const token: string

    /** AuthInterceptor(accessToken) */
    constructor(accessToken: string)
      ensures token == TransformToken(accessToken)
    {
      token := TransformToken(accessToken);
    }

    /**
     * What WrapUnary, WrapStreamingClient and WrapStreamingHandler do to the request
     * header: both authentication headers get the transformed token, nothing else changes.
     */
    method SetAuthHeaders(h: Header)
      modifies h
      ensures h.values == old(h.values)[AuthorizationHeader := [token]][CosAuthTokenHeader := [token]]
      ensures h.values[AuthorizationHeader] == h.values[CosAuthTokenHeader] == [token]
    {
      h.Set(AuthorizationHeader, token);
      h.Set(CosAuthTokenHeader, token);
    }
  }
}
