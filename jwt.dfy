/**
 * HS256 JSON Web Tokens in the compact three-segment form (section 3 of RFC 7519), with
 * segments in base64url without padding (section 5 of RFC 4648).
 *
 * base64url is built the way the source builds it: the standard alphabet with padding
 * (section 4 of RFC 4648), then '+' -> '-', '/' -> '_', and the '=' padding trimmed;
 * decoding pads back to a multiple of four, swaps the two characters back and decodes
 * strictly (padding required, nothing after it). HMAC-SHA256 and JSON are parameters.
 */
module Jwt {
  import opened Wrappers
  import opened Text

  type byte = x: int | 0 <= x < 256
  type sextet = x: int | 0 <= x < 64

  // ---------------------------------------------------------------- the standard alphabet

  /** The character for a 6-bit value in the standard base64 alphabet. */
  function StdChar(v: sextet): (c: char)
    ensures c != '=' && c != '.' && c != '-' && c != '_'
  {
    if v < 26 then ('A' as int + v) as char
    else if v < 52 then ('a' as int + (v - 26)) as char
    else if v < 62 then ('0' as int + (v - 52)) as char
    else if v == 62 then '+'
    else '/'
  }

  predicate IsStdChar(c: char)
  {
    'A' <= c <= 'Z' || 'a' <= c <= 'z' || '0' <= c <= '9' || c == '+' || c == '/'
  }

  /** The 6-bit value of a standard-alphabet character. */
  function StdValue(c: char): (v: sextet)
    requires IsStdChar(c)
    ensures StdChar(v) == c
  {
    if 'A' <= c <= 'Z' then c as int - 'A' as int
    else if 'a' <= c <= 'z' then c as int - 'a' as int + 26
    else if '0' <= c <= '9' then c as int - '0' as int + 52
    else if c == '+' then 62
    else 63
  }

  lemma StdCharValue(v: sextet)
    ensures IsStdChar(StdChar(v)) && StdValue(StdChar(v)) == v
  {
  }

  // ---------------------------------------------------------------- standard encoding

  /** Three bytes as four characters. */
  function Quad(b0: byte, b1: byte, b2: byte): string
  {
    [StdChar(b0 / 4), StdChar((b0 % 4) * 16 + b1 / 16), StdChar((b1 % 16) * 4 + b2 / 64), StdChar(b2 % 64)]
  }

  /** `base64.StdEncoding.EncodeToString`: padded to a multiple of four characters. */
  function StdEncode(d: seq<byte>): (s: string)
    ensures |s| == 4 * ((|d| + 2) / 3)
    decreases |d|
  {
    if |d| == 0 then ""
    else if |d| == 1 then [StdChar(d[0] / 4), StdChar((d[0] % 4) * 16), '=', '=']
    else if |d| == 2 then [StdChar(d[0] / 4), StdChar((d[0] % 4) * 16 + d[1] / 16), StdChar((d[1] % 16) * 4), '=']
    else Quad(d[0], d[1], d[2]) + StdEncode(d[3..])
  }

  /** The number of alphabet characters before the padding in the encoding of `n` bytes. */
  function Unpadded(n: nat): nat
  {
    if n == 0 then 0 else if n == 1 then 2 else if n == 2 then 3 else 4 + Unpadded(n - 3)
  }

  /** Two multiples of four in the same window of width four are equal. */
  lemma SameMultipleOfFour(x: nat, y: nat, low: nat)
    requires x % 4 == 0 && y % 4 == 0
    requires low <= x < low + 4 && low <= y < low + 4
    ensures x == y
  {
    assert x == 4 * (x / 4) && y == 4 * (y / 4);
  }

  /** The encoding is alphabet characters up to `Unpadded(|d|)` and '=' after, in whole quanta. */
  lemma {:induction false} StdEncodeShape(d: seq<byte>)
    ensures |StdEncode(d)| % 4 == 0 && Unpadded(|d|) <= |StdEncode(d)| < Unpadded(|d|) + 4
    ensures forall i :: 0 <= i < Unpadded(|d|) ==> IsStdChar(StdEncode(d)[i])
    ensures forall i :: Unpadded(|d|) <= i < |StdEncode(d)| ==> StdEncode(d)[i] == '='
    decreases |d|
  {
    var e := StdEncode(d);
    if 0 < |d| < 3 {
      ShortShape(d);
    } else if |d| > 2 {
      QuadAlphabet(d[0], d[1], d[2]);
      StdEncodeShape(d[3..]);
      var rest := StdEncode(d[3..]);
      assert e == Quad(d[0], d[1], d[2]) + rest;
      forall i | 0 <= i < Unpadded(|d|)
        ensures IsStdChar(e[i])
      {
        if i >= 4 { assert e[i] == rest[i - 4]; }
      }
      forall i | Unpadded(|d|) <= i < |e|
        ensures e[i] == '='
      {
        assert e[i] == rest[i - 4];
      }
    }
  }

  /** A full quantum is four alphabet characters. */
  lemma QuadAlphabet(b0: byte, b1: byte, b2: byte)
    ensures forall i :: 0 <= i < 4 ==> IsStdChar(Quad(b0, b1, b2)[i])
  {
    StdCharValue(b0 / 4);
    StdCharValue((b0 % 4) * 16 + b1 / 16);
    StdCharValue((b1 % 16) * 4 + b2 / 64);
    StdCharValue(b2 % 64);
  }

  /** The final quantum of one or two bytes: alphabet characters, then '='. */
  lemma ShortShape(d: seq<byte>)
    requires 0 < |d| < 3
    ensures |StdEncode(d)| == 4
    ensures forall i :: 0 <= i < Unpadded(|d|) ==> IsStdChar(StdEncode(d)[i])
    ensures forall i :: Unpadded(|d|) <= i < 4 ==> StdEncode(d)[i] == '='
  {
    var b1: byte := if |d| == 2 then d[1] else 0;
    StdCharValue(d[0] / 4);
    StdCharValue((d[0] % 4) * 16 + b1 / 16);
    StdCharValue((b1 % 16) * 4);
    StdCharValue((d[0] % 4) * 16);
  }

  // ---------------------------------------------------------------- standard decoding

  /** `base64.StdEncoding.DecodeString` for input without line breaks. */
  function StdDecode(s: string): (r: Result<seq<byte>>)
    ensures r.Ok? ==> |s| % 4 == 0
    decreases |s|
  {
    if |s| == 0 then Ok([])
    else if |s| < 4 || !IsStdChar(s[0]) || !IsStdChar(s[1]) then Err("illegal base64 data")
    else
      var v0, v1 := StdValue(s[0]), StdValue(s[1]);
      var b0: byte := v0 * 4 + v1 / 16;
      if s[2] == '=' then
        if s[3] == '=' && |s| == 4 then Ok([b0]) else Err("illegal base64 data")
      else if !IsStdChar(s[2]) then Err("illegal base64 data")
      else
        var v2 := StdValue(s[2]);
        var b1: byte := (v1 % 16) * 16 + v2 / 4;
        if s[3] == '=' then
          if |s| == 4 then Ok([b0, b1]) else Err("illegal base64 data")
        else if !IsStdChar(s[3]) then Err("illegal base64 data")
        else
          var b2: byte := (v2 % 4) * 64 + StdValue(s[3]);
          match StdDecode(s[4..])
          case Err(m) => Err(m)
          case Ok(rest) => Ok([b0, b1, b2] + rest)
  }

  /** The bit arithmetic of one quantum: the decoder's shifts undo the encoder's. */
  lemma QuantumBits(b0: byte, b1: byte, b2: byte)
    ensures (b0 / 4) * 4 + ((b0 % 4) * 16 + b1 / 16) / 16 == b0
    ensures (((b0 % 4) * 16 + b1 / 16) % 16) * 16 + ((b1 % 16) * 4 + b2 / 64) / 4 == b1
    ensures (((b1 % 16) * 4 + b2 / 64) % 4) * 64 + b2 % 64 == b2
  {
  }

  /** Decoding a full quantum followed by more text. */
  lemma QuadDecodes(b0: byte, b1: byte, b2: byte, rest: string)
    ensures StdDecode(Quad(b0, b1, b2) + rest) ==
      match StdDecode(rest)
      case Err(m) => Err(m)
      case Ok(t) => Ok([b0, b1, b2] + t)
  {
    var s := Quad(b0, b1, b2) + rest;
    StdCharValue(b0 / 4);
    StdCharValue((b0 % 4) * 16 + b1 / 16);
    StdCharValue((b1 % 16) * 4 + b2 / 64);
    StdCharValue(b2 % 64);
    QuantumBits(b0, b1, b2);
    assert s[4..] == rest;
  }

  /** One byte: the final quantum carries two '='. */
  lemma OneByteRoundTrip(b0: byte)
    ensures StdDecode(StdEncode([b0])) == Ok([b0])
  {
    StdCharValue(b0 / 4);
    StdCharValue((b0 % 4) * 16);
    QuantumBits(b0, 0, 0);
  }

  /** Two bytes: the final quantum carries one '='. */
  lemma TwoBytesRoundTrip(b0: byte, b1: byte)
    ensures StdDecode(StdEncode([b0, b1])) == Ok([b0, b1])
  {
    StdCharValue(b0 / 4);
    StdCharValue((b0 % 4) * 16 + b1 / 16);
    StdCharValue((b1 % 16) * 4);
    QuantumBits(b0, b1, 0);
  }

  /** Decoding inverts encoding, one quantum at a time. */
  lemma {:induction false} StdRoundTrip(d: seq<byte>)
    ensures StdDecode(StdEncode(d)) == Ok(d)
    decreases |d|
  {
    if |d| == 1 {
      OneByteRoundTrip(d[0]);
      assert [d[0]] == d;
    } else if |d| == 2 {
      TwoBytesRoundTrip(d[0], d[1]);
      assert [d[0], d[1]] == d;
    } else if |d| > 2 {
      var rest := d[3..];
      assert StdEncode(d) == Quad(d[0], d[1], d[2]) + StdEncode(rest);
      QuadDecodes(d[0], d[1], d[2], StdEncode(rest));
      StdRoundTrip(rest);
      assert [d[0], d[1], d[2]] + rest == d;
    }
  }

  // ---------------------------------------------------------------- base64url

  /** The '+' -> '-' and '/' -> '_' swap of one character. */
  function ToUrlChar(c: char): char
  {
    if c == '+' then '-' else if c == '/' then '_' else c
  }

  /** The '-' -> '+' and '_' -> '/' swap of one character. */
  function FromUrlChar(c: char): char
  {
    if c == '-' then '+' else if c == '_' then '/' else c
  }

  /** The two `strings.ReplaceAll` calls of `base64URLEncode`. */
  function ToUrl(s: string): (r: string)
    ensures |r| == |s| && forall i :: 0 <= i < |s| ==> r[i] == ToUrlChar(s[i])
  {
    Replace(Replace(s, '+', '-'), '/', '_')
  }

  /** The two `strings.ReplaceAll` calls of `base64URLDecode`. */
  function FromUrl(s: string): (r: string)
    ensures |r| == |s| && forall i :: 0 <= i < |s| ==> r[i] == FromUrlChar(s[i])
  {
    Replace(Replace(s, '-', '+'), '_', '/')
  }

  /**
   * `base64URLEncode`: the standard encoding with '+' and '/' swapped, character by character,
   * cut before its padding, so that no '+', '/', '=' (nor the token separator '.') remains.
   */
  function UrlEncode(d: seq<byte>): (s: string)
    ensures |s| == Unpadded(|d|) <= |StdEncode(d)|
    ensures forall i :: 0 <= i < |s| ==> s[i] == ToUrlChar(StdEncode(d)[i])
    ensures '+' !in s && '/' !in s && '=' !in s && '.' !in s
  {
    StdEncodeShape(d);
    TrimmedLength(ToUrl(StdEncode(d)), Unpadded(|d|));
    TrimRight(ToUrl(StdEncode(d)), '=')
  }

  /** `count` padding characters. */
  function Padding(count: nat): (p: string)
    ensures |p| == count && forall i :: 0 <= i < count ==> p[i] == '='
  {
    seq(count, _ => '=')
  }

  /** The padding step of `base64URLDecode`: '=' up to the next multiple of four. */
  function Padded(s: string): (r: string)
    ensures |r| % 4 == 0 && StartsWith(r, s) && |r| < |s| + 4
    ensures forall i :: |s| <= i < |r| ==> r[i] == '='
  {
    var count := 4 - |s| % 4;
    if count < 4 then s + Padding(count) else s
  }

  /**
   * `base64URLDecode`. A text one character past a multiple of four cannot come from an
   * encoding: padding it gives a quantum with '=' in second place, which is illegal.
   */
  function UrlDecode(s: string): (r: Result<seq<byte>>)
    ensures |s| % 4 == 1 ==> r.Err?
  {
    if |s| % 4 == 1 then
      StrayPaddingRejected(s);
      StdDecode(FromUrl(Padded(s)))
    else StdDecode(FromUrl(Padded(s)))
  }

  /** Padding a text one past a multiple of four gives something the standard decoder rejects. */
  lemma StrayPaddingRejected(s: string)
    requires |s| % 4 == 1
    ensures StdDecode(FromUrl(Padded(s))).Err?
  {
    var p := FromUrl(Padded(s));
    var k := |s| - 1;
    assert p[k + 1] == '=';
    StdDecodeRejectsAt(p, k / 4);
  }

  /** Trimming '=' from text that is '='-free up to `n` and '=' after leaves exactly `n` characters. */
  lemma TrimmedLength(r: string, n: nat)
    requires n <= |r|
    requires forall i :: 0 <= i < n ==> r[i] != '='
    requires forall i :: n <= i < |r| ==> r[i] == '='
    ensures TrimRight(r, '=') == r[..n]
  {
    var t := TrimRight(r, '=');
    assert forall i :: 0 <= i < |t| ==> t[i] == r[i];
    assert n > 0 ==> r[n - 1] != '=';
  }

  /** Padding the trimmed encoding puts back exactly the '=' characters the trim removed. */
  lemma PaddingRestored(d: seq<byte>)
    ensures Padded(UrlEncode(d)) == ToUrl(StdEncode(d))
  {
    StdEncodeShape(d);
    var r := ToUrl(StdEncode(d));
    var p := Padded(UrlEncode(d));
    SameMultipleOfFour(|p|, |r|, Unpadded(|d|));
    forall i | 0 <= i < |p|
      ensures p[i] == r[i]
    {
      if i >= Unpadded(|d|) { assert p[i] == '='; }
    }
  }

  /** The string `base64URLDecode` hands to the standard decoder is the standard encoding again. */
  lemma UrlDecodeRestores(d: seq<byte>)
    ensures FromUrl(Padded(UrlEncode(d))) == StdEncode(d)
  {
    StdEncodeShape(d);
    PaddingRestored(d);
    var e := StdEncode(d);
    var back := FromUrl(ToUrl(e));
    forall i | 0 <= i < |e|
      ensures back[i] == e[i]
    {
      assert IsStdChar(e[i]) || e[i] == '=';
    }
  }

  /** base64URLDecode(base64URLEncode(d)) == d for every byte sequence. */
  lemma UrlRoundTrip(d: seq<byte>)
    ensures UrlDecode(UrlEncode(d)) == Ok(d)
  {
    UrlDecodeRestores(d);
    StdRoundTrip(d);
  }

  /** A quantum whose second character is '=' makes standard decoding fail. */
  lemma {:induction false} StdDecodeRejectsAt(s: string, q: nat)
    requires 4 * q + 1 < |s| && s[4 * q + 1] == '='
    ensures StdDecode(s).Err?
    decreases q
  {
    if q > 0 && |s| >= 4 && IsStdChar(s[0]) && IsStdChar(s[1]) && IsStdChar(s[2]) && IsStdChar(s[3]) {
      assert s[4..][4 * (q - 1) + 1] == s[4 * q + 1];
      StdDecodeRejectsAt(s[4..], q - 1);
    }
  }

  // ---------------------------------------------------------------- tokens

  datatype Config = Config(secretKey: string, tokenDuration: int, issuer: string)

  datatype Claims = Claims(userId: string, expiresAt: int, issuedAt: int, notBefore: int, issuer: string, subject: string)

  /**
   * The opaque collaborators: HMAC-SHA256 keyed by the secret, the JSON bytes of the fixed
   * `{"alg":"HS256","typ":"JWT"}` header, and the JSON encoding and decoding of claims.
   */
  datatype Codec = Codec(
    hmac: (string, string) -> seq<byte>,
    headerJson: seq<byte>,
    marshal: Claims -> seq<byte>,
    unmarshal: seq<byte> -> Result<Claims>)

  /** JSON decoding gives back whatever JSON encoding was given. */
  ghost predicate JsonInverts(codec: Codec)
  {
    forall c :: codec.unmarshal(codec.marshal(c)) == Ok(c)
  }

  /** `createSignature`: base64url of HMAC-SHA256(secret, input). */
  function Signature(codec: Codec, input: string, secret: string): (s: string)
    ensures '.' !in s
  {
    UrlEncode(codec.hmac(secret, input))
  }

  /** The claims `GenerateToken` issues at time `now` (seconds). */
  function IssuedClaims(userId: string, config: Config, now: int): Claims
  {
    Claims(userId, now + config.tokenDuration, now, now, config.issuer, userId)
  }

  /**
   * `GenerateToken`: header.claims.signature, where the signature covers the first two
   * segments and the '.' between them. The JSON encoder cannot fail on these types. None of
   * the three base64url segments holds a '.', so the token splits back into exactly them.
   */
  function GenerateToken(codec: Codec, userId: string, config: Config, now: int): (token: string)
    ensures var h := UrlEncode(codec.headerJson);
      var c := UrlEncode(codec.marshal(IssuedClaims(userId, config, now)));
      Split(token, '.') == [h, c, Signature(codec, h + "." + c, config.secretKey)]
  {
    var input := UrlEncode(codec.headerJson) + "." + UrlEncode(codec.marshal(IssuedClaims(userId, config, now)));
    var sig := Signature(codec, input, config.secretKey);
    JoinThree(UrlEncode(codec.headerJson), UrlEncode(codec.marshal(IssuedClaims(userId, config, now))), sig);
    SplitJoin([UrlEncode(codec.headerJson), UrlEncode(codec.marshal(IssuedClaims(userId, config, now))), sig], '.');
    input + "." + sig
  }

  /**
   * The optional session store of `ValidateToken`: for a user, the expiry times of their
   * sessions, or an error.
   */
  datatype SessionCheck = NoStore | Store(sessionsOf: string -> Result<seq<int>>)

  /** Some session expires strictly after `now`. */
  predicate HasLiveSession(expiries: seq<int>, now: int)
  {
    exists i :: 0 <= i < |expiries| && expiries[i] > now
  }

  /** `ValidateToken` at time `now`. */
  function ValidateToken(codec: Codec, token: string, config: Config, now: int, store: SessionCheck): (r: Result<Claims>)
    ensures r.Ok? ==> |Split(token, '.')| == 3
    ensures r.Ok? ==> var parts := Split(token, '.');
      parts[2] == Signature(codec, parts[0] + "." + parts[1], config.secretKey)
      && UrlDecode(parts[1]).Ok? && codec.unmarshal(UrlDecode(parts[1]).value) == Ok(r.value)
    ensures r.Ok? ==> r.value.notBefore <= now <= r.value.expiresAt
    ensures r.Ok? && store.Store? ==>
      store.sessionsOf(r.value.userId).Ok? && HasLiveSession(store.sessionsOf(r.value.userId).value, now)
  {
    var parts := Split(token, '.');
    if |parts| != 3 then Err("invalid token format")
    else if parts[2] != Signature(codec, parts[0] + "." + parts[1], config.secretKey) then Err("invalid token signature")
    else match UrlDecode(parts[1])
      case Err(m) => Err(m)
      case Ok(json) =>
        match codec.unmarshal(json)
        case Err(m) => Err(m)
        case Ok(claims) =>
          if claims.expiresAt < now then Err("token has expired")
          else if claims.notBefore > now then Err("token not valid yet")
          else if store.NoStore? then Ok(claims)
          else match store.sessionsOf(claims.userId)
            case Err(_) => Err("failed to validate user session")
            case Ok(expiries) =>
              if HasLiveSession(expiries, now) then Ok(claims) else Err("no valid session found for user")
  }

  /** The compact serialization is the three segments joined by '.'. */
  lemma JoinThree(h: string, c: string, s: string)
    ensures Join([h, c, s], '.') == h + "." + c + "." + s
  {
    assert [h, c, s][1..] == [c, s];
    assert [c, s][1..] == [s];
    assert Join([c, s], '.') == c + ['.'] + s;
  }

  /**
   * A token from `GenerateToken` validates under the same configuration (without a session
   * store) at any time from its issue to its expiry inclusive, and yields the issued claims.
   */
  lemma GenerateThenValidate(codec: Codec, userId: string, config: Config, issued: int, now: int)
    requires JsonInverts(codec)
    requires issued <= now <= issued + config.tokenDuration
    ensures ValidateToken(codec, GenerateToken(codec, userId, config, issued), config, now, NoStore)
      == Ok(IssuedClaims(userId, config, issued))
  {
    UrlRoundTrip(codec.marshal(IssuedClaims(userId, config, issued)));
  }

  /** A token expiring exactly now is still accepted; one second later it is not. */
  lemma ExpiryIsInclusive(codec: Codec, userId: string, config: Config, issued: int)
    requires JsonInverts(codec)
    requires config.tokenDuration >= 0
    ensures ValidateToken(codec, GenerateToken(codec, userId, config, issued), config, issued + config.tokenDuration, NoStore).Ok?
    ensures ValidateToken(codec, GenerateToken(codec, userId, config, issued), config, issued + config.tokenDuration + 1, NoStore)
      == Err("token has expired")
  {
    GenerateThenValidate(codec, userId, config, issued, issued + config.tokenDuration);
    UrlRoundTrip(codec.marshal(IssuedClaims(userId, config, issued)));
  }

  /** Changing the signature segment of a token makes it invalid. */
  lemma TamperedSignatureRejected(codec: Codec, h: string, c: string, sig: string, config: Config, now: int, store: SessionCheck)
    requires '.' !in h && '.' !in c && '.' !in sig
    requires sig != Signature(codec, h + "." + c, config.secretKey)
    ensures ValidateToken(codec, h + "." + c + "." + sig, config, now, store) == Err("invalid token signature")
  {
    JoinThree(h, c, sig);
    SplitJoin([h, c, sig], '.');
  }

  // ---------------------------------------------------------------- extracting the token

  /**
   * `ExtractTokenFromRequest`, given the first `Authorization` header value and the first
   * `token` query value ("" when absent).
   */
  function ExtractToken(authHeader: string, tokenParam: string): (r: Result<string>)
    ensures r.Err? <==> tokenParam == "" && !(authHeader != "" && Split(authHeader, ' ')[0] == "Bearer" && |Split(authHeader, ' ')| == 2)
  {
    var parts := Split(authHeader, ' ');
    if authHeader != "" && |parts| == 2 && parts[0] == "Bearer" then Ok(parts[1])
    else if tokenParam != "" then Ok(tokenParam)
    else Err("token not found in Authorization header or URL parameter")
  }

  /** "Bearer t", for a token without spaces, yields t whatever the query says. */
  lemma BearerHeaderWins(t: string, tokenParam: string)
    requires ' ' !in t
    ensures ExtractToken("Bearer " + t, tokenParam) == Ok(t)
  {
    SplitCons("Bearer", ' ', t);
    assert "Bearer" + [' '] + t == "Bearer " + t;
  }

  /** A header that is not exactly two space-separated words starting with "Bearer" defers to the query. */
  lemma OtherHeaderDefers(authHeader: string, tokenParam: string)
    requires |Split(authHeader, ' ')| != 2 || Split(authHeader, ' ')[0] != "Bearer"
    ensures ExtractToken(authHeader, tokenParam) == if tokenParam != "" then Ok(tokenParam)
      else Err("token not found in Authorization header or URL parameter")
  {
  }
}
