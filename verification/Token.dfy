/** The per-RPC token of util/middleware/rpc_token.go: printed as
    "Bearer v1.<hex signature>.<unix seconds>" (section 2.1 of RFC 6750), parsed again,
    and valid for a window around the time of the check. Times are in nanoseconds.
    The HMAC (section 2 of RFC 2104) is any function mac of a secret and a message. */
module Token {
  import opened Prelude
  import opened Text

  type Mac = (string, string) -> seq<byte>

  const SECOND: int := 1_000_000_000
  const TOKEN_VALIDITY_DEFAULT: int := 30 * SECOND

  datatype AuthInfo = AuthInfo(version: string, signedMessage: seq<byte>, message: string)

  datatype Outcome = Accepted(info: AuthInfo) | Unauthenticated | Denied

  /** time.Time.Unix: whole seconds, rounded down. */
  function Unix(time: int): int {
    time / SECOND
  }

  function Header(signature: seq<byte>, message: string): string {
    "Bearer " + TokenText("v1", signature, message)
  }

  function TokenText(version: string, signature: seq<byte>, message: string): string {
    version + ['.'] + (HexEncode(signature) + ['.'] + message)
  }

  /** GetRequestMetadata at a given time. */
  function GetRequestMetadata(mac: Mac, secret: string, time: int): string {
    var message := FormatInt(Unix(time));
    Header(mac(secret, message), message)
  }

  // ---------- parsing ----------

  function Lower(c: char): char {
    if 'A' <= c <= 'Z' then (c as int - 'A' as int + 'a' as int) as char else c
  }

  predicate EqualFold(s: string, lower: string) {
    |s| == |lower| && forall i :: 0 <= i < |s| ==> Lower(s[i]) == lower[i]
  }

  /** strings.SplitN(s, c, 2), when it gives two parts. */
  function Cut(s: string, c: char): (parts: Option<(string, string)>)
    ensures parts.Some? ==> s == parts.value.0 + [c] + parts.value.1 && c !in parts.value.0
    ensures parts.None? ==> c !in s
  {
    var i := IndexOf(s, c);
    if i < |s| then Some((s[..i], s[i + 1..])) else assert s[..i] == s; None
  }

  /** AuthFromMD with scheme "bearer": the scheme is compared without regard to case. */
  function AuthFromMD(header: string): Option<string> {
    match Cut(header, ' ')
    case None => None
    case Some((scheme, token)) => if EqualFold(scheme, "bearer") then Some(token) else None
  }

  /** strings.SplitN(token, ".", 3) and the decoding of the middle part. */
  function ParseToken(token: string): Option<AuthInfo> {
    match Cut(token, '.')
    case None => None
    case Some((version, rest)) =>
      match Cut(rest, '.')
      case None => None
      case Some((sig, msg)) =>
        match HexDecode(sig)
        case None => None
        case Some(bytes) => Some(AuthInfo(version, bytes, msg))
  }

  function ExtractAuthInfo(header: string): Option<AuthInfo> {
    match AuthFromMD(header)
    case None => None
    case Some(token) => ParseToken(token)
  }

  predicate HmacInfoValid(mac: Mac, message: string, signedMessage: seq<byte>, secret: string, targetTime: int, validity: int) {
    signedMessage == mac(secret, message) &&
    match ParseInt(message)
    case None => false
    case Some(timestamp) =>
      var issuedAt := timestamp * SECOND;
      !(issuedAt < targetTime - validity) && !(issuedAt > targetTime + validity)
  }

  /** checkToken panics on an empty secret. */
  function CheckToken(mac: Mac, header: string, secret: string, targetTime: int, validityDuration: int): Outcome
    requires secret != ""
  {
    var validity := if validityDuration < 0 then TOKEN_VALIDITY_DEFAULT else validityDuration;
    match ExtractAuthInfo(header)
    case None => Unauthenticated
    case Some(info) =>
      if info.version == "v1" && HmacInfoValid(mac, info.message, info.signedMessage, secret, targetTime, validity)
      then Accepted(info) else Denied
  }

  // ---------- round trip ----------

  lemma CutPrefix(x: string, c: char, y: string)
    requires c !in x
    ensures Cut(x + [c] + y, c) == Some((x, y))
  {
    IndexOfPrefix(x, c, y);
    var s := x + [c] + y;
    assert s[..|x|] == x && s[|x| + 1..] == y;
  }

  /** The text of the header. */
  lemma HeaderText(mac: Mac, secret: string, time: int)
    requires time >= 0
    ensures var seconds := Decimal(time / 1_000_000_000);
            GetRequestMetadata(mac, secret, time) == "Bearer v1." + HexEncode(mac(secret, seconds)) + "." + seconds
  {
    var seconds := Decimal(time / 1_000_000_000);
    var hex := HexEncode(mac(secret, seconds));
    assert "Bearer " + ("v1" + ['.'] + (hex + ['.'] + seconds)) == "Bearer v1." + hex + "." + seconds;
  }

  /** Any signature and any message, dots and spaces included, come back from the header. */
  lemma TokenRoundTrip(signature: seq<byte>, message: string)
    ensures ExtractAuthInfo(Header(signature, message)) == Some(AuthInfo("v1", signature, message))
  {
    BearerRoundTrip(TokenText("v1", signature, message));
    PartsRoundTrip("v1", signature, message);
  }

  lemma BearerRoundTrip(token: string)
    ensures AuthFromMD("Bearer " + token) == Some(token)
  {
    assert "Bearer " + token == "Bearer" + [' '] + token;
    CutPrefix("Bearer", ' ', token);
  }

  lemma PartsRoundTrip(version: string, signature: seq<byte>, message: string)
    requires '.' !in version
    ensures ParseToken(TokenText(version, signature, message)) == Some(AuthInfo(version, signature, message))
  {
    HexRoundTrip(signature);
    CutPrefix(version, '.', HexEncode(signature) + ['.'] + message);
    CutPrefix(HexEncode(signature), '.', message);
  }

  lemma HexPairFold(c: char, d: char)
    requires HexValue(c).Some? && HexValue(d).Some?
    ensures var b := HexValue(c).value * 16 + HexValue(d).value;
            Lower(c) == HexDigit(b / 16) && Lower(d) == HexDigit(b % 16)
  {
    var h, l := HexValue(c).value, HexValue(d).value;
    assert (h * 16 + l) / 16 == h && (h * 16 + l) % 16 == l;
  }

  lemma FoldConcat(s1: string, l1: string, s2: string, l2: string)
    requires EqualFold(s1, l1) && EqualFold(s2, l2)
    ensures EqualFold(s1 + s2, l1 + l2)
  {
  }

  /** Whatever decodes is the printed hex, up to the case of its digits. */
  lemma {:induction false} HexDecodesFold(s: string)
    requires HexDecode(s).Some?
    ensures EqualFold(s, HexEncode(HexDecode(s).value))
  {
    if |s| == 0 {
    } else {
      var bytes := HexDecode(s).value;
      HexPairFold(s[0], s[1]);
      HexDecodesFold(s[2..]);
      assert bytes[1..] == HexDecode(s[2..]).value;
      FoldConcat([s[0], s[1]], [HexDigit(bytes[0] / 16), HexDigit(bytes[0] % 16)], s[2..], HexEncode(bytes[1..]));
      assert s == [s[0], s[1]] + s[2..];
    }
  }

  /** How far the issue time may lie from the time of the check. */
  ghost function Tolerance(validity: int): int {
    if validity < 0 then 30_000_000_000 else validity
  }

  /** Whatever is accepted has the printed shape, up to the case of the scheme and of the
      hex digits, carries the signature of its message, and is timed inside the window. */
  lemma AcceptedIsSigned(mac: Mac, header: string, secret: string, targetTime: int, validity: int)
    requires secret != ""
    requires CheckToken(mac, header, secret, targetTime, validity).Accepted?
    ensures var info := CheckToken(mac, header, secret, targetTime, validity).info;
            && info == AuthInfo("v1", mac(secret, info.message), info.message)
            && ParseInt(info.message).Some?
            && -Tolerance(validity) <= ParseInt(info.message).value * SECOND - targetTime <= Tolerance(validity)
            && exists scheme, hex :: EqualFold(scheme, "bearer") && EqualFold(hex, HexEncode(mac(secret, info.message))) &&
                                     header == scheme + [' '] + ("v1" + ['.'] + (hex + ['.'] + info.message))
  {
    var info := ExtractAuthInfo(header).value;
    var (scheme, token) := Cut(header, ' ').value;
    var (version, rest) := Cut(token, '.').value;
    var (hex, msg) := Cut(rest, '.').value;
    HexDecodesFold(hex);
    assert header == scheme + [' '] + ("v1" + ['.'] + (hex + ['.'] + info.message));
  }

  // ---------- the three answers ----------

  /** Letters compare equal to themselves and to their capitals. */
  lemma EqualFoldIff(s: string, lower: string)
    requires forall c :: c in lower ==> 'a' <= c <= 'z'
    ensures EqualFold(s, lower) <==>
            |s| == |lower| && forall i :: 0 <= i < |s| ==> s[i] == lower[i] || s[i] as int == lower[i] as int - 32
  {
    if |s| == |lower| {
      forall i | 0 <= i < |s|
        ensures Lower(s[i]) == lower[i] <==> s[i] == lower[i] || s[i] as int == lower[i] as int - 32
      {
        assert lower[i] in lower;
      }
    }
  }

  /** A header with a bearer token of three parts, the second in hexadecimal. */
  ghost predicate Parts(header: string, scheme: string, version: string, hex: string, message: string) {
    && header == scheme + [' '] + (version + ['.'] + (hex + ['.'] + message))
    && EqualFold(scheme, "bearer") && ' ' !in scheme && '.' !in version && '.' !in hex && HexDecode(hex).Some?
  }

  lemma PartsAreExtracted(header: string, scheme: string, version: string, hex: string, message: string)
    requires Parts(header, scheme, version, hex, message)
    ensures ExtractAuthInfo(header) == Some(AuthInfo(version, HexDecode(hex).value, message))
  {
    CutPrefix(scheme, ' ', version + ['.'] + (hex + ['.'] + message));
    CutPrefix(version, '.', hex + ['.'] + message);
    CutPrefix(hex, '.', message);
  }

  lemma ExtractedHasParts(header: string)
    requires ExtractAuthInfo(header).Some?
    ensures exists scheme, version, hex, message :: Parts(header, scheme, version, hex, message)
  {
    var (scheme, token) := Cut(header, ' ').value;
    var (version, rest) := Cut(token, '.').value;
    var (hex, message) := Cut(rest, '.').value;
    assert Parts(header, scheme, version, hex, message);
  }

  /** Every header: without the three parts it is unauthenticated; with them it is accepted
      exactly when the version is v1, the signature is that of the message, and the message
      is a time inside the window; and otherwise it is denied. */
  lemma EveryHeader(mac: Mac, header: string, secret: string, targetTime: int, validity: int)
    requires secret != ""
    ensures var outcome := CheckToken(mac, header, secret, targetTime, validity);
            && (outcome == Unauthenticated <==>
                  !exists scheme, version, hex, message :: Parts(header, scheme, version, hex, message))
            && forall scheme, version, hex, message :: Parts(header, scheme, version, hex, message) ==>
                 if && version == "v1" && HexDecode(hex) == Some(mac(secret, message)) && ParseInt(message).Some?
                    && -Tolerance(validity) <= ParseInt(message).value * 1_000_000_000 - targetTime <= Tolerance(validity)
                 then outcome == Accepted(AuthInfo("v1", mac(secret, message), message))
                 else outcome == Denied
  {
    if ExtractAuthInfo(header).Some? {
      ExtractedHasParts(header);
    }
    forall scheme, version, hex, message | Parts(header, scheme, version, hex, message)
      ensures ExtractAuthInfo(header) == Some(AuthInfo(version, HexDecode(hex).value, message))
    {
      PartsAreExtracted(header, scheme, version, hex, message);
    }
  }

  // ---------- the window ----------

  predicate In64BitSeconds(time: int) {
    -TWO_TO_63 <= Unix(time) < TWO_TO_63
  }

  /** A token issued at one time and checked with the same secret at another is accepted
      exactly when the issue time, cut to whole seconds, is within the tolerance of the
      check, thirty seconds for a negative validity; otherwise it is denied. */
  lemma TokenWindow(mac: Mac, secret: string, issued: int, checked: int, validity: int)
    requires secret != "" && In64BitSeconds(issued)
    ensures var message := FormatInt(Unix(issued));
            var outcome := CheckToken(mac, GetRequestMetadata(mac, secret, issued), secret, checked, validity);
            && (outcome.Accepted? <==> -Tolerance(validity) <= issued / SECOND * SECOND - checked <= Tolerance(validity))
            && outcome in {Accepted(AuthInfo("v1", mac(secret, message), message)), Denied}
  {
    var message := FormatInt(Unix(issued));
    TokenRoundTrip(mac(secret, message), message);
    FormatParseInt(Unix(issued));
  }

  /** In terms of the true issue time: the truncation can shorten the future side of the
      window by less than a second and lengthen the past side by as much. */
  lemma TokenWindowBounds(mac: Mac, secret: string, issued: int, checked: int, validity: int)
    requires secret != "" && In64BitSeconds(issued)
    ensures var outcome := CheckToken(mac, GetRequestMetadata(mac, secret, issued), secret, checked, validity);
            var d := Tolerance(validity);
            && (issued - d <= checked <= issued + d - SECOND ==> outcome.Accepted?)
            && (checked > issued + d || checked <= issued - d - SECOND ==> outcome == Denied)
  {
    TokenWindow(mac, secret, issued, checked, validity);
  }
}
