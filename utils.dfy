/**
 * The utilities package: secure random strings and the public origin of a
 * request.
 */
module Utils {
  import opened Wrappers
  import opened Bytes
  import opened Base64

  /**
   * What the server reads from an incoming request. A header that is absent
   * reads as "". `scheme` is what the web framework reports as the request's
   * scheme.
   */
  datatype Request = Request(
    forwardedHost: string,   // X-Forwarded-Host
    forwardedProto: string,  // X-Forwarded-Proto
    forwardedUser: string,   // X-Forwarded-User
    host: string,
    scheme: string,
    remoteAddr: string,
    body: Option<seq<byte>>) // None when reading the body fails

  /** The 62 letters random strings are built from: digits, upper case, lower case. */
  const Letters := "0123456789" + "ABCDEFGHIJKLMNOPQRSTUVWXYZ" + "abcdefghijklmnopqrstuvwxyz"

  /** The letter a random byte is mapped to, as its ASCII code. */
  function LetterByte(b: byte): (c: byte)
    ensures IsAlphanumeric(c as char)
    ensures c as char == Letters[b % 62]
  {
    LettersAreAlphanumeric(b % 62);
    Letters[b % 62] as int
  }

  lemma LettersAreAlphanumeric(k: nat)
    requires k < 62
    ensures |Letters| == 62 && IsAlphanumeric(Letters[k]) && Letters[k] as int < 256
  {
    var digits, upper, lower := "0123456789", "ABCDEFGHIJKLMNOPQRSTUVWXYZ", "abcdefghijklmnopqrstuvwxyz";
    assert forall i :: 0 <= i < |digits| ==> '0' <= digits[i] <= '9';
    assert forall i :: 0 <= i < |upper| ==> 'A' <= upper[i] <= 'Z';
    assert forall i :: 0 <= i < |lower| ==> 'a' <= lower[i] <= 'z';
  }

  /** Every byte replaced by its letter. */
  function ToLetters(b: seq<byte>): (r: seq<byte>)
    ensures |r| == |b|
    ensures forall i :: 0 <= i < |b| ==> r[i] == LetterByte(b[i])
  {
    seq(|b|, i requires 0 <= i < |b| => LetterByte(b[i]))
  }

  /**
   * `n` bytes from the secure random source. The source is given as the
   * bytes it would deliver; one that holds fewer than `n` is a failing
   * source.
   */
  method GenerateRandomBytes(n: nat, entropy: seq<byte>) returns (r: Option<array<byte>>)
    ensures r.None? <==> |entropy| < n
    ensures r.Some? ==> fresh(r.value) && r.value[..] == entropy[..n]
  {
    if |entropy| < n {
      return None;
    }
    var b := new byte[n](i requires 0 <= i < n => entropy[i]);
    return Some(b);
  }

  /**
   * A random string: `n` random bytes are mapped in place to letters and
   * the result is encoded with the URL-safe alphabet, with padding.
   */
  method GenerateRandomString(n: nat, entropy: seq<byte>) returns (s: string, err: bool)
    ensures err <==> |entropy| < n
    ensures err ==> s == ""
    ensures !err ==> s == Encode(Url, ToLetters(entropy[..n]))
    ensures !err ==> |s| == 4 * ((n + 2) / 3)
  {
    var r := GenerateRandomBytes(n, entropy);
    if r.None? {
      return "", true;
    }
    var bytes := r.value;
    for i := 0 to bytes.Length
      invariant forall k :: 0 <= k < i ==> bytes[k] == LetterByte(entropy[k])
      invariant forall k :: i <= k < bytes.Length ==> bytes[k] == entropy[k]
    {
      bytes[i] := LetterByte(bytes[i]);
    }
    assert bytes[..] == ToLetters(entropy[..n]);
    return Encode(Url, bytes[..]), false;
  }

  /** A random string holds only URL-safe symbols and padding. */
  lemma RandomStringSymbols(b: seq<byte>)
    ensures var s := Encode(Url, ToLetters(b));
            forall i :: 0 <= i < |s| ==> s[i] == Pad || Value(Url, s[i]).Some?
  {
  }

  /** The forwarded headers count unless both are empty. */
  predicate Forwarded(req: Request) {
    req.forwardedHost != "" || req.forwardedProto != ""
  }

  /** The scheme and host of the server as the client sees it: "scheme://host". */
  function GetRequestSchemeAndHostURL(req: Request): (url: string)
    ensures Forwarded(req) ==> url == req.forwardedProto + "://" + req.forwardedHost
    ensures !Forwarded(req) ==> url == req.scheme + "://" + req.host
  {
    var host := if Forwarded(req) then req.forwardedHost else req.host;
    var scheme := if Forwarded(req) then req.forwardedProto else req.scheme;
    scheme + "://" + host
  }

  /** The position of the first ':' in `s`, or |s| when there is none. */
  function IndexOfColon(s: string): (k: nat)
    ensures k <= |s|
    ensures forall i :: 0 <= i < k ==> s[i] != ':'
    ensures k < |s| ==> s[k] == ':'
  {
    if |s| == 0 || s[0] == ':' then 0 else 1 + IndexOfColon(s[1..])
  }

  /** Splits "scheme://host" at its first ':'. */
  function SplitOrigin(url: string): Option<(string, string)> {
    var k := IndexOfColon(url);
    if k + 3 <= |url| && url[k..k + 3] == "://" then Some((url[..k], url[k + 3..])) else None
  }

  /** A scheme has no ':', so the scheme and host the URL was made from can be read back from it. */
  lemma SplitOriginRoundTrip(req: Request)
    requires ':' !in req.forwardedProto && ':' !in req.scheme
    ensures SplitOrigin(GetRequestSchemeAndHostURL(req))
            == if Forwarded(req) then Some((req.forwardedProto, req.forwardedHost))
               else Some((req.scheme, req.host))
  {
    var scheme := if Forwarded(req) then req.forwardedProto else req.scheme;
    var host := if Forwarded(req) then req.forwardedHost else req.host;
    var url := GetRequestSchemeAndHostURL(req);
    assert url == scheme + "://" + host;
    var k := IndexOfColon(url);
    assert url[|scheme|] == ':';
    assert k == |scheme|;
    assert url[k..k + 3] == "://";
    assert url[..k] == scheme && url[k + 3..] == host;
  }

  /** Forwarded host "zetta.ai" and protocol "https" give "https://zetta.ai". */
  lemma ForwardedExample(req: Request)
    requires req.forwardedHost == "zetta.ai" && req.forwardedProto == "https"
    ensures GetRequestSchemeAndHostURL(req) == "https://zetta.ai"
  {
  }

  /** Only one forwarded header set: the other part of the URL is empty, not taken from the request. */
  lemma HalfForwarded(req: Request)
    requires req.forwardedHost != "" && req.forwardedProto == ""
    ensures GetRequestSchemeAndHostURL(req) == "://" + req.forwardedHost
  {
  }
}
