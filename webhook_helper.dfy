/**
 * `GithubWebhookHelper` (SS14.MapServer/Helpers/GithubWebhookHelper.cs):
 * the lowercase hex encoder `ToHexString` and the decision of `VerifyWebhook`
 * whether a delivery carries a valid `X-Hub-Signature-256`.
 *
 * HMAC-SHA256 (RFC 2104 over FIPS 180-4) is not modelled: it is the parameter
 * `hmac(key, message)`. Reading the request body is not modelled either: the
 * payload is a parameter.
 */
module WebhookHelper {
  import opened Wrappers
  import opened Strings

  newtype byte = b: int | 0 <= b < 256

  const ShaPrefix: string := "sha256="

  /** The lowercase hex digit of a nibble, as `{0:x2}` writes it. */
  function HexDigit(n: int): (c: char)
    requires 0 <= n < 16
    ensures ('0' <= c <= '9') || ('a' <= c <= 'f')
  {
    if n < 10 then ('0' as int + n) as char else ('a' as int + n - 10) as char
  }

  /** `{0:x2}` of one byte: high nibble, then low nibble. */
  function ByteHex(b: byte): string {
    [HexDigit(b as int / 16), HexDigit(b as int % 16)]
  }

  /** The text `ToHexString` builds: the bytes' `{0:x2}` forms, in input order. */
  function Hex(bytes: seq<byte>): string
    decreases |bytes|
  {
    if |bytes| == 0 then "" else Hex(bytes[..|bytes| - 1]) + ByteHex(bytes[|bytes| - 1])
  }

  /**
   * `ToHexString`: one `AppendFormat("{0:x2}", b)` per byte, in order.
   */
  method ToHexString(bytes: seq<byte>) returns (s: string)
    ensures s == Hex(bytes)
  {
    s := "";
    var i := 0;
    while i < |bytes|
      invariant 0 <= i <= |bytes|
      invariant s == Hex(bytes[..i])
    {
      assert bytes[..i + 1][..i] == bytes[..i];
      s := s + ByteHex(bytes[i]);
      i := i + 1;
    }
    assert bytes[..|bytes|] == bytes;
  }

  /** The hex text is exactly twice as long as the input. */
  lemma {:induction false} HexLength(bytes: seq<byte>)
    ensures |Hex(bytes)| == 2 * |bytes|
    decreases |bytes|
  {
    if |bytes| > 0 {
      HexLength(bytes[..|bytes| - 1]);
    }
  }

  /** Encoding a concatenation concatenates the encodings. */
  lemma {:induction false} HexConcat(a: seq<byte>, b: seq<byte>)
    ensures Hex(a + b) == Hex(a) + Hex(b)
    decreases |b|
  {
    if |b| == 0 {
      assert a + b == a;
    } else {
      assert (a + b)[..|a + b| - 1] == a + b[..|b| - 1];
      HexConcat(a, b[..|b| - 1]);
    }
  }

  /** Byte i becomes the two characters at 2i and 2i + 1: its high nibble, then its low nibble. */
  lemma {:induction false} HexAt(bytes: seq<byte>, i: nat)
    requires i < |bytes|
    ensures |Hex(bytes)| == 2 * |bytes|
    ensures Hex(bytes)[2 * i] == HexDigit(bytes[i] as int / 16)
    ensures Hex(bytes)[2 * i + 1] == HexDigit(bytes[i] as int % 16)
  {
    HexLength(bytes);
    var front, rest := bytes[..i], bytes[i..];
    assert bytes == front + rest;
    HexConcat(front, rest);
    assert rest == [bytes[i]] + rest[1..];
    HexConcat([bytes[i]], rest[1..]);
    assert [bytes[i]][..0] == [];
    HexLength(front);
  }

  /** Every character of the encoding is a decimal digit or one of 'a' .. 'f'. */
  lemma HexLowercase(bytes: seq<byte>, k: nat)
    requires k < |Hex(bytes)|
    ensures ('0' <= Hex(bytes)[k] <= '9') || ('a' <= Hex(bytes)[k] <= 'f')
  {
    HexLength(bytes);
    HexAt(bytes, k / 2);
    assert k == 2 * (k / 2) || k == 2 * (k / 2) + 1;
  }

  /** The value of a lowercase hex digit. */
  function HexValue(c: char): (v: Option<int>)
    ensures v.Some? ==> 0 <= v.value < 16 && HexDigit(v.value) == c
  {
    if '0' <= c <= '9' then Some(c as int - '0' as int)
    else if 'a' <= c <= 'f' then Some(c as int - 'a' as int + 10)
    else None
  }

  /** A hex decoder: pairs of lowercase digits back to bytes, None on anything else. */
  function FromHex(s: string): Option<seq<byte>>
    decreases |s|
  {
    if |s| == 0 then Some([])
    else if |s| == 1 then None
    else
      match (HexValue(s[0]), HexValue(s[1]), FromHex(s[2..]))
      case (Some(hi), Some(lo), Some(rest)) => Some([(hi * 16 + lo) as byte] + rest)
      case _ => None
  }

  lemma HexValueOfDigit(n: int)
    requires 0 <= n < 16
    ensures HexValue(HexDigit(n)) == Some(n)
  {
  }

  /** The decoder recovers the bytes: `ToHexString` loses nothing. */
  lemma {:induction false} FromHexHex(bytes: seq<byte>)
    ensures FromHex(Hex(bytes)) == Some(bytes)
    decreases |bytes|
  {
    if |bytes| > 0 {
      var b, rest := bytes[0], bytes[1..];
      assert bytes == [b] + rest;
      HexConcat([b], rest);
      assert [b][..0] == [];
      var s := Hex(bytes);
      assert s == ByteHex(b) + Hex(rest);
      assert s[2..] == Hex(rest);
      FromHexHex(rest);
      HexValueOfDigit(b as int / 16);
      HexValueOfDigit(b as int % 16);
      assert (b as int / 16 * 16 + b as int % 16) as byte == b;
    }
  }

  /** Different byte arrays never have the same hex text. */
  lemma HexInjective(a: seq<byte>, b: seq<byte>)
    requires Hex(a) == Hex(b)
    ensures a == b
  {
    FromHexHex(a);
    FromHexHex(b);
  }

  /** `Encoding.ASCII.GetBytes`: a character outside ASCII becomes '?'. */
  function AsciiBytes(s: string): (r: seq<byte>)
    ensures |r| == |s|
    ensures forall i :: 0 <= i < |s| ==> r[i] as int == (if s[i] as int < 128 then s[i] as int else '?' as int)
  {
    seq(|s|, i requires 0 <= i < |s| => if s[i] as int < 128 then s[i] as int as byte else '?' as int as byte)
  }

  /** The UTF-8 encoding of one Unicode scalar value. */
  function Utf8Char(c: char): (r: seq<byte>)
    ensures 1 <= |r| <= 4
    ensures (c as int < 128) <==> |r| == 1
    ensures c as int < 128 ==> r[0] as int == c as int
  {
    var n := c as int;
    if n < 0x80 then [n as byte]
    else if n < 0x800 then [(0xC0 + n / 64) as byte, (0x80 + n % 64) as byte]
    else if n < 0x1_0000 then [(0xE0 + n / 4096) as byte, (0x80 + n / 64 % 64) as byte, (0x80 + n % 64) as byte]
    else [(0xF0 + n / 262144) as byte, (0x80 + n / 4096 % 64) as byte, (0x80 + n / 64 % 64) as byte, (0x80 + n % 64) as byte]
  }

  /** `Encoding.UTF8.GetBytes`. */
  function Utf8Bytes(s: string): seq<byte>
    decreases |s|
  {
    if |s| == 0 then [] else Utf8Char(s[0]) + Utf8Bytes(s[1..])
  }

  /** On ASCII text the two encodings agree. */
  lemma {:induction false} Utf8OfAscii(s: string)
    requires forall i :: 0 <= i < |s| ==> s[i] as int < 128
    ensures Utf8Bytes(s) == AsciiBytes(s)
    decreases |s|
  {
    if |s| > 0 {
      Utf8OfAscii(s[1..]);
      assert AsciiBytes(s) == [AsciiBytes(s)[0]] + AsciiBytes(s[1..]);
    }
  }

  /** The three GitHub headers `VerifyWebhook` looks up; None when absent. */
  datatype WebhookHeaders = WebhookHeaders(event: Option<string>, signature: Option<string>, delivery: Option<string>)

  datatype WebhookError = SecretNotSet  // "Webkook secret not set"

  /** The signature GitHub sends for `payload` under `secret`: lowercase hex of the HMAC. */
  function ExpectedSignature(secret: string, payload: string, hmac: (seq<byte>, seq<byte>) -> seq<byte>): string {
    Hex(hmac(AsciiBytes(secret), Utf8Bytes(payload)))
  }

  /**
   * `VerifyWebhook`: an unset or empty `Github:AppWebhookSecret` is an error;
   * otherwise the delivery is accepted exactly when all three headers are
   * present, the payload is not blank, and the signature header is `sha256=`
   * (any case) followed by exactly the expected lowercase hex signature.
   */
  function VerifyWebhook(secret: Option<string>, headers: WebhookHeaders, payload: string,
                         hmac: (seq<byte>, seq<byte>) -> seq<byte>): (r: Result<bool, WebhookError>)
    ensures r.Err? <==> secret.None? || secret.value == ""
    ensures r == Ok(true) <==>
      && secret.Some? && secret.value != ""
      && headers.event.Some? && headers.signature.Some? && headers.delivery.Some?
      && !IsNullOrWhiteSpace(payload)
      && StartsWithIgnoreCase(headers.signature.value, ShaPrefix)
      && headers.signature.value[|ShaPrefix|..] == ExpectedSignature(secret.value, payload, hmac)
  {
    if secret.None? || secret.value == "" then Err(SecretNotSet)
    else if headers.event.None? || headers.signature.None? || headers.delivery.None? then Ok(false)
    else if IsNullOrWhiteSpace(payload) then Ok(false)
    else
      var prefixed := headers.signature.value;
      if StartsWithIgnoreCase(prefixed, ShaPrefix) then
        Ok(prefixed[|ShaPrefix|..] == ExpectedSignature(secret.value, payload, hmac))
      else Ok(false)
  }

  /** An accepted signature header is seven prefix characters and two hex digits per HMAC byte. */
  lemma AcceptedSignatureLength(secret: Option<string>, headers: WebhookHeaders, payload: string,
                                hmac: (seq<byte>, seq<byte>) -> seq<byte>)
    requires VerifyWebhook(secret, headers, payload, hmac) == Ok(true)
    ensures headers.signature.Some?
    ensures |headers.signature.value| == |ShaPrefix| + 2 * |hmac(AsciiBytes(secret.value), Utf8Bytes(payload))|
  {
    HexLength(hmac(AsciiBytes(secret.value), Utf8Bytes(payload)));
  }

  /** The prefix is compared without case: "SHA256=" followed by the right signature is accepted. */
  lemma UppercasePrefixAccepted(secret: string, event: string, delivery: string, payload: string,
                                hmac: (seq<byte>, seq<byte>) -> seq<byte>)
    requires secret != "" && !IsNullOrWhiteSpace(payload)
    ensures VerifyWebhook(Some(secret),
                          WebhookHeaders(Some(event), Some("SHA256=" + ExpectedSignature(secret, payload, hmac)), Some(delivery)),
                          payload, hmac) == Ok(true)
  {
    var sig := "SHA256=" + ExpectedSignature(secret, payload, hmac);
    assert sig[|ShaPrefix|..] == ExpectedSignature(secret, payload, hmac);
  }

  /**
   * The hex digits themselves are compared exactly: a signature whose digits
   * contain an upper-case letter is never accepted.
   */
  lemma UppercaseDigitsRejected(secret: Option<string>, headers: WebhookHeaders, payload: string,
                                hmac: (seq<byte>, seq<byte>) -> seq<byte>, k: nat)
    requires headers.signature.Some?
    requires |ShaPrefix| <= k < |headers.signature.value| && 'A' <= headers.signature.value[k] <= 'F'
    ensures VerifyWebhook(secret, headers, payload, hmac) != Ok(true)
  {
    if VerifyWebhook(secret, headers, payload, hmac) == Ok(true) {
      var expected := ExpectedSignature(secret.value, payload, hmac);
      assert headers.signature.value[|ShaPrefix|..][k - |ShaPrefix|] == headers.signature.value[k];
      HexLowercase(hmac(AsciiBytes(secret.value), Utf8Bytes(payload)), k - |ShaPrefix|);
    }
  }
}
