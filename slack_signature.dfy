/**
 * Slack request verification (version 0 signatures): an HMAC-SHA256 over
 * `v0:<timestamp>:<body>` with the signing secret, hex encoded and prefixed
 * with `v0=`, compared with the `X-Slack-Signature` header, and a five-minute
 * replay window on `X-Slack-Request-Timestamp`.
 */
module SlackSignature {
  import opened Wrappers
  import opened Models
  import opened Errors
  import opened JsStrings
  import opened Digests

  /** The two request headers, absent when the request does not carry them. */
  datatype SlackHeaders = SlackHeaders(signature: Option<string>, timestamp: Option<string>)

  /** An HMAC-SHA256 keyed by its first argument over its second. */
  type Hmac = (string, string) -> seq<Byte>

  const ReplayWindowSeconds := 300

  /** The configuration defines no Slack signing secret, so the read gives `undefined`. */
  const ConfiguredSigningSecret: Option<string> := None

  /** What `timingSafeEqual` throws when the two buffers differ in byte length. */
  const BufferLengthMismatch := InternalFailure("Input buffers must have the same byte length")

  function Abs(x: int): nat
  {
    if x < 0 then -x else x
  }

  function SignatureBase(timestamp: string, rawBody: string): string
  {
    "v0:" + timestamp + ":" + rawBody
  }

  /** `'v0=' + hex(HMAC)`: the version tag, then two hex digits per digest byte. */
  function ComputedSignature(secret: string, timestamp: string, rawBody: string, hmac: Hmac): (sig: string)
    ensures |sig| == 3 + 2 * |hmac(secret, SignatureBase(timestamp, rawBody))|
    ensures sig[..3] == "v0=" && sig[3..] == Hex(hmac(secret, SignatureBase(timestamp, rawBody)))
    ensures forall i :: 3 <= i < |sig| ==> sig[i] in HexDigits
  {
    "v0=" + Hex(hmac(secret, SignatureBase(timestamp, rawBody)))
  }

  /**
   * Whether the timestamp is outside the window around `nowMs` (milliseconds,
   * floored to seconds). A timestamp `parseInt` cannot read is NaN, and
   * `Math.abs(NaN) > 300` is false, so it is never stale.
   */
  predicate Stale(timestamp: string, nowMs: int)
    ensures Stale(timestamp, nowMs) <==>
      ParseInt(timestamp).Some?
      && (ParseInt(timestamp).value < nowMs / 1000 - ReplayWindowSeconds
          || ParseInt(timestamp).value > nowMs / 1000 + ReplayWindowSeconds)
  {
    var t := ParseInt(timestamp);
    t.Some? && Abs(nowMs / 1000 - t.value) > ReplayWindowSeconds
  }

  /**
   * `verifySlackSignature`: `Ok(b)` is the returned boolean, `Err` the exception
   * `timingSafeEqual` throws. With no (or an empty) secret every request passes.
   */
  function VerifySlackSignature(secret: Option<string>, headers: SlackHeaders, rawBody: string, nowMs: int, hmac: Hmac)
    : (r: Result<bool, AppError>)
    ensures OrNull(secret).None? ==> r == Ok(true)
    ensures OrNull(secret).Some? && (OrNull(headers.signature).None? || OrNull(headers.timestamp).None?) ==> r == Ok(false)
    ensures OrNull(secret).Some? && r == Ok(true) ==>
      && headers.timestamp.Some? && !Stale(headers.timestamp.value, nowMs)
      && headers.signature == Some(ComputedSignature(secret.value, headers.timestamp.value, rawBody, hmac))
    ensures OrNull(secret).Some? && OrNull(headers.timestamp).Some? && !Stale(headers.timestamp.value, nowMs)
      && headers.signature == Some(ComputedSignature(secret.value, headers.timestamp.value, rawBody, hmac))
      ==> r == Ok(true)
    ensures r.Err? ==>
      && r.error == BufferLengthMismatch
      && OrNull(secret).Some? && OrNull(headers.signature).Some? && OrNull(headers.timestamp).Some?
      && !Stale(headers.timestamp.value, nowMs)
      && Utf8Length(headers.signature.value)
         != Utf8Length(ComputedSignature(secret.value, headers.timestamp.value, rawBody, hmac))
    ensures OrNull(secret).Some? && OrNull(headers.signature).Some? && OrNull(headers.timestamp).Some?
      && !Stale(headers.timestamp.value, nowMs)
      && Utf8Length(headers.signature.value)
         != Utf8Length(ComputedSignature(secret.value, headers.timestamp.value, rawBody, hmac))
      ==> r == Err(BufferLengthMismatch)
  {
    if OrNull(secret).None? then Ok(true)
    else if OrNull(headers.signature).None? || OrNull(headers.timestamp).None? then Ok(false)
    else
      var timestamp := headers.timestamp.value;
      var signature := headers.signature.value;
      if Stale(timestamp, nowMs) then Ok(false)
      else
        var computed := ComputedSignature(secret.value, timestamp, rawBody, hmac);
        if Utf8Length(computed) != Utf8Length(signature) then Err(BufferLengthMismatch)
        else Ok(computed == signature)
  }

  /** As configured, there is no signing secret: every request is accepted, whatever its headers. */
  lemma AsConfiguredEveryRequestPasses(headers: SlackHeaders, rawBody: string, nowMs: int, hmac: Hmac)
    ensures VerifySlackSignature(ConfiguredSigningSecret, headers, rawBody, nowMs, hmac) == Ok(true)
  {
  }

  /** A request signed with the secret over its own body, stamped with the current second, passes. */
  lemma {:induction false} FreshSignedRequestPasses(secret: string, rawBody: string, nowMs: nat, hmac: Hmac)
    requires secret != ""
    ensures var timestamp := DecimalString(nowMs / 1000);
      VerifySlackSignature(Some(secret), SlackHeaders(Some(ComputedSignature(secret, timestamp, rawBody, hmac)), Some(timestamp)),
                           rawBody, nowMs, hmac) == Ok(true)
  {
    ParseDecimal(nowMs / 1000);
  }

  /**
   * A signature made for one body does not authenticate a different body, as long as
   * the HMAC tells the two signature bases apart.
   */
  lemma {:induction false} TamperedBodyRejected(secret: string, timestamp: string, body: string, forged: string, nowMs: int, hmac: Hmac)
    requires secret != "" && timestamp != ""
    requires hmac(secret, SignatureBase(timestamp, forged)) != hmac(secret, SignatureBase(timestamp, body))
    ensures var headers := SlackHeaders(Some(ComputedSignature(secret, timestamp, body, hmac)), Some(timestamp));
      VerifySlackSignature(Some(secret), headers, forged, nowMs, hmac) != Ok(true)
  {
    var signed := ComputedSignature(secret, timestamp, body, hmac);
    var headers := SlackHeaders(Some(signed), Some(timestamp));
    if VerifySlackSignature(Some(secret), headers, forged, nowMs, hmac) == Ok(true) {
      var expected := ComputedSignature(secret, timestamp, forged, hmac);
      assert signed == expected;
      assert signed[3..] == Hex(hmac(secret, SignatureBase(timestamp, body)));
      assert expected[3..] == Hex(hmac(secret, SignatureBase(timestamp, forged)));
      HexInjective(hmac(secret, SignatureBase(timestamp, body)), hmac(secret, SignatureBase(timestamp, forged)));
      assert false;
    }
  }

  /** A replayed request outside the window is refused even with a valid signature. */
  lemma StaleRequestRejected(secret: string, headers: SlackHeaders, rawBody: string, nowMs: int, hmac: Hmac)
    requires secret != "" && OrNull(headers.signature).Some? && OrNull(headers.timestamp).Some?
    requires Stale(headers.timestamp.value, nowMs)
    ensures VerifySlackSignature(Some(secret), headers, rawBody, nowMs, hmac) == Ok(false)
  {
  }

  /**
   * A timestamp with no leading digits is NaN to `parseInt`, and the replay check
   * never fires for it: the verdict is the same at every moment.
   */
  lemma NonNumericTimestampNeverExpires(secret: Option<string>, headers: SlackHeaders, rawBody: string, now1: int, now2: int, hmac: Hmac)
    requires headers.timestamp.Some? && ParseInt(headers.timestamp.value).None?
    ensures VerifySlackSignature(secret, headers, rawBody, now1, hmac) == VerifySlackSignature(secret, headers, rawBody, now2, hmac)
  {
  }
}
