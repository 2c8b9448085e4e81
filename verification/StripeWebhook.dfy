/** Stripe webhook signatures: parsing the header, searching the secrets, and
    the header printer that goes with them. */
module StripeWebhook {
  import opened Wrappers
  import opened Text
  import opened Json
  import opened SignatureHeader
  import Base64Url

  type Bytes = seq<Base64Url.Byte>

  /** UTF-8 decoding, the keyed digest in hexadecimal, and JSON parsing. */
  datatype Primitives = Primitives(
    decode: Bytes -> Option<string>,
    digest: (string, string) -> string,
    loads: Bytes -> Option<Value>)

  predicate IsHex(s: string) {
    s != "" && forall c :: c in s ==> IsHexDigit(c)
  }

  ghost predicate Lawful(p: Primitives) {
    forall secret, text :: IsHex(p.digest(secret, text))
  }

  datatype Parsed = Parsed(timestamp: int, signatures: seq<string>) | Malformed(reason: Reason)

  // ---- Parsing ------------------------------------------------------------------

  function ParseValues(timestamps: seq<string>, signatures: seq<string>): Parsed {
    if timestamps == [] || signatures == [] then Malformed(MalformedHeader)
    else
      match ParseInt(timestamps[0])
      case None => Malformed(MalformedTimestamp)
      case Some(t) => Parsed(t, signatures)
  }

  function ParseItems(items: seq<string>): Parsed {
    ParseValues(ValuesOf(items, "t"), ValuesOf(items, "v1"))
  }

  /** The first `t` and every `v1`. */
  function Parse(header: string): Parsed {
    ParseItems(Split(header, ','))
  }

  ghost predicate Collected(values: map<string, seq<string>>, items: seq<string>) {
    && "" !in values
    && (forall key :: key in values ==> values[key] == ValuesOf(items, key))
    && (forall key :: key !in values && key != "" ==> ValuesOf(items, key) == [])
  }

  function Collect(values: map<string, seq<string>>, item: string): map<string, seq<string>> {
    var key, value := KeyOf(item), ValueOf(item);
    if key != "" && value != "" then values[key := (if key in values then values[key] else []) + [value]]
    else values
  }

  lemma CollectOneMore(values: map<string, seq<string>>, items: seq<string>, item: string)
    requires Collected(values, items)
    ensures Collected(Collect(values, item), items + [item])
  {
  }

  /** The dictionary of lists the parser fills. */
  method CollectValues(items: seq<string>) returns (values: map<string, seq<string>>)
    ensures Collected(values, items)
  {
    values := map[];
    for i := 0 to |items|
      invariant Collected(values, items[..i])
    {
      CollectOneMore(values, items[..i], items[i]);
      assert items[..i + 1] == items[..i] + [items[i]];
      values := Collect(values, items[i]);
    }
    assert items[..|items|] == items;
  }

  /** `values.get(key, [])`. */
  method Get(values: map<string, seq<string>>, ghost items: seq<string>, key: string) returns (r: seq<string>)
    requires Collected(values, items) && key != ""
    ensures r == ValuesOf(items, key)
  {
    r := if key in values then values[key] else [];
  }

  method ParseSignatureHeader(header: string) returns (r: Parsed)
    ensures r == Parse(header)
  {
    var items := Split(header, ',');
    var values := CollectValues(items);
    var timestamps := Get(values, items, "t");
    var signatures := Get(values, items, "v1");
    r := ParseValues(timestamps, signatures);
  }

  // ---- Verifying ----------------------------------------------------------------

  /** [s.strip() for s in setting.split(",") if s.strip()] */
  function NonBlank(parts: seq<string>): seq<string> {
    if |parts| == 0 then []
    else NonBlank(parts[..|parts| - 1]) +
         (if Strip(parts[|parts| - 1]) != "" then [Strip(parts[|parts| - 1])] else [])
  }

  function Secrets(setting: string): seq<string> {
    NonBlank(Split(setting, ','))
  }

  function SignedPayload(timestamp: int, text: string): string {
    IntToString(timestamp) + "." + text
  }

  function Digests(p: Primitives, secrets: seq<string>, signed: string): (digests: seq<string>)
    ensures |digests| == |secrets|
  {
    seq(|secrets|, i requires 0 <= i < |secrets| => p.digest(secrets[i], signed))
  }

  function WithinTolerance(now: int, timestamp: int, tolerance: int): bool {
    -tolerance <= now - timestamp <= tolerance
  }

  /** Once the header is parsed. */
  function Judge(p: Primitives, payload: Bytes, timestamp: int, signatures: seq<string>, secrets: seq<string>,
                 now: int, tolerance: int): Outcome {
    if !WithinTolerance(now, timestamp, tolerance) then Refused(OutsideTolerance)
    else
      match p.decode(payload)
      case None => Refused(NotUtf8)
      case Some(text) =>
        Conclude(p.loads(payload), SearchAll(Digests(p, secrets, SignedPayload(timestamp, text)), signatures))
  }

  function Verify(p: Primitives, payload: Bytes, header: Option<string>, setting: Option<string>,
                  now: int, tolerance: int): Outcome {
    if header.None? || header.value == "" then Refused(MissingHeader)
    else if setting.None? then Refused(NotConfigured)
    else JudgeParsed(p, payload, Parse(header.value), Secrets(setting.value), now, tolerance)
  }

  function JudgeParsed(p: Primitives, payload: Bytes, parsed: Parsed, secrets: seq<string>,
                       now: int, tolerance: int): Outcome {
    match parsed
    case Malformed(reason) => Refused(reason)
    case Parsed(timestamp, signatures) => Judge(p, payload, timestamp, signatures, secrets, now, tolerance)
  }

  lemma DigestIsAscii(p: Primitives, secret: string, text: string)
    requires Lawful(p)
    ensures IsAscii(p.digest(secret, text))
  {
  }

  /** The loop over the secrets with its `verified` flag. */
  method SearchSecrets(p: Primitives, secrets: seq<string>, signed: string, signatures: seq<string>) returns (r: Search)
    requires Lawful(p)
    ensures r == SearchAll(Digests(p, secrets, signed), signatures)
  {
    ghost var expected := Digests(p, secrets, signed);
    assert AllAscii(signatures) ==> signatures[..Cut(signatures)] == signatures;
    for i := 0 to |secrets|
      invariant forall j :: 0 <= j < i ==> expected[j] !in signatures
      invariant i > 0 ==> AllAscii(signatures)
    {
      DigestIsAscii(p, secrets[i], signed);
      var one := AnyMatches(p.digest(secrets[i], signed), signatures);
      if !one.NoMatch? {
        assert one.Matched? ==> expected[i] in expected && expected[i] in signatures;
        return one;
      }
    }
    return NoMatch;
  }

  method VerifyWebhook(p: Primitives, payload: Bytes, header: Option<string>, setting: Option<string>,
                       now: int, tolerance: int) returns (r: Outcome)
    requires Lawful(p)
    ensures r == Verify(p, payload, header, setting, now, tolerance)
  {
    if header.None? || header.value == "" {
      return Refused(MissingHeader);
    }
    if setting.None? {
      return Refused(NotConfigured);
    }
    var parsed := ParseSignatureHeader(header.value);
    if parsed.Malformed? {
      return Refused(parsed.reason);
    }
    var secrets := Secrets(setting.value);
    assert Verify(p, payload, header, setting, now, tolerance)
        == Judge(p, payload, parsed.timestamp, parsed.signatures, secrets, now, tolerance);
    var distance := if now < parsed.timestamp then parsed.timestamp - now else now - parsed.timestamp;
    if distance > tolerance {
      return Refused(OutsideTolerance);
    }
    var text := p.decode(payload);
    if text.None? {
      return Refused(NotUtf8);
    }
    var found := SearchSecrets(p, secrets, SignedPayload(parsed.timestamp, text.value), parsed.signatures);
    return Conclude(p.loads(payload), found);
  }

  // ---- What the setting and the header say -------------------------------------------

  lemma NonBlankOneMore(parts: seq<string>, part: string)
    ensures NonBlank(parts + [part]) == NonBlank(parts) + (if Strip(part) != "" then [Strip(part)] else [])
  {
    assert (parts + [part])[..|parts|] == parts;
  }

  lemma SecretsOneMore(setting: string, entry: string)
    requires ',' !in entry
    ensures Secrets(setting + "," + entry) == Secrets(setting) + (if Strip(entry) != "" then [Strip(entry)] else [])
  {
    SplitAt(setting, ',', entry);
    SplitOne(entry, ',');
    NonBlankOneMore(Split(setting, ','), entry);
  }

  lemma BlanksHaveNoComma(blanks: string)
    requires AllSpace(blanks)
    ensures ',' !in blanks
  {
  }

  /** A secret may have blanks on either side in the list. */
  lemma SecretAmongBlanks(setting: string, before: string, secret: string, after: string)
    requires AllSpace(before) && AllSpace(after) && ',' !in secret
    requires secret != "" && !IsSpace(secret[0]) && !IsSpace(secret[|secret| - 1])
    ensures Secrets(setting + "," + (before + secret + after)) == Secrets(setting) + [secret]
  {
    BlanksHaveNoComma(before);
    BlanksHaveNoComma(after);
    StripBlanks(before, secret, after);
    SecretsOneMore(setting, before + secret + after);
  }

  /** A blank entry is none. */
  lemma BlankEntryIsIgnored(setting: string, blanks: string)
    requires AllSpace(blanks)
    ensures Secrets(setting + "," + blanks) == Secrets(setting)
  {
    BlanksHaveNoComma(blanks);
    NothingButBlanks(blanks);
    SecretsOneMore(setting, blanks);
  }

  lemma SingleSecret(secret: string)
    requires ',' !in secret && secret != "" && Strip(secret) == secret
    ensures Secrets(secret) == [secret]
  {
    SplitOne(secret, ',');
    assert [] + [secret] == [secret];
    NonBlankOneMore([], secret);
  }

  /** A header is malformed for want of a `t` or a `v1` with a value, and otherwise
      when its first `t` is no integer. */
  lemma MalformedIff(header: string)
    ensures var items := Split(header, ',');
            && (Parse(header) == Malformed(MalformedHeader)
                <==> !(exists i :: i in items && KeyOf(i) == "t" && ValueOf(i) != "")
                     || !(exists i :: i in items && KeyOf(i) == "v1" && ValueOf(i) != ""))
            && (Parse(header) == Malformed(MalformedTimestamp)
                <==> ValuesOf(items, "t") != [] && ValuesOf(items, "v1") != []
                     && ParseInt(ValuesOf(items, "t")[0]).None?)
  {
    HasValueIff(Split(header, ','), "t");
    HasValueIff(Split(header, ','), "v1");
  }

  // ---- What is accepted -------------------------------------------------------------

  /** Secret i and candidate j agree, and no comparison before theirs raises. */
  ghost predicate Agree(p: Primitives, secrets: seq<string>, signed: string, signatures: seq<string>, i: nat, j: nat) {
    i < |secrets| && j < |signatures| && p.digest(secrets[i], signed) == signatures[j]
    && (AllAscii(signatures) || (i == 0 && j < Cut(signatures)))
  }

  lemma MatchedIffSomePairAgrees(p: Primitives, secrets: seq<string>, signed: string, signatures: seq<string>)
    ensures SearchAll(Digests(p, secrets, signed), signatures) == Matched
            <==> exists i: nat, j: nat :: Agree(p, secrets, signed, signatures, i, j)
  {
    var expected := Digests(p, secrets, signed);
    var cut := Cut(signatures);
    if i: nat, j: nat :| Agree(p, secrets, signed, signatures, i, j) {
      assert expected[i] in expected;
      if !AllAscii(signatures) {
        assert signatures[..cut][j] == expected[0];
      }
    }
    if SearchAll(expected, signatures) == Matched {
      if AllAscii(signatures) {
        var e :| e in expected && e in signatures;
        var i :| 0 <= i < |expected| && expected[i] == e;
        var j :| 0 <= j < |signatures| && signatures[j] == e;
        assert Agree(p, secrets, signed, signatures, i, j);
      } else {
        var j :| 0 <= j < cut && signatures[..cut][j] == expected[0];
        assert Agree(p, secrets, signed, signatures, 0, j);
      }
    }
  }

  lemma JudgedAcceptedIff(p: Primitives, payload: Bytes, timestamp: int, signatures: seq<string>, secrets: seq<string>,
                          now: int, tolerance: int, event: Fields)
    ensures Judge(p, payload, timestamp, signatures, secrets, now, tolerance) == Accepted(event)
            <==> && WithinTolerance(now, timestamp, tolerance)
                 && p.decode(payload).Some?
                 && (exists i: nat, j: nat ::
                       Agree(p, secrets, SignedPayload(timestamp, p.decode(payload).value), signatures, i, j))
                 && p.loads(payload) == Some(Object(event))
  {
    if p.decode(payload).Some? {
      MatchedIffSomePairAgrees(p, secrets, SignedPayload(timestamp, p.decode(payload).value), signatures);
    }
  }

  /** A payload is accepted if and only if the first `t` is within tolerance,
      some secret and some `v1` candidate match on it, and the body is a JSON
      object in UTF-8. */
  lemma AcceptedIff(p: Primitives, payload: Bytes, header: string, setting: string, now: int, tolerance: int,
                    event: Fields)
    ensures Verify(p, payload, Some(header), Some(setting), now, tolerance) == Accepted(event)
            <==> && header != ""
                 && Parse(header).Parsed?
                 && WithinTolerance(now, Parse(header).timestamp, tolerance)
                 && p.decode(payload).Some?
                 && (exists i: nat, j: nat ::
                       Agree(p, Secrets(setting), SignedPayload(Parse(header).timestamp, p.decode(payload).value),
                             Parse(header).signatures, i, j))
                 && p.loads(payload) == Some(Object(event))
  {
    var parsed := Parse(header);
    if parsed.Parsed? {
      JudgedAcceptedIff(p, payload, parsed.timestamp, parsed.signatures, Secrets(setting), now, tolerance, event);
    }
  }

  // ---- The header printer --------------------------------------------------------------

  function MakeHeader(p: Primitives, text: string, secret: string, timestamp: int): string {
    "t=" + IntToString(timestamp) + ",v1=" + p.digest(secret, SignedPayload(timestamp, text))
  }

  lemma SplitPair(a: string, b: string)
    requires ',' !in a && ',' !in b
    ensures Split(a + "," + b, ',') == [a, b]
  {
    SplitAt(a, ',', b);
    SplitOne(a, ',');
    SplitOne(b, ',');
  }

  lemma ParseTwoItems(t: string, digest: string, timestamp: int)
    requires t != "" && digest != "" && ',' !in t && ',' !in digest && ParseInt(t) == Some(timestamp)
    ensures Parse("t=" + t + ",v1=" + digest) == Parsed(timestamp, [digest])
  {
    var a, b := "t=" + t, "v1=" + digest;
    SplitPair(a, b);
    assert "t=" + t + ",v1=" + digest == a + "," + b;
    TimestampAndDigest(t, digest);
    assert ParseItems([a, b]) == ParseValues([t], [digest]);
  }

  lemma ParseMadeHeader(p: Primitives, text: string, secret: string, timestamp: int)
    requires Lawful(p)
    ensures Parse(MakeHeader(p, text, secret, timestamp))
            == Parsed(timestamp, [p.digest(secret, SignedPayload(timestamp, text))])
  {
    IntToStringChars(timestamp);
    ParseIntToString(timestamp);
    assert IsHex(p.digest(secret, SignedPayload(timestamp, text)));
    ParseTwoItems(IntToString(timestamp), p.digest(secret, SignedPayload(timestamp, text)), timestamp);
  }

  lemma {:induction false} NonBlankHolds(parts: seq<string>, secret: string)
    requires secret in parts && secret != "" && Strip(secret) == secret
    ensures secret in NonBlank(parts)
  {
    var n := |parts| - 1;
    if parts[n] != secret {
      assert parts == parts[..n] + [parts[n]];
      NonBlankHolds(parts[..n], secret);
    }
  }

  /** Every header the printer makes for a JSON-object payload is accepted within
      tolerance, whichever place the secret has among the configured ones. */
  lemma MadeHeaderIsAccepted(p: Primitives, payload: Bytes, text: string, event: Fields, secret: string,
                             configured: seq<string>, timestamp: int, now: int, tolerance: int)
    requires Lawful(p) && p.decode(payload) == Some(text) && p.loads(payload) == Some(Object(event))
    requires secret in configured && (forall s :: s in configured ==> ',' !in s)
    requires secret != "" && Strip(secret) == secret && WithinTolerance(now, timestamp, tolerance)
    ensures Verify(p, payload, Some(MakeHeader(p, text, secret, timestamp)), Some(Join(configured, ',')),
                   now, tolerance) == Accepted(event)
  {
    var header, setting := MakeHeader(p, text, secret, timestamp), Join(configured, ',');
    var digest := p.digest(secret, SignedPayload(timestamp, text));
    ParseMadeHeader(p, text, secret, timestamp);
    SplitJoin(configured, ',');
    NonBlankHolds(configured, secret);
    SecretMatches(p, Secrets(setting), secret, SignedPayload(timestamp, text));
    JudgedAcceptedIff(p, payload, timestamp, [digest], Secrets(setting), now, tolerance, event);
  }

  lemma SecretMatches(p: Primitives, secrets: seq<string>, secret: string, signed: string)
    requires Lawful(p) && secret in secrets
    ensures exists i: nat, j: nat :: Agree(p, secrets, signed, [p.digest(secret, signed)], i, j)
  {
    var i :| 0 <= i < |secrets| && secrets[i] == secret;
    DigestIsAscii(p, secret, signed);
    assert [p.digest(secret, signed)][1..] == [];
    assert Agree(p, secrets, signed, [p.digest(secret, signed)], i, 0);
  }

  lemma LoneCandidate(p: Primitives, secret: string, signed: string, digest: string)
    requires IsAscii(digest)
    ensures SearchAll(Digests(p, [secret], signed), [digest])
            == if digest == p.digest(secret, signed) then Matched else NoMatch
  {
    assert [digest][1..] == [];
    var expected := Digests(p, [secret], signed);
    assert expected[0] in expected;
  }

  /** The whole verdict on a delivery with one signature, under one secret: the
      signature is the keyed digest of the printed timestamp, a dot and the text. */
  lemma OneSignatureVerdict(p: Primitives, payload: Bytes, secret: string, t: int, digest: string,
                            now: int, tolerance: int)
    requires ',' !in secret && secret != "" && Strip(secret) == secret && IsHex(digest)
    ensures Verify(p, payload, Some("t=" + IntToString(t) + ",v1=" + digest), Some(secret), now, tolerance)
            == if now - t > tolerance || t - now > tolerance then Refused(OutsideTolerance)
               else if p.decode(payload).None? then Refused(NotUtf8)
               else if digest != p.digest(secret, IntToString(t) + "." + p.decode(payload).value)
                    then Refused(NotVerified)
               else match p.loads(payload)
                    case None => Refused(NotJson)
                    case Some(Object(event)) => Accepted(event)
                    case Some(_) => Refused(NotObject)
  {
    IntToStringChars(t);
    ParseIntToString(t);
    ParseTwoItems(IntToString(t), digest, t);
    SingleSecret(secret);
    OneCandidateVerdict(p, payload, secret, t, digest, now, tolerance);
  }

  lemma OneCandidateVerdict(p: Primitives, payload: Bytes, secret: string, t: int, digest: string,
                            now: int, tolerance: int)
    requires IsHex(digest)
    ensures Judge(p, payload, t, [digest], [secret], now, tolerance)
            == if now - t > tolerance || t - now > tolerance then Refused(OutsideTolerance)
               else if p.decode(payload).None? then Refused(NotUtf8)
               else if digest != p.digest(secret, IntToString(t) + "." + p.decode(payload).value)
                    then Refused(NotVerified)
               else match p.loads(payload)
                    case None => Refused(NotJson)
                    case Some(Object(event)) => Accepted(event)
                    case Some(_) => Refused(NotObject)
  {
    if p.decode(payload).Some? {
      LoneCandidate(p, secret, IntToString(t) + "." + p.decode(payload).value, digest);
    }
  }

  // ---- Appending items -------------------------------------------------------------------

  lemma ParseAppended(header: string, extra: string)
    requires Parse(header).Parsed?
    ensures Parse(header + "," + extra)
            == Parsed(Parse(header).timestamp, Parse(header).signatures + ValuesOf(Split(extra, ','), "v1"))
  {
    SplitAt(header, ',', extra);
    ValuesOfConcat(Split(header, ','), Split(extra, ','), "t");
    ValuesOfConcat(Split(header, ','), Split(extra, ','), "v1");
  }

  lemma SearchAppended(expected: seq<string>, earlier: seq<string>, more: seq<string>)
    requires SearchAll(expected, earlier) == Matched
    ensures SearchAll(expected, earlier + more) == Matched
            <==> AllAscii(more) || expected[0] in (earlier + more)[..Cut(earlier + more)]
    ensures SearchAll(expected, earlier + more) != NoMatch
  {
    CutOfConcat(earlier, more);
    if !AllAscii(earlier) {
      assert (earlier + more)[..Cut(earlier + more)] == earlier[..Cut(earlier)];
    } else if AllAscii(more) {
      var e :| e in expected && e in earlier;
      assert e in earlier + more;
    }
  }

  lemma JudgedAppended(p: Primitives, payload: Bytes, timestamp: int, signatures: seq<string>, more: seq<string>,
                       secrets: seq<string>, now: int, tolerance: int, event: Fields)
    requires Judge(p, payload, timestamp, signatures, secrets, now, tolerance) == Accepted(event)
    ensures |secrets| > 0 && p.decode(payload).Some?
    ensures var longer := Judge(p, payload, timestamp, signatures + more, secrets, now, tolerance);
            var first := p.digest(secrets[0], SignedPayload(timestamp, p.decode(payload).value));
            && (longer == Accepted(event) <==> AllAscii(more) || first in (signatures + more)[..Cut(signatures + more)])
            && (longer == Accepted(event) || longer == Raised)
  {
    SearchAppended(Digests(p, secrets, SignedPayload(timestamp, p.decode(payload).value)), signatures, more);
  }

  /** Appending items to an accepted header never makes it refused.  It stays
      accepted if and only if the appended `v1` values are all ASCII or the first
      configured secret matches before the first that is not; otherwise the
      comparison raises before the matching secret gets its turn. */
  lemma AppendedItems(p: Primitives, payload: Bytes, header: string, extra: string, setting: string,
                      now: int, tolerance: int, event: Fields)
    requires Verify(p, payload, Some(header), Some(setting), now, tolerance) == Accepted(event)
    ensures Parse(header).Parsed? && |Secrets(setting)| > 0 && p.decode(payload).Some?
    ensures var longer := Verify(p, payload, Some(header + "," + extra), Some(setting), now, tolerance);
            var more := ValuesOf(Split(extra, ','), "v1");
            var all := Parse(header).signatures + more;
            var first := p.digest(Secrets(setting)[0], SignedPayload(Parse(header).timestamp, p.decode(payload).value));
            && (longer == Accepted(event) <==> AllAscii(more) || first in all[..Cut(all)])
            && (longer == Accepted(event) || longer == Raised)
  {
    var parsed := Parse(header);
    ParseAppended(header, extra);
    JudgedAppended(p, payload, parsed.timestamp, parsed.signatures, ValuesOf(Split(extra, ','), "v1"), Secrets(setting),
                   now, tolerance, event);
  }

  /** With the matching secret in second place, one appended candidate outside
      ASCII turns an accepted header into an exception. */
  lemma AppendedItemRaises(p: Primitives, payload: Bytes, text: string, event: Fields, secret: string, timestamp: int)
    requires Lawful(p) && p.decode(payload) == Some(text) && p.loads(payload) == Some(Object(event))
    requires secret != "" && Strip(secret) == secret && ',' !in secret
    requires p.digest("other", SignedPayload(timestamp, text)) != p.digest(secret, SignedPayload(timestamp, text))
    ensures var header, setting := MakeHeader(p, text, secret, timestamp), Join(["other", secret], ',');
            && Verify(p, payload, Some(header), Some(setting), timestamp, 0) == Accepted(event)
            && Verify(p, payload, Some(header + "," + "v1=\U{e9}"), Some(setting), timestamp, 0) == Raised
  {
    var signed := SignedPayload(timestamp, text);
    var header, setting := MakeHeader(p, text, secret, timestamp), Join(["other", secret], ',');
    var digest := p.digest(secret, signed);
    MadeHeaderIsAccepted(p, payload, text, event, secret, ["other", secret], timestamp, timestamp, 0);
    AppendedItems(p, payload, header, "v1=\U{e9}", setting, timestamp, 0, event);
    ParseMadeHeader(p, text, secret, timestamp);
    OneBadCandidate(digest);
    OtherIsFirst(secret);
    DigestIsAscii(p, secret, signed);
    CutOfConcat([digest], ["\U{e9}"]);
    assert [digest][1..] == [];
    assert ([digest] + ["\U{e9}"])[..1] == [digest];
  }

  lemma OneBadCandidate(digest: string)
    ensures ValuesOf(Split("v1=\U{e9}", ','), "v1") == ["\U{e9}"] && Cut(["\U{e9}"]) == 0
  {
    SplitOne("v1=\U{e9}", ',');
    PartitionItem("v1", "\U{e9}");
    ValuesOfOne("v1=\U{e9}", "v1");
    assert "v1" + "=" + "\U{e9}" == "v1=\U{e9}";
    assert "\U{e9}"[0] in "\U{e9}";
  }

  lemma OtherIsFirst(secret: string)
    requires ',' !in secret && secret != "" && Strip(secret) == secret
    ensures Secrets(Join(["other", secret], ',')) == ["other", secret]
  {
    SplitJoin(["other", secret], ',');
    StripNothing("other");
    NonBlankPair("other", secret);
  }

  lemma NonBlankPair(a: string, b: string)
    requires a != "" && Strip(a) == a && b != "" && Strip(b) == b
    ensures NonBlank([a, b]) == [a, b]
  {
    assert [a, b][..1] == [a] && [a][..0] == [];
    assert NonBlank([a]) == NonBlank([]) + [a];
    assert NonBlank([a, b]) == NonBlank([a]) + [b];
  }
}
