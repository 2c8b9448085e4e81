/** Persona webhook signatures: several digests while a secret is rotated. */
module PersonaWebhook {
  import opened Wrappers
  import opened Text
  import opened Json
  import opened SignatureHeader
  import Base64Url

  type Bytes = seq<Base64Url.Byte>

  /** UTF-8 encoding, the keyed digest in hexadecimal, and JSON parsing. */
  datatype Primitives = Primitives(
    encode: string -> Bytes,
    digest: (string, Bytes) -> string,
    loads: Bytes -> Option<Value>)

  ghost predicate Lawful(p: Primitives) {
    forall secret, message :: IsAscii(p.digest(secret, message))
  }

  datatype Parsed = Parsed(timestamp: string, digests: seq<string>) | Malformed

  // ---- Parsing ------------------------------------------------------------------

  /** `header.replace(" ", ",")`. */
  function SpacesToCommas(s: string): string {
    seq(|s|, i requires 0 <= i < |s| => if s[i] == ' ' then ',' else s[i])
  }

  /** The last `t`, as text, and every `v1`, in order. */
  function ParseItems(items: seq<string>): Parsed {
    var timestamps, digests := ValuesOf(items, "t"), ValuesOf(items, "v1");
    if timestamps == [] || digests == [] then Malformed else Parsed(timestamps[|timestamps| - 1], digests)
  }

  function Parse(header: string): Parsed {
    ParseItems(Split(SpacesToCommas(header), ','))
  }

  /** What the loop has gathered from these items. */
  ghost predicate Scanned(items: seq<string>, timestamp: Option<string>, digests: seq<string>) {
    var timestamps := ValuesOf(items, "t");
    && digests == ValuesOf(items, "v1")
    && timestamp == if timestamps == [] then None else Some(timestamps[|timestamps| - 1])
  }

  lemma ScanOneMore(items: seq<string>, timestamp: Option<string>, digests: seq<string>, item: string)
    requires Scanned(items, timestamp, digests)
    ensures var key, value := KeyOf(item), ValueOf(item);
            Scanned(items + [item],
                    if key == "t" && value != "" then Some(value) else timestamp,
                    if key == "v1" && value != "" then digests + [value] else digests)
  {
  }

  method ParseSignatureHeader(header: string) returns (r: Parsed)
    ensures r == Parse(header)
  {
    var items := Split(SpacesToCommas(header), ',');
    var timestamp: Option<string> := None;
    var digests := [];
    for i := 0 to |items|
      invariant Scanned(items[..i], timestamp, digests)
    {
      assert items[..i + 1] == items[..i] + [items[i]];
      ScanOneMore(items[..i], timestamp, digests, items[i]);
      var key, value := KeyOf(items[i]), ValueOf(items[i]);
      if key == "t" && value != "" {
        timestamp := Some(value);
      } else if key == "v1" && value != "" {
        digests := digests + [value];
      }
    }
    assert items[..|items|] == items;
    if timestamp.None? || digests == [] {
      return Malformed;
    }
    return Parsed(timestamp.value, digests);
  }

  // ---- Verifying ----------------------------------------------------------------

  /** What is signed: the timestamp as it stands in the header, a dot, and the raw
      body. */
  function Signed(p: Primitives, timestamp: string, body: Bytes): Bytes {
    p.encode(timestamp + ".") + body
  }

  /** Once the header is parsed. */
  function Judge(p: Primitives, payload: Bytes, parsed: Parsed, secret: Option<string>): Outcome {
    if parsed.Malformed? then Refused(MalformedHeader)
    else if secret.None? then Refused(NotConfigured)
    else
      var expected := p.digest(secret.value, Signed(p, parsed.timestamp, payload));
      Conclude(p.loads(payload), SearchOne(expected, parsed.digests))
  }

  function Verify(p: Primitives, payload: Bytes, header: Option<string>, secret: Option<string>): Outcome {
    if header.None? || header.value == "" then Refused(MissingHeader)
    else Judge(p, payload, Parse(header.value), secret)
  }

  method VerifyWebhook(p: Primitives, payload: Bytes, header: Option<string>, secret: Option<string>)
    returns (r: Outcome)
    requires Lawful(p)
    ensures r == Verify(p, payload, header, secret)
  {
    if header.None? || header.value == "" {
      return Refused(MissingHeader);
    }
    var parsed := ParseSignatureHeader(header.value);
    if parsed.Malformed? {
      return Refused(MalformedHeader);
    }
    if secret.None? {
      return Refused(NotConfigured);
    }
    assert IsAscii(p.digest(secret.value, Signed(p, parsed.timestamp, payload)));
    var found := AnyMatches(p.digest(secret.value, Signed(p, parsed.timestamp, payload)), parsed.digests);
    return Conclude(p.loads(payload), found);
  }

  /** A payload is accepted if and only if one of the digests is the keyed digest
      over the last `t`, no digest up to it is outside ASCII, and the body is a
      JSON object.  The timestamp's age plays no part. */
  lemma AcceptedIff(p: Primitives, payload: Bytes, header: string, secret: string, event: Fields)
    ensures Verify(p, payload, Some(header), Some(secret)) == Accepted(event)
            <==> && header != ""
                 && Parse(header).Parsed?
                 && p.loads(payload) == Some(Object(event))
                 && exists j ::
                      Agrees(Parse(header).digests,
                             p.digest(secret, p.encode(Parse(header).timestamp + ".") + payload), j)
  {
    var parsed := Parse(header);
    if parsed.Parsed? {
      MatchedIffOneAgrees(parsed.digests, p.digest(secret, Signed(p, parsed.timestamp, payload)));
    }
  }

  /** Candidate j is the expected digest, and no comparison up to it raises. */
  ghost predicate Agrees(candidates: seq<string>, expected: string, j: int) {
    0 <= j < |candidates| && candidates[j] == expected && forall i :: 0 <= i <= j ==> IsAscii(candidates[i])
  }

  lemma MatchedIffOneAgrees(candidates: seq<string>, expected: string)
    ensures SearchOne(expected, candidates) == Matched <==> exists j :: Agrees(candidates, expected, j)
  {
    var cut := Cut(candidates);
    if SearchOne(expected, candidates) == Matched {
      var j :| 0 <= j < cut && candidates[..cut][j] == expected;
      assert Agrees(candidates, expected, j);
    }
    if j :| Agrees(candidates, expected, j) {
      assert j < cut;
      assert candidates[..cut][j] == expected;
    }
  }

  // ---- Headers of several groups ---------------------------------------------------

  function Group(t: string, digest: string): string {
    "t=" + t + ",v1=" + digest
  }

  /** Space-separated groups, one for each digest, all at the same time. */
  function Header(t: string, digests: seq<string>): string
    requires digests != []
  {
    if |digests| == 1 then Group(t, digests[0])
    else Group(t, digests[0]) + " " + Header(t, digests[1..])
  }

  /** Text that cannot be mistaken for a separator. */
  predicate Plain(s: string) {
    s != "" && ' ' !in s && ',' !in s
  }

  lemma SpacesConcat(a: string, b: string)
    ensures SpacesToCommas(a + b) == SpacesToCommas(a) + SpacesToCommas(b)
  {
  }

  lemma GroupItems(t: string, digest: string)
    requires Plain(t) && Plain(digest)
    ensures Split(SpacesToCommas(Group(t, digest)), ',') == ["t=" + t, "v1=" + digest]
  {
    var a, b := "t=" + t, "v1=" + digest;
    assert Group(t, digest) == a + [','] + b;
    assert SpacesToCommas(Group(t, digest)) == a + [','] + b;
    SplitAt(a, ',', b);
    SplitOne(a, ',');
    SplitOne(b, ',');
  }

  lemma {:induction false} HeaderValues(t: string, digests: seq<string>)
    requires digests != [] && Plain(t) && forall d :: d in digests ==> Plain(d)
    ensures var items := Split(SpacesToCommas(Header(t, digests)), ',');
            ValuesOf(items, "v1") == digests
            && ValuesOf(items, "t") != [] && (forall x :: x in ValuesOf(items, "t") ==> x == t)
  {
    GroupItems(t, digests[0]);
    TimestampAndDigest(t, digests[0]);
    if |digests| > 1 {
      HeaderValues(t, digests[1..]);
      SplitGroups(Group(t, digests[0]), Header(t, digests[1..]));
      var first, others := ["t=" + t, "v1=" + digests[0]], Split(SpacesToCommas(Header(t, digests[1..])), ',');
      ValuesOfConcat(first, others, "v1");
      ValuesOfConcat(first, others, "t");
      assert digests == [digests[0]] + digests[1..];
      assert [t] + ValuesOf(others, "t") != [];
    }
  }

  lemma SplitGroups(head: string, rest: string)
    ensures Split(SpacesToCommas(head + " " + rest), ',')
            == Split(SpacesToCommas(head), ',') + Split(SpacesToCommas(rest), ',')
  {
    SpacesConcat(head + " ", rest);
    SpacesConcat(head, " ");
    assert SpacesToCommas(" ") == ",";
    SplitAt(SpacesToCommas(head), ',', SpacesToCommas(rest));
  }

  /** The parser returns the shared timestamp and all digests, in order, of any
      number of groups. */
  lemma ParsesAllGroups(t: string, digests: seq<string>)
    requires digests != [] && Plain(t) && forall d :: d in digests ==> Plain(d)
    ensures Parse(Header(t, digests)) == Parsed(t, digests)
  {
    HeaderValues(t, digests);
    var items := Split(SpacesToCommas(Header(t, digests)), ',');
    ParsesFromValues(items, t, digests);
  }

  lemma ParsesFromValues(items: seq<string>, t: string, digests: seq<string>)
    requires digests != [] && ValuesOf(items, "v1") == digests
    requires ValuesOf(items, "t") != [] && forall x :: x in ValuesOf(items, "t") ==> x == t
    ensures ParseItems(items) == Parsed(t, digests)
  {
    var timestamps := ValuesOf(items, "t");
    assert timestamps[|timestamps| - 1] in timestamps;
  }

  /** While a secret is rotated, a header carrying the digests of the old and the
      new secret verifies under either. */
  lemma RotationVerifies(p: Primitives, t: string, body: Bytes, secrets: seq<string>, i: nat, event: Fields)
    requires Lawful(p) && i < |secrets| && Plain(t) && p.loads(body) == Some(Object(event))
    requires forall s :: s in secrets ==> Plain(p.digest(s, p.encode(t + ".") + body))
    ensures var digests := seq(|secrets|, k requires 0 <= k < |secrets| =>
              p.digest(secrets[k], p.encode(t + ".") + body));
            Verify(p, body, Some(Header(t, digests)), Some(secrets[i])) == Accepted(event)
  {
    var digests := seq(|secrets|, k requires 0 <= k < |secrets| => p.digest(secrets[k], p.encode(t + ".") + body));
    forall d | d in digests ensures Plain(d) && IsAscii(d) {
      var k :| 0 <= k < |digests| && digests[k] == d;
      assert secrets[k] in secrets;
    }
    ParsesAllGroups(t, digests);
    AcceptedIff(p, body, Header(t, digests), secrets[i], event);
    assert Agrees(digests, p.digest(secrets[i], p.encode(t + ".") + body), i);
  }

  /** The whole verdict on a delivery with one signature. */
  lemma OneSignatureVerdict(p: Primitives, payload: Bytes, secret: string, t: string, digest: string)
    requires Plain(t) && Plain(digest) && IsAscii(digest)
    ensures Verify(p, payload, Some("t=" + t + ",v1=" + digest), Some(secret))
            == if digest != p.digest(secret, p.encode(t + ".") + payload) then Refused(NotVerified)
               else match p.loads(payload)
                    case None => Refused(NotJson)
                    case Some(Object(event)) => Accepted(event)
                    case Some(_) => Refused(NotObject)
  {
    ParsesAllGroups(t, [digest]);
    assert Header(t, [digest]) == "t=" + t + ",v1=" + digest;
    LoneCandidate(p.digest(secret, p.encode(t + ".") + payload), digest);
  }

  lemma LoneCandidate(expected: string, digest: string)
    requires IsAscii(digest)
    ensures SearchOne(expected, [digest]) == if digest == expected then Matched else NoMatch
  {
    assert [digest][1..] == [] && [digest][..1] == [digest];
  }
}
