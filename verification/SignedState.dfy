/** Signed, expiring state values: `<base64url-json>.<signature>`. */
module SignedState {
  import opened Wrappers
  import opened Text
  import opened Json
  import Base64Url

  const MAX_AGE_SECONDS := 600

  /** JSON printing and parsing and the keyed digest, as functions. */
  datatype Primitives = Primitives(
    dumps: Fields -> seq<Base64Url.Byte>,
    loads: seq<Base64Url.Byte> -> Option<Value>,
    hmac: (string, string) -> seq<Base64Url.Byte>)

  /** Parsing undoes printing. */
  ghost predicate Lawful(p: Primitives) {
    forall fields :: p.loads(p.dumps(fields)) == Some(Object(fields))
  }

  /** `int(x)`: toward zero. */
  function Trunc(x: real): int {
    if x >= 0.0 then x.Floor else -((-x).Floor)
  }

  // ---- Creating ---------------------------------------------------------------

  function Sign(p: Primitives, secret: string, value: string): string {
    Base64Url.Encode(p.hmac(secret, value))
  }

  function Exp(created: real): int { Trunc(created + MAX_AGE_SECONDS as real) }

  function Stamped(fields: Fields, created: real): Fields {
    fields["exp" := Integer(Exp(created))]
  }

  function Create(p: Primitives, secret: string, fields: Fields, created: real): string {
    var encoded := Base64Url.Encode(p.dumps(Stamped(fields, created)));
    encoded + "." + Sign(p, secret, encoded)
  }

  function Optional(value: Option<string>): Value {
    match value
    case None => Null
    case Some(s) => Str(s)
  }

  function OAuthFields(state: string, verifier: string, next: Option<string>, termsAccepted: bool,
                       redirectUri: Option<string>): Fields {
    map["state" := Str(state), "verifier" := Str(verifier), "next" := Optional(next),
        "terms_accepted" := Bool(termsAccepted), "redirect_uri" := Optional(redirectUri)]
  }

  function ConnectorFields(state: string, verifier: string, userId: string): Fields {
    map["state" := Str(state), "verifier" := Str(verifier), "user_id" := Str(userId)]
  }

  // ---- Reading ----------------------------------------------------------------

  /** `Nothing` is the documented None.  Comparing a signature that is not ASCII
      raises instead. */
  datatype ReadResult = Accepted(fields: Fields) | Nothing | TypeError

  /** The expiry, where Python counts booleans among the integers. */
  function ExpOf(fields: Fields): Option<int> {
    if "exp" !in fields then None
    else
      match fields["exp"]
      case Integer(i) => Some(i)
      case Bool(b) => Some(if b then 1 else 0)
      case _ => None
  }

  /** The payload carried by the part before the dot, if it is one. */
  function Payload(p: Primitives, encoded: string): Option<Fields> {
    if !IsAscii(encoded) then None
    else
      match Base64Url.Decode(Base64Url.Pad(encoded))
      case None => None
      case Some(bytes) =>
        match p.loads(bytes)
        case Some(Object(fields)) => Some(fields)
        case _ => None
  }

  function ReadParts(p: Primitives, secret: string, encoded: string, signature: string, now: real): ReadResult {
    if !IsAscii(signature) then TypeError
    else if signature != Sign(p, secret, encoded) then Nothing
    else
      match Payload(p, encoded)
      case None => Nothing
      case Some(fields) =>
        if ExpOf(fields).None? || ExpOf(fields).value < Trunc(now) then Nothing
        else Accepted(fields)
  }

  function Read(p: Primitives, secret: string, raw: Option<string>, now: real): ReadResult {
    if raw.None? || '.' !in raw.value then Nothing
    else
      var dot := FindLast(raw.value, '.');
      if dot == 0 then Nothing
      else ReadParts(p, secret, raw.value[..dot - 1], raw.value[dot..], now)
  }

  // ---- What reading means ----------------------------------------------------

  lemma SignatureHasNoDot(p: Primitives, secret: string, value: string)
    ensures '.' !in Sign(p, secret, value) && IsAscii(Sign(p, secret, value))
  {
    Base64Url.EncodeShape(p.hmac(secret, value));
  }

  lemma ReadSplitsAtLastDot(p: Primitives, secret: string, encoded: string, signature: string, now: real)
    requires '.' !in signature
    ensures Read(p, secret, Some(encoded + "." + signature), now) == ReadParts(p, secret, encoded, signature, now)
  {
    var raw := encoded + "." + signature;
    assert raw[|encoded|] == '.';
    FindLastIsLast(encoded, '.', signature);
    assert raw[..|encoded|] == encoded && raw[|encoded| + 1..] == signature;
  }

  /** Whatever is not `Nothing` came from some split at the last dot. */
  lemma ReadCameFromParts(p: Primitives, secret: string, raw: string, now: real) returns (e: string, s: string)
    requires !Read(p, secret, Some(raw), now).Nothing?
    ensures raw == e + "." + s && '.' !in s
    ensures Read(p, secret, Some(raw), now) == ReadParts(p, secret, e, s, now)
  {
    var dot := FindLast(raw, '.');
    e, s := raw[..dot - 1], raw[dot..];
  }

  /** A value read under the key that made it gives back exactly what was put in
      at every moment whose whole second is at most `exp`, and nothing at every
      later one. */
  lemma ReadsBackUntilExpiry(p: Primitives, secret: string, fields: Fields, created: real, now: real)
    requires Lawful(p)
    ensures Read(p, secret, Some(Create(p, secret, fields, created)), now)
            == if Trunc(now) <= Exp(created) then Accepted(Stamped(fields, created)) else Nothing
  {
    var payload := p.dumps(Stamped(fields, created));
    var encoded := Base64Url.Encode(payload);
    SignatureHasNoDot(p, secret, encoded);
    ReadSplitsAtLastDot(p, secret, encoded, Sign(p, secret, encoded), now);
    Base64Url.EncodeShape(payload);
    Base64Url.DecodeEncode(payload);
    assert Payload(p, encoded) == Some(Stamped(fields, created));
  }

  lemma WholeSeconds(created: real, now: real)
    requires 0.0 <= created <= now <= created + 600.0
    ensures Exp(created) == created.Floor + 600 && Trunc(now) <= Exp(created)
  {
  }

  /** An OAuth value gives back every field put in, for the ten minutes after a
      creation time past the epoch. */
  lemma OAuthRoundTrip(p: Primitives, secret: string, state: string, verifier: string, next: Option<string>,
                       terms: bool, redirect: Option<string>, created: real, now: real)
    requires Lawful(p) && 0.0 <= created <= now <= created + 600.0
    ensures Read(p, secret, Some(Create(p, secret, OAuthFields(state, verifier, next, terms, redirect), created)), now)
            == Accepted(map["state" := Str(state), "verifier" := Str(verifier), "next" := Optional(next),
                            "terms_accepted" := Bool(terms), "redirect_uri" := Optional(redirect),
                            "exp" := Integer(created.Floor + 600)])
  {
    WholeSeconds(created, now);
    ReadsBackUntilExpiry(p, secret, OAuthFields(state, verifier, next, terms, redirect), created, now);
  }

  /** And a connector value. */
  lemma ConnectorRoundTrip(p: Primitives, secret: string, state: string, verifier: string, userId: string,
                           created: real, now: real)
    requires Lawful(p) && 0.0 <= created <= now <= created + 600.0
    ensures Read(p, secret, Some(Create(p, secret, ConnectorFields(state, verifier, userId), created)), now)
            == Accepted(map["state" := Str(state), "verifier" := Str(verifier), "user_id" := Str(userId),
                            "exp" := Integer(created.Floor + 600)])
  {
    WholeSeconds(created, now);
    ReadsBackUntilExpiry(p, secret, ConnectorFields(state, verifier, userId), created, now);
  }

  /** `e` carries these fields: it is ASCII, decodes once padded, and what it decodes
      to is a JSON object. */
  ghost predicate Carries(p: Primitives, e: string, fields: Fields) {
    && (forall c :: c in e ==> c < '\U{80}')
    && Base64Url.Decode(Base64Url.Pad(e)).Some?
    && p.loads(Base64Url.Decode(Base64Url.Pad(e)).value) == Some(Object(fields))
  }

  /** `exp` is an integer, true and false counting as 1 and 0, and not yet past. */
  ghost predicate Unexpired(fields: Fields, now: real) {
    && "exp" in fields
    && (fields["exp"].Integer? || fields["exp"].Bool?)
    && Trunc(now) <= match fields["exp"] { case Integer(i) => i case Bool(b) => if b then 1 else 0 case _ => 0 }
  }

  lemma ReadPartsAccepts(p: Primitives, secret: string, e: string, s: string, now: real, fields: Fields)
    ensures ReadParts(p, secret, e, s, now) == Accepted(fields)
            <==> s == Base64Url.Encode(p.hmac(secret, e)) && Carries(p, e, fields) && Unexpired(fields, now)
  {
    SignatureHasNoDot(p, secret, e);
  }

  /** Nothing is accepted but `e + "." + s` with s the encoded digest of e under the
      secret, and a live payload in e: a value is accepted if and only if it has
      that form. */
  lemma AcceptedIffSigned(p: Primitives, secret: string, raw: string, now: real, fields: Fields)
    ensures Read(p, secret, Some(raw), now) == Accepted(fields)
            <==> exists e: string :: raw == e + "." + Base64Url.Encode(p.hmac(secret, e))
                   && Carries(p, e, fields) && Unexpired(fields, now)
  {
    if e: string :| raw == e + "." + Base64Url.Encode(p.hmac(secret, e)) && Carries(p, e, fields)
                    && Unexpired(fields, now)
    {
      SignatureHasNoDot(p, secret, e);
      ReadSplitsAtLastDot(p, secret, e, Base64Url.Encode(p.hmac(secret, e)), now);
      ReadPartsAccepts(p, secret, e, Base64Url.Encode(p.hmac(secret, e)), now, fields);
    }
    if Read(p, secret, Some(raw), now) == Accepted(fields) {
      var e, s := ReadCameFromParts(p, secret, raw, now);
      ReadPartsAccepts(p, secret, e, s, now, fields);
    }
  }

  /** A value made under one key is accepted under another, unexpired, if and only
      if the two keys give its payload the same digest. */
  lemma ForeignKeyIsRefused(p: Primitives, made: string, read: string, fields: Fields, created: real, now: real)
    requires Lawful(p) && Trunc(now) <= Exp(created)
    ensures var e := Base64Url.Encode(p.dumps(Stamped(fields, created)));
            Read(p, read, Some(Create(p, made, fields, created)), now)
            == if p.hmac(made, e) == p.hmac(read, e) then Accepted(Stamped(fields, created)) else Nothing
  {
    var payload := p.dumps(Stamped(fields, created));
    var e := Base64Url.Encode(payload);
    var s := Base64Url.Encode(p.hmac(made, e));
    SignatureHasNoDot(p, made, e);
    ReadSplitsAtLastDot(p, read, e, s, now);
    if p.hmac(made, e) == p.hmac(read, e) {
      CarriesPayload(p, fields, created);
      ReadPartsAccepts(p, read, e, s, now, Stamped(fields, created));
    } else if s == Base64Url.Encode(p.hmac(read, e)) {
      Base64Url.EncodeInjective(p.hmac(made, e), p.hmac(read, e));
    }
  }

  lemma CarriesPayload(p: Primitives, fields: Fields, created: real)
    requires Lawful(p)
    ensures Carries(p, Base64Url.Encode(p.dumps(Stamped(fields, created))), Stamped(fields, created))
  {
    var payload := p.dumps(Stamped(fields, created));
    Base64Url.EncodeShape(payload);
    Base64Url.DecodeEncode(payload);
  }

  /** `int()` of a timestamp drops the fraction, on either side of the epoch. */
  lemma TruncDropsFraction(x: real)
    ensures x >= 0.0 ==> Trunc(x) as real <= x < (Trunc(x) + 1) as real
    ensures x <= 0.0 ==> (Trunc(x) - 1) as real < x <= Trunc(x) as real
  {
  }

  /** Reading never raises on a malformed value, except on this family: the text
      after the last dot holds a character outside ASCII. */
  lemma RaisesIffSignatureNotAscii(p: Primitives, secret: string, raw: Option<string>, now: real)
    ensures Read(p, secret, raw, now) == TypeError
            <==> raw.Some? && exists e: string, s: string :: raw.value == e + "." + s && '.' !in s && !IsAscii(s)
  {
    if raw.Some? {
      if e: string, s: string :| raw.value == e + "." + s && '.' !in s && !IsAscii(s) {
        ReadSplitsAtLastDot(p, secret, e, s, now);
      }
      if Read(p, secret, raw, now) == TypeError {
        var e, s := ReadCameFromParts(p, secret, raw.value, now);
      }
    }
  }

  /** One such value: the documentation promises None for it. */
  lemma MalformedValueThatRaises(p: Primitives, secret: string, now: real)
    ensures Read(p, secret, Some(".\U{e9}"), now) == TypeError
  {
    var signature := "\U{e9}";
    assert signature[0] in signature;
    assert ".\U{e9}" == "" + "." + signature;
    ReadSplitsAtLastDot(p, secret, "", signature, now);
  }
}
