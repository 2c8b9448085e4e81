/** What the webhook verifiers share: comma-separated `key=value` items, the
    search for a matching digest with `hmac.compare_digest`, and what comes of it. */
module SignatureHeader {
  import opened Json
  import opened Text
  import opened Wrappers

  // ---- Items ------------------------------------------------------------------

  /** `item.partition("=")`. */
  function KeyOf(item: string): string { item[..Find(item, '=')] }

  function ValueOf(item: string): string {
    var i := Find(item, '=');
    if i == |item| then "" else item[i + 1..]
  }

  lemma PartitionItem(key: string, value: string)
    requires '=' !in key
    ensures KeyOf(key + "=" + value) == key && ValueOf(key + "=" + value) == value
  {
    FindIsFirst(key, '=', value);
  }

  lemma ItemWithoutEquals(item: string)
    requires '=' !in item
    ensures KeyOf(item) == item && ValueOf(item) == ""
  {
  }

  /** The values of the items with this key, in order; empty values do not
      count. */
  function ValuesOf(items: seq<string>, key: string): seq<string> {
    if |items| == 0 then []
    else
      var item := items[|items| - 1];
      ValuesOf(items[..|items| - 1], key) + (if KeyOf(item) == key && ValueOf(item) != "" then [ValueOf(item)] else [])
  }

  lemma {:induction false} ValuesOfConcat(a: seq<string>, b: seq<string>, key: string)
    ensures ValuesOf(a + b, key) == ValuesOf(a, key) + ValuesOf(b, key)
  {
    if |b| == 0 {
      assert a + b == a;
    } else {
      assert (a + b)[..|a + b| - 1] == a + b[..|b| - 1];
      ValuesOfConcat(a, b[..|b| - 1], key);
    }
  }

  /** There is a value if and only if some item has the key and is not empty. */
  lemma {:induction false} HasValueIff(items: seq<string>, key: string)
    ensures ValuesOf(items, key) != [] <==> exists item :: item in items && KeyOf(item) == key && ValueOf(item) != ""
  {
    if |items| > 0 {
      var n := |items| - 1;
      HasValueIff(items[..n], key);
      assert items == items[..n] + [items[n]];
    }
  }

  lemma ValuesOfOne(item: string, key: string)
    ensures ValuesOf([item], key) == if KeyOf(item) == key && ValueOf(item) != "" then [ValueOf(item)] else []
  {
  }

  /** The items `t=<t>` and `v1=<digest>` say just that. */
  lemma TimestampAndDigest(t: string, digest: string)
    requires t != "" && digest != ""
    ensures ValuesOf(["t=" + t, "v1=" + digest], "t") == [t]
    ensures ValuesOf(["t=" + t, "v1=" + digest], "v1") == [digest]
  {
    PartitionItem("t", t);
    PartitionItem("v1", digest);
    assert "t" + "=" + t == "t=" + t && "v1" + "=" + digest == "v1=" + digest;
    ValuesOfConcat(["t=" + t], ["v1=" + digest], "t");
    ValuesOfConcat(["t=" + t], ["v1=" + digest], "v1");
    ValuesOfOne("t=" + t, "t");
    ValuesOfOne("t=" + t, "v1");
    ValuesOfOne("v1=" + digest, "t");
    ValuesOfOne("v1=" + digest, "v1");
  }

  // ---- Searching for a digest ----------------------------------------------------

  datatype Search = Matched | NoMatch | TypeError

  /** Position of the first candidate that is not ASCII: comparing it raises. */
  function Cut(candidates: seq<string>): (cut: nat)
    ensures cut <= |candidates| && forall i :: 0 <= i < cut ==> IsAscii(candidates[i])
    ensures cut < |candidates| ==> !IsAscii(candidates[cut])
  {
    if |candidates| == 0 || !IsAscii(candidates[0]) then 0 else 1 + Cut(candidates[1..])
  }

  predicate AllAscii(candidates: seq<string>) {
    Cut(candidates) == |candidates|
  }

  /** The search for one expected digest: candidates are tried in order. */
  function SearchOne(expected: string, candidates: seq<string>): Search {
    if expected in candidates[..Cut(candidates)] then Matched
    else if AllAscii(candidates) then NoMatch
    else TypeError
  }

  /** The search for any of several expected digests, tried in order: as soon as
      one candidate is not ASCII, only the first digest gets its chance. */
  function SearchAll(expected: seq<string>, candidates: seq<string>): Search {
    if |expected| == 0 then NoMatch
    else if AllAscii(candidates) then
      (if exists e :: e in expected && e in candidates then Matched else NoMatch)
    else SearchOne(expected[0], candidates)
  }

  /** `any(hmac.compare_digest(expected, c) for c in candidates)`. */
  method AnyMatches(expected: string, candidates: seq<string>) returns (r: Search)
    requires IsAscii(expected)
    ensures r == SearchOne(expected, candidates)
  {
    for i := 0 to |candidates|
      invariant i <= Cut(candidates) && expected !in candidates[..i]
    {
      if !IsAscii(candidates[i]) {
        return TypeError;
      }
      if candidates[i] == expected {
        assert candidates[..Cut(candidates)][i] == expected;
        return Matched;
      }
      assert candidates[..i + 1] == candidates[..i] + [candidates[i]];
    }
    assert candidates[..|candidates|] == candidates;
    return NoMatch;
  }

  lemma {:induction false} CutOfConcat(a: seq<string>, b: seq<string>)
    ensures Cut(a + b) == if AllAscii(a) then |a| + Cut(b) else Cut(a)
  {
    if |a| == 0 {
      assert a + b == b;
    } else if IsAscii(a[0]) {
      assert (a + b)[1..] == a[1..] + b;
      CutOfConcat(a[1..], b);
    }
  }

  // ---- What comes of it ------------------------------------------------------------

  datatype Reason =
    | MissingHeader | NotConfigured | MalformedHeader | MalformedTimestamp | OutsideTolerance
    | NotUtf8 | NotVerified | NotJson | NotObject

  /** `Raised` is the TypeError of comparing text outside ASCII. */
  datatype Outcome = Accepted(event: Fields) | Refused(reason: Reason) | Raised

  /** Once the signature is found good or bad; `body` is the payload as JSON. */
  function Conclude(body: Option<Value>, found: Search): Outcome {
    match found
    case TypeError => Raised
    case NoMatch => Refused(NotVerified)
    case Matched =>
      match body
      case None => Refused(NotJson)
      case Some(Object(event)) => Accepted(event)
      case Some(_) => Refused(NotObject)
  }
}
