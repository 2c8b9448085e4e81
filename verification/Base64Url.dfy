/** URL-safe base64 without padding, and the lenient decoder that reads it. */
module Base64Url {
  import opened Wrappers
  import opened Text

  type Byte = b: int | 0 <= b < 256
  type Sextet = s: int | 0 <= s < 64

  function Letter(v: Sextet): char {
    if v < 26 then 'A' + v as char
    else if v < 52 then 'a' + (v - 26) as char
    else if v < 62 then '0' + (v - 52) as char
    else if v == 62 then '-' else '_'
  }

  /** The decoder accepts the standard alphabet as well: it rewrites '-' and '_'
      to '+' and '/' and then decodes. */
  function LetterValue(c: char): Option<Sextet> {
    if 'A' <= c <= 'Z' then Some((c - 'A') as int)
    else if 'a' <= c <= 'z' then Some((c - 'a') as int + 26)
    else if '0' <= c <= '9' then Some((c - '0') as int + 52)
    else if c == '-' || c == '+' then Some(62)
    else if c == '_' || c == '/' then Some(63)
    else None
  }

  lemma LetterRoundTrip(v: Sextet)
    ensures LetterValue(Letter(v)) == Some(v) && Letter(v) != '=' && Letter(v) != '.' && Letter(v) < '\U{80}'
  {
  }

  function First(a: Byte): Sextet { a / 4 }
  function Second(a: Byte, b: Byte): Sextet { a % 4 * 16 + b / 16 }
  function Third(b: Byte, c: Byte): Sextet { b % 16 * 4 + c / 64 }
  function Fourth(c: Byte): Sextet { c % 64 }

  function EncodePadded(payload: seq<Byte>): string {
    if |payload| == 0 then ""
    else if |payload| == 1 then
      [Letter(First(payload[0])), Letter(Second(payload[0], 0))] + "=="
    else if |payload| == 2 then
      [Letter(First(payload[0])), Letter(Second(payload[0], payload[1]))] + [Letter(Third(payload[1], 0))] + "="
    else
      [Letter(First(payload[0])), Letter(Second(payload[0], payload[1]))]
      + [Letter(Third(payload[1], payload[2]))] + [Letter(Fourth(payload[2]))]
      + EncodePadded(payload[3..])
  }

  function Encode(payload: seq<Byte>): string {
    StripRight(EncodePadded(payload), '=')
  }

  function Pad(value: string): string {
    value + seq((-|value|) % 4, _ => '=')
  }

  /** The decoder reads characters into groups of four.  `quad` is the position
      in the group and `left` the bits held over.  Characters outside the
      alphabet are skipped; padding ends the input once it completes a group. */
  function DecodeFrom(s: string, quad: nat, left: nat, pads: nat): Option<seq<Byte>>
    requires quad < 4 && (quad == 1 ==> left < 64) && (quad == 2 ==> left < 16) && (quad == 3 ==> left < 4)
  {
    if s == "" then (if quad == 0 then Some([]) else None)
    else if s[0] == '=' then
      if quad < 2 then DecodeFrom(s[1..], quad, left, pads)
      else if quad + pads + 1 >= 4 then Some([])
      else DecodeFrom(s[1..], quad, left, pads + 1)
    else
      match LetterValue(s[0])
      case None => DecodeFrom(s[1..], quad, left, pads)
      case Some(v) =>
        if quad == 0 then DecodeFrom(s[1..], 1, v, 0)
        else if quad == 1 then Emit(left * 4 + v / 16, DecodeFrom(s[1..], 2, v % 16, 0))
        else if quad == 2 then Emit(left * 16 + v / 4, DecodeFrom(s[1..], 3, v % 4, 0))
        else Emit(left * 64 + v, DecodeFrom(s[1..], 0, 0, 0))
  }

  function Emit(b: Byte, rest: Option<seq<Byte>>): Option<seq<Byte>> {
    match rest
    case None => None
    case Some(bytes) => Some([b] + bytes)
  }

  function Decode(s: string): Option<seq<Byte>> {
    DecodeFrom(s, 0, 0, 0)
  }

  // ---- Shape of the encoding --------------------------------------------------

  /** The number of '=' a payload's encoding carries before they are stripped. */
  function Padding(n: nat): nat {
    if n < 3 then (if n == 0 then 0 else 3 - n) else Padding(n - 3)
  }

  ghost predicate Unpadded(s: string) {
    forall c :: c in s ==> c != '=' && c != '.' && c < '\U{80}'
  }

  /** `s` is `body` letters followed by nothing but '='. */
  ghost predicate Shaped(s: string, body: int) {
    0 <= body <= |s| && Unpadded(s[..body]) && forall i :: body <= i < |s| ==> s[i] == '='
  }

  lemma ShapedLetter(v: Sextet, s: string, body: int)
    requires Shaped(s, body)
    ensures Shaped([Letter(v)] + s, body + 1)
  {
    LetterRoundTrip(v);
    assert ([Letter(v)] + s)[..body + 1] == [Letter(v)] + s[..body];
  }

  lemma ShapedTwo(v: Sextet, w: Sextet, s: string, body: int)
    requires Shaped(s, body)
    ensures Shaped([Letter(v), Letter(w)] + s, body + 2)
  {
    ShapedLetter(w, s, body);
    ShapedLetter(v, [Letter(w)] + s, body + 1);
    assert [Letter(v), Letter(w)] + s == [Letter(v)] + ([Letter(w)] + s);
  }

  lemma ShapedGroup(a: Sextet, b: Sextet, c: Sextet, d: Sextet, s: string, body: int)
    requires Shaped(s, body)
    ensures Shaped([Letter(a), Letter(b)] + [Letter(c)] + [Letter(d)] + s, body + 4)
  {
    ShapedTwo(c, d, s, body);
    ShapedTwo(a, b, [Letter(c), Letter(d)] + s, body + 2);
    assert [Letter(a), Letter(b)] + [Letter(c)] + [Letter(d)] + s
        == [Letter(a), Letter(b)] + ([Letter(c), Letter(d)] + s);
  }

  /** Letters in the encoding of n bytes. */
  function LetterCount(n: nat): nat {
    if n < 3 then (if n == 0 then 0 else n + 1) else 4 + LetterCount(n - 3)
  }

  lemma {:induction false} LetterCountClosedForm(n: nat)
    ensures LetterCount(n) == (4 * n + 2) / 3
  {
    if n >= 3 {
      LetterCountClosedForm(n - 3);
      assert 4 * n + 2 == 4 * (n - 3) + 2 + 3 * 4;
    }
  }

  lemma {:induction false} PaddingCompletes(n: nat)
    ensures (LetterCount(n) + Padding(n)) % 4 == 0 && Padding(n) < 4
  {
    if n >= 3 {
      PaddingCompletes(n - 3);
    }
  }

  lemma PaddingRemoved(length: nat, padding: nat)
    requires (length + padding) % 4 == 0 && padding < 4
    ensures (0 - length) % 4 == padding
  {
  }

  lemma EncodeOneShape(a: Byte)
    ensures |EncodePadded([a])| == 4 && Shaped(EncodePadded([a]), 2)
  {
  }

  lemma EncodeTwoShape(a: Byte, b: Byte)
    ensures |EncodePadded([a, b])| == 4 && Shaped(EncodePadded([a, b]), 3)
  {
    var v, w, x := First(a), Second(a, b), Third(b, 0);
    ShapedTwo(w, x, "=", 0);
    ShapedLetter(v, [Letter(w), Letter(x)] + "=", 2);
    assert EncodePadded([a, b]) == [Letter(v)] + ([Letter(w), Letter(x)] + "=");
  }

  lemma EncodeGroupShape(payload: seq<Byte>, body: nat)
    requires |payload| >= 3 && Shaped(EncodePadded(payload[3..]), body)
    ensures |EncodePadded(payload)| == 4 + |EncodePadded(payload[3..])| && Shaped(EncodePadded(payload), body + 4)
  {
    var rest := EncodePadded(payload[3..]);
    ShapedGroup(First(payload[0]), Second(payload[0], payload[1]), Third(payload[1], payload[2]), Fourth(payload[2]),
                rest, body);
  }

  lemma {:induction false} EncodePaddedShape(payload: seq<Byte>)
    ensures |EncodePadded(payload)| == LetterCount(|payload|) + Padding(|payload|)
    ensures Shaped(EncodePadded(payload), LetterCount(|payload|))
  {
    if |payload| == 0 {
    } else if |payload| == 1 {
      assert payload == [payload[0]];
      EncodeOneShape(payload[0]);
    } else if |payload| == 2 {
      assert payload == [payload[0], payload[1]];
      EncodeTwoShape(payload[0], payload[1]);
    } else {
      EncodePaddedShape(payload[3..]);
      EncodeGroupShape(payload, LetterCount(|payload| - 3));
    }
  }

  lemma {:induction false} StripRightExact(s: string, c: char, k: nat)
    requires k <= |s| && (forall i :: k <= i < |s| ==> s[i] == c) && (k == 0 || s[k - 1] != c)
    ensures StripRight(s, c) == s[..k]
    decreases |s|
  {
    if k < |s| {
      StripRightExact(s[..|s| - 1], c, k);
    } else {
      assert s[..k] == s;
    }
  }

  lemma EncodeCounts(payload: seq<Byte>)
    ensures |Encode(payload)| == LetterCount(|payload|)
    ensures |EncodePadded(payload)| == LetterCount(|payload|) + Padding(|payload|)
  {
    EncodePaddedShape(payload);
    StrippedShape(EncodePadded(payload), LetterCount(|payload|));
  }

  /** The stripped form of n bytes has ceil(4n/3) characters. */
  lemma EncodeLength(payload: seq<Byte>)
    ensures |Encode(payload)| == (4 * |payload| + 2) / 3
  {
    EncodeCounts(payload);
    LetterCountClosedForm(|payload|);
  }

  lemma PaddingOf(n: nat, letters: nat, padded: nat)
    requires letters == LetterCount(n) && padded == letters + Padding(n)
    ensures padded - letters == (0 - letters) % 4
  {
    PaddingCompletes(n);
    PaddingRemoved(letters, Padding(n));
  }

  /** -len % 4 of the stripped form is exactly the padding that was removed. */
  lemma PaddingIsExact(payload: seq<Byte>)
    ensures |EncodePadded(payload)| - |Encode(payload)| == (-|Encode(payload)|) % 4
  {
    EncodeCounts(payload);
    PaddingOf(|payload|, |Encode(payload)|, |EncodePadded(payload)|);
  }

  /** It contains neither '=' nor '.', and re-padding it restores exactly the
      padded form. */
  lemma EncodeShape(payload: seq<Byte>)
    ensures Unpadded(Encode(payload))
    ensures Pad(Encode(payload)) == EncodePadded(payload)
  {
    EncodePaddedShape(payload);
    PaddingCompletes(|payload|);
    StripThenPad(EncodePadded(payload), LetterCount(|payload|), Padding(|payload|));
  }

  lemma StripThenPad(s: string, letters: nat, padding: nat)
    requires Shaped(s, letters) && |s| == letters + padding && (letters + padding) % 4 == 0 && padding < 4
    ensures |StripRight(s, '=')| == letters && Unpadded(StripRight(s, '='))
    ensures (-|StripRight(s, '=')|) % 4 == padding && Pad(StripRight(s, '=')) == s
  {
    StrippedShape(s, letters);
    PaddingRemoved(letters, padding);
    RepaddedShape(s, letters, padding);
  }

  lemma RepaddedShape(s: string, letters: nat, padding: nat)
    requires Shaped(s, letters) && |s| == letters + padding && (0 - letters) % 4 == padding
    ensures Pad(s[..letters]) == s
  {
  }

  lemma StrippedShape(s: string, body: nat)
    requires Shaped(s, body)
    ensures StripRight(s, '=') == s[..body]
  {
    assert body > 0 ==> s[body - 1] == s[..body][body - 1] && s[..body][body - 1] in s[..body];
    StripRightExact(s, '=', body);
  }

  // ---- Round trip -------------------------------------------------------------

  lemma DecodeLetter(v: Sextet, rest: string, quad: nat, left: nat)
    requires quad < 4 && (quad == 1 ==> left < 64) && (quad == 2 ==> left < 16) && (quad == 3 ==> left < 4)
    ensures DecodeFrom([Letter(v)] + rest, quad, left, 0) ==
            if quad == 0 then DecodeFrom(rest, 1, v, 0)
            else if quad == 1 then Emit(left * 4 + v / 16, DecodeFrom(rest, 2, v % 16, 0))
            else if quad == 2 then Emit(left * 16 + v / 4, DecodeFrom(rest, 3, v % 4, 0))
            else Emit(left * 64 + v, DecodeFrom(rest, 0, 0, 0))
  {
    LetterRoundTrip(v);
    assert ([Letter(v)] + rest)[1..] == rest;
  }

  /** The first two letters of a group carry its first byte, and leave the top
      half of the second. */
  lemma DecodeTwoLetters(a: Byte, b: Byte, rest: string)
    ensures DecodeFrom([Letter(First(a)), Letter(Second(a, b))] + rest, 0, 0, 0)
            == Emit(a, DecodeFrom(rest, 2, b / 16, 0))
  {
    var v, w := First(a), Second(a, b);
    assert [Letter(v), Letter(w)] + rest == [Letter(v)] + ([Letter(w)] + rest);
    DecodeLetter(v, [Letter(w)] + rest, 0, 0);
    DecodeLetter(w, rest, 1, v);
  }

  lemma DecodeThirdLetter(b: Byte, c: Byte, rest: string)
    ensures DecodeFrom([Letter(Third(b, c))] + rest, 2, b / 16, 0) == Emit(b, DecodeFrom(rest, 3, c / 64, 0))
  {
    assert Third(b, c) / 4 == b % 16 && Third(b, c) % 4 == c / 64;
    DecodeLetter(Third(b, c), rest, 2, b / 16);
  }

  lemma DecodeFourthLetter(c: Byte, rest: string)
    ensures DecodeFrom([Letter(Fourth(c))] + rest, 3, c / 64, 0) == Emit(c, DecodeFrom(rest, 0, 0, 0))
  {
  }

  lemma PaddingEndsInput(rest: string)
    ensures DecodeFrom("==" + rest, 2, 0, 0) == Some([]) && DecodeFrom("=" + rest, 3, 0, 0) == Some([])
  {
    assert ("==" + rest)[1..] == "=" + rest;
  }

  lemma DecodeOne(a: Byte, rest: string)
    ensures DecodeFrom(EncodePadded([a]) + rest, 0, 0, 0) == Some([a])
  {
    DecodeTwoLetters(a, 0, "==" + rest);
    PaddingEndsInput(rest);
    assert EncodePadded([a]) + rest == [Letter(First(a)), Letter(Second(a, 0))] + ("==" + rest);
    assert [a] + [] == [a];
  }

  lemma DecodeTwo(a: Byte, b: Byte, rest: string)
    ensures DecodeFrom(EncodePadded([a, b]) + rest, 0, 0, 0) == Some([a, b])
  {
    var third := [Letter(Third(b, 0))];
    DecodeTwoLetters(a, b, third + ("=" + rest));
    DecodeThirdLetter(b, 0, "=" + rest);
    PaddingEndsInput(rest);
    assert EncodePadded([a, b]) + rest == [Letter(First(a)), Letter(Second(a, b))] + (third + ("=" + rest));
    assert [a] + ([b] + []) == [a, b];
  }

  lemma DecodeGroup(a: Byte, b: Byte, c: Byte, rest: string)
    ensures DecodeFrom([Letter(First(a)), Letter(Second(a, b))] + [Letter(Third(b, c))] + [Letter(Fourth(c))] + rest,
                       0, 0, 0)
            == Emit(a, Emit(b, Emit(c, DecodeFrom(rest, 0, 0, 0))))
  {
    var third, fourth := [Letter(Third(b, c))], [Letter(Fourth(c))];
    DecodeTwoLetters(a, b, third + (fourth + rest));
    DecodeThirdLetter(b, c, fourth + rest);
    DecodeFourthLetter(c, rest);
    assert [Letter(First(a)), Letter(Second(a, b))] + third + fourth + rest
        == [Letter(First(a)), Letter(Second(a, b))] + (third + (fourth + rest));
  }

  lemma UnfoldGroup(payload: seq<Byte>, rest: string)
    requires |payload| >= 3
    ensures EncodePadded(payload) + rest
            == [Letter(First(payload[0])), Letter(Second(payload[0], payload[1]))]
               + [Letter(Third(payload[1], payload[2]))] + [Letter(Fourth(payload[2]))]
               + (EncodePadded(payload[3..]) + rest)
  {
  }

  /** What follows the padding is ignored; there is padding unless the length is a
      multiple of three. */
  lemma {:induction false} DecodePadded(payload: seq<Byte>, rest: string)
    requires rest == "" || |payload| % 3 != 0
    ensures DecodeFrom(EncodePadded(payload) + rest, 0, 0, 0) == Some(payload)
  {
    if |payload| == 0 {
    } else if |payload| == 1 {
      assert payload == [payload[0]];
      DecodeOne(payload[0], rest);
    } else if |payload| == 2 {
      assert payload == [payload[0], payload[1]];
      DecodeTwo(payload[0], payload[1], rest);
    } else {
      DecodePadded(payload[3..], rest);
      UnfoldGroup(payload, rest);
      DecodeGroup(payload[0], payload[1], payload[2], EncodePadded(payload[3..]) + rest);
      assert payload == [payload[0]] + ([payload[1]] + ([payload[2]] + payload[3..]));
    }
  }

  /** Decoding the re-padded encoding of any bytes gives the bytes back. */
  lemma DecodeEncode(payload: seq<Byte>)
    ensures Decode(Pad(Encode(payload))) == Some(payload)
  {
    EncodeShape(payload);
    DecodePadded(payload, "");
    assert EncodePadded(payload) + "" == EncodePadded(payload);
  }

  /** No two payloads share an encoding. */
  lemma EncodeInjective(a: seq<Byte>, b: seq<Byte>)
    requires Encode(a) == Encode(b)
    ensures a == b
  {
    DecodeEncode(a);
    DecodeEncode(b);
  }

  // ---- The alphabets ----------------------------------------------------------

  /** The alphabet of section 5 of RFC 4648. */
  predicate UrlSafe(c: char) {
    'A' <= c <= 'Z' || 'a' <= c <= 'z' || '0' <= c <= '9' || c == '-' || c == '_'
  }

  ghost predicate UrlSafeOrPadding(s: string) {
    forall i :: 0 <= i < |s| ==> UrlSafe(s[i]) || s[i] == '='
  }

  lemma {:induction false} EncodePaddedAlphabet(payload: seq<Byte>)
    ensures UrlSafeOrPadding(EncodePadded(payload))
  {
    if |payload| >= 3 {
      EncodePaddedAlphabet(payload[3..]);
      GroupAlphabet(payload, EncodePadded(payload[3..]));
    }
  }

  lemma GroupAlphabet(payload: seq<Byte>, rest: string)
    requires |payload| >= 3 && UrlSafeOrPadding(rest) && rest == EncodePadded(payload[3..])
    ensures UrlSafeOrPadding(EncodePadded(payload))
  {
  }

  /** Every character of an encoding is a letter, a digit, '-' or '_'. */
  lemma EncodeIsUrlSafe(payload: seq<Byte>)
    ensures forall c :: c in Encode(payload) ==> UrlSafe(c)
  {
    EncodePaddedAlphabet(payload);
    EncodeShape(payload);
    forall c | c in Encode(payload) ensures UrlSafe(c) {
      var i :| 0 <= i < |Encode(payload)| && Encode(payload)[i] == c;
      assert EncodePadded(payload)[i] == c;
    }
  }

  // ---- How lenient the decoder is ---------------------------------------------------

  /** A character outside both alphabets makes no difference. */
  lemma {:induction false} ForeignCharacterIsSkipped(a: string, c: char, b: string, quad: nat, left: nat, pads: nat)
    requires quad < 4 && (quad == 1 ==> left < 64) && (quad == 2 ==> left < 16) && (quad == 3 ==> left < 4)
    requires !UrlSafe(c) && c != '+' && c != '/' && c != '='
    ensures DecodeFrom(a + [c] + b, quad, left, pads) == DecodeFrom(a + b, quad, left, pads)
    decreases |a|
  {
    if a == "" {
      assert a + [c] + b == [c] + b && a + b == b && ([c] + b)[1..] == b;
    } else {
      assert (a + [c] + b)[1..] == a[1..] + [c] + b && (a + b)[1..] == a[1..] + b;
      forall q: nat, l: nat, k: nat | q < 4 && (q == 1 ==> l < 64) && (q == 2 ==> l < 16) && (q == 3 ==> l < 4)
        ensures DecodeFrom(a[1..] + [c] + b, q, l, k) == DecodeFrom(a[1..] + b, q, l, k)
      {
        ForeignCharacterIsSkipped(a[1..], c, b, q, l, k);
      }
    }
  }

  ghost predicate AllLetters(s: string) {
    forall i :: 0 <= i < |s| ==> UrlSafe(s[i]) || s[i] == '+' || s[i] == '/'
  }

  /** Letters alone decode if and only if they complete their last group. */
  lemma {:induction false} LettersDecodeIff(s: string, quad: nat, left: nat)
    requires quad < 4 && (quad == 1 ==> left < 64) && (quad == 2 ==> left < 16) && (quad == 3 ==> left < 4)
    requires AllLetters(s)
    ensures DecodeFrom(s, quad, left, 0).Some? <==> (quad + |s|) % 4 == 0
    decreases |s|
  {
    if s != "" {
      var v := LetterValue(s[0]).value;
      if quad == 0 {
        LettersDecodeIff(s[1..], 1, v);
      } else if quad == 1 {
        LettersDecodeIff(s[1..], 2, v % 16);
      } else if quad == 2 {
        LettersDecodeIff(s[1..], 3, v % 4);
      } else {
        LettersDecodeIff(s[1..], 0, 0);
      }
    }
  }

  /** '=' makes no difference either before a group has two letters. */
  lemma {:induction false} EarlyPaddingIsSkipped(a: string, b: string, quad: nat, left: nat)
    requires quad < 4 && (quad == 1 ==> left < 64) && (quad == 2 ==> left < 16) && (quad == 3 ==> left < 4)
    requires AllLetters(a) && (quad + |a|) % 4 < 2
    ensures DecodeFrom(a + "=" + b, quad, left, 0) == DecodeFrom(a + b, quad, left, 0)
    decreases |a|
  {
    if a == "" {
      assert a + "=" + b == "=" + b && a + b == b && ("=" + b)[1..] == b;
    } else {
      assert (a + "=" + b)[1..] == a[1..] + "=" + b && (a + b)[1..] == a[1..] + b;
      var v := LetterValue(a[0]).value;
      if quad == 0 {
        EarlyPaddingIsSkipped(a[1..], b, 1, v);
      } else if quad == 1 {
        EarlyPaddingIsSkipped(a[1..], b, 2, v % 16);
      } else if quad == 2 {
        EarlyPaddingIsSkipped(a[1..], b, 3, v % 4);
      } else {
        EarlyPaddingIsSkipped(a[1..], b, 0, 0);
      }
    }
  }

  function ToStandard(s: string): string {
    seq(|s|, i requires 0 <= i < |s| => if s[i] == '-' then '+' else if s[i] == '_' then '/' else s[i])
  }

  /** The standard alphabet reads the same. */
  lemma {:induction false} StandardAlphabetReadsTheSame(s: string, quad: nat, left: nat, pads: nat)
    requires quad < 4 && (quad == 1 ==> left < 64) && (quad == 2 ==> left < 16) && (quad == 3 ==> left < 4)
    ensures DecodeFrom(ToStandard(s), quad, left, pads) == DecodeFrom(s, quad, left, pads)
    decreases |s|
  {
    if s != "" {
      assert ToStandard(s)[1..] == ToStandard(s[1..]);
      forall q: nat, l: nat, k: nat | q < 4 && (q == 1 ==> l < 64) && (q == 2 ==> l < 16) && (q == 3 ==> l < 4)
        ensures DecodeFrom(ToStandard(s[1..]), q, l, k) == DecodeFrom(s[1..], q, l, k)
      {
        StandardAlphabetReadsTheSame(s[1..], q, l, k);
      }
    }
  }
}
