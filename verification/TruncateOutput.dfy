/** Cutting a program's output to size without splitting a character, against the UTF-8 grammar. */
module TruncateOutput {
  import opened ByteStrings

  const MAX_OUTPUT_BYTES: nat := 1024 * 1024

  predicate IsAscii(text: string) { forall i :: 0 <= i < |text| ==> text[i] < 128 as char }

  predicate AllAscii(s: Bytes) { forall i :: 0 <= i < |s| ==> s[i] < 0x80 }

  function Ascii(text: string): (s: Bytes)
    requires IsAscii(text)
    ensures |s| == |text| && AllAscii(s)
  {
    seq(|text|, i requires 0 <= i < |text| => text[i] as byte)
  }

  const SUFFIX: Bytes := Ascii("\n[output truncated]")

  // ---------- The grammar of RFC 3629, section 4 ----------

  predicate Tail(s: Bytes, i: nat) { i < |s| && 0x80 <= s[i] <= 0xBF }

  /** The range the second byte of a character may take after the first. */
  predicate Second(s: Bytes) {
    |s| > 1 &&
    if s[0] == 0xE0 then 0xA0 <= s[1] <= 0xBF
    else if s[0] == 0xED then 0x80 <= s[1] <= 0x9F
    else if s[0] == 0xF0 then 0x90 <= s[1] <= 0xBF
    else if s[0] == 0xF4 then 0x80 <= s[1] <= 0x8F
    else 0x80 <= s[1] <= 0xBF
  }

  /** The length of the character `s` begins with, or 0 if it begins with none. */
  function CharLen(s: Bytes): (n: nat)
    ensures n <= 4 && n <= |s|
  {
    if s == [] then 0
    else if s[0] <= 0x7F then 1
    else if 0xC2 <= s[0] <= 0xDF && Second(s) then 2
    else if 0xE0 <= s[0] <= 0xEF && Second(s) && Tail(s, 2) then 3
    else if 0xF0 <= s[0] <= 0xF4 && Second(s) && Tail(s, 2) && Tail(s, 3) then 4
    else 0
  }

  predicate ValidUtf8(s: Bytes)
    decreases |s|
  {
    s == [] || (CharLen(s) > 0 && ValidUtf8(s[CharLen(s)..]))
  }

  // ---------- The grammar is the encoding of the scalar values (section 3) ----------

  type Scalar = c: nat | c < 0xD800 || 0xE000 <= c <= 0x10FFFF

  function Encode(c: Scalar): Bytes {
    if c < 0x80 then [c]
    else if c < 0x800 then [0xC0 + c / 64, 0x80 + c % 64]
    else if c < 0x10000 then [0xE0 + c / 64 / 64, 0x80 + c / 64 % 64, 0x80 + c % 64]
    else [0xF0 + c / 64 / 64 / 64, 0x80 + c / 64 / 64 % 64, 0x80 + c / 64 % 64, 0x80 + c % 64]
  }

  function EncodeAll(text: seq<Scalar>): Bytes {
    if text == [] then [] else Encode(text[0]) + EncodeAll(text[1..])
  }

  lemma EncodeIsChar(c: Scalar, rest: Bytes)
    ensures CharLen(Encode(c) + rest) == |Encode(c)| > 0
  {
  }

  lemma {:induction false} EncodedIsValid(text: seq<Scalar>)
    ensures ValidUtf8(EncodeAll(text))
    decreases |text|
  {
    if text != [] {
      var rest := EncodeAll(text[1..]);
      EncodeIsChar(text[0], rest);
      assert (Encode(text[0]) + rest)[|Encode(text[0])|..] == rest;
      EncodedIsValid(text[1..]);
    }
  }

  /** One more continuation byte. */
  function Extended(high: int, tail: byte): int { 64 * high + (tail - 0x80) }

  lemma SplitExtended(high: nat, tail: byte)
    requires 0x80 <= tail <= 0xBF
    ensures Extended(high, tail) / 64 == high && 0x80 + Extended(high, tail) % 64 == tail
  {
  }

  lemma DecodeFirst(s: Bytes) returns (c: Scalar)
    requires CharLen(s) > 0
    ensures Encode(c) == s[..CharLen(s)]
  {
    if CharLen(s) == 1 {
      c := s[0];
    } else if CharLen(s) == 2 {
      SplitExtended(s[0] - 0xC0, s[1]);
      c := Extended(s[0] - 0xC0, s[1]);
    } else if CharLen(s) == 3 {
      var high := Extended(s[0] - 0xE0, s[1]);
      SplitExtended(s[0] - 0xE0, s[1]);
      SplitExtended(high, s[2]);
      c := Extended(high, s[2]);
    } else {
      c := DecodeFour(s);
    }
  }

  lemma DecodeFour(s: Bytes) returns (c: Scalar)
    requires CharLen(s) == 4
    ensures Encode(c) == s[..4]
  {
    var high := Extended(s[0] - 0xF0, s[1]);
    var higher := Extended(high, s[2]);
    SplitExtended(s[0] - 0xF0, s[1]);
    SplitExtended(high, s[2]);
    SplitExtended(higher, s[3]);
    c := Extended(higher, s[3]);
  }

  lemma {:induction false} ValidIsEncoded(s: Bytes) returns (text: seq<Scalar>)
    requires ValidUtf8(s)
    ensures EncodeAll(text) == s
    decreases |s|
  {
    text := [];
    if s != [] {
      var c := DecodeFirst(s);
      var more := ValidIsEncoded(s[CharLen(s)..]);
      text := [c] + more;
      assert s == s[..CharLen(s)] + s[CharLen(s)..];
    }
  }

  ghost predicate IsText(s: Bytes) { exists text: seq<Scalar> :: EncodeAll(text) == s }

  /** A byte string is valid exactly when it encodes some sequence of scalar values. */
  lemma ValidIffText(s: Bytes)
    ensures ValidUtf8(s) <==> IsText(s)
  {
    if ValidUtf8(s) {
      var text := ValidIsEncoded(s);
      assert EncodeAll(text) == s;
    }
    if text: seq<Scalar> :| EncodeAll(text) == s {
      EncodedIsValid(text);
    }
  }

  // ---------- The longest valid prefix ----------

  /** How far whole characters can be read from the start. */
  function ValidPrefix(s: Bytes): (k: nat)
    ensures k <= |s|
    decreases |s|
  {
    if CharLen(s) == 0 then 0 else CharLen(s) + ValidPrefix(s[CharLen(s)..])
  }

  lemma CharLenPrefix(s: Bytes, j: nat)
    requires j <= |s|
    ensures CharLen(s[..j]) == if CharLen(s) <= j then CharLen(s) else 0
  {
  }

  lemma {:induction false} ValidPrefixIsLongest(s: Bytes, j: nat)
    requires ValidPrefix(s) <= j <= |s|
    ensures ValidUtf8(s[..j]) <==> j == ValidPrefix(s)
    decreases |s|
  {
    var n := CharLen(s);
    CharLenPrefix(s, j);
    if n > 0 {
      assert s[..j][n..] == s[n..][..j - n];
      ValidPrefixIsLongest(s[n..], j - n);
    }
  }

  /** Cutting at `limit` loses at most three bytes, unless the input is itself malformed where the valid part ends. */
  lemma {:induction false} CutLosesAtMostThree(s: Bytes, limit: nat)
    requires limit <= |s|
    ensures var k := ValidPrefix(s[..limit]);
            k <= limit && (limit - 3 <= k || k == ValidPrefix(s))
    decreases |s|
  {
    var n := CharLen(s);
    CharLenPrefix(s, limit);
    if 0 < n <= limit {
      assert s[..limit][n..] == s[n..][..limit - n];
      CutLosesAtMostThree(s[n..], limit - n);
    }
  }

  /** Cutting finds no more valid text than there was. */
  lemma {:induction false} CutFindsNoMore(s: Bytes, limit: nat)
    requires limit <= |s|
    ensures ValidPrefix(s[..limit]) <= ValidPrefix(s)
    decreases |s|
  {
    var n := CharLen(s);
    CharLenPrefix(s, limit);
    if 0 < n <= limit {
      assert s[..limit][n..] == s[n..][..limit - n];
      CutFindsNoMore(s[n..], limit - n);
    }
  }

  lemma {:induction false} ValidAppend(s: Bytes, t: Bytes)
    requires ValidUtf8(s)
    ensures ValidUtf8(s + t) <==> ValidUtf8(t)
    decreases |s|
  {
    if s == [] {
      assert s + t == t;
    } else {
      var n := CharLen(s);
      assert (s + t)[..|s|] == s;
      CharLenPrefix(s + t, |s|);
      assert (s + t)[n..] == s[n..] + t;
      ValidAppend(s[n..], t);
    }
  }

  lemma {:induction false} AsciiIsValid(s: Bytes)
    requires AllAscii(s)
    ensures ValidUtf8(s)
    decreases |s|
  {
    if s != [] {
      AsciiIsValid(s[1..]);
    }
  }

  // ---------- The operation ----------

  /** What is kept of an over-long output. */
  function Kept(s: Bytes): Bytes
    requires |s| > MAX_OUTPUT_BYTES
  {
    s[..ValidPrefix(s[..MAX_OUTPUT_BYTES])]
  }

  method TruncateOutput(s: Bytes) returns (r: Bytes)
    ensures r == if |s| > MAX_OUTPUT_BYTES then Kept(s) + SUFFIX else s
  {
    if |s| > MAX_OUTPUT_BYTES {
      ghost var cut := s[..MAX_OUTPUT_BYTES];
      ValidPrefixIsLongest(cut, ValidPrefix(cut));
      var truncated := s[..MAX_OUTPUT_BYTES];
      while !ValidUtf8(truncated)
        invariant ValidPrefix(cut) <= |truncated| <= |cut|
        invariant truncated == cut[..|truncated|]
        decreases |truncated|
      {
        truncated := truncated[..|truncated| - 1];
      }
      ValidPrefixIsLongest(cut, |truncated|);
      assert truncated == Kept(s);
      return truncated + SUFFIX;
    }
    return s;
  }

  /**
   For every over-long output: what is kept is valid and the longest valid prefix of the first
   MAX_OUTPUT_BYTES bytes, so the result is valid UTF-8 whatever the input. At most three of
   those bytes are lost if and only if the input is well-formed up to there, as a valid input is.
   */
  lemma KeepsLongestValidPrefix(s: Bytes, j: nat)
    requires |s| > MAX_OUTPUT_BYTES
    ensures ValidUtf8(Kept(s)) && ValidUtf8(Kept(s) + SUFFIX)
    ensures |Kept(s)| <= MAX_OUTPUT_BYTES && Kept(s) == s[..|Kept(s)|]
    ensures |Kept(s)| < j <= MAX_OUTPUT_BYTES ==> !ValidUtf8(s[..j])
    ensures |Kept(s)| >= MAX_OUTPUT_BYTES - 3 <==> ValidPrefix(s) >= MAX_OUTPUT_BYTES - 3
    ensures |Kept(s)| < MAX_OUTPUT_BYTES - 3 ==> |Kept(s)| == ValidPrefix(s) && !ValidUtf8(s)
    ensures ValidUtf8(s) ==> |Kept(s)| >= MAX_OUTPUT_BYTES - 3
  {
    var cut := s[..MAX_OUTPUT_BYTES];
    ValidPrefixIsLongest(cut, |Kept(s)|);
    assert cut[..|Kept(s)|] == Kept(s);
    if |Kept(s)| < j <= MAX_OUTPUT_BYTES {
      ValidPrefixIsLongest(cut, j);
      assert cut[..j] == s[..j];
    }
    CutLosesAtMostThree(s, MAX_OUTPUT_BYTES);
    CutFindsNoMore(s, MAX_OUTPUT_BYTES);
    ValidPrefixIsLongest(s, |s|);
    assert s[..|s|] == s;
    var suffix := SUFFIX;
    AsciiIsValid(suffix);
    ValidAppend(Kept(s), suffix);
  }

  /** An over-long output that does not begin with a character loses everything, and only such an output does. */
  lemma MalformedStartLosesAll(s: Bytes)
    requires |s| > MAX_OUTPUT_BYTES
    ensures Kept(s) == [] <==> CharLen(s) == 0
  {
    CharLenPrefix(s, MAX_OUTPUT_BYTES);
  }

  /** So a single stray continuation byte in front is enough. */
  lemma StrayByteLosesAll(rest: Bytes)
    requires |rest| >= MAX_OUTPUT_BYTES
    ensures Kept([0x80] + rest) == []
  {
    MalformedStartLosesAll([0x80] + rest);
  }
}
