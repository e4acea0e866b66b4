/** `split_text`: cuts a text, left to right, into pieces of at most
    `maxLength` characters. The handler calls it with 2000. */
module Chunker {
  import opened Text

  /** The chunk length the upload handler uses. */
  const DefaultMaxLength: nat := 2000

  function Min(a: int, b: int): int { if a <= b then a else b }

  /** The chunks of `text`: none for the empty text; otherwise a first chunk of
      `maxLength` characters (or the whole text when it is shorter) followed
      by the chunks of the rest. Every chunk is non-empty and at most
      `maxLength` long, and all but the last are exactly `maxLength` long. */
  function SplitText(text: string, maxLength: nat): (chunks: seq<string>)
    requires maxLength > 0
    ensures forall k :: 0 <= k < |chunks| ==> 0 < |chunks[k]| <= maxLength
    ensures forall k :: 0 <= k < |chunks| - 1 ==> |chunks[k]| == maxLength
    decreases |text|
  {
    if |text| == 0 then []
    else
      var n := Min(maxLength, |text|);
      [text[..n]] + SplitText(text[n..], maxLength)
  }

  /** Joining the chunks gives back the text, character for character. */
  lemma {:induction false} SplitTextConcat(text: string, maxLength: nat)
    requires maxLength > 0
    ensures Concat(SplitText(text, maxLength)) == text
    decreases |text|
  {
    if |text| > 0 {
      var n := Min(maxLength, |text|);
      var chunks := SplitText(text, maxLength);
      assert chunks[0] == text[..n] && chunks[1..] == SplitText(text[n..], maxLength);
      SplitTextConcat(text[n..], maxLength);
      assert text == text[..n] + text[n..];
    }
  }

  /** There are ceil(|text| / maxLength) chunks: none for the empty text, and
      otherwise just enough that (count - 1) * maxLength < |text| <= count * maxLength. */
  lemma {:induction false} SplitTextCount(text: string, maxLength: nat)
    requires maxLength > 0
    ensures |SplitText(text, maxLength)| == 0 <==> |text| == 0
    ensures (|SplitText(text, maxLength)| - 1) * maxLength < |text| <= |SplitText(text, maxLength)| * maxLength
    decreases |text|
  {
    var count := |SplitText(text, maxLength)|;
    if |text| > maxLength {
      var rest := text[maxLength..];
      SplitTextCount(rest, maxLength);
      var c := |SplitText(rest, maxLength)|;
      assert count == c + 1;
      assert count * maxLength == c * maxLength + maxLength;
      assert (c - 1) * maxLength == c * maxLength - maxLength;
    } else if |text| > 0 {
      assert SplitText(text, maxLength) == [text[..|text|]] + SplitText(text[|text|..], maxLength);
      assert count == 1;
    }
  }

  /** The count is Python's ceiling division (len(text) + max_length - 1) // max_length. */
  lemma SplitTextCeil(text: string, maxLength: nat)
    requires maxLength > 0
    ensures |SplitText(text, maxLength)| == (|text| + maxLength - 1) / maxLength
  {
    SplitTextCount(text, maxLength);
    var c := |SplitText(text, maxLength)|;
    OffsetIsProduct(c, maxLength);
    DivUnique(|text| + maxLength - 1, maxLength, c, |text| + maxLength - 1 - c * maxLength);
  }

  /** Euclidean division has one quotient and remainder. */
  lemma DivUnique(x: nat, d: nat, q: nat, r: nat)
    requires d > 0 && r < d && x == q * d + r
    ensures x / d == q
  {
    var q0, r0 := x / d, x % d;
    assert x == q0 * d + r0;
    MulGap(q0, q, d);
  }

  /** Two multiples of `d` are equal or at least `d` apart. */
  lemma MulGap(a: int, b: int, d: nat)
    ensures a == b || a * d - b * d >= d || b * d - a * d >= d
  {
    if a > b {
      MulMono(a - b, d);
      assert a * d - b * d == (a - b) * d;
    } else if a < b {
      MulMono(b - a, d);
      assert b * d - a * d == (b - a) * d;
    }
  }

  lemma MulMono(k: nat, d: nat)
    requires k >= 1
    ensures k * d >= d
  {
  }

  /** Chunk k is the slice text[k * maxLength .. min(k * maxLength + maxLength, |text|)],
      the slice Python's `text[i:i + max_length]` takes for i = k * max_length. */
  lemma SplitTextChunkAt(text: string, maxLength: nat, k: nat)
    requires maxLength > 0
    requires k < |SplitText(text, maxLength)|
    ensures k * maxLength < |text|
    ensures SplitText(text, maxLength)[k] == text[k * maxLength .. Min(k * maxLength + maxLength, |text|)]
  {
    ChunkAtOffset(text, maxLength, k);
    OffsetIsProduct(k, maxLength);
  }

  /** Where chunk k starts: k steps of `maxLength`. */
  function Offset(k: nat, maxLength: nat): nat
  {
    if k == 0 then 0 else Offset(k - 1, maxLength) + maxLength
  }

  lemma {:induction false} OffsetIsProduct(k: nat, maxLength: nat)
    ensures Offset(k, maxLength) == k * maxLength
  {
    if k > 0 {
      OffsetIsProduct(k - 1, maxLength);
      assert (k - 1) * maxLength + maxLength == k * maxLength;
    }
  }

  lemma {:induction false} ChunkAtOffset(text: string, maxLength: nat, k: nat)
    requires maxLength > 0
    requires k < |SplitText(text, maxLength)|
    ensures Offset(k, maxLength) < |text|
    ensures SplitText(text, maxLength)[k]
            == text[Offset(k, maxLength) .. Min(Offset(k, maxLength) + maxLength, |text|)]
    decreases k
  {
    if k > 0 {
      var rest := text[maxLength..];
      assert |SplitText(text, maxLength)[0]| == maxLength;
      assert SplitText(text, maxLength)[k] == SplitText(rest, maxLength)[k - 1];
      ChunkAtOffset(rest, maxLength, k - 1);
      var lo := Offset(k - 1, maxLength);
      var hi := Min(lo + maxLength, |rest|);
      assert Offset(k, maxLength) == lo + maxLength;
      assert hi + maxLength == Min(Offset(k, maxLength) + maxLength, |text|);
      SliceOfSuffix(text, maxLength, lo, hi);
    }
  }

  /** A slice of a suffix is a slice of the whole, shifted. */
  lemma SliceOfSuffix(s: string, a: nat, b: nat, c: nat)
    requires a <= |s| && b <= c <= |s| - a
    ensures s[a..][b..c] == s[a + b .. a + c]
  {
  }

  /** The chunking is the only way to cut `text` into non-empty pieces of at
      most `maxLength` characters of which all but the last are full. */
  lemma {:induction false} SplitTextUnique(text: string, maxLength: nat, pieces: seq<string>)
    requires maxLength > 0
    requires Concat(pieces) == text
    requires forall k :: 0 <= k < |pieces| ==> 0 < |pieces[k]| <= maxLength
    requires forall k :: 0 <= k < |pieces| - 1 ==> |pieces[k]| == maxLength
    ensures pieces == SplitText(text, maxLength)
    decreases |pieces|
  {
    if pieces != [] {
      var rest := Concat(pieces[1..]);
      assert text == pieces[0] + rest;
      assert |pieces| > 1 ==> |rest| > 0 by {
        if |pieces| > 1 { assert rest == pieces[1] + Concat(pieces[2..]); }
      }
      var n := Min(maxLength, |text|);
      assert n == |pieces[0]|;
      assert text[..n] == pieces[0] && text[n..] == rest;
      SplitTextUnique(rest, maxLength, pieces[1..]);
    }
  }
}
