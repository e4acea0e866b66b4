/** The few Python `str` operations the upload handler relies on:
    `str.endswith`, `str.isspace` (as used by `str.strip()`) and `str.strip()`,
    and the concatenation of a list of strings used to state that the chunks
    rebuild the text. Characters are Unicode scalar values, as Python's `str`
    counts them. */
module Text {

  /** Python's `str.isspace` for one character: the ASCII controls
      TAB..CR and FS..US, SPACE, NEL, NO-BREAK SPACE and the Unicode
      space separators and line/paragraph separators. */
  predicate IsSpace(c: char)
  {
    c == ' ' || ('\t' <= c <= '\r') || ('\U{1C}' <= c <= '\U{1F}')
    || c == '\U{85}' || c == '\U{A0}' || c == '\U{1680}'
    || ('\U{2000}' <= c <= '\U{200A}') || c == '\U{2028}' || c == '\U{2029}'
    || c == '\U{202F}' || c == '\U{205F}' || c == '\U{3000}'
  }

  /** Among ASCII characters, `IsSpace` picks exactly the ten Python calls
      whitespace: TAB, LF, VT, FF, CR, the four separators FS..US, and SPACE. */
  lemma IsSpaceAscii(c: char)
    requires c < '\U{80}'
    ensures IsSpace(c) <==> c in "\t\n\U{0B}\U{0C}\r\U{1C}\U{1D}\U{1E}\U{1F} "
  {
  }

  predicate AllSpace(s: string)
  {
    forall k :: 0 <= k < |s| ==> IsSpace(s[k])
  }

  /** Python's `s.endswith(suffix)`. */
  predicate EndsWith(s: string, suffix: string)
  {
    |suffix| <= |s| && s[|s| - |suffix|..] == suffix
  }

  /** `EndsWith` holds exactly when `s` is some string followed by `suffix`. */
  lemma EndsWithIff(s: string, suffix: string)
    ensures EndsWith(s, suffix) <==> exists p :: s == p + suffix
  {
    if EndsWith(s, suffix) {
      var p := s[..|s| - |suffix|];
      assert s == p + suffix;
    }
    if exists p :: s == p + suffix {
      var p :| s == p + suffix;
      assert s[|s| - |suffix|..] == suffix;
    }
  }

  /** Two suffixes of the same length that differ cannot both end one string. */
  lemma SuffixesExclusive(s: string, a: string, b: string)
    requires |a| == |b| && a != b
    ensures !(EndsWith(s, a) && EndsWith(s, b))
  {
  }

  /** Number of whitespace characters at the front of `s`. */
  function LeadingSpace(s: string): (n: nat)
    ensures n <= |s|
    ensures forall k :: 0 <= k < n ==> IsSpace(s[k])
    ensures n < |s| ==> !IsSpace(s[n])
    decreases |s|
  {
    if |s| > 0 && IsSpace(s[0]) then
      var rest := s[1..];
      var m := LeadingSpace(rest);
      m + 1
    else 0
  }

  /** Number of whitespace characters at the end of `s`. */
  function TrailingSpace(s: string): (n: nat)
    ensures n <= |s|
    ensures forall k :: |s| - n <= k < |s| ==> IsSpace(s[k])
    ensures n < |s| ==> !IsSpace(s[|s| - n - 1])
    decreases |s|
  {
    if |s| > 0 && IsSpace(s[|s| - 1]) then
      var front := s[..|s| - 1];
      var m := TrailingSpace(front);
      m + 1
    else 0
  }

  /** Python's `s.strip()`: `s` without its leading and trailing whitespace.
      Only whitespace is removed, what remains neither starts nor ends with
      whitespace, and nothing remains exactly when `s` is all whitespace. */
  function Strip(s: string): (r: string)
    ensures |r| <= |s|
    ensures r == [] || (!IsSpace(r[0]) && !IsSpace(r[|r| - 1]))
    ensures r == [] <==> AllSpace(s)
  {
    var i := LeadingSpace(s);
    var t := s[i..];
    var j := |s| - TrailingSpace(t);
    assert t[..|t| - TrailingSpace(t)] == s[i..j];
    assert i == j ==> AllSpace(s) by {
      if i == j {
        assert t[|t| - TrailingSpace(t)..] == s[j..];
        assert s == s[..i] + s[j..];
      }
    }
    s[i..j]
  }

  /** Any split of `s` into whitespace, a piece that neither starts nor ends
      with whitespace, and whitespace, is the one `Strip` finds. */
  lemma StripUnique(s: string, i: nat, j: nat)
    requires i <= j <= |s|
    requires AllSpace(s[..i]) && AllSpace(s[j..])
    requires i == j || (!IsSpace(s[i]) && !IsSpace(s[j - 1]))
    ensures Strip(s) == s[i..j]
  {
    var n := LeadingSpace(s);
    var t := s[n..];
    var m := TrailingSpace(t);
    if i < j {
      assert n == i;
      assert |t| - m == j - i;
      assert t[..|t| - m] == s[i..j];
    }
  }

  /** Stripping twice changes nothing more. */
  lemma StripIdempotent(s: string)
    ensures Strip(Strip(s)) == Strip(s)
  {
    var r := Strip(s);
    assert r[..0] == [] && r[|r|..] == [];
    StripUnique(r, 0, |r|);
    assert r[0..|r|] == r;
  }

  /** The in-order concatenation of a sequence of strings. */
  function Concat(parts: seq<string>): string
  {
    if parts == [] then "" else parts[0] + Concat(parts[1..])
  }
}
