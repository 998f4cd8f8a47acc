/** Python's `str.strip()` and the silence test applied to every recognised chunk. */
module Text {

  /** Python's `str.isspace` for one character: Unicode whitespace as Python defines it. */
  predicate IsSpace(c: char) {
    var u := c as int;
    || (0x09 <= u <= 0x0D) || (0x1C <= u <= 0x20) || u == 0x85 || u == 0xA0
    || u == 0x1680 || (0x2000 <= u <= 0x200A) || u == 0x2028 || u == 0x2029
    || u == 0x202F || u == 0x205F || u == 0x3000
  }

  /** Number of leading whitespace characters. */
  function LeadingSpace(s: string): (n: nat)
    ensures n <= |s|
    decreases |s|
  {
    if s != [] && IsSpace(s[0]) then 1 + LeadingSpace(s[1..]) else 0
  }

  /** Number of trailing whitespace characters. */
  function TrailingSpace(s: string): (n: nat)
    ensures n <= |s|
    decreases |s|
  {
    if s != [] && IsSpace(s[|s| - 1]) then 1 + TrailingSpace(s[..|s| - 1]) else 0
  }

  /** The leading run is all whitespace and is maximal. */
  lemma {:induction false} LeadingSpaceMeaning(s: string)
    ensures forall i :: 0 <= i < LeadingSpace(s) ==> IsSpace(s[i])
    ensures LeadingSpace(s) < |s| ==> !IsSpace(s[LeadingSpace(s)])
    decreases |s|
  {
    if s != [] && IsSpace(s[0]) {
      LeadingSpaceMeaning(s[1..]);
      forall i | 0 <= i < LeadingSpace(s) ensures IsSpace(s[i]) {
        if i > 0 { assert s[i] == s[1..][i - 1]; }
      }
    }
  }

  /** The trailing run is all whitespace and is maximal. */
  lemma {:induction false} TrailingSpaceMeaning(s: string)
    ensures forall i :: |s| - TrailingSpace(s) <= i < |s| ==> IsSpace(s[i])
    ensures TrailingSpace(s) < |s| ==> !IsSpace(s[|s| - 1 - TrailingSpace(s)])
    decreases |s|
  {
    if s != [] && IsSpace(s[|s| - 1]) {
      TrailingSpaceMeaning(s[..|s| - 1]);
    }
  }

  /** `s.strip()`: the slice left after removing leading and trailing whitespace. */
  function Strip(s: string): (r: string)
    ensures |r| <= |s|
  {
    var i := LeadingSpace(s);
    var t := s[i..];
    s[i..i + |t| - TrailingSpace(t)]
  }

  /**
   * What `strip` leaves: a slice of `s` with only whitespace outside it,
   * empty or starting and ending with a non-space character.
   */
  lemma StripMeaning(s: string)
    ensures (exists i, j :: 0 <= i <= j <= |s| && Strip(s) == s[i..j]
               && (forall k :: 0 <= k < i ==> IsSpace(s[k]))
               && (forall k :: j <= k < |s| ==> IsSpace(s[k])))
    ensures Strip(s) != [] ==> !IsSpace(Strip(s)[0]) && !IsSpace(Strip(s)[|Strip(s)| - 1])
  {
    var i := LeadingSpace(s);
    var t := s[i..];
    var n := TrailingSpace(t);
    LeadingSpaceMeaning(s);
    TrailingSpaceMeaning(t);
    forall k | i + |t| - n <= k < |s| ensures IsSpace(s[k]) { assert s[k] == t[k - i]; }
    var j := i + |t| - n;
    assert Strip(s) == s[i..j];
    if Strip(s) != [] {
      assert Strip(s)[|Strip(s)| - 1] == t[|t| - 1 - n];
    }
  }

  /**
   * The acceptance test of a recognised chunk, `raw and len(str(raw).strip()) > 1`:
   * a chunk is kept exactly when it holds at least two non-whitespace characters.
   */
  predicate Keep(raw: string) {
    |raw| > 0 && |Strip(raw)| > 1
  }

  lemma KeepIffTwoNonSpace(raw: string)
    ensures Keep(raw) <==> exists p, q :: 0 <= p < q < |raw| && !IsSpace(raw[p]) && !IsSpace(raw[q])
  {
    var r := Strip(raw);
    StripMeaning(raw);
    var i, j :| 0 <= i <= j <= |raw| && r == raw[i..j]
      && (forall k :: 0 <= k < i ==> IsSpace(raw[k]))
      && (forall k :: j <= k < |raw| ==> IsSpace(raw[k]));
    if Keep(raw) {
      assert !IsSpace(raw[i]) && !IsSpace(raw[j - 1]);
    }
    if p, q :| 0 <= p < q < |raw| && !IsSpace(raw[p]) && !IsSpace(raw[q]) {
      assert i <= p && q < j;
    }
  }

  /** Examples of the rule: silence, a lone character and padding are dropped. */
  lemma DropExamples()
    ensures !Keep("") && !Keep(" ") && !Keep("a") && !Keep(" a\n")
  {
    assert Strip(" ") == [];
    assert Strip("a") == "a";
    assert LeadingSpace(" a\n") == 1;
    assert TrailingSpace("a\n") == 1;
  }

  lemma KeepExamples()
    ensures Keep("ab") && Keep(" a b ")
  {
    KeepIffTwoNonSpace("ab");
    KeepIffTwoNonSpace(" a b ");
    assert !IsSpace(" a b "[1]) && !IsSpace(" a b "[3]);
    assert !IsSpace("ab"[0]) && !IsSpace("ab"[1]);
  }
}
