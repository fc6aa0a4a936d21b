/**
 `String.prototype.trim`, which the add handler applies to the draft text:
 it removes leading and trailing white space, where white space is what the
 ECMAScript language specification calls WhiteSpace and LineTerminator.
 */
module TextTrim {

  /**
   The ECMAScript WhiteSpace code points (tab, vertical tab, form feed, the
   zero-width no-break space and every "Space_Separator" code point) together
   with the LineTerminator code points (line feed, carriage return, line and
   paragraph separators).
   */
  predicate IsWhitespace(c: char)
  {
    || c == '\t' || c == '\n' || c == '\U{000B}' || c == '\U{000C}' || c == '\r'
    || c == ' ' || c == '\U{00A0}' || c == '\U{1680}'
    || ('\U{2000}' <= c <= '\U{200A}')
    || c == '\U{2028}' || c == '\U{2029}' || c == '\U{202F}' || c == '\U{205F}'
    || c == '\U{3000}' || c == '\U{FEFF}'
  }

  /** Every character of `s` is white space (vacuously so for ""). */
  predicate AllWhitespace(s: string)
  {
    forall i :: 0 <= i < |s| ==> IsWhitespace(s[i])
  }

  /** `s` with its leading white space removed: the longest suffix that does not start with white space. */
  function TrimStart(s: string): (r: string)
    ensures |r| <= |s| && r == s[|s| - |r|..]
    ensures AllWhitespace(s[..|s| - |r|])
    ensures r == [] || !IsWhitespace(r[0])
    decreases |s|
  {
    if s != [] && IsWhitespace(s[0]) then
      var r := TrimStart(s[1..]);
      assert s[1..][..|s| - 1 - |r|] == s[1..|s| - |r|];
      assert s[..|s| - |r|] == [s[0]] + s[1..|s| - |r|];
      r
    else s
  }

  /** `s` with its trailing white space removed: the longest prefix that does not end with white space. */
  function TrimEnd(s: string): (r: string)
    ensures |r| <= |s| && r == s[..|r|]
    ensures AllWhitespace(s[|r|..])
    ensures r == [] || !IsWhitespace(r[|r| - 1])
    decreases |s|
  {
    if s != [] && IsWhitespace(s[|s| - 1]) then
      var init := s[..|s| - 1];
      var r := TrimEnd(init);
      assert init[..|r|] == s[..|r|];
      assert s[|r|..] == init[|r|..] + [s[|s| - 1]];
      r
    else s
  }

  /** `s.trim()`: never longer than `s`; `TrimIsCore` and `TrimEmptyIffBlank` characterise it. */
  function Trim(s: string): (r: string)
    ensures |r| <= |s|
  {
    TrimEnd(TrimStart(s))
  }

  /** How many leading white-space characters `s.trim()` removes. */
  function Lead(s: string): (n: nat)
    ensures n <= |s|
  {
    |s| - |TrimStart(s)|
  }

  /**
   The trimmed text is the slice of `s` starting at `Lead(s)`, everything cut
   off on either side is white space, and the slice neither starts nor ends
   with white space.
   */
  lemma TrimIsCore(s: string)
    ensures Lead(s) + |Trim(s)| <= |s|
    ensures Trim(s) == s[Lead(s)..Lead(s) + |Trim(s)|]
    ensures AllWhitespace(s[..Lead(s)])
    ensures AllWhitespace(s[Lead(s) + |Trim(s)|..])
    ensures Trim(s) == [] || (!IsWhitespace(Trim(s)[0]) && !IsWhitespace(Trim(s)[|Trim(s)| - 1]))
  {
    var t := TrimStart(s);
    CoreOfSlices(s, t, TrimEnd(t), Lead(s));
  }

  /**
   The shape of a trim, stated on plain slices: when `t` is `s` minus a
   white-space prefix of length `lead` and `r` is `t` minus a white-space
   suffix, `r` is the slice of `s` at `lead` with white space on both sides.
   */
  lemma CoreOfSlices(s: string, t: string, r: string, lead: nat)
    requires lead <= |s| && t == s[lead..] && AllWhitespace(s[..lead])
    requires |r| <= |t| && r == t[..|r|] && AllWhitespace(t[|r|..])
    requires t == [] || !IsWhitespace(t[0])
    requires r == [] || !IsWhitespace(r[|r| - 1])
    ensures lead + |r| <= |s|
    ensures r == s[lead..lead + |r|]
    ensures AllWhitespace(s[lead + |r|..])
    ensures r == [] || (!IsWhitespace(r[0]) && !IsWhitespace(r[|r| - 1]))
  {
    SuffixSlices(s, lead, |r|);
    if r != [] {
      assert r[0] == t[0];
    }
  }

  /** Slicing a suffix `s[a..]` is slicing `s` with the offset `a` added. */
  lemma SuffixSlices<T>(s: seq<T>, a: nat, n: nat)
    requires a + n <= |s|
    ensures s[a..][..n] == s[a..a + n]
    ensures s[a..][n..] == s[a + n..]
  {
  }

  /** Trimming yields "" exactly when the input is entirely white space. */
  lemma TrimEmptyIffBlank(s: string)
    ensures Trim(s) == [] <==> AllWhitespace(s)
  {
    var t := TrimStart(s);
    var lead := |s| - |t|;
    if Trim(s) == [] {
      // `t` is all white space yet does not start with any, so it is empty
      assert t == [];
      forall i | 0 <= i < |s| ensures IsWhitespace(s[i]) {
        assert s[i] == s[..lead][i];
      }
    } else {
      assert t[0] == s[lead];
    }
  }

  /** A string that neither starts nor ends with white space is its own trim. */
  lemma TrimKeepsBare(s: string)
    requires s != [] && !IsWhitespace(s[0]) && !IsWhitespace(s[|s| - 1])
    ensures Trim(s) == s
  {
    assert TrimStart(s) == s;
  }

  /** Trimming an already trimmed string changes nothing. */
  lemma TrimIdempotent(s: string)
    ensures Trim(Trim(s)) == Trim(s)
  {
    var r := Trim(s);
    if r != [] {
      TrimIsCore(s);
      assert TrimStart(r) == r;
      assert TrimEnd(r) == r;
    }
  }
}
