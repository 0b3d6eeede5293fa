/**
  Whitespace and trimming as JavaScript defines them. `String.prototype.trim`,
  the regular-expression classes `\s`/`\S` and the whitespace skipped by
  `Number(string)` all use the same set: the WhiteSpace and LineTerminator
  code points of ECMA-262 (sections 12.2 and 12.3).
 */
module Text {

  /** ECMA-262 WhiteSpace (TAB, VT, FF, ZWNBSP and the Unicode "Zs" space
      separators, as listed from Unicode 6.3 on, which no longer counts
      U+180E) together with LineTerminator (LF, CR, LS, PS). Every such
      character lies in the Basic Multilingual Plane, and no visible ASCII
      character is one. */
  predicate IsSpace(c: char)
    ensures IsSpace(c) ==> (c as int) < 0x1_0000
    ensures '!' <= c <= '~' ==> !IsSpace(c)
  {
    || c == '\t' || c == '\n' || c == '\U{B}' || c == '\U{C}' || c == '\r'
    || c == ' ' || c == '\U{A0}' || c == '\U{1680}'
    || ('\U{2000}' <= c <= '\U{200A}')
    || c == '\U{2028}' || c == '\U{2029}' || c == '\U{202F}' || c == '\U{205F}'
    || c == '\U{3000}' || c == '\U{FEFF}'
  }

  /** Every character of `s` is whitespace (the empty string included). */
  predicate IsBlank(s: string)
  {
    forall i | 0 <= i < |s| :: IsSpace(s[i])
  }

  /** No character of `s` is whitespace: `s` is a run of `\S`. */
  predicate NoSpace(s: string)
  {
    forall i | 0 <= i < |s| :: !IsSpace(s[i])
  }

  /** `s` without its leading whitespace. */
  function TrimStart(s: string): (r: string)
    ensures |r| <= |s|
    ensures r == [] <==> IsBlank(s)
    ensures r != [] ==> !IsSpace(r[0]) && r[|r| - 1] == s[|s| - 1]
  {
    if s == [] then []
    else if IsSpace(s[0]) then TrimStart(s[1..])
    else s
  }

  /** `s` without its trailing whitespace. */
  function TrimEnd(s: string): (r: string)
    ensures |r| <= |s|
    ensures r == [] <==> IsBlank(s)
    ensures r != [] ==> !IsSpace(r[|r| - 1]) && r[0] == s[0]
  {
    if s == [] then []
    else if IsSpace(s[|s| - 1]) then TrimEnd(s[..|s| - 1])
    else s
  }

  /** `String.prototype.trim`: `s` without its leading and its trailing
      whitespace. The result is empty exactly when `s` is blank; otherwise
      it starts and ends with a non-whitespace character. */
  function Trim(s: string): (r: string)
    ensures |r| <= |s|
    ensures r == [] <==> IsBlank(s)
    ensures r != [] ==> !IsSpace(r[0]) && !IsSpace(r[|r| - 1])
  {
    TrimEnd(TrimStart(s))
  }

  /** What TrimStart removes is a blank prefix. */
  lemma {:induction false} TrimStartDropsBlankPrefix(s: string)
    ensures var r := TrimStart(s);
            r == s[|s| - |r|..] && IsBlank(s[..|s| - |r|])
  {
    if s != [] && IsSpace(s[0]) {
      TrimStartDropsBlankPrefix(s[1..]);
      var r := TrimStart(s[1..]);
      assert s[1..][|s| - 1 - |r|..] == s[|s| - |r|..];
      assert s[..|s| - |r|] == [s[0]] + s[1..][..|s| - 1 - |r|];
      BlankCons(s[0], s[1..][..|s| - 1 - |r|]);
    }
  }

  /** What TrimEnd removes is a blank suffix. */
  lemma {:induction false} TrimEndDropsBlankSuffix(s: string)
    ensures var r := TrimEnd(s);
            r == s[..|r|] && IsBlank(s[|r|..])
  {
    if s != [] && IsSpace(s[|s| - 1]) {
      var init := s[..|s| - 1];
      TrimEndDropsBlankSuffix(init);
      var r := TrimEnd(init);
      assert init[..|r|] == s[..|r|];
      forall i | |r| <= i < |s|
        ensures IsSpace(s[i])
      {
        if i < |s| - 1 {
          assert s[i] == init[|r|..][i - |r|];
        }
      }
    }
  }

  lemma BlankCons(c: char, t: string)
    requires IsSpace(c) && IsBlank(t)
    ensures IsBlank([c] + t)
  {
    assert forall i | 1 <= i < |t| + 1 :: ([c] + t)[i] == t[i - 1];
  }

  /** Trim removes whitespace only, and only at the two ends: its result is
      the slice `s[k..k + |Trim(s)|]` with blank text on either side. */
  lemma TrimIsBlankFramedSlice(s: string)
    ensures var r := Trim(s);
            exists k | 0 <= k <= |s| - |r| ::
              r == s[k..k + |r|] && IsBlank(s[..k]) && IsBlank(s[k + |r|..])
  {
    var t := TrimStart(s);
    var r := TrimEnd(t);
    var k := |s| - |t|;
    TrimStartDropsBlankPrefix(s);
    TrimEndDropsBlankSuffix(t);
    assert r == s[k..k + |r|];
    assert s[k + |r|..] == t[|r|..];
    assert 0 <= k <= |s| - |r| && r == s[k..k + |r|] && IsBlank(s[..k]) && IsBlank(s[k + |r|..]);
  }

  /** A string that already starts and ends with non-whitespace is its own trim. */
  lemma TrimOfTrimmed(s: string)
    requires s != [] && !IsSpace(s[0]) && !IsSpace(s[|s| - 1])
    ensures Trim(s) == s
  {
  }

  /** Trimming twice is trimming once. */
  lemma TrimIdempotent(s: string)
    ensures Trim(Trim(s)) == Trim(s)
  {
    if Trim(s) != [] {
      TrimOfTrimmed(Trim(s));
    }
  }
}
