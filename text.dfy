/**
 * The string operations the application applies to what the user types:
 * Python's `str.strip()`, `str.lower()` and `str.capitalize()`.
 */
module Text {

  /** The characters Python's `str.isspace` accepts, which `str.strip()` removes by default. */
  predicate IsSpace(c: char) {
    c == ' ' || ('\t' <= c <= '\r') || ('\U{1C}' <= c <= '\U{1F}')
    || c == '\U{85}' || c == '\U{A0}' || c == '\U{1680}'
    || ('\U{2000}' <= c <= '\U{200A}') || c == '\U{2028}' || c == '\U{2029}'
    || c == '\U{202F}' || c == '\U{205F}' || c == '\U{3000}'
  }

  /** Neither the first nor the last character of `s` is whitespace. */
  predicate IsStripped(s: string) {
    s == [] || (!IsSpace(s[0]) && !IsSpace(s[|s| - 1]))
  }

  predicate AllSpace(s: string) {
    forall i :: 0 <= i < |s| ==> IsSpace(s[i])
  }

  /** `s` with its leading whitespace removed: what is left does not start with whitespace. */
  function TrimLeft(s: string): (r: string)
    ensures |r| <= |s|
    ensures r == [] || !IsSpace(r[0])
  {
    if s != [] && IsSpace(s[0]) then TrimLeft(s[1..]) else s
  }

  /** `s` with its trailing whitespace removed: what is left does not end with whitespace. */
  function TrimRight(s: string): (r: string)
    ensures |r| <= |s|
    ensures r == [] || !IsSpace(r[|r| - 1])
  {
    if s != [] && IsSpace(s[|s| - 1]) then TrimRight(s[..|s| - 1]) else s
  }

  /** `TrimLeft` keeps a suffix of `s` and cuts only whitespace. */
  lemma {:induction false} TrimLeftIsSuffix(s: string)
    ensures var r := TrimLeft(s); r == s[|s| - |r|..] && AllSpace(s[..|s| - |r|])
  {
    if s != [] && IsSpace(s[0]) {
      TrimLeftIsSuffix(s[1..]);
      var r := TrimLeft(s);
      assert s[1..][|s| - 1 - |r|..] == s[|s| - |r|..];
      var cut, rest := s[..|s| - |r|], s[1..][..|s| - 1 - |r|];
      forall i | 0 <= i < |cut| ensures IsSpace(cut[i]) {
        if i > 0 { assert cut[i] == rest[i - 1]; }
      }
    }
  }

  /** `TrimRight` keeps a prefix of `s` and cuts only whitespace. */
  lemma {:induction false} TrimRightIsPrefix(s: string)
    ensures var r := TrimRight(s); r == s[..|r|] && AllSpace(s[|r|..])
  {
    if s != [] && IsSpace(s[|s| - 1]) {
      var t := s[..|s| - 1];
      TrimRightIsPrefix(t);
      var r := TrimRight(s);
      assert t[..|r|] == s[..|r|];
      var cut, rest := s[|r|..], t[|r|..];
      forall i | 0 <= i < |cut| ensures IsSpace(cut[i]) {
        if i < |rest| { assert cut[i] == rest[i]; }
      }
    }
  }

  /** Python's `s.strip()`: no whitespace at either end. `StripIsSlice` says which part of `s` it keeps. */
  function Strip(s: string): (r: string)
    ensures IsStripped(r)
    ensures |r| <= |s|
  {
    TrimRightIsPrefix(TrimLeft(s));
    TrimRight(TrimLeft(s))
  }

  /**
   * What `strip` keeps is the slice of `s` between its leading and its trailing
   * whitespace, and only whitespace is cut; so the result is empty exactly when `s`
   * is all whitespace.
   */
  lemma {:induction false} StripIsSlice(s: string)
    ensures var k := |s| - |TrimLeft(s)|; var r := Strip(s);
      k + |r| <= |s| && r == s[k..k + |r|] && AllSpace(s[..k]) && AllSpace(s[k + |r|..])
    ensures Strip(s) == [] <==> AllSpace(s)
  {
    var t := TrimLeft(s);
    var r := TrimRight(t);
    var k := |s| - |t|;
    TrimLeftIsSuffix(s);
    TrimRightIsPrefix(t);
    assert s[k + |r|..] == t[|r|..];
    assert r == s[k..k + |r|];
    SplitAllSpace(s, k);
    SplitAllSpace(t, |r|);
    if r != [] {
      assert s[k] == t[0];
    }
  }

  /** A string is all whitespace exactly when both parts of any split of it are. */
  lemma {:induction false} SplitAllSpace(s: string, k: nat)
    requires k <= |s|
    ensures AllSpace(s) <==> AllSpace(s[..k]) && AllSpace(s[k..])
  {
    if AllSpace(s[..k]) && AllSpace(s[k..]) {
      forall i | 0 <= i < |s| ensures IsSpace(s[i]) {
        if i < k { assert s[..k][i] == s[i]; } else { assert s[k..][i - k] == s[i]; }
      }
    }
  }

  /** Stripping a string that has no surrounding whitespace leaves it as it is. */
  lemma StrippedIsFixed(s: string)
    requires IsStripped(s)
    ensures Strip(s) == s
  {
    if s != [] {
      assert TrimLeft(s) == s;
      assert TrimRight(s) == s;
    }
  }

  /** `strip` is idempotent. */
  lemma StripIdempotent(s: string)
    ensures Strip(Strip(s)) == Strip(s)
  {
    StrippedIsFixed(Strip(s));
  }

  predicate IsUpper(c: char) {
    'A' <= c <= 'Z'
  }

  predicate IsLower(c: char) {
    'a' <= c <= 'z'
  }

  function LowerChar(c: char): (d: char)
    ensures !IsUpper(d)
    ensures IsUpper(c) ==> IsLower(d) && d as int == c as int + 32
    ensures IsSpace(d) <==> IsSpace(c)
    ensures !IsUpper(c) ==> d == c
  {
    if IsUpper(c) then (c as int + 32) as char else c
  }

  function UpperChar(c: char): (d: char)
    ensures !IsLower(d)
    ensures IsLower(c) ==> IsUpper(d) && d as int == c as int - 32
    ensures !IsLower(c) ==> d == c
  {
    if IsLower(c) then (c as int - 32) as char else c
  }

  /** Python's `s.lower()`, on the ASCII letters: character by character, whitespace where `s` has it. */
  function Lower(s: string): (r: string)
    ensures |r| == |s|
    ensures forall i :: 0 <= i < |s| ==> r[i] == LowerChar(s[i])
  {
    if s == [] then [] else [LowerChar(s[0])] + Lower(s[1..])
  }

  /** Lower-casing keeps a stripped string stripped and an empty one empty, and is idempotent. */
  lemma LowerKeepsShape(s: string)
    ensures IsStripped(s) ==> IsStripped(Lower(s))
    ensures Lower(s) == [] <==> s == []
    ensures Lower(Lower(s)) == Lower(s)
    ensures forall i :: 0 <= i < |s| ==> !IsUpper(Lower(s)[i])
  {
  }

  /**
   * Python's `s.capitalize()`, on the ASCII letters: a lower-case first letter becomes
   * upper case, every later letter ends up lower case, and any other character is kept.
   */
  function Capitalize(s: string): (r: string)
    ensures |r| == |s|
    ensures s != [] && IsLower(s[0]) ==> IsUpper(r[0])
    ensures s != [] && !IsLower(s[0]) ==> r[0] == s[0]
    ensures forall i :: 1 <= i < |s| ==> !IsUpper(r[i])
    ensures forall i :: 1 <= i < |s| ==> (IsUpper(s[i]) ==> IsLower(r[i])) && (!IsUpper(s[i]) ==> r[i] == s[i])
  {
    if s == [] then [] else [UpperChar(s[0])] + Lower(s[1..])
  }

  /** Capitalising differs from the word only in case: lower-casing both gives the same string. */
  lemma CapitalizeSameLetters(s: string)
    ensures Lower(Capitalize(s)) == Lower(s)
  {
    var c, l := Lower(Capitalize(s)), Lower(s);
    forall i | 0 <= i < |s| ensures c[i] == l[i] {
      if i > 0 { assert LowerChar(LowerChar(s[i])) == LowerChar(s[i]); }
    }
  }

  /** A capitalised word is fixed by a second capitalisation. */
  lemma CapitalizeIdempotent(s: string)
    ensures Capitalize(Capitalize(s)) == Capitalize(s)
  {
    var c := Capitalize(s);
    if s != [] {
      assert Lower(c[1..]) == c[1..];
    }
  }
}
