/**
 * The two string operations the country-code resolver applies to its setting:
 * Python's `str.strip()` (no argument: remove surrounding whitespace) and
 * `str.upper()`, both restricted to ASCII. Whitespace is exactly the set of
 * ASCII characters for which Python's `str.isspace()` holds; upper-casing maps
 * 'a'..'z' to 'A'..'Z' and leaves every other character as it is.
 */
module AsciiText {

  /** ASCII whitespace as Python sees it: TAB, LF, VT, FF, CR (9..13), the
      four separators FS, GS, RS, US (28..31) and SPACE. */
  predicate IsSpace(c: char) {
    9 <= c as int <= 13 || 28 <= c as int <= 31 || c == ' '
  }

  predicate IsLower(c: char) {
    'a' <= c <= 'z'
  }

  predicate AllSpace(s: string) {
    forall i :: 0 <= i < |s| ==> IsSpace(s[i])
  }

  /** Neither end of `s` is whitespace (vacuously so for the empty string). */
  predicate Trimmed(s: string) {
    s == [] || (!IsSpace(s[0]) && !IsSpace(s[|s| - 1]))
  }

  /** No character of `s` is a lower-case letter. */
  predicate NoLower(s: string) {
    forall i :: 0 <= i < |s| ==> !IsLower(s[i])
  }

  /** `r` is what is left of `s` once `k` whitespace characters are removed
      from its front and the rest of the removed characters, all whitespace,
      from its back. */
  predicate PaddedBy(s: string, r: string, k: nat) {
    k + |r| <= |s| && s[k..k + |r|] == r && AllSpace(s[..k]) && AllSpace(s[k + |r|..])
  }

  /** Upper-case one character: a lower-case ASCII letter becomes the
      upper-case letter at the same place in the alphabet. */
  function UpperChar(c: char): (u: char)
    ensures !IsLower(u)
    ensures IsLower(c) ==> 'A' <= u <= 'Z' && u as int - 'A' as int == c as int - 'a' as int
    ensures !IsLower(c) ==> u == c
    ensures IsSpace(u) <==> IsSpace(c)
  {
    if IsLower(c) then (c as int - 'a' as int + 'A' as int) as char else c
  }

  /** `str.upper()`: every character mapped on its own, in place. */
  function Upper(s: string): (r: string)
    ensures |r| == |s|
    ensures forall i :: 0 <= i < |s| ==> r[i] == UpperChar(s[i])
  {
    if s == [] then [] else [UpperChar(s[0])] + Upper(s[1..])
  }

  /** `str.lstrip()`: drop the leading whitespace. */
  function TrimStart(s: string): (r: string)
    ensures |r| <= |s| && r == s[|s| - |r|..]
    ensures AllSpace(s[..|s| - |r|])
    ensures r == [] || !IsSpace(r[0])
  {
    if s != [] && IsSpace(s[0]) then TrimStart(s[1..]) else s
  }

  /** `str.rstrip()`: drop the trailing whitespace. */
  function TrimEnd(s: string): (r: string)
    ensures |r| <= |s| && r == s[..|r|]
    ensures AllSpace(s[|r|..])
    ensures r == [] || !IsSpace(r[|r| - 1])
  {
    if s != [] && IsSpace(s[|s| - 1]) then TrimEnd(s[..|s| - 1]) else s
  }

  /** `str.strip()`: the middle of `s` between its leading and trailing
      whitespace, the middle itself untouched. */
  function Strip(s: string): (r: string)
    ensures Trimmed(r)
    ensures exists k :: PaddedBy(s, r, k)
    ensures r == [] <==> AllSpace(s)
  {
    var t := TrimStart(s);
    var r := TrimEnd(t);
    var k := |s| - |t|;
    assert s[k..k + |r|] == r;
    assert AllSpace(s[k + |r|..]) by {
      assert s[k + |r|..] == t[|r|..];
    }
    assert PaddedBy(s, r, k);
    assert r == [] ==> AllSpace(s) by {
      if r == [] {
        assert t == [] by { assert AllSpace(t[|r|..]); }
        assert s[..k] == s;
      }
    }
    assert AllSpace(s) ==> t == [];
    r
  }

  /** Stripping is determined by the padding: whatever whitespace surrounds
      a middle that does not itself start or end with whitespace, `Strip`
      returns exactly that middle. */
  lemma {:induction false} StripPadded(pre: string, mid: string, post: string)
    requires AllSpace(pre) && AllSpace(post) && Trimmed(mid)
    ensures Strip(pre + mid + post) == mid
  {
    if mid == [] {
      assert AllSpace(pre + mid + post) by {
        forall i | 0 <= i < |pre + mid + post| ensures IsSpace((pre + mid + post)[i]) {
          if i >= |pre| { assert (pre + mid + post)[i] == post[i - |pre|]; }
        }
      }
      return;
    }
    TrimStartPadded(pre, mid + post);
    assert TrimStart(pre + mid + post) == mid + post by {
      assert pre + mid + post == pre + (mid + post);
    }
    TrimEndPadded(mid, post);
  }

  lemma {:induction false} TrimStartPadded(pre: string, rest: string)
    requires AllSpace(pre)
    requires rest == [] || !IsSpace(rest[0])
    ensures TrimStart(pre + rest) == rest
  {
    if pre == [] {
      assert pre + rest == rest;
    } else {
      assert (pre + rest)[1..] == pre[1..] + rest;
      TrimStartPadded(pre[1..], rest);
    }
  }

  lemma {:induction false} TrimEndPadded(rest: string, post: string)
    requires AllSpace(post)
    requires rest == [] || !IsSpace(rest[|rest| - 1])
    ensures TrimEnd(rest + post) == rest
  {
    if post == [] {
      assert rest + post == rest;
    } else {
      var n := |post| - 1;
      assert (rest + post)[..|rest + post| - 1] == rest + post[..n];
      TrimEndPadded(rest, post[..n]);
    }
  }

  /** A string already stripped is its own strip. */
  lemma StripTrimmed(s: string)
    requires Trimmed(s)
    ensures Strip(s) == s
  {
    assert TrimStart(s) == s;
    assert TrimEnd(s) == s;
  }

  /** Upper-casing keeps whether each end is whitespace. */
  lemma UpperTrimmed(s: string)
    requires Trimmed(s)
    ensures Trimmed(Upper(s)) && NoLower(Upper(s))
  {
  }

  /** Upper-casing is the identity on a string with no lower-case letter. */
  lemma UpperNoLower(s: string)
    requires NoLower(s)
    ensures Upper(s) == s
  {
    assert forall i :: 0 <= i < |s| ==> Upper(s)[i] == s[i];
  }
}
