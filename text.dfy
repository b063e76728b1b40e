/**
 * Strings as the classifier sees them: lower-casing and substring search
 * (Python's `str.lower()` and the `in` operator on strings).
 */
module Text {

  /** True when `c` is an ASCII upper-case letter. */
  predicate IsUpper(c: char) {
    'A' <= c <= 'Z'
  }

  /** Lower-cases one character; only ASCII letters are affected. */
  function LowerChar(c: char): (r: char)
    ensures !IsUpper(r)
    ensures IsUpper(c) ==> r as int == c as int + ('a' as int - 'A' as int)
    ensures !IsUpper(c) ==> r == c
  {
    if IsUpper(c) then (c as int + ('a' as int - 'A' as int)) as char else c
  }

  /** `s.lower()`: every character lower-cased, length and positions kept. */
  function Lower(s: string): (r: string)
    ensures |r| == |s|
    ensures forall i :: 0 <= i < |s| ==> r[i] == LowerChar(s[i])
    ensures forall i :: 0 <= i < |r| ==> !IsUpper(r[i])
  {
    if s == [] then [] else [LowerChar(s[0])] + Lower(s[1..])
  }

  /** A text without upper-case letters is its own lower-cased form. */
  lemma LowerOfLowerCase(s: string)
    requires forall i :: 0 <= i < |s| ==> !IsUpper(s[i])
    ensures Lower(s) == s
  {
    assert forall i :: 0 <= i < |s| ==> Lower(s)[i] == s[i];
  }

  /** Lower-casing twice is lower-casing once. */
  lemma LowerIdempotent(s: string)
    ensures Lower(Lower(s)) == Lower(s)
  {
    var l := Lower(s);
    assert forall i :: 0 <= i < |l| ==> Lower(l)[i] == l[i];
  }

  /** `p` occurs in `t` starting at position `i`. */
  ghost predicate OccursAt(p: string, t: string, i: int) {
    0 <= i && i + |p| <= |t| && t[i..i + |p|] == p
  }

  /** The meaning of Python's `p in t`: some position of `t` starts a copy of `p`. */
  ghost predicate IsSubstring(p: string, t: string) {
    exists i :: OccursAt(p, t, i)
  }

  /** Decides `p in t` by trying every start position from the left. */
  function Contains(t: string, p: string): (r: bool)
    ensures r <==> IsSubstring(p, t)
    decreases |t|
  {
    if |p| > |t| then
      false
    else if t[..|p|] == p then
      assert OccursAt(p, t, 0);
      true
    else
      var r := Contains(t[1..], p);
      if r then
        assert IsSubstring(p, t) by {
          var i :| OccursAt(p, t[1..], i);
          assert t[i + 1..i + 1 + |p|] == t[1..][i..i + |p|];
          assert OccursAt(p, t, i + 1);
        }
        r
      else
        assert forall i :: OccursAt(p, t, i) ==> OccursAt(p, t[1..], i - 1) by {
          forall i | OccursAt(p, t, i)
            ensures OccursAt(p, t[1..], i - 1)
          {
            assert i != 0;
            assert t[1..][i - 1..i - 1 + |p|] == t[i..i + |p|];
          }
        }
        r
  }

  /** A copy of `p` at any position makes `Contains` answer yes. */
  lemma ContainsAt(t: string, p: string, i: nat)
    requires i + |p| <= |t| && t[i..i + |p|] == p
    ensures Contains(t, p)
  {
    assert OccursAt(p, t, i);
  }

  /** A keyword already in lower case that occurs in `s` occurs in `s.lower()`. */
  lemma ContainsLowered(s: string, p: string, i: nat)
    requires forall k :: 0 <= k < |p| ==> !IsUpper(p[k])
    requires i + |p| <= |s| && s[i..i + |p|] == p
    ensures Contains(Lower(s), Lower(p))
  {
    var l := Lower(s);
    assert Lower(p) == p;
    assert l[i..i + |p|] == p by {
      forall k | 0 <= k < |p|
        ensures l[i..i + |p|][k] == p[k]
      {
        assert s[i + k] == p[k];
      }
    }
    ContainsAt(l, Lower(p), i);
  }

  /** The empty keyword occurs in every text, as `'' in t` does in Python. */
  lemma EmptyOccursEverywhere(t: string)
    ensures Contains(t, "")
  {
    assert OccursAt("", t, 0);
  }
}
