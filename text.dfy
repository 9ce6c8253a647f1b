/** The few string operations the views rely on, with the semantics of the
    language they are written in: substring membership (`pat in s`),
    `s.replace(pat, rep)`, `s.rstrip(c)` for one character, and the POSIX
    path join. */
module Text {

  predicate StartsWith(s: string, prefix: string) {
    |prefix| <= |s| && s[..|prefix|] == prefix
  }

  /** `pat` occurs in `s` starting at index `i`. */
  predicate OccursAt(s: string, pat: string, i: nat) {
    i + |pat| <= |s| && s[i..i + |pat|] == pat
  }

  /** Substring membership, `pat in s`; the empty pattern is in every string. */
  predicate Contains(s: string, pat: string) {
    exists i: nat | i <= |s| :: OccursAt(s, pat, i)
  }

  /** Membership decided one position at a time: an occurrence either starts
      here or lies in the tail. */
  lemma ContainsStep(s: string, pat: string)
    ensures Contains(s, pat) <==> StartsWith(s, pat) || (|s| > 0 && Contains(s[1..], pat))
  {
    if Contains(s, pat) {
      var i: nat :| i <= |s| && OccursAt(s, pat, i);
      assert i + |pat| <= |s|;
      if i > 0 {
        assert s[1..][i - 1..i - 1 + |pat|] == s[i..i + |pat|];
        assert OccursAt(s[1..], pat, i - 1);
      } else {
        assert s[..|pat|] == s[0..|pat|];
      }
    }
    if StartsWith(s, pat) {
      assert s[0..|pat|] == s[..|pat|];
      assert OccursAt(s, pat, 0);
    } else if |s| > 0 && Contains(s[1..], pat) {
      var t := s[1..];
      var j: nat :| j <= |t| && OccursAt(t, pat, j);
      assert j + 1 + |pat| <= |s|;
      assert s[j + 1..j + 1 + |pat|] == s[1..][j..j + |pat|];
      assert OccursAt(s, pat, j + 1);
    }
  }

  /** A pattern whose first character never appears in `s` does not occur in it. */
  lemma AbsentWithoutFirstChar(s: string, pat: string)
    requires pat != [] && forall i :: 0 <= i < |s| ==> s[i] != pat[0]
    ensures !Contains(s, pat)
  {
    forall i: nat | i <= |s| && i + |pat| <= |s| ensures !OccursAt(s, pat, i) {
      assert s[i..i + |pat|][0] == s[i];
    }
  }

  /** `s.replace(pat, rep)` for a non-empty `pat`: scan left to right, and
      replace every occurrence that does not overlap an earlier replaced one. */
  function ReplaceAll(s: string, pat: string, rep: string): string
    requires pat != []
    decreases |s|
  {
    if |s| < |pat| then s
    else if s[..|pat|] == pat then rep + ReplaceAll(s[|pat|..], pat, rep)
    else [s[0]] + ReplaceAll(s[1..], pat, rep)
  }

  /** A string in which `pat` does not occur is left as it is. */
  lemma {:induction false} ReplaceAllAbsent(s: string, pat: string, rep: string)
    requires pat != [] && !Contains(s, pat)
    ensures ReplaceAll(s, pat, rep) == s
  {
    ContainsStep(s, pat);
    if |s| >= |pat| {
      ReplaceAllAbsent(s[1..], pat, rep);
      assert [s[0]] + s[1..] == s;
    }
  }

  /** Deleting a pattern never lengthens a string, and shortens it exactly
      when the pattern occurs. */
  lemma {:induction false} RemoveAllShrinks(s: string, pat: string)
    requires pat != []
    ensures |ReplaceAll(s, pat, "")| <= |s|
    ensures Contains(s, pat) ==> |ReplaceAll(s, pat, "")| < |s|
  {
    ContainsStep(s, pat);
    if |s| >= |pat| {
      if s[..|pat|] == pat {
        RemoveAllShrinks(s[|pat|..], pat);
      } else {
        RemoveAllShrinks(s[1..], pat);
      }
    }
  }

  /** `s.replace(pat, '')` returns `s` itself if and only if `pat` is not in `s`. */
  lemma RemoveAllIsIdentityIff(s: string, pat: string)
    requires pat != []
    ensures ReplaceAll(s, pat, "") == s <==> !Contains(s, pat)
  {
    RemoveAllShrinks(s, pat);
    if !Contains(s, pat) {
      ReplaceAllAbsent(s, pat, "");
    }
  }

  /** `r` is `s` with every trailing `c` taken off: a prefix of `s` that does
      not end in `c`, and everything after it in `s` is `c`. */
  predicate TrailingRemoved(s: string, c: char, r: string) {
    && r <= s
    && (r == [] || r[|r| - 1] != c)
    && forall i :: |r| <= i < |s| ==> s[i] == c
  }

  /** `s.rstrip(c)` for a single character `c`. */
  function StripTrailing(s: string, c: char): (r: string)
    ensures TrailingRemoved(s, c, r)
    decreases |s|
  {
    if |s| > 0 && s[|s| - 1] == c then StripTrailing(s[..|s| - 1], c) else s
  }

  /** Stripping ignores any number of extra trailing `c`s: in particular
      `(s + c).rstrip(c) == s.rstrip(c)`. */
  lemma StripTrailingAbsorbs(s: string, c: char)
    ensures StripTrailing(s + [c], c) == StripTrailing(s, c)
  {
    assert (s + [c])[..|s + [c]| - 1] == s;
  }

  /** A path that starts with the separator. */
  predicate Absolute(path: string) {
    path != [] && path[0] == '/'
  }

  /** `posixpath.join(a, b)`: an absolute `b` replaces what came before; a
      separator is inserted only when `a` is non-empty and does not already
      end in one. */
  function PathJoin(a: string, b: string): (r: string)
    ensures Absolute(b) ==> r == b
    ensures !Absolute(b) ==> a <= r && |b| <= |r| && r[|r| - |b|..] == b
    // a separator is added only after a non-empty head that does not end in one
    ensures !Absolute(b) ==> |r| == |a| + |b| + (if a == [] || a[|a| - 1] == '/' then 0 else 1)
    // a non-empty head meets the tail at a separator, its own or an added one
    ensures !Absolute(b) && a != [] ==> r[|a| - 1] == '/' || (|a| < |r| && r[|a|] == '/')
    ensures !Absolute(b) && a != [] && a[|a| - 1] != '/' ==> |r| == |a| + 1 + |b| && r[|a|] == '/'
  {
    if Absolute(b) then b
    else if a == [] || a[|a| - 1] == '/' then a + b
    else a + "/" + b
  }
}
