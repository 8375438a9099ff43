/** The two pieces of Go's `strings` package that the scope rewriter relies on:
    occurrence of a substring, and `strings.Replace(s, old, new, -1)`. */
module Strings {

  /** `p` occurs in `s` starting at index `i`. */
  predicate OccursAt(s: string, p: string, i: nat) {
    i + |p| <= |s| && s[i..i + |p|] == p
  }

  /** `p` is a substring of `s` (`strings.Contains`). */
  predicate Contains(s: string, p: string) {
    exists i :: 0 <= i <= |s| - |p| && OccursAt(s, p, i)
  }

  /** `s` starts with `p` (`strings.HasPrefix`). */
  predicate HasPrefix(s: string, p: string) {
    |p| <= |s| && s[..|p|] == p
  }

  /** No two adjacent characters of `s` are both `c`: the index form of "does not contain `cc`". */
  predicate NoDouble(s: string, c: char) {
    forall i :: 0 <= i < |s| - 1 ==> !(s[i] == c && s[i + 1] == c)
  }

  /** `strings.Replace(s, pat, rep, -1)` for a non-empty `pat`: scanning left to right, each
      occurrence of `pat` that does not overlap an earlier replaced one is replaced by `rep`. */
  function ReplaceAll(s: string, pat: string, rep: string): string
    requires |pat| > 0
    decreases |s|
  {
    if |s| == 0 then s
    else if HasPrefix(s, pat) then rep + ReplaceAll(s[|pat|..], pat, rep)
    else [s[0]] + ReplaceAll(s[1..], pat, rep)
  }

  lemma PairOccurs(s: string, c: char, i: nat)
    ensures OccursAt(s, [c, c], i) <==> (i + 1 < |s| && s[i] == c && s[i + 1] == c)
  {
    if i + 1 < |s| && s[i] == c && s[i + 1] == c {
      assert s[i..i + 2] == [c, c];
    }
  }

  /** "Contains no `cc`" and the index form `NoDouble` say the same thing. */
  lemma NoDoubleIff(s: string, c: char)
    ensures NoDouble(s, c) <==> !Contains(s, [c, c])
  {
    if !NoDouble(s, c) {
      var i :| 0 <= i < |s| - 1 && s[i] == c && s[i + 1] == c;
      PairOccurs(s, c, i);
    }
    if Contains(s, [c, c]) {
      var i :| 0 <= i <= |s| - 2 && OccursAt(s, [c, c], i);
      PairOccurs(s, c, i);
    }
  }

  /** Prepending one character keeps `NoDouble` when it does not start a new pair. */
  lemma NoDoubleCons(x: char, t: string, c: char)
    requires NoDouble(t, c)
    requires x != c || |t| == 0 || t[0] != c
    ensures NoDouble([x] + t, c)
  {
    var s := [x] + t;
    forall i | 0 <= i < |s| - 1
      ensures !(s[i] == c && s[i + 1] == c)
    {
      if i > 0 {
        assert s[i] == t[i - 1] && s[i + 1] == t[i];
      }
    }
  }

  /** The first character of a replacement result. */
  lemma ReplaceAllHead(s: string, pat: string, rep: string)
    requires |pat| > 0 && |s| > 0 && |rep| > 0
    ensures |ReplaceAll(s, pat, rep)| > 0
    ensures ReplaceAll(s, pat, rep)[0] == if HasPrefix(s, pat) then rep[0] else s[0]
  {
  }

  /** A prefix that holds no copy of `pat`'s first character is copied verbatim. */
  lemma {:induction false} ReplaceAllSkips(p: string, q: string, pat: string, rep: string)
    requires |pat| > 0 && pat[0] !in p
    ensures ReplaceAll(p + q, pat, rep) == p + ReplaceAll(q, pat, rep)
    decreases |p|
  {
    if |p| > 0 {
      assert (p + q)[0] == p[0];
      assert !HasPrefix(p + q, pat);
      assert (p + q)[1..] == p[1..] + q;
      ReplaceAllSkips(p[1..], q, pat, rep);
      assert ReplaceAll(p + q, pat, rep) == [p[0]] + (p[1..] + ReplaceAll(q, pat, rep));
      assert [p[0]] + p[1..] == p;
    } else {
      assert p + q == q;
    }
  }

  /** An occurrence at the front is replaced and the scan resumes after it. */
  lemma ReplaceAllAtFront(pat: string, q: string, rep: string)
    requires |pat| > 0
    ensures ReplaceAll(pat + q, pat, rep) == rep + ReplaceAll(q, pat, rep)
  {
    assert (pat + q)[..|pat|] == pat;
    assert (pat + q)[|pat|..] == q;
  }

  /** Replacing `cc` by a character other than `c` leaves no `cc` behind
      (the leftmost-first scan never leaves two adjacent `c`s). */
  lemma {:induction false} ReplaceAllLeavesNoPair(s: string, c: char, d: char)
    requires d != c
    ensures NoDouble(ReplaceAll(s, [c, c], [d]), c)
    decreases |s|
  {
    if |s| > 0 {
      if HasPrefix(s, [c, c]) {
        ReplaceAllLeavesNoPair(s[2..], c, d);
        NoDoubleCons(d, ReplaceAll(s[2..], [c, c], [d]), c);
      } else {
        var t := s[1..];
        ReplaceAllLeavesNoPair(t, c, d);
        if |t| > 0 {
          ReplaceAllHead(t, [c, c], [d]);
          if s[0] == c {
            assert s[..2] == [s[0], t[0]];
            assert t[0] != c;
            assert !HasPrefix(t, [c, c]);
          }
        }
        NoDoubleCons(s[0], ReplaceAll(t, [c, c], [d]), c);
      }
    }
  }

  /** Replacing `cc` by `d` does not create a pair `aa` of some third character. */
  lemma {:induction false} ReplaceAllKeepsNoPair(s: string, a: char, c: char, d: char)
    requires a != c && a != d
    requires NoDouble(s, a)
    ensures NoDouble(ReplaceAll(s, [c, c], [d]), a)
    decreases |s|
  {
    if |s| > 0 {
      if HasPrefix(s, [c, c]) {
        assert s[2..] == s[1..][1..];
        assert NoDouble(s[2..], a) by {
          forall i | 0 <= i < |s| - 3 ensures !(s[2..][i] == a && s[2..][i + 1] == a) {
            assert s[2..][i] == s[i + 2] && s[2..][i + 1] == s[i + 3];
          }
        }
        ReplaceAllKeepsNoPair(s[2..], a, c, d);
        NoDoubleCons(d, ReplaceAll(s[2..], [c, c], [d]), a);
      } else {
        var t := s[1..];
        assert NoDouble(t, a) by {
          forall i | 0 <= i < |t| - 1 ensures !(t[i] == a && t[i + 1] == a) {
            assert t[i] == s[i + 1] && t[i + 1] == s[i + 2];
          }
        }
        ReplaceAllKeepsNoPair(t, a, c, d);
        if |t| > 0 {
          ReplaceAllHead(t, [c, c], [d]);
        }
        NoDoubleCons(s[0], ReplaceAll(t, [c, c], [d]), a);
      }
    }
  }
}
