/** The scope rewriter `format`: it splices an app expression into every template reference
    that the regular expression `({{.App(.&}})*)` matches, so that `{{.App.Repo}}` becomes
    `{{(index .Apps 0).Repo}}` for the app expression `{{index .Apps 0}}`.

    In Go's RE2 syntax a `{` that cannot start a repetition is a literal, `}` and `&` are
    literals and `.` is any character except a newline. So the pattern is: the literal `{{`,
    one character other than newline, the literal `App`, then, greedily, zero or more
    repetitions of group 2 = (one character other than newline, literal `&}}`). The
    replacement `{{<app>${2}` writes `{{`, the app, and the last repetition of group 2
    (empty when there was none). */
module Scope {
  import opened Strings

  /** The fixed part of the pattern, `{{` + non-newline + `App`, starts at index `i` of `s`. */
  predicate HeadAt(s: string, i: nat) {
    i + 6 <= |s| && s[i] == '{' && s[i + 1] == '{' && s[i + 2] != '\n'
    && s[i + 3] == 'A' && s[i + 4] == 'p' && s[i + 5] == 'p'
  }

  /** One repetition of group 2, non-newline + `&}}`, starts at index `i` of `s`. */
  predicate RepAt(s: string, i: nat) {
    i + 4 <= |s| && s[i] != '\n' && s[i + 1] == '&' && s[i + 2] == '}' && s[i + 3] == '}'
  }

  /** The `j`-th repetition after index `p`. */
  predicate RepNo(s: string, p: nat, j: nat) {
    RepAt(s, p + 4 * j)
  }

  /** How many repetitions the greedy star takes from index `i` on. */
  function Reps(s: string, i: nat): (n: nat)
    requires i <= |s|
    ensures i + 4 * n <= |s|
    decreases |s| - i
  {
    if RepAt(s, i) then 1 + Reps(s, i + 4) else 0
  }

  /** Where a match that starts at `i` ends: the head and all greedy repetitions. */
  function MatchEnd(s: string, i: nat): nat
    requires HeadAt(s, i)
  {
    i + 6 + 4 * Reps(s, i + 6)
  }

  /** `${2}` for the match at `i`: the last repetition of group 2, or empty if none. */
  function LastRep(s: string, i: nat): string
    requires HeadAt(s, i)
  {
    var n := Reps(s, i + 6);
    if n == 0 then "" else s[i + 2 + 4 * n .. i + 6 + 4 * n]
  }

  /** `ReplaceAllString` from index `i` with the expanded replacement `{{` + `app` + `${2}`:
      a left-to-right scan that replaces the leftmost match and resumes after it, copying
      every other character verbatim. The pattern cannot match the empty string, so the
      scan never has to step over an empty match. */
  function Rewrite(s: string, app: string, i: nat): string
    requires i <= |s|
    decreases |s| - i
  {
    if i == |s| then ""
    else if HeadAt(s, i) then "{{" + app + LastRep(s, i) + Rewrite(s, app, MatchEnd(s, i))
    else [s[i]] + Rewrite(s, app, i + 1)
  }

  /** The two `strings.Replace` calls: `{{` becomes `(` and then `}}` becomes `)`. */
  function Sanitize(app: string): string {
    ReplaceAll(ReplaceAll(app, "{{", "("), "}}", ")")
  }

  /** `format(input, app)`. Go's `ReplaceAllString` also expands `$` references that occur in
      the app text itself; apps are required to hold none. */
  function Format(input: string, app: string): string
    requires '$' !in app
  {
    Rewrite(input, Sanitize(app), 0)
  }

  // ---------------------------------------------------------------------------------
  // The sanitised app

  /** After both replacements the app text contains neither `{{` nor `}}`. */
  lemma SanitizeClearsBraces(app: string)
    ensures !Contains(Sanitize(app), "{{") && !Contains(Sanitize(app), "}}")
  {
    var once := ReplaceAll(app, "{{", "(");
    ReplaceAllLeavesNoPair(app, '{', '(');
    ReplaceAllKeepsNoPair(once, '{', '}', ')');
    ReplaceAllLeavesNoPair(once, '}', ')');
    NoDoubleIff(Sanitize(app), '{');
    NoDoubleIff(Sanitize(app), '}');
  }

  /** An app text without braces is spliced in unchanged. */
  lemma SanitizeKeepsPlainApp(app: string)
    requires '{' !in app && '}' !in app
    ensures Sanitize(app) == app
  {
    ReplaceAllSkips(app, "", "{{", "(");
    assert app + "" == app;
    ReplaceAllSkips(app, "", "}}", ")");
  }

  // ---------------------------------------------------------------------------------
  // The matcher against the pattern's language

  /** `w` is, as a whole, a word of the pattern `{{.App(.&}})*`. */
  ghost predicate InPattern(w: string) {
    HeadAt(w, 0) && (|w| - 6) % 4 == 0 && forall j: nat :: j < (|w| - 6) / 4 ==> RepNo(w, 6, j)
  }

  /** The greedy count: the first `Reps` positions hold repetitions, the next does not. */
  lemma {:induction false} RepsExact(s: string, p: nat)
    requires p <= |s|
    ensures forall j: nat :: j < Reps(s, p) ==> RepNo(s, p, j)
    ensures !RepNo(s, p, Reps(s, p))
    decreases |s| - p
  {
    if RepAt(s, p) {
      RepsExact(s, p + 4);
      forall j: nat | j < Reps(s, p) ensures RepNo(s, p, j) {
        if j > 0 {
          assert RepNo(s, p + 4, j - 1);
          assert p + 4 + 4 * (j - 1) == p + 4 * j;
        }
      }
      assert p + 4 + 4 * Reps(s, p + 4) == p + 4 * Reps(s, p);
    }
  }

  /** The match the scanner takes at `i` is a word of the pattern, and no longer prefix of the
      rest of `s` is one: with its greedy star, Go's leftmost-first choice is the longest. */
  lemma MatchIsLongest(s: string, i: nat)
    requires HeadAt(s, i)
    ensures InPattern(s[i..MatchEnd(s, i)])
    ensures forall e :: MatchEnd(s, i) < e <= |s| ==> !InPattern(s[i..e])
  {
    var m := MatchEnd(s, i);
    var n := Reps(s, i + 6);
    RepsExact(s, i + 6);
    var w := s[i..m];
    assert (|w| - 6) / 4 == n;
    forall j: nat | j < n ensures RepNo(w, 6, j) {
      assert RepNo(s, i + 6, j);
    }
    forall e | m < e <= |s| ensures !InPattern(s[i..e]) {
      var v := s[i..e];
      if (|v| - 6) % 4 == 0 {
        assert n < (|v| - 6) / 4;
        assert !RepNo(s, i + 6, n);
        assert !RepNo(v, 6, n);
      }
    }
  }

  /** Where the fixed head is absent, no prefix of the rest is a word of the pattern. */
  lemma NoHeadNoMatch(s: string, i: nat)
    requires i <= |s| && !HeadAt(s, i)
    ensures forall e :: i <= e <= |s| ==> !InPattern(s[i..e])
  {
  }

  // ---------------------------------------------------------------------------------
  // What the rewrite does to its input

  /** No match of the pattern starts at any index from `i` up to `j`. */
  predicate NoMatchIn(s: string, i: nat, j: nat)
    decreases j - i
  {
    i >= j || (!HeadAt(s, i) && NoMatchIn(s, i + 1, j))
  }

  lemma {:induction false} NoMatchInIff(s: string, i: nat, j: nat)
    ensures NoMatchIn(s, i, j) <==> forall m :: i <= m < j ==> !HeadAt(s, m)
    decreases j - i
  {
    if i < j {
      NoMatchInIff(s, i + 1, j);
    }
  }

  /** Text in which no match starts is copied verbatim: a template action that does not
      reference `.App`, such as `{{.Name}}`, passes through the rewrite unchanged. */
  lemma {:induction false} RewriteCopies(s: string, app: string, i: nat, j: nat)
    requires i <= j <= |s|
    requires NoMatchIn(s, i, j)
    ensures Rewrite(s, app, i) == s[i..j] + Rewrite(s, app, j)
    decreases j - i
  {
    if i < j {
      RewriteStep(s, app, i);
      RewriteCopies(s, app, i + 1, j);
      SliceCons(s, i, j);
      Chain(Rewrite(s, app, i), [s[i]], Rewrite(s, app, i + 1), s[i + 1..j], Rewrite(s, app, j), Rewrite(s, app, j));
    }
  }

  /** Where no match starts, the scan copies one character and moves on. */
  lemma RewriteStep(s: string, app: string, i: nat)
    requires i < |s| && !HeadAt(s, i)
    ensures Rewrite(s, app, i) == [s[i]] + Rewrite(s, app, i + 1)
  {
  }

  /** In particular, text that contains no `{` is copied verbatim. */
  lemma RewriteCopiesPlain(s: string, app: string, i: nat, j: nat)
    requires i <= j <= |s|
    requires '{' !in s[i..j]
    ensures Rewrite(s, app, i) == s[i..j] + Rewrite(s, app, j)
  {
    forall m | i <= m < j ensures !HeadAt(s, m) {
      assert s[m] == s[i..j][m - i];
    }
    NoMatchInIff(s, i, j);
    RewriteCopies(s, app, i, j);
  }

  /** Input without any `{{` is returned unchanged, whatever the app: every match begins with `{{`. */
  lemma {:induction false} RewriteWithoutOpen(s: string, app: string, i: nat)
    requires i <= |s| && NoDouble(s, '{')
    ensures Rewrite(s, app, i) == s[i..]
    decreases |s| - i
  {
    if i < |s| {
      RewriteWithoutOpen(s, app, i + 1);
      assert s[i..] == [s[i]] + s[i + 1..];
    }
  }

  lemma FormatWithoutOpen(input: string, app: string)
    requires '$' !in app
    requires !Contains(input, "{{")
    ensures Format(input, app) == input
  {
    NoDoubleIff(input, '{');
    RewriteWithoutOpen(input, Sanitize(app), 0);
  }

  /** A reference `{{.App<tail>}}` whose tail holds no `{` and no `&` is one match with no
      repetition: it becomes `{{` + sanitised app + tail + `}}`, dropping the `.App`. */
  lemma FormatSimpleReference(tail: string, app: string)
    requires '$' !in app
    requires '{' !in tail && '&' !in tail
    ensures Format("{{.App" + tail + "}}", app) == "{{" + Sanitize(app) + tail + "}}"
  {
    var s := "{{.App" + tail + "}}";
    RewriteReference(s, Sanitize(app), 0, tail);
  }

  /** The same for a reference that ends the text at index `k`. */
  lemma RewriteReference(s: string, a: string, k: nat, tail: string)
    requires k <= |s| && s[k..] == "{{.App" + tail + "}}"
    requires '{' !in tail && '&' !in tail
    ensures Rewrite(s, a, k) == "{{" + a + tail + "}}"
  {
    ReferenceShape(s, k, tail);
    RewriteCopiesPlain(s, a, k + 6, |s|);
    assert Rewrite(s, a, k) == "{{" + a + Rewrite(s, a, k + 6);
    assert Rewrite(s, a, |s|) == "";
    Chain(Rewrite(s, a, k), "{{" + a, Rewrite(s, a, k + 6), tail + "}}", Rewrite(s, a, |s|), "");
    Concat4(a, tail);
  }

  /** A reference `{{.App<tail>}}` without `&` in the tail is one match with no repetition. */
  lemma ReferenceShape(s: string, k: nat, tail: string)
    requires k <= |s| && s[k..] == "{{.App" + tail + "}}"
    requires '{' !in tail && '&' !in tail
    ensures HeadAt(s, k) && MatchEnd(s, k) == k + 6 && LastRep(s, k) == ""
    ensures s[k + 6..|s|] == tail + "}}" && '{' !in s[k + 6..|s|]
  {
    var t := s[k..];
    assert t[..6] == "{{.App" && t[6..] == tail + "}}";
    assert s[k + 6..] == t[6..];
    assert s[k + 3] == t[3] && s[k + 4] == t[4] && s[k + 5] == t[5];
    if |s| >= k + 10 {
      assert s[k + 7] == t[7] == (tail + "}}")[1];
      assert '&' !in tail;
    }
    assert !RepAt(s, k + 6);
  }

  lemma Concat4(a: string, tail: string)
    ensures ("{{" + a) + (tail + "}}") + "" == "{{" + a + tail + "}}"
  {
  }

  /** An app written as one template action `{{e}}` becomes the parenthesised expression `(e)`. */
  lemma SanitizeAction(e: string)
    requires '{' !in e && '}' !in e
    ensures Sanitize("{{" + e + "}}") == "(" + e + ")"
  {
    var app := "{{" + e + "}}";
    assert app == "{{" + (e + "}}");
    ReplaceAllAtFront("{{", e + "}}", "(");
    ReplaceAllSkips(e + "}}", "", "{{", "(");
    assert e + "}}" + "" == e + "}}";
    assert ReplaceAll(app, "{{", "(") == ("(" + e) + "}}";
    ReplaceAllSkips("(" + e, "}}", "}}", ")");
    ReplaceAllAtFront("}}", "", ")");
    assert "}}" + "" == "}}";
  }

  /** An app given as one template action `{{e}}` re-roots a reference `{{.App<tail>}}` at the
      expression: the result is `{{(e)<tail>}}`. */
  lemma FormatScopesReference(e: string, tail: string)
    requires '{' !in e && '}' !in e && '$' !in e
    requires '{' !in tail && '&' !in tail
    ensures Format("{{.App" + tail + "}}", "{{" + e + "}}") == "{{(" + e + ")" + tail + "}}"
  {
    SanitizeAction(e);
    FormatSimpleReference(tail, "{{" + e + "}}");
  }

  /** The scoping example: `{{.App.Repo}}` under the app `{{index .Apps 0}}`
      is `{{(index .Apps 0).Repo}}`. */
  lemma FormatExample(input: string, e: string, app: string)
    requires input == "{{.App.Repo}}" && e == "index .Apps 0" && app == "{{" + e + "}}"
    ensures Format(input, app) == "{{(" + e + ").Repo}}"
  {
    FormatScopesReference(e, ".Repo");
    assert input == "{{.App" + ".Repo" + "}}";
  }

  /** With an empty app the rewrite is not the identity: it strips `.App`. */
  lemma FormatEmptyAppStripsScope(input: string, app: string)
    requires input == "{{.App.Repo}}" && app == ""
    ensures Format(input, app) == "{{.Repo}}"
  {
    assert input == "{{.App" + ".Repo" + "}}";
    FormatSimpleReference(".Repo", app);
    assert Sanitize(app) == "";
  }

  /** The pattern has no field boundary after `App`: `{{.Apps}}` is rewritten too. */
  lemma FormatRewritesApps(app: string)
    requires '$' !in app
    ensures Format("{{.Apps}}", app) == "{{" + Sanitize(app) + "s}}"
  {
    assert "{{.Apps}}" == "{{.App" + "s" + "}}";
    FormatSimpleReference("s", app);
  }

  /** `${2}` is the last repetition of group 2 the greedy star took: the four characters
      just before the end of the match, which are themselves a repetition. */
  lemma LastRepIsLast(s: string, i: nat)
    requires HeadAt(s, i) && Reps(s, i + 6) > 0
    ensures MatchEnd(s, i) >= i + 10
    ensures RepAt(s, MatchEnd(s, i) - 4) && !RepAt(s, MatchEnd(s, i))
    ensures LastRep(s, i) == s[MatchEnd(s, i) - 4 .. MatchEnd(s, i)]
  {
    var n := Reps(s, i + 6);
    RepsExact(s, i + 6);
    assert RepNo(s, i + 6, n - 1);
    assert i + 6 + 4 * (n - 1) == MatchEnd(s, i) - 4;
  }

  /** With several repetitions only the last survives: `{{.Appa&}}b&}}` under the app `X`
      becomes `{{Xb&}}`, the repetition `a&}}` is dropped. */
  lemma FormatKeepsLastRepetition(input: string, app: string)
    requires input == "{{.Appa&}}b&}}" && app == "X"
    ensures Format(input, app) == "{{Xb&}}"
  {
    SanitizeKeepsPlainApp(app);
    assert HeadAt(input, 0) && RepAt(input, 6) && RepAt(input, 10);
    assert Reps(input, 14) == 0;
    assert Reps(input, 6) == 2;
    LastRepIsLast(input, 0);
    assert MatchEnd(input, 0) == 14 && LastRep(input, 0) == "b&}}";
    assert Rewrite(input, app, 14) == "";
  }

  /** No match starts inside a template action `{{f}}` whose text holds no `{` and does not
      read `App` from its second character on. */
  lemma NoHeadInAction(s: string, i: nat, f: string)
    requires i + |f| + 4 <= |s| && s[i..i + |f| + 4] == "{{" + f + "}}"
    requires '{' !in f && !(|f| >= 4 && f[1..4] == "App")
    ensures forall m :: i <= m < i + |f| + 4 ==> !HeadAt(s, m)
  {
    var w := "{{" + f + "}}";
    forall m | i <= m < i + |f| + 4 ensures !HeadAt(s, m) {
      if m == i {
        if |f| >= 4 {
          assert s[i + 3] == f[1] && s[i + 4] == f[2] && s[i + 5] == f[3];
          assert f[1..4] == [f[1], f[2], f[3]];
        } else {
          assert s[i + 2 + |f|] == w[2 + |f|] == '}';
        }
      } else if m == i + 1 {
        assert s[m + 1] == w[2];
        if |f| > 0 {
          assert w[2] == f[0];
        }
      } else {
        assert s[m] == w[m - i];
        if m - i < |f| + 2 {
          assert w[m - i] == f[m - i - 2];
        }
      }
    }
  }

  /** A template action that does not reference the app is kept as written, while the app
      reference after it is rewritten: `{{.Name}}-{{.App.Repo}}` under the app `x` becomes
      `{{.Name}}-{{x.Repo}}` (`f` = `.Name`, `sep` = `-`, `tail` = `.Repo`). */
  lemma FormatKeepsOtherActions(action: string, f: string, sep: string, ref: string, tail: string, app: string)
    requires action == "{{" + f + "}}" && '{' !in f && !(|f| >= 4 && f[1..4] == "App")
    requires '{' !in sep
    requires ref == "{{.App" + tail + "}}" && '{' !in tail && '&' !in tail && '$' !in app
    ensures Format(action + sep + ref, app) == action + sep + ("{{" + Sanitize(app) + tail + "}}")
  {
    var s := action + sep + ref;
    var k := |action| + |sep|;
    assert s[..|action|] == action;
    assert s[|action|..k] == sep;
    assert s[k..] == ref;
    RewriteThreeParts(s, Sanitize(app), f, k, tail);
  }

  /** The same on a text cut into the action, plain text up to `k`, and the reference. */
  lemma RewriteThreeParts(s: string, a: string, f: string, k: nat, tail: string)
    requires |f| + 4 <= k <= |s|
    requires s[..|f| + 4] == "{{" + f + "}}" && '{' !in f && !(|f| >= 4 && f[1..4] == "App")
    requires '{' !in s[|f| + 4..k]
    requires s[k..] == "{{.App" + tail + "}}" && '{' !in tail && '&' !in tail
    ensures Rewrite(s, a, 0) == s[..k] + ("{{" + a + tail + "}}")
  {
    var p := |f| + 4;
    RewriteSkipsAction(s, a, f);
    RewriteCopiesPlain(s, a, p, k);
    RewriteReference(s, a, k, tail);
    SliceSplit(s, p, k);
    Chain(Rewrite(s, a, 0), s[..p], Rewrite(s, a, p), s[p..k], Rewrite(s, a, k), "{{" + a + tail + "}}");
  }

  lemma SliceCons(s: string, i: nat, j: nat)
    requires i < j <= |s|
    ensures s[i..j] == [s[i]] + s[i + 1..j]
  {
  }

  lemma SliceSplit(s: string, p: nat, k: nat)
    requires p <= k <= |s|
    ensures s[..k] == s[..p] + s[p..k]
  {
  }

  /** Two steps of a left-to-right scan put together. */
  lemma Chain(r0: string, x: string, r1: string, y: string, r2: string, z: string)
    requires r0 == x + r1 && r1 == y + r2 && r2 == z
    ensures r0 == (x + y) + z
  {
  }

  /** An action `{{f}}` that does not reference the app, at the front, is copied verbatim. */
  lemma RewriteSkipsAction(s: string, a: string, f: string)
    requires |f| + 4 <= |s|
    requires s[..|f| + 4] == "{{" + f + "}}" && '{' !in f && !(|f| >= 4 && f[1..4] == "App")
    ensures Rewrite(s, a, 0) == s[..|f| + 4] + Rewrite(s, a, |f| + 4)
  {
    NoHeadInAction(s, 0, f);
    NoMatchInIff(s, 0, |f| + 4);
    RewriteCopies(s, a, 0, |f| + 4);
  }
}
