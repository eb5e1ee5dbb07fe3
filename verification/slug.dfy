/**
 The URL slug rule written inline at every link of
 `src/components/SubcategorySection.tsx`:
 `name.toLowerCase().replace(/[^a-z0-9]+/g, '-')`, and the two link
 shapes built from it. Lower-casing is the ASCII one of the `Text` module.
 */
module Slug {
  import opened Seqs
  import opened Text

  /** A character the regex `[^a-z0-9]` does not match. */
  predicate Kept(c: char)
  {
    IsLower(c) || IsDigit(c)
  }

  /** A character a slug may hold. */
  predicate SlugChar(c: char)
  {
    Kept(c) || c == '-'
  }

  /** No two separators side by side. */
  predicate NoDoubleDash(s: string)
  {
    forall i :: 0 <= i < |s| - 1 ==> !(s[i] == '-' && s[i + 1] == '-')
  }

  /** The texts a slug can be: slug characters only, never two `-` in a row. */
  predicate IsSlugText(s: string)
  {
    (forall i :: 0 <= i < |s| ==> SlugChar(s[i])) && NoDoubleDash(s)
  }

  /** Length of the maximal run of replaced characters at the front of `s`. */
  function RunLength(s: string): (k: nat)
    requires |s| > 0 && !Kept(s[0])
    ensures 1 <= k <= |s|
    ensures forall i :: 0 <= i < k ==> !Kept(s[i])
    ensures k < |s| ==> Kept(s[k])
    decreases |s|
  {
    if |s| > 1 && !Kept(s[1]) then 1 + RunLength(s[1..]) else 1
  }

  /** `replace(/[^a-z0-9]+/g, '-')`: every maximal run of other characters becomes one `-`. */
  function ReplaceRuns(s: string): (r: string)
    ensures |r| <= |s|
    ensures forall i :: 0 <= i < |r| ==> SlugChar(r[i])
    ensures |s| > 0 ==> |r| > 0 && (r[0] == '-' <==> !Kept(s[0]))
    ensures |s| > 0 ==> (r[|r| - 1] == '-' <==> !Kept(s[|s| - 1]))
    ensures NoDoubleDash(r)
    decreases |s|
  {
    if |s| == 0 then ""
    else if Kept(s[0]) then [s[0]] + ReplaceRuns(s[1..])
    else "-" + ReplaceRuns(s[RunLength(s)..])
  }

  /** The slug of a name. */
  function Slug(name: string): (r: string)
    ensures IsSlugText(r)
    ensures |r| <= |name|
  {
    ReplaceRuns(Lower(name))
  }

  /** A leading or trailing run of separators is replaced, never trimmed. */
  lemma SlugKeepsEdges(name: string)
    requires |name| > 0
    ensures Slug(name)[0] == '-' <==> !Kept(LowerChar(name[0]))
    ensures Slug(name)[|Slug(name)| - 1] == '-' <==> !Kept(LowerChar(name[|name| - 1]))
  {
  }

  /** Kept characters at the front pass through unchanged. */
  lemma {:induction false} ReplaceRunsKeptPrefix(a: string, t: string)
    requires forall i :: 0 <= i < |a| ==> Kept(a[i])
    ensures ReplaceRuns(a + t) == a + ReplaceRuns(t)
    decreases |a|
  {
    if |a| > 0 {
      var s, u := a + t, a[1..];
      assert s[0] == a[0] && s[1..] == u + t;
      forall i | 0 <= i < |u|
        ensures Kept(u[i])
      {
        assert u[i] == a[i + 1];
      }
      ReplaceRunsKeptPrefix(u, t);
      assert ReplaceRuns(s) == [a[0]] + ReplaceRuns(u + t);
      ConsThenAppend(a, ReplaceRuns(t));
    } else {
      assert a + t == t;
    }
  }

  /** A whole run of replaced characters, ended by a kept one or by the end, becomes one `-`. */
  lemma ReplaceRunsRun(d: string, t: string)
    requires |d| > 0 && forall i :: 0 <= i < |d| ==> !Kept(d[i])
    requires |t| == 0 || Kept(t[0])
    ensures ReplaceRuns(d + t) == "-" + ReplaceRuns(t)
  {
    var s := d + t;
    assert forall i :: 0 <= i < |d| ==> s[i] == d[i];
    assert |t| > 0 ==> s[|d|] == t[0];
    assert RunLength(s) == |d|;
    assert s[|d|..] == t;
  }

  /** A word, a run, a word and a final run become the two words, each followed by one `-`. */
  lemma WordsAndRuns(a: string, d: string, b: string, e: string)
    requires forall i :: 0 <= i < |a| ==> Kept(a[i])
    requires |d| > 0 && forall i :: 0 <= i < |d| ==> !Kept(d[i])
    requires |b| > 0 && forall i :: 0 <= i < |b| ==> Kept(b[i])
    requires |e| > 0 && forall i :: 0 <= i < |e| ==> !Kept(e[i])
    ensures ReplaceRuns(a + (d + (b + e))) == a + "-" + b + "-"
  {
    ReplaceRunsRun(e, "");
    assert e + "" == e;
    ReplaceRunsKeptPrefix(b, e);
    assert (b + e)[0] == b[0];
    ReplaceRunsRun(d, b + e);
    ReplaceRunsKeptPrefix(a, d + (b + e));
  }

  lemma NikeIncReplaced()
    ensures ReplaceRuns("nike, inc.") == "nike-inc-"
  {
    assert "nike, inc." == "nike" + (", " + ("inc" + "."));
    WordsAndRuns("nike", ", ", "inc", ".");
    assert "nike" + "-" + "inc" + "-" == "nike-inc-";
  }

  lemma NikeIncLowered()
    ensures Lower("Nike, Inc.") == "nike, inc."
  {
  }

  /** The separator runs after "Nike" and after "Inc" each become one `-`; the trailing one is not trimmed. */
  lemma NikeIncSlug()
    ensures Slug("Nike, Inc.") == "nike-inc-"
  {
    NikeIncLowered();
    NikeIncReplaced();
  }

  /** Skipping a run of replaced characters drops nothing that `Filter` would keep. */
  lemma {:induction false} FilterSkipsRun(s: string, k: nat)
    requires k <= |s|
    requires forall i :: 0 <= i < k ==> !Kept(s[i])
    ensures Filter(s, Kept) == Filter(s[k..], Kept)
    decreases k
  {
    if k > 0 {
      var t := s[1..];
      assert t[k - 1..] == s[k..];
      forall i | 0 <= i < k - 1
        ensures !Kept(t[i])
      {
        assert t[i] == s[i + 1];
      }
      FilterSkipsRun(t, k - 1);
      assert s == [s[0]] + t;
      assert !Kept(s[0]);
      FilterCons(s[0], t, Kept);
    }
  }

  /** The letters and digits come through unchanged and in order: only separators are rewritten. */
  lemma {:induction false} ReplaceRunsKeepsAlnums(s: string)
    ensures Filter(ReplaceRuns(s), Kept) == Filter(s, Kept)
    decreases |s|
  {
    if |s| > 0 {
      assert s == [s[0]] + s[1..];
      FilterCons(s[0], s[1..], Kept);
      if Kept(s[0]) {
        ReplaceRunsKeepsAlnums(s[1..]);
        FilterCons(s[0], ReplaceRuns(s[1..]), Kept);
      } else {
        var k := RunLength(s);
        ReplaceRunsKeepsAlnums(s[k..]);
        FilterSkipsRun(s, k);
        FilterCons('-', ReplaceRuns(s[k..]), Kept);
      }
    }
  }

  /** The lower-cased letters and digits of the name, in order, are exactly those of the slug. */
  lemma SlugKeepsAlnums(name: string)
    ensures Filter(Slug(name), Kept) == Filter(Lower(name), Kept)
  {
    ReplaceRunsKeepsAlnums(Lower(name));
  }

  /** A text already in slug form is left alone by the replacement. */
  lemma {:induction false} ReplaceRunsFixes(s: string)
    requires IsSlugText(s)
    ensures ReplaceRuns(s) == s
    decreases |s|
  {
    if |s| > 0 {
      assert IsSlugText(s[1..]) by {
        assert forall i :: 0 <= i < |s[1..]| ==> s[1..][i] == s[i + 1];
      }
      ReplaceRunsFixes(s[1..]);
      if !Kept(s[0]) {
        assert s[0] == '-';
        assert |s| > 1 ==> s[1] != '-' && SlugChar(s[1]);
        assert RunLength(s) == 1;
        assert s == "-" + s[1..];
      } else {
        assert s == [s[0]] + s[1..];
      }
    }
  }

  /** Slug form has no upper-case letters, so lower-casing leaves it alone. */
  lemma LowerFixesSlugText(s: string)
    requires IsSlugText(s)
    ensures Lower(s) == s
  {
    assert forall i :: 0 <= i < |s| ==> !IsUpper(s[i]) by {
      forall i | 0 <= i < |s|
        ensures !IsUpper(s[i])
      {
        assert SlugChar(s[i]);
      }
    }
  }

  /** A text is a slug of something exactly when it is its own slug. */
  lemma SlugFixpoint(s: string)
    ensures IsSlugText(s) <==> Slug(s) == s
  {
    if IsSlugText(s) {
      LowerFixesSlugText(s);
      ReplaceRunsFixes(s);
    }
  }

  /** Slugging a slug changes nothing. */
  lemma SlugIdempotent(name: string)
    ensures Slug(Slug(name)) == Slug(name)
  {
    SlugFixpoint(Slug(name));
  }

  /** The company link: `/company/<slug of the name>`. */
  function CompanyPath(name: string): (r: string)
    ensures |r| == |"/company/"| + |Slug(name)|
    ensures IsPrefix("/company/", r) && r[|"/company/"|..] == Slug(name)
  {
    "/company/" + Slug(name)
  }

  /** The subcategory link: `/category/<slug of the main category>/<slug of the subcategory>`. */
  function CategoryPath(main: string, sub: string): string
  {
    "/category/" + (Slug(main) + "/" + Slug(sub))
  }

  /** A slug never holds `/`, so it cannot be confused with a path separator. */
  lemma SlugHasNoSlash(name: string)
    ensures '/' !in Slug(name)
  {
    var r := Slug(name);
    forall i | 0 <= i < |r|
      ensures r[i] != '/'
    {
      assert SlugChar(r[i]);
    }
  }

  /** Position of the first `/`, or the length when there is none. */
  function FirstSlash(s: string): (k: nat)
    ensures k <= |s|
    decreases |s|
  {
    if |s| == 0 || s[0] == '/' then 0 else 1 + FirstSlash(s[1..])
  }

  lemma {:induction false} FirstSlashAfter(a: string, t: string)
    requires '/' !in a && |t| > 0 && t[0] == '/'
    ensures FirstSlash(a + t) == |a|
    decreases |a|
  {
    if |a| > 0 {
      assert (a + t)[1..] == a[1..] + t;
      assert (a + t)[0] == a[0];
      FirstSlashAfter(a[1..], t);
    } else {
      assert a + t == t;
    }
  }

  /** Joining two parts with `/`, the first of them slash-free, can be undone. */
  lemma JoinUnique(a: string, b: string, c: string, d: string)
    requires '/' !in a && '/' !in c
    requires a + "/" + b == c + "/" + d
    ensures a == c && b == d
  {
    var x := a + "/" + b;
    assert x == a + ("/" + b) && x == c + ("/" + d);
    FirstSlashAfter(a, "/" + b);
    FirstSlashAfter(c, "/" + d);
    assert a == x[..|a|] && c == x[..|c|];
    assert b == x[|a| + 1..] && d == x[|c| + 1..];
  }

  /** The subcategory link determines both slugs it was built from. */
  lemma CategoryPathDeterminesSlugs(m1: string, s1: string, m2: string, s2: string)
    requires CategoryPath(m1, s1) == CategoryPath(m2, s2)
    ensures Slug(m1) == Slug(m2) && Slug(s1) == Slug(s2)
  {
    var p := "/category/";
    var a, b, c, d := Slug(m1), Slug(s1), Slug(m2), Slug(s2);
    SlugHasNoSlash(m1);
    SlugHasNoSlash(m2);
    assert (p + (a + "/" + b))[|p|..] == a + "/" + b;
    assert (p + (c + "/" + d))[|p|..] == c + "/" + d;
    JoinUnique(a, b, c, d);
  }
}
