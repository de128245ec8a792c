/** The workspace slug made from a name (src/lib/workspaces.ts). */
module Slug {
  import opened Common

  predicate Alnum(c: char) {
    'a' <= c <= 'z' || '0' <= c <= '9'
  }

  /** `workspaceSlugPattern`, read from left to right; `inWord` after a letter or digit. */
  predicate Matches(s: string, inWord: bool) {
    if s == "" then inWord
    else if Alnum(s[0]) then Matches(s[1..], true)
    else inWord && s[0] == '-' && Matches(s[1..], false)
  }

  predicate IsSlug(s: string) {
    Matches(s, false)
  }

  // ----- the replacements -----

  function TrimStart(s: string): string {
    if s != "" && IsSpace(s[0]) then TrimStart(s[1..]) else s
  }

  function TrimEnd(s: string): string {
    if s != "" && IsSpace(s[|s| - 1]) then TrimEnd(s[..|s| - 1]) else s
  }

  /** The first replacement: every run of other characters becomes one hyphen. */
  function Hyphenate(s: string): string {
    if s == "" then ""
    else if Alnum(s[0]) then [s[0]] + Hyphenate(s[1..])
    else if |s| > 1 && !Alnum(s[1]) then Hyphenate(s[1..])
    else "-" + Hyphenate(s[1..])
  }

  /** The second replacement: every run of two or more hyphens becomes one. */
  function Collapse(s: string): string {
    if s == "" then ""
    else if |s| > 1 && s[0] == '-' && s[1] == '-' then Collapse(s[1..])
    else [s[0]] + Collapse(s[1..])
  }

  /** The third replacement: no hyphens at either end. */
  function StripStart(s: string): string {
    if s != "" && s[0] == '-' then StripStart(s[1..]) else s
  }

  function StripEnd(s: string): string {
    if s != "" && s[|s| - 1] == '-' then StripEnd(s[..|s| - 1]) else s
  }

  /** `slugifyWorkspaceName`, for any function that lower-cases strings. */
  function Slugify(lower: string -> string, value: string): string {
    var slug := StripEnd(StripStart(Collapse(Hyphenate(lower(TrimEnd(TrimStart(value)))))));
    if slug == "" then "workspace" else slug
  }

  // ----- the result is a slug -----

  /** Letters, digits and single hyphens. */
  ghost predicate Plain(s: string) {
    && (forall i :: 0 <= i < |s| ==> 'a' <= s[i] <= 'z' || '0' <= s[i] <= '9' || s[i] == '-')
    && (forall i :: 0 <= i < |s| - 1 ==> !(s[i] == '-' && s[i + 1] == '-'))
  }

  lemma {:induction false} HyphenatedIsPlain(s: string)
    ensures Plain(Hyphenate(s))
    ensures s != "" ==> Hyphenate(s) != "" && (Alnum(s[0]) <==> Hyphenate(s)[0] != '-')
  {
    if s != "" {
      HyphenatedIsPlain(s[1..]);
    }
  }

  lemma {:induction false} CollapseKeepsPlain(s: string)
    requires Plain(s)
    ensures Collapse(s) == s
  {
    if s != "" {
      assert Plain(s[1..]) by {
        forall i | 0 <= i < |s[1..]| - 1 ensures !(s[1..][i] == '-' && s[1..][i + 1] == '-') {
          assert s[1..][i] == s[i + 1] && s[1..][i + 1] == s[i + 1 + 1];
        }
      }
      assert |s| > 1 ==> !(s[0] == '-' && s[0 + 1] == '-');
      CollapseKeepsPlain(s[1..]);
    }
  }

  /** The second replacement never changes what the first one leaves. */
  lemma SecondReplacementIsIdle(s: string)
    ensures Collapse(Hyphenate(s)) == Hyphenate(s)
  {
    HyphenatedIsPlain(s);
    CollapseKeepsPlain(Hyphenate(s));
  }

  lemma {:induction false} StrippedStart(s: string)
    requires Plain(s)
    ensures Plain(StripStart(s)) && (StripStart(s) != "" ==> StripStart(s)[0] != '-')
  {
    if s != "" && s[0] == '-' {
      StrippedStart(s[1..]);
    }
  }

  lemma {:induction false} StrippedEnd(s: string)
    requires Plain(s) && (s != "" ==> s[0] != '-')
    ensures Plain(StripEnd(s)) && (StripEnd(s) != "" ==> StripEnd(s)[0] != '-' && StripEnd(s)[|StripEnd(s)| - 1] != '-')
  {
    if s != "" && s[|s| - 1] == '-' {
      StrippedEnd(s[..|s| - 1]);
    }
  }

  /** A string is a slug exactly when it is plain, not empty, and has no hyphen at either end. */
  lemma {:induction false} SlugsArePlain(s: string, inWord: bool)
    ensures Matches(s, inWord) <==>
              && Plain(s)
              && (s == "" ==> inWord)
              && (s != "" ==> s[|s| - 1] != '-' && (s[0] == '-' ==> inWord))
  {
    if s != "" {
      var rest := s[1..];
      assert s == [s[0]] + rest;
      SlugsArePlain(rest, Alnum(s[0]));
    }
  }

  /** Every name gives a slug. */
  lemma SlugifyGivesSlug(lower: string -> string, value: string)
    ensures IsSlug(Slugify(lower, value))
  {
    var hyphenated := Hyphenate(lower(TrimEnd(TrimStart(value))));
    SecondReplacementIsIdle(lower(TrimEnd(TrimStart(value))));
    HyphenatedIsPlain(lower(TrimEnd(TrimStart(value))));
    StrippedStart(hyphenated);
    StrippedEnd(StripStart(hyphenated));
    SlugsArePlain(Slugify(lower, value), false);
  }

  // ----- slugs are left alone -----

  /** What is assumed of lower-casing: nothing but that it keeps lower-case letters, digits and hyphens. */
  ghost predicate KeepsSlugs(lower: string -> string) {
    forall s :: Plain(s) ==> lower(s) == s
  }

  lemma {:induction false} HyphenateKeepsPlain(s: string)
    requires Plain(s)
    ensures Hyphenate(s) == s
  {
    if s != "" {
      assert |s| > 1 && !Alnum(s[0]) ==> s[0 + 1] != '-';
      assert Plain(s[1..]) by {
        forall i | 0 <= i < |s[1..]| - 1 ensures !(s[1..][i] == '-' && s[1..][i + 1] == '-') {
          assert s[1..][i] == s[i + 1] && s[1..][i + 1] == s[i + 1 + 1];
        }
      }
      HyphenateKeepsPlain(s[1..]);
    }
  }

  /** A valid slug is returned unchanged; so slugifying twice is slugifying once. */
  lemma SlugsAreKept(lower: string -> string, value: string)
    requires KeepsSlugs(lower) && IsSlug(value)
    ensures Slugify(lower, value) == value
  {
    SlugsArePlain(value, false);
    HyphenateKeepsPlain(value);
    CollapseKeepsPlain(value);
  }

  lemma SlugifyTwice(lower: string -> string, value: string)
    requires KeepsSlugs(lower)
    ensures Slugify(lower, Slugify(lower, value)) == Slugify(lower, value)
  {
    SlugifyGivesSlug(lower, value);
    SlugsAreKept(lower, Slugify(lower, value));
  }

  // ----- no letter or digit is lost -----

  function Alnums(s: string): string {
    if s == "" then "" else (if Alnum(s[0]) then [s[0]] else "") + Alnums(s[1..])
  }

  lemma {:induction false} AlnumsConcat(s: string, t: string)
    ensures Alnums(s + t) == Alnums(s) + Alnums(t)
  {
    if s == "" {
      assert s + t == t;
    } else {
      var head := if Alnum(s[0]) then [s[0]] else "";
      assert (s + t)[1..] == s[1..] + t;
      AlnumsConcat(s[1..], t);
      assert head + (Alnums(s[1..]) + Alnums(t)) == head + Alnums(s[1..]) + Alnums(t);
    }
  }

  lemma {:induction false} HyphenateKeepsAlnums(s: string)
    ensures Alnums(Hyphenate(s)) == Alnums(s)
  {
    if s != "" {
      HyphenateKeepsAlnums(s[1..]);
      if Alnum(s[0]) {
        assert ([s[0]] + Hyphenate(s[1..]))[1..] == Hyphenate(s[1..]);
      } else {
        assert ("-" + Hyphenate(s[1..]))[1..] == Hyphenate(s[1..]);
      }
    }
  }

  lemma {:induction false} StripKeepsAlnums(s: string)
    ensures Alnums(StripStart(s)) == Alnums(s) && Alnums(StripEnd(s)) == Alnums(s)
  {
    if s != "" {
      StripKeepsAlnums(s[1..]);
      StripKeepsAlnums(s[..|s| - 1]);
      assert s == s[..|s| - 1] + [s[|s| - 1]];
      AlnumsConcat(s[..|s| - 1], [s[|s| - 1]]);
    }
  }

  lemma {:induction false} SlugHasAlnum(s: string)
    requires s != "" && s[0] != '-' && Plain(s)
    ensures Alnums(s) != ""
  {
  }

  /**
   The slug has exactly the letters and digits of the lower-cased, trimmed name, in their order; a name without any
   becomes "workspace".
   */
  lemma SlugifyKeepsAlnums(lower: string -> string, value: string)
    ensures var name := lower(TrimEnd(TrimStart(value)));
      && (Alnums(name) != "" ==> Alnums(Slugify(lower, value)) == Alnums(name))
      && (Alnums(name) == "" ==> Slugify(lower, value) == "workspace")
  {
    var name := lower(TrimEnd(TrimStart(value)));
    var hyphenated := Hyphenate(name);
    SecondReplacementIsIdle(name);
    HyphenateKeepsAlnums(name);
    HyphenatedIsPlain(name);
    StripKeepsAlnums(hyphenated);
    StripKeepsAlnums(StripStart(hyphenated));
    StrippedStart(hyphenated);
    StrippedEnd(StripStart(hyphenated));
    var slug := StripEnd(StripStart(hyphenated));
    if slug != "" {
      SlugHasAlnum(slug);
    }
  }
}
