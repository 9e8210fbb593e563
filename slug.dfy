/**
 * `generateSlug` of database/event.model.ts: the title is lower-cased,
 * trimmed, stripped of every character outside `[\w\s-]`, each run of
 * whitespace becomes one hyphen, each run of hyphens becomes one hyphen, and
 * leading and trailing hyphens are removed.
 */
module Slug {
  import opened Seqs
  import opened Text

  predicate IsHyphen(c: char) {
    c == '-'
  }

  /** The characters `/[^\w\s-]/g` does not remove. */
  predicate Kept(c: char) {
    IsWordChar(c) || IsSpace(c) || c == '-'
  }

  /** `.replace(/[^\w\s-]/g, "")`. */
  function StripSpecial(s: string): (r: string) {
    Filter(s, Kept)
  }

  /**
   * `.replace(/X+/g, "-")` where `inRun` is the class X: every maximal run of
   * characters satisfying `inRun` becomes a single hyphen.
   */
  function ReplaceRuns(s: string, inRun: char -> bool): (r: string)
    ensures s != [] && !inRun(s[0]) ==> r != [] && r[0] == s[0]
    ensures s != [] && inRun(s[0]) ==> r != [] && r[0] == '-'
    decreases |s|
  {
    if s == [] then []
    else if inRun(s[0]) then "-" + ReplaceRuns(DropWhile(s, inRun), inRun)
    else [s[0]] + ReplaceRuns(s[1..], inRun)
  }

  /** Every character of the result is a hyphen or a character of `s` outside the run class. */
  lemma {:induction false} ReplaceRunsChars(s: string, inRun: char -> bool, ok: char -> bool)
    requires forall i :: 0 <= i < |s| ==> ok(s[i])
    ensures forall i :: 0 <= i < |ReplaceRuns(s, inRun)| ==>
      var c := ReplaceRuns(s, inRun)[i]; c == '-' || (ok(c) && !inRun(c))
    decreases |s|
  {
    if s != [] {
      if inRun(s[0]) {
        var rest := DropWhile(s, inRun);
        DropWhileSuffix(s, inRun);
        assert forall i :: 0 <= i < |rest| ==> rest[i] == s[|s| - |rest| + i];
        ReplaceRunsChars(rest, inRun, ok);
      } else {
        ReplaceRunsChars(s[1..], inRun, ok);
      }
    }
  }

  /** Replacing hyphen runs leaves no two adjacent hyphens. */
  lemma {:induction false} ReplaceRunsNoDoubleHyphen(s: string, inRun: char -> bool)
    requires inRun('-')
    ensures NoDoubleHyphen(ReplaceRuns(s, inRun))
    decreases |s|
  {
    if s != [] {
      if inRun(s[0]) {
        var rest := DropWhile(s, inRun);
        ReplaceRunsNoDoubleHyphen(rest, inRun);
        var t := ReplaceRuns(rest, inRun);
        assert t == [] || t[0] != '-';
        assert ReplaceRuns(s, inRun) == "-" + t;
      } else {
        ReplaceRunsNoDoubleHyphen(s[1..], inRun);
        assert ReplaceRuns(s, inRun) == [s[0]] + ReplaceRuns(s[1..], inRun);
      }
    }
  }

  /** `.replace(/^-+|-+$/g, "")`. */
  function StripHyphens(s: string): (r: string)
    ensures r == [] || (r[0] != '-' && r[|r| - 1] != '-')
  {
    var u := DropWhile(s, IsHyphen);
    var r := DropWhileEnd(u, IsHyphen);
    assert r != [] ==> r[0] == u[0];
    r
  }

  /** `generateSlug(title)`. */
  function GenerateSlug(title: string): (slug: string) {
    StripHyphens(ReplaceRuns(ReplaceRuns(StripSpecial(Trim(Lower(title))), IsSpace), IsHyphen))
  }

  predicate NoDoubleHyphen(s: string) {
    forall i :: 0 <= i < |s| - 1 ==> !(s[i] == '-' && s[i + 1] == '-')
  }

  predicate IsSlugChar(c: char) {
    'a' <= c <= 'z' || '0' <= c <= '9' || c == '_' || c == '-'
  }

  /** The shape every slug has: `[a-z0-9_-]*`, no hyphen at either end, no `--`. */
  predicate IsSlug(s: string) {
    && (forall i :: 0 <= i < |s| ==> IsSlugChar(s[i]))
    && (s == [] || (s[0] != '-' && s[|s| - 1] != '-'))
    && NoDoubleHyphen(s)
  }

  lemma SliceNoDoubleHyphen(s: string, i: nat, j: nat)
    requires i <= j <= |s| && NoDoubleHyphen(s)
    ensures NoDoubleHyphen(s[i..j])
  {
    var t := s[i..j];
    forall k | 0 <= k < |t| - 1 ensures !(t[k] == '-' && t[k + 1] == '-') {
      assert t[k] == s[i + k] && t[k + 1] == s[i + k + 1];
    }
  }

  lemma StrippedChars(title: string)
    ensures forall i :: 0 <= i < |StripSpecial(Trim(Lower(title)))| ==>
      var c := StripSpecial(Trim(Lower(title)))[i]; Kept(c) && !IsUpper(c)
  {
    var s1 := Trim(Lower(title));
    FilterMembers(s1, Kept);
    forall i | 0 <= i < |StripSpecial(s1)|
      ensures Kept(StripSpecial(s1)[i]) && !IsUpper(StripSpecial(s1)[i])
    {
      var c := StripSpecial(s1)[i];
      assert c in s1;
      var k :| 0 <= k < |s1| && s1[k] == c;
      TrimChars(Lower(title));
      assert s1[k] in Lower(title);
    }
  }

  predicate LowerKept(c: char) {
    Kept(c) && !IsUpper(c)
  }

  predicate LowerKeptNoSpace(c: char) {
    Kept(c) && !IsUpper(c) && !IsSpace(c)
  }

  lemma CollapsedChars(s2: string, s3: string, s4: string)
    requires forall i :: 0 <= i < |s2| ==> LowerKept(s2[i])
    requires s3 == ReplaceRuns(s2, IsSpace) && s4 == ReplaceRuns(s3, IsHyphen)
    ensures forall i :: 0 <= i < |s4| ==> IsSlugChar(s4[i])
  {
    ReplaceRunsChars(s2, IsSpace, LowerKept);
    assert forall i :: 0 <= i < |s3| ==> s3[i] == '-' || LowerKeptNoSpace(s3[i]);
    ReplaceRunsChars(s3, IsHyphen, (c: char) => c == '-' || LowerKeptNoSpace(c));
  }

  lemma StripHyphensIsSlug(s4: string)
    requires forall i :: 0 <= i < |s4| ==> IsSlugChar(s4[i])
    requires NoDoubleHyphen(s4)
    ensures IsSlug(StripHyphens(s4))
  {
    var u := DropWhile(s4, IsHyphen);
    var slug := DropWhileEnd(u, IsHyphen);
    DropWhileSuffix(s4, IsHyphen);
    assert slug == StripHyphens(s4);
    forall i | 0 <= i < |slug| ensures IsSlugChar(slug[i]) {
      assert slug[i] == s4[|s4| - |u| + i];
    }
    SliceNoDoubleHyphen(s4, |s4| - |u|, |s4|);
    SliceNoDoubleHyphen(u, 0, |slug|);
  }

  /** Whatever the title, the slug uses only `a-z`, `0-9`, `_` and `-`, never starts or ends with `-` and never contains `--`. */
  lemma GenerateSlugIsSlug(title: string)
    ensures IsSlug(GenerateSlug(title))
  {
    var s2 := StripSpecial(Trim(Lower(title)));
    var s3 := ReplaceRuns(s2, IsSpace);
    var s4 := ReplaceRuns(s3, IsHyphen);
    StrippedChars(title);
    CollapsedChars(s2, s3, s4);
    ReplaceRunsNoDoubleHyphen(s3, IsHyphen);
    StripHyphensIsSlug(s4);
  }

  // ---- a slug is left unchanged ----

  lemma {:induction false} ReplaceRunsNoRun(s: string, inRun: char -> bool)
    requires forall i :: 0 <= i < |s| ==> !inRun(s[i])
    ensures ReplaceRuns(s, inRun) == s
  {
    if s != [] {
      ReplaceRunsNoRun(s[1..], inRun);
    }
  }

  lemma {:induction false} ReplaceRunsSingleHyphens(s: string)
    requires NoDoubleHyphen(s)
    ensures ReplaceRuns(s, IsHyphen) == s
  {
    if s != [] {
      SliceNoDoubleHyphen(s, 1, |s|);
      ReplaceRunsSingleHyphens(s[1..]);
      if s[0] == '-' {
        assert |s| == 1 || s[1] != '-';
        DropWhileNoop(s[1..], IsHyphen);
        assert DropWhile(s, IsHyphen) == s[1..];
        assert ReplaceRuns(s, IsHyphen) == "-" + s[1..];
      } else {
        assert ReplaceRuns(s, IsHyphen) == [s[0]] + s[1..];
      }
    }
  }

  /** A string already in slug form is its own slug. */
  lemma SlugFixpoint(s: string)
    requires IsSlug(s)
    ensures GenerateSlug(s) == s
  {
    LowerNoop(s);
    assert forall i :: 0 <= i < |s| ==> !IsSpace(s[i]);
    DropWhileNoop(s, IsSpace);
    DropWhileEndNoop(s, IsSpace);
    assert Trim(Lower(s)) == s;
    FilterAll(s, Kept);
    ReplaceRunsNoRun(s, IsSpace);
    ReplaceRunsSingleHyphens(s);
    DropWhileNoop(s, IsHyphen);
    DropWhileEndNoop(s, IsHyphen);
  }

  /** A string in slug form is left alone by the `trim` and `lowercase` setters of the `slug` path. */
  lemma SlugSettled(s: string)
    requires IsSlug(s)
    ensures Lower(Trim(s)) == s
  {
    LowerNoop(s);
    TrimNoop(s);
  }

  /** `generateSlug` is idempotent. */
  lemma GenerateSlugIdempotent(title: string)
    ensures GenerateSlug(GenerateSlug(title)) == GenerateSlug(title)
  {
    GenerateSlugIsSlug(title);
    SlugFixpoint(GenerateSlug(title));
  }

  // ---- the slug keeps exactly the title's word characters ----

  /** The word characters of `s`, in order. */
  function WordChars(s: string): string {
    Filter(s, IsWordChar)
  }

  lemma {:induction false} WordCharsLower(s: string)
    ensures WordChars(Lower(s)) == Lower(WordChars(s))
  {
    if s != [] {
      assert Lower(s) == [LowerChar(s[0])] + Lower(s[1..]);
      WordCharsLower(s[1..]);
    }
  }

  /** Dropping a prefix or suffix of non-word characters keeps the word characters. */
  lemma WordCharsSlice(s: string, i: nat, j: nat)
    requires i <= j <= |s|
    requires forall k :: 0 <= k < i || j <= k < |s| ==> !IsWordChar(s[k])
    ensures WordChars(s[i..j]) == WordChars(s)
  {
    var a, b, c := s[..i], s[i..j], s[j..];
    assert s == (a + b) + c;
    FilterConcat(a + b, c, IsWordChar);
    FilterConcat(a, b, IsWordChar);
    assert forall k :: 0 <= k < |a| ==> a[k] == s[k];
    assert forall k :: 0 <= k < |c| ==> c[k] == s[j + k];
    FilterNone(a, IsWordChar);
    FilterNone(c, IsWordChar);
  }

  lemma WordCharsTrim(s: string)
    ensures WordChars(Trim(s)) == WordChars(s)
  {
    var u := DropWhile(s, IsSpace);
    var r := DropWhileEnd(u, IsSpace);
    DropWhileSuffix(s, IsSpace);
    DropWhilePrefix(s, IsSpace);
    DropWhileEndSuffix(u, IsSpace);
    assert s[|s| - |u|..|s|] == u;
    WordCharsSlice(s, |s| - |u|, |s|);
    assert u[0..|r|] == r;
    WordCharsSlice(u, 0, |r|);
  }

  lemma WordCharsStripHyphens(s: string)
    ensures WordChars(StripHyphens(s)) == WordChars(s)
  {
    var u := DropWhile(s, IsHyphen);
    var r := DropWhileEnd(u, IsHyphen);
    DropWhileSuffix(s, IsHyphen);
    DropWhilePrefix(s, IsHyphen);
    DropWhileEndSuffix(u, IsHyphen);
    assert s[|s| - |u|..|s|] == u;
    WordCharsSlice(s, |s| - |u|, |s|);
    assert u[0..|r|] == r;
    WordCharsSlice(u, 0, |r|);
  }

  lemma {:induction false} WordCharsReplaceRuns(s: string, inRun: char -> bool)
    requires forall c :: inRun(c) ==> !IsWordChar(c)
    ensures WordChars(ReplaceRuns(s, inRun)) == WordChars(s)
    decreases |s|
  {
    if s != [] {
      if inRun(s[0]) {
        var rest := DropWhile(s, inRun);
        var t := ReplaceRuns(rest, inRun);
        WordCharsReplaceRuns(rest, inRun);
        DropWhileSuffix(s, inRun);
        DropWhilePrefix(s, inRun);
        assert s[|s| - |rest|..|s|] == rest;
        WordCharsSlice(s, |s| - |rest|, |s|);
        assert ReplaceRuns(s, inRun) == "-" + t;
        assert ("-" + t)[1..] == t;
      } else {
        var t := ReplaceRuns(s[1..], inRun);
        WordCharsReplaceRuns(s[1..], inRun);
        assert ReplaceRuns(s, inRun) == [s[0]] + t;
        assert ([s[0]] + t)[1..] == t;
      }
    }
  }

  /** The slug's letters, digits and underscores are the title's, lower-cased and in order. */
  lemma SlugWordChars(title: string)
    ensures WordChars(GenerateSlug(title)) == Lower(WordChars(title))
  {
    var s1 := Trim(Lower(title));
    var s2 := StripSpecial(s1);
    var s3 := ReplaceRuns(s2, IsSpace);
    var s4 := ReplaceRuns(s3, IsHyphen);
    WordCharsStripHyphens(s4);
    WordCharsReplaceRuns(s3, IsHyphen);
    WordCharsReplaceRuns(s2, IsSpace);
    FilterFilter(s1, Kept, IsWordChar, IsWordChar);
    WordCharsTrim(Lower(title));
    WordCharsLower(title);
  }

  /** A string in slug form is empty exactly when it has no word character. */
  lemma SlugEmptyIffNoWordChars(slug: string)
    requires IsSlug(slug)
    ensures slug == [] <==> WordChars(slug) == []
  {
    FilterMembers(slug, IsWordChar);
    if slug != [] {
      assert IsWordChar(slug[0]);
      assert slug[0] in WordChars(slug);
    }
  }

  lemma NoWordCharsIff(s: string)
    ensures WordChars(s) == [] <==> forall i :: 0 <= i < |s| ==> !IsWordChar(s[i])
  {
    FilterMembers(s, IsWordChar);
    if WordChars(s) == [] {
      forall i | 0 <= i < |s| ensures !IsWordChar(s[i]) {
        assert s[i] in s;
      }
    } else {
      assert WordChars(s)[0] in WordChars(s);
    }
  }

  /** The slug is empty exactly when the title has no ASCII letter, digit or underscore (a title of punctuation yields ""). */
  lemma SlugEmptyIff(title: string)
    ensures GenerateSlug(title) == [] <==> forall i :: 0 <= i < |title| ==> !IsWordChar(title[i])
  {
    var slug := GenerateSlug(title);
    SlugWordChars(title);
    GenerateSlugIsSlug(title);
    SlugEmptyIffNoWordChars(slug);
    NoWordCharsIff(title);
    assert |Lower(WordChars(title))| == |WordChars(title)|;
  }
}
