/**
 * The two pure helpers of `derive_wikipedia.py`: `slugify`, which turns a page title into a
 * directory name, and `derive_tags`, which collects keyword tags from a page's title and
 * categories.
 */
module Wikipedia {
  import Text
  import Sorting

  // ---------------------------------------------------------------- slugify

  const FALLBACK_SLUG := "page"

  predicate IsSlugChar(c: char)
  {
    Text.IsLowerAlnum(c) || c == '-'
  }

  predicate SlugChars(s: string)
  {
    forall i :: 0 <= i < |s| ==> IsSlugChar(s[i])
  }

  predicate NoDoubleDash(s: string)
  {
    forall i :: 0 <= i < |s| - 1 && s[i] == '-' ==> s[i + 1] != '-'
  }

  /** What `slugify` can return: non-empty, `[a-z0-9-]` only, no dash at either end, no two dashes in a row. */
  predicate IsSlug(s: string)
  {
    |s| > 0 && s[0] != '-' && s[|s| - 1] != '-' && SlugChars(s) && NoDoubleDash(s)
  }

  /** Where the run of dashes that starts at `i` ends. */
  function DashesFrom(s: string, i: nat): (j: nat)
    requires i <= |s|
    ensures i <= j <= |s| && (j < |s| ==> s[j] != '-')
    ensures forall k :: i <= k < j ==> s[k] == '-'
    decreases |s| - i
  {
    if i < |s| && s[i] == '-' then DashesFrom(s, i + 1) else i
  }

  /** Where the run of dashes that ends at `j` starts, going back no further than `lo`. */
  function DashesBefore(s: string, lo: nat, j: nat): (k: nat)
    requires lo <= j <= |s|
    ensures lo <= k <= j && (k > lo ==> s[k - 1] != '-')
    ensures forall m :: k <= m < j ==> s[m] == '-'
    decreases j - lo
  {
    if j > lo && s[j - 1] == '-' then DashesBefore(s, lo, j - 1) else j
  }

  /**
   * `s.strip("-")`: the slice of `s` between its leading dashes and its trailing dashes,
   * with no dash at either end.
   */
  function TrimDashes(s: string): (r: string)
    ensures |r| > 0 ==> r[0] != '-' && r[|r| - 1] != '-'
    ensures var i := DashesFrom(s, 0);
      i + |r| <= |s| && r == s[i..i + |r|] &&
      (forall k :: 0 <= k < i ==> s[k] == '-') && (forall k :: i + |r| <= k < |s| ==> s[k] == '-')
    ensures |s| > 0 && s[0] != '-' && s[|s| - 1] != '-' ==> r == s
  {
    var i := DashesFrom(s, 0);
    s[i..DashesBefore(s, i, |s|)]
  }

  /** Stripping the dashes keeps the character class and the single dashes of `s`. */
  lemma TrimDashesKeepsSlug(s: string)
    ensures SlugChars(s) ==> SlugChars(TrimDashes(s))
    ensures NoDoubleDash(s) ==> NoDoubleDash(TrimDashes(s))
  {
    var i := DashesFrom(s, 0);
    SliceKeepsSlug(s, i, DashesBefore(s, i, |s|));
  }

  /** A slice keeps the character class and the single dashes of the string it is cut from. */
  lemma SliceKeepsSlug(s: string, i: nat, j: nat)
    requires i <= j <= |s|
    ensures SlugChars(s) ==> SlugChars(s[i..j])
    ensures NoDoubleDash(s) ==> NoDoubleDash(s[i..j])
  {
    if NoDoubleDash(s) {
      forall k | 0 <= k < j - i - 1 && s[i..j][k] == '-' ensures s[i..j][k + 1] != '-' {
        assert s[i..j][k + 1] == s[i + k + 1];
      }
    }
  }

  /** `re.sub(r"[^a-z0-9]+", "-", title.strip().lower())`. */
  function Dashed(title: string): (r: string)
    ensures SlugChars(r) && NoDoubleDash(r)
  {
    Text.SubRuns(Text.Lower(Text.Strip(title)), Text.IsLowerAlnum, '-')
  }

  /**
   * `slugify(title)`: strip, lower-case, turn every run of characters outside `[a-z0-9]`
   * into one dash, drop the dashes at both ends, and fall back to `page` when nothing is left.
   */
  function Slugify(title: string): (r: string)
    ensures IsSlug(r)
  {
    var t := TrimDashes(Dashed(title));
    if |t| == 0 then
      assert IsSlug(FALLBACK_SLUG) by {
        FallbackIsSlug();
      }
      FALLBACK_SLUG
    else
      assert IsSlug(t) by {
        TrimDashesKeepsSlug(Dashed(title));
      }
      t
  }

  /** The fallback `page` is itself a slug. */
  lemma FallbackIsSlug()
    ensures IsSlug(FALLBACK_SLUG)
  {
    assert FALLBACK_SLUG == ['p', 'a', 'g', 'e'];
    assert forall i :: 0 <= i < 4 ==> Text.IsLowerAlnum(FALLBACK_SLUG[i]);
  }

  /** A slug is its own slug. */
  lemma SlugFixed(x: string)
    requires IsSlug(x)
    ensures Slugify(x) == x
  {
    assert Text.Strip(x) == x by {
      assert IsSlugChar(x[0]) && IsSlugChar(x[|x| - 1]);
      Text.IsSpaceAscii(x[0]);
      Text.IsSpaceAscii(x[|x| - 1]);
      Text.StripStripped(x);
    }
    assert Text.Lower(x) == x by {
      forall i | 0 <= i < |x| ensures !Text.IsAsciiUpper(x[i]) && x[i] != '\U{212A}' && x[i] != '\U{0130}' {
        assert IsSlugChar(x[i]);
      }
      Text.LowerFixed(x);
    }
    assert Dashed(x) == x by {
      Text.SubRunsFixed(x, Text.IsLowerAlnum, '-');
    }
  }

  /** `slugify` is idempotent. */
  lemma SlugifyIdempotent(title: string)
    ensures Slugify(Slugify(title)) == Slugify(title)
  {
    SlugFixed(Slugify(title));
  }

  // ---------------------------------------------------------------- derive_tags

  const STOPWORDS: set<string> := {"from", "with", "that", "this", "their"}
  const CATEGORY_PREFIX := "Category:"

  predicate IsAsciiAlnum(c: char)
  {
    Text.IsAsciiUpper(c) || Text.IsAsciiLower(c) || Text.IsDigit(c)
  }

  predicate IsLowerAlnumOrSpace(c: char)
  {
    Text.IsLowerAlnum(c) || c == ' '
  }

  predicate NotSpace(c: char)
  {
    !Text.IsSpace(c)
  }

  /** `re.findall(r"[A-Za-z0-9]+", title.lower())`: runs of lower-case letters and digits. */
  function TitleTokens(title: string): (r: seq<string>)
    ensures forall w :: w in r ==> |w| > 0 && forall i :: 0 <= i < |w| ==> Text.IsLowerAlnum(w[i])
  {
    var s := Text.Lower(title);
    var ws := Text.Runs(s, IsAsciiAlnum);
    assert forall w, i :: w in ws && 0 <= i < |w| ==> Text.IsLowerAlnum(w[i]) by {
      forall w, i | w in ws && 0 <= i < |w| ensures Text.IsLowerAlnum(w[i]) {
        var k :| 0 <= k < |s| && s[k] == w[i];
      }
    }
    ws
  }

  /**
   * `re.sub(r"[^a-z0-9 ]+", " ", c.replace("Category:", "").lower()).split()`: runs of
   * lower-case letters and digits.
   */
  function CategoryTokens(c: string): (r: seq<string>)
    ensures forall w :: w in r ==> |w| > 0 && forall i :: 0 <= i < |w| ==> Text.IsLowerAlnum(w[i])
  {
    var s := Text.SubRuns(Text.Lower(Text.Replace(c, CATEGORY_PREFIX, "")), IsLowerAlnumOrSpace, ' ');
    var ws := Text.Runs(s, NotSpace);
    assert forall w, i :: w in ws && 0 <= i < |w| ==> Text.IsLowerAlnum(w[i]) by {
      forall w, i | w in ws && 0 <= i < |w| ensures Text.IsLowerAlnum(w[i]) {
        var k :| 0 <= k < |s| && s[k] == w[i];
      }
    }
    ws
  }

  /** The tokens of `ws` that are `min` characters or longer and not in `stop`. */
  function LongTokens(ws: seq<string>, min: nat, stop: set<string>): (r: set<string>)
    ensures forall w :: w in r ==> w in ws && |w| >= min && w !in stop
  {
    if |ws| == 0 then {}
    else
      var w := ws[|ws| - 1];
      LongTokens(ws[..|ws| - 1], min, stop) + (if |w| >= min && w !in stop then {w} else {})
  }

  /** The tags a token list gives are exactly its tokens that are long enough and not stop words. */
  lemma {:induction false} LongTokensMembers(ws: seq<string>, min: nat, stop: set<string>, w: string)
    ensures w in LongTokens(ws, min, stop) <==> w in ws && |w| >= min && w !in stop
  {
    if |ws| > 0 {
      var prev := ws[..|ws| - 1];
      LongTokensMembers(prev, min, stop, w);
      assert ws == prev + [ws[|ws| - 1]];
    }
  }

  /** The tags the title contributes: its tokens of three characters or more. */
  function TitleTags(title: string): set<string>
  {
    LongTokens(TitleTokens(title), 3, {})
  }

  /** The tags one category contributes: its tokens of four characters or more, stop words excepted. */
  function CategoryTags(c: string): set<string>
  {
    LongTokens(CategoryTokens(c), 4, STOPWORDS)
  }

  /** The tags of all the categories. */
  function CategoriesTags(cs: seq<string>): (r: set<string>)
    ensures forall t :: t in r ==> |t| >= 4 && t !in STOPWORDS
  {
    if |cs| == 0 then {} else CategoriesTags(cs[..|cs| - 1]) + CategoryTags(cs[|cs| - 1])
  }

  const EINSTEIN := "einstein"
  const RELATIVITY := "relativity"
  const PHYSICS := "physics"

  /** The keyword tags: the title's and the categories'. */
  function KeywordTags(title: string, cs: seq<string>): set<string>
  {
    TitleTags(title) + CategoriesTags(cs)
  }

  lemma CategoriesTagsStep(cs: seq<string>, j: nat)
    requires j < |cs|
    ensures CategoriesTags(cs[..j + 1]) == CategoriesTags(cs[..j]) + CategoryTags(cs[j])
  {
    assert cs[..j + 1][..j] == cs[..j];
  }

  /** The small normalisation: `relativity` and `physics` join a set that holds `einstein`. */
  function WithPhysics(tags: set<string>): (r: set<string>)
    ensures tags <= r && r - tags <= {RELATIVITY, PHYSICS}
    ensures EINSTEIN in r <==> EINSTEIN in tags
    ensures EINSTEIN in r ==> RELATIVITY in r && PHYSICS in r
    ensures EINSTEIN !in tags ==> r == tags
  {
    if EINSTEIN in tags then tags + {RELATIVITY, PHYSICS} else tags
  }

  /** The set `derive_tags` sorts. */
  function TagSet(title: string, cs: seq<string>): (r: set<string>)
    ensures KeywordTags(title, cs) <= r
    ensures EINSTEIN in r ==> RELATIVITY in r && PHYSICS in r
  {
    WithPhysics(KeywordTags(title, cs))
  }

  /** The tags the normalisation adds have three characters or more. */
  lemma PhysicsTagShape(tags: set<string>, t: string)
    requires t in WithPhysics(tags) && t !in tags
    ensures |t| >= 3
  {
    assert t == RELATIVITY || t == PHYSICS;
  }

  /** Every derived tag has three characters or more. */
  lemma TagSetShape(title: string, cs: seq<string>, t: string)
    requires t in TagSet(title, cs)
    ensures |t| >= 3
  {
    var keywords := KeywordTags(title, cs);
    if t in keywords {
      KeywordTagShape(title, cs, t);
    } else {
      PhysicsTagShape(keywords, t);
    }
  }

  /** A category tag is four or more lower-case ASCII letters or digits, and not a stop word. */
  lemma {:induction false} CategoriesTagsShape(cs: seq<string>, t: string)
    requires t in CategoriesTags(cs)
    ensures |t| >= 4 && t !in STOPWORDS && forall i :: 0 <= i < |t| ==> Text.IsLowerAlnum(t[i])
  {
    var c := cs[|cs| - 1];
    if t in CategoryTags(c) {
      LongTokensMembers(CategoryTokens(c), 4, STOPWORDS, t);
    } else {
      CategoriesTagsShape(cs[..|cs| - 1], t);
    }
  }

  /** A keyword tag is three or more lower-case ASCII letters or digits. */
  lemma KeywordTagShape(title: string, cs: seq<string>, t: string)
    requires t in KeywordTags(title, cs)
    ensures |t| >= 3 && forall i :: 0 <= i < |t| ==> Text.IsLowerAlnum(t[i])
  {
    if t in CategoriesTags(cs) {
      CategoriesTagsShape(cs, t);
    } else {
      LongTokensMembers(TitleTokens(title), 3, {}, t);
    }
  }

  /** The elements of a set, each once, in no particular order. */
  method Elements(s: set<string>) returns (xs: seq<string>)
    ensures Sorting.DistinctBy(xs, Sorting.Identity)
    ensures forall x :: x in xs <==> x in s
  {
    var rest := s;
    xs := [];
    while rest != {}
      invariant rest <= s
      invariant Sorting.DistinctBy(xs, Sorting.Identity)
      invariant forall x :: x in xs <==> x in s && x !in rest
      decreases |rest|
    {
      var x :| x in rest;
      xs := xs + [x];
      rest := rest - {x};
    }
  }

  /** `sorted(s)` for a set of strings: its elements in increasing order, each once. */
  method Sorted(s: set<string>) returns (xs: seq<string>)
    ensures Sorting.StrictlySortedBy(xs, Sorting.Identity)
    ensures forall x :: x in xs <==> x in s
  {
    var elems := Elements(s);
    xs := Sorting.SortStrings(elems);
    forall x ensures x in xs <==> x in elems {
      Sorting.SortByElements(elems, Sorting.Identity, x);
    }
  }

  /** One token loop of `derive_tags`: add each token of `ws` that is long enough and not a stop word. */
  method AddLongTokens(found: set<string>, ws: seq<string>, min: nat, stop: set<string>) returns (r: set<string>)
    ensures r == found + LongTokens(ws, min, stop)
  {
    r := found;
    for k := 0 to |ws|
      invariant r == found + LongTokens(ws[..k], min, stop)
    {
      assert ws[..k + 1][..k] == ws[..k];
      if |ws[k]| >= min && ws[k] !in stop {
        r := r + {ws[k]};
      }
    }
    assert ws[..|ws|] == ws;
  }

  /** The inner token loop of `derive_tags`, run on one category. */
  method AddCategoryTags(found: set<string>, c: string) returns (r: set<string>)
    ensures r == found + CategoryTags(c)
  {
    r := AddLongTokens(found, CategoryTokens(c), 4, STOPWORDS);
  }

  /** The two token loops of `derive_tags`: the title's tokens, then each category's in turn. */
  method CollectKeywordTags(title: string, categories: seq<string>) returns (found: set<string>)
    ensures found == KeywordTags(title, categories)
  {
    found := AddLongTokens({}, TitleTokens(title), 3, {});
    ghost var titleTags := found;
    for j := 0 to |categories|
      invariant found == titleTags + CategoriesTags(categories[..j])
    {
      CategoriesTagsStep(categories, j);
      found := AddCategoryTags(found, categories[j]);
    }
    assert categories[..|categories|] == categories;
  }

  /** The small normalisation of `derive_tags`, as two additions to the set. */
  method AddPhysics(tags: set<string>) returns (r: set<string>)
    ensures r == WithPhysics(tags)
  {
    r := tags;
    if EINSTEIN in r {
      r := r + {RELATIVITY};
      r := r + {PHYSICS};
      assert r == tags + {RELATIVITY, PHYSICS};
    }
  }

  /**
   * `derive_tags(title, categories)`: collect the keyword tags in a set, add the two physics
   * tags after `einstein`, and return the set sorted.
   */
  method DeriveTags(title: string, categories: seq<string>) returns (tags: seq<string>)
    ensures Sorting.StrictlySortedBy(tags, Sorting.Identity)
    ensures forall t :: t in tags <==> t in TagSet(title, categories)
  {
    var found := CollectKeywordTags(title, categories);
    found := AddPhysics(found);
    tags := Sorted(found);
  }
}
