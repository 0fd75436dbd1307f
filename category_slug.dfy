/**
 * The slug backfill of migration 0006 (products/migrations/0006_category_slug.py):
 * every category, in id order, gets the first free slug among its base and the
 * base with `-2`, `-3`, ... appended, cut so that no slug exceeds 60 characters.
 * Django's `slugify` is a parameter: the model holds for any slug function.
 */
module CategorySlug {
  import opened Wrappers
  import opened Text
  import opened Catalog

  /** The `max_length` of the slug field. */
  const MaxSlugLength: nat := 60

  /** The largest id a `BigAutoField` hands out. */
  const MaxId: int := 0x7fff_ffff_ffff_ffff

  /** `f"category-{cat.id}"` */
  function Fallback(id: int): string {
    "category-" + IntToString(id)
  }

  /** `cat.friendly_name or cat.name or f"category-{cat.id}"`: the first non-empty one. */
  function SourceName(cat: Category): string {
    if cat.friendlyName.Some? && cat.friendlyName.value != "" then cat.friendlyName.value
    else if cat.name != "" then cat.name
    else Fallback(cat.id)
  }

  /**
   * The base slug: the slugified name cut to 60 characters, or the fallback
   * when that is empty. It is never empty and, for a database id, fits the field.
   */
  function Base(slugify: string -> string, cat: Category): (b: string)
    ensures b != []
    ensures 0 < cat.id <= MaxId ==> |b| <= MaxSlugLength
  {
    var cut := SliceTo(slugify(SourceName(cat)), MaxSlugLength);
    if cut != "" then cut
    else if 0 < cat.id <= MaxId then
      NumeralLength(cat.id);
      Fallback(cat.id)
    else Fallback(cat.id)
  }

  /** Any counter or id below `2 ** 63 + 2` has at most 19 digits. */
  lemma NumeralLength(n: nat)
    requires n <= MaxId + 2
    ensures |NatToString(n)| <= 19
  {
    assert Pow10(6) == 1_000_000;
    assert Pow10(12) == 1_000_000_000_000;
    assert Pow10(18) == 1_000_000_000_000_000_000;
    NatToStringLength(n, 19);
  }

  /** `f"-{i}"` */
  function Suffix(i: nat): string {
    "-" + NatToString(i)
  }

  /** `base[:60 - len(suffix)] + suffix`, which fits the field whenever the suffix does. */
  function Candidate(base: string, i: nat): (c: string)
    ensures |Suffix(i)| <= MaxSlugLength ==> |c| <= MaxSlugLength
  {
    SliceTo(base, MaxSlugLength - |Suffix(i)|) + Suffix(i)
  }

  /** The `n`-th slug tried: the base first, then the candidates for 2, 3, ... */
  function Try(base: string, n: nat): string
    requires n >= 1
  {
    if n == 1 then base else Candidate(base, n)
  }

  /** The number of digits that end `s`. */
  function TrailingDigitCount(s: string): (n: nat)
    ensures n <= |s|
  {
    if s == [] || !IsDigit(s[|s| - 1]) then 0 else 1 + TrailingDigitCount(s[..|s| - 1])
  }

  /** A `-` followed by digits ends in exactly those digits. */
  lemma {:induction false} TrailingDigitCountOfSuffix(a: string, ds: string)
    requires AllDigits(ds)
    ensures TrailingDigitCount(a + "-" + ds) == |ds|
  {
    var s := a + "-" + ds;
    if ds != [] {
      assert ds[|ds| - 1] in ds;
      var init := ds[..|ds| - 1];
      assert AllDigits(init) by {
        forall c <- init ensures IsDigit(c) { assert c in ds; }
      }
      assert s[..|s| - 1] == a + "-" + init;
      TrailingDigitCountOfSuffix(a, init);
    }
  }

  /** A candidate's trailing digits are its counter, so different counters give different candidates. */
  lemma CandidatesDistinct(base: string, i: nat, j: nat)
    ensures Candidate(base, i) == Candidate(base, j) ==> i == j
  {
    var ci, cj := Candidate(base, i), Candidate(base, j);
    var ai := SliceTo(base, MaxSlugLength - |Suffix(i)|);
    var aj := SliceTo(base, MaxSlugLength - |Suffix(j)|);
    assert ci == ai + "-" + NatToString(i);
    assert cj == aj + "-" + NatToString(j);
    TrailingDigitCountOfSuffix(ai, NatToString(i));
    TrailingDigitCountOfSuffix(aj, NatToString(j));
    assert ci[|ci| - |NatToString(i)|..] == NatToString(i);
    assert cj[|cj| - |NatToString(j)|..] == NatToString(j);
    DigitsValueOfNatToString(i);
    DigitsValueOfNatToString(j);
  }

  /** When the candidates for 2 up to `m - 1` are all taken, there are at least `m - 2` taken slugs. */
  lemma {:induction false} TakenCount(base: string, m: nat, taken: set<string>)
    requires forall j :: 2 <= j < m ==> Candidate(base, j) in taken
    ensures m <= |taken| + 2
  {
    if m > 2 {
      var last := Candidate(base, m - 1);
      var rest := taken - {last};
      forall j | 2 <= j < m - 1
        ensures Candidate(base, j) in rest
      {
        CandidatesDistinct(base, j, m - 1);
      }
      TakenCount(base, m - 1, rest);
    }
  }

  /**
   * The first free slug of the sequence: `slug` is try `n`, it is not taken,
   * and every earlier try is.
   */
  predicate FirstFree(base: string, taken: set<string>, slug: string, n: nat) {
    && n >= 1
    && Try(base, n) == slug
    && slug !in taken
    && EarlierTaken(base, taken, n)
  }

  /** Tries 1 up to `n - 1` are all taken. */
  predicate EarlierTaken(base: string, taken: set<string>, n: nat) {
    n <= 1 || (EarlierTaken(base, taken, n - 1) && Try(base, n - 1) in taken)
  }

  /** Every try before `n` is taken. */
  lemma {:induction false} EarlierTakenAt(base: string, taken: set<string>, n: nat, j: nat)
    requires EarlierTaken(base, taken, n) && 1 <= j < n
    ensures Try(base, j) in taken
  {
    if j < n - 1 {
      EarlierTakenAt(base, taken, n - 1, j);
    }
  }

  /**
   * The `while slug in existing` search for one category: the first free try,
   * found after at most `|taken| + 1` tries, and within the length limit when
   * the base is.
   */
  method PickSlug(base: string, taken: set<string>) returns (slug: string, ghost tries: nat)
    requires |taken| < MaxId
    ensures FirstFree(base, taken, slug, tries)
    ensures base != [] ==> slug != []
    ensures |base| <= MaxSlugLength ==> |slug| <= MaxSlugLength
  {
    slug := base;
    var i: nat := 2;
    while slug in taken
      invariant i >= 2
      invariant slug == Try(base, i - 1)
      invariant EarlierTaken(base, taken, i - 1)
      decreases |taken| + 3 - i
    {
      assert EarlierTaken(base, taken, i);
      forall j | 2 <= j < i
        ensures Candidate(base, j) in taken
      {
        EarlierTakenAt(base, taken, i, j);
      }
      TakenCount(base, i, taken);
      slug := Candidate(base, i);
      i := i + 1;
    }
    forall j | 2 <= j < i - 1
      ensures Candidate(base, j) in taken
    {
      EarlierTakenAt(base, taken, i - 1, j);
    }
    TakenCount(base, i - 1, taken);
    NumeralLength(i - 1);
    tries := i - 1;
  }

  /** The set of slugs the categories hold, leaving out null and empty ones. */
  function SlugSet(cats: seq<Category>): (r: set<string>)
    ensures |r| <= |cats|
    ensures forall k :: 0 <= k < |cats| && cats[k].slug.Some? && cats[k].slug.value != "" ==> cats[k].slug.value in r
  {
    if cats == [] then {}
    else
      var last := cats[|cats| - 1];
      SlugSet(cats[..|cats| - 1]) + if last.slug.Some? && last.slug.value != "" then {last.slug.value} else {}
  }

  /** The category with its slug set; every other field as it was. */
  function WithSlug(cat: Category, slug: string): (r: Category)
    ensures r.slug == Some(slug)
  {
    cat.(slug := Some(slug))
  }

  /**
   * `existing` when entry `k` is reached: the slugs present before plus the
   * first `k` assigned ones.
   */
  function Taken(existing: set<string>, slugs: seq<string>, k: nat): (r: set<string>)
    requires k <= |slugs|
    ensures |r| <= |existing| + k
  {
    if k == 0 then existing else Taken(existing, slugs, k - 1) + {slugs[k - 1]}
  }

  /** What was taken at entry `k` depends only on the slugs before it. */
  lemma {:induction false} TakenPrefix(existing: set<string>, slugs: seq<string>, more: seq<string>, k: nat)
    requires k <= |slugs|
    ensures Taken(existing, slugs + more, k) == Taken(existing, slugs, k)
  {
    if k > 0 {
      TakenPrefix(existing, slugs, more, k - 1);
    }
  }

  /** Slug `j` and everything present before are taken at every later entry. */
  lemma {:induction false} TakenContains(existing: set<string>, slugs: seq<string>, j: nat, k: nat)
    requires j < k <= |slugs|
    ensures slugs[j] in Taken(existing, slugs, k)
    ensures existing <= Taken(existing, slugs, k)
  {
    if j < k - 1 {
      TakenContains(existing, slugs, j, k - 1);
    } else {
      TakenHasExisting(existing, slugs, k - 1);
    }
  }

  lemma {:induction false} TakenHasExisting(existing: set<string>, slugs: seq<string>, k: nat)
    requires k <= |slugs|
    ensures existing <= Taken(existing, slugs, k)
  {
    if k > 0 {
      TakenHasExisting(existing, slugs, k - 1);
    }
  }

  /**
   * The loop of `backfill_slugs` over the bases of the categories in order:
   * each gets the first free slug, and its slug joins `existing`.
   */
  method AssignSlugs(bases: seq<string>, existing: set<string>) returns (slugs: seq<string>, ghost tries: seq<nat>)
    requires |existing| + |bases| < MaxId
    ensures |slugs| == |bases| == |tries|
    ensures forall k :: 0 <= k < |bases| ==> FirstFree(bases[k], Taken(existing, slugs, k), slugs[k], tries[k])
    ensures forall k :: 0 <= k < |bases| ==> bases[k] != [] ==> slugs[k] != []
    ensures forall k :: 0 <= k < |bases| ==> |bases[k]| <= MaxSlugLength ==> |slugs[k]| <= MaxSlugLength
  {
    var taken := existing;
    ghost var takens: seq<set<string>> := [];
    slugs, tries := [], [];
    for k := 0 to |bases|
      invariant k == |slugs|
      invariant Assigned(bases, existing, slugs, tries, takens, taken)
    {
      var slug, n := PickSlug(bases[k], taken);
      AssignedStep(bases, existing, slugs, tries, takens, taken, slug, n);
      takens := takens + [taken];
      slugs, tries := slugs + [slug], tries + [n];
      taken := taken + {slug};
    }
    TakenChainIsTaken(existing, slugs, takens, taken);
  }

  /** What the loop of `AssignSlugs` keeps after the first `|slugs|` entries. */
  ghost predicate Assigned(bases: seq<string>, existing: set<string>, slugs: seq<string>, tries: seq<nat>,
                           takens: seq<set<string>>, taken: set<string>)
  {
    && |slugs| <= |bases|
    && |tries| == |slugs|
    && |taken| <= |existing| + |slugs|
    && TakenChain(existing, slugs, takens, taken)
    && (forall l :: 0 <= l < |slugs| ==> FirstFree(bases[l], takens[l], slugs[l], tries[l]))
    && (forall l :: 0 <= l < |slugs| ==> bases[l] != [] ==> slugs[l] != [])
    && (forall l :: 0 <= l < |slugs| ==> |bases[l]| <= MaxSlugLength ==> |slugs[l]| <= MaxSlugLength)
  }

  /** One more entry given the slug `PickSlug` found keeps the loop's facts. */
  lemma AssignedStep(bases: seq<string>, existing: set<string>, slugs: seq<string>, tries: seq<nat>,
                     takens: seq<set<string>>, taken: set<string>, slug: string, n: nat)
    requires Assigned(bases, existing, slugs, tries, takens, taken) && |slugs| < |bases|
    requires FirstFree(bases[|slugs|], taken, slug, n)
    requires bases[|slugs|] != [] ==> slug != []
    requires |bases[|slugs|]| <= MaxSlugLength ==> |slug| <= MaxSlugLength
    ensures Assigned(bases, existing, slugs + [slug], tries + [n], takens + [taken], taken + {slug})
  {
    AddOneCard(taken, slug);
  }

  /** Adding one element grows a set by at most one. */
  lemma AddOneCard(a: set<string>, x: string)
    ensures |a + {x}| <= |a| + 1
  {
    if x in a {
      assert a + {x} == a;
    }
  }

  /**
   * The sets the loop passes: `takens[l]` is `existing` plus the first `l`
   * slugs, and `last` adds all of them.
   */
  ghost predicate TakenChain(existing: set<string>, slugs: seq<string>, takens: seq<set<string>>, last: set<string>) {
    && |takens| == |slugs|
    && (slugs == [] ==> last == existing)
    && (slugs != [] ==>
          && takens[0] == existing
          && (forall l :: 0 <= l < |slugs| - 1 ==> takens[l + 1] == takens[l] + {slugs[l]})
          && last == takens[|slugs| - 1] + {slugs[|slugs| - 1]})
  }

  lemma {:induction false} TakenChainIsTaken(existing: set<string>, slugs: seq<string>, takens: seq<set<string>>, last: set<string>)
    requires TakenChain(existing, slugs, takens, last)
    ensures forall l :: 0 <= l < |slugs| ==> takens[l] == Taken(existing, slugs, l)
    ensures last == Taken(existing, slugs, |slugs|)
  {
    forall l | 0 <= l < |slugs|
      ensures takens[l] == Taken(existing, slugs, l)
    {
      TakenChainAt(existing, slugs, takens, last, l);
    }
    if slugs != [] {
      TakenChainAt(existing, slugs, takens, last, |slugs| - 1);
    }
  }

  lemma {:induction false} TakenChainAt(existing: set<string>, slugs: seq<string>, takens: seq<set<string>>, last: set<string>, l: nat)
    requires TakenChain(existing, slugs, takens, last) && l < |slugs|
    ensures takens[l] == Taken(existing, slugs, l)
  {
    if l > 0 {
      TakenChainAt(existing, slugs, takens, last, l - 1);
    }
  }

  /** First-free slugs are fresh and pairwise distinct: each one avoids all before it. */
  lemma FirstFreeDistinct(bases: seq<string>, existing: set<string>, slugs: seq<string>, tries: seq<nat>)
    requires |slugs| == |bases| == |tries|
    requires forall k :: 0 <= k < |bases| ==> FirstFree(bases[k], Taken(existing, slugs, k), slugs[k], tries[k])
    ensures forall k :: 0 <= k < |slugs| ==> slugs[k] !in existing
    ensures forall k, l :: 0 <= k < l < |slugs| ==> slugs[k] != slugs[l]
  {
    forall k | 0 <= k < |slugs|
      ensures slugs[k] !in existing
    {
      TakenHasExisting(existing, slugs, k);
    }
    forall k, l | 0 <= k < l < |slugs|
      ensures slugs[k] != slugs[l]
    {
      TakenContains(existing, slugs, k, l);
    }
  }

  /**
   * `backfill_slugs` over the categories in id order: category `k` gets
   * `slugs[k]`, the first free slug given the slugs present before the
   * migration and those assigned to the categories before it. Nothing else of
   * a category changes; the assigned slugs are new, pairwise distinct and at
   * most 60 characters.
   */
  method BackfillSlugs(cats: seq<Category>, slugify: string -> string) returns (updated: seq<Category>, slugs: seq<string>, ghost tries: seq<nat>)
    requires forall k :: 0 <= k < |cats| ==> 0 < cats[k].id <= MaxId
    requires 2 * |cats| < MaxId
    ensures |updated| == |cats| == |slugs| == |tries|
    ensures forall k :: 0 <= k < |cats| ==> updated[k] == WithSlug(cats[k], slugs[k])
    ensures forall k :: 0 <= k < |cats| ==>
      FirstFree(Base(slugify, cats[k]), Taken(SlugSet(cats), slugs, k), slugs[k], tries[k])
    ensures forall k :: 0 <= k < |cats| ==> slugs[k] !in SlugSet(cats)
    ensures forall k, l :: 0 <= k < l < |cats| ==> slugs[k] != slugs[l]
    ensures forall k :: 0 <= k < |cats| ==> |slugs[k]| <= MaxSlugLength
  {
    var bases := seq(|cats|, k requires 0 <= k < |cats| => Base(slugify, cats[k]));
    slugs, tries := AssignSlugs(bases, SlugSet(cats));
    FirstFreeDistinct(bases, SlugSet(cats), slugs, tries);
    updated := seq(|cats|, k requires 0 <= k < |cats| => WithSlug(cats[k], slugs[k]));
  }
}
