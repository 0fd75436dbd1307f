/**
 * The image-map generator (products/management/commands/generate_image_map.py):
 * for every product without an image it looks for a media file whose stem
 * matches the product's SKU or name slug, first exactly, then by a score, and
 * emits one `(sku, filename, note)` row per product. Walking the media roots,
 * resolving paths and writing the CSV file are not part of this model; a file
 * is given by the path the CSV would show, its stem and its suffix.
 */
module ImageMap {
  import opened Wrappers
  import opened Text
  import opened Catalog
  import PyDict

  /** `IMG_EXTS` */
  const ImageExtensions: set<string> := {".jpg", ".jpeg", ".png", ".gif", ".webp"}

  /** A file under a media root. */
  datatype MediaFile = MediaFile(path: string, stem: string, suffix: string)

  /** One CSV row. */
  datatype Row = Row(sku: string, filename: string, note: string)

  predicate IsImageFile(f: MediaFile) {
    Lower(f.suffix) in ImageExtensions
  }

  /** The files `find_media_files` keeps from a walk, in walk order. */
  function ImageFiles(walk: seq<MediaFile>): (r: seq<MediaFile>)
    ensures |r| <= |walk|
    ensures forall f :: f in r <==> f in walk && IsImageFile(f)
  {
    if walk == [] then []
    else ImageFiles(walk[..|walk| - 1]) + if IsImageFile(walk[|walk| - 1]) then [walk[|walk| - 1]] else []
  }

  // ---------------------------------------------------------------------------
  // Scoring
  // ---------------------------------------------------------------------------

  function Max(a: int, b: int): int { if a < b then b else a }

  /** The SKU's part of `score_match`: 100 for the stem itself, 60 for a stem containing it. */
  function SkuScore(s: string, sku: string): int {
    if sku == "" then 0
    else if s == Lower(sku) then 100
    else if Contains(s, Lower(sku)) then 60
    else 0
  }

  /** The name slug's variants: hyphens turned into underscores, or dropped. */
  predicate IsSlugVariant(s: string, ns: string) {
    ReplaceChar(ns, '-', '_') == s || RemoveChar(ns, '-') == s
  }

  /** The name slug's part: 90 for the slug itself, 85 for a variant, 55 for a stem containing it. */
  function SlugScore(s: string, nameSlug: string): int {
    if nameSlug == "" then 0
    else
      var ns := Lower(nameSlug);
      if s == ns then 90
      else if IsSlugVariant(s, ns) then 85
      else if Contains(s, ns) then 55
      else 0
  }

  /** `score_match(stem, sku, name_slug)`: the better of the two parts, on the lower-cased stem. */
  function ScoreMatch(stem: string, sku: string, nameSlug: string): int {
    Max(SkuScore(Lower(stem), sku), SlugScore(Lower(stem), nameSlug))
  }

  /** A string contains itself. */
  lemma ContainsSelf(s: string)
    ensures Contains(s, s)
  {
    assert OccursAt(s, s, 0) by {
      assert s[0..|s|] == s;
    }
  }

  /** The score is one of the six levels the heuristic knows. */
  lemma ScoreMatchLevels(stem: string, sku: string, nameSlug: string)
    ensures ScoreMatch(stem, sku, nameSlug) in {0, 55, 60, 85, 90, 100}
  {
  }

  /**
   * What each level means: the SKU as the whole stem gives 100, the SKU inside
   * it at least 60; the slug as the whole stem at least 90, a variant at least
   * 85, the slug inside it at least 55; and a positive score needs one of these.
   */
  lemma ScoreMatchMeaning(stem: string, sku: string, nameSlug: string)
    ensures var s, r := Lower(stem), ScoreMatch(stem, sku, nameSlug);
      && (sku != "" && s == Lower(sku) ==> r == 100)
      && (sku != "" && Contains(s, Lower(sku)) ==> r >= 60)
      && (nameSlug != "" && s == Lower(nameSlug) ==> r >= 90)
      && (nameSlug != "" && IsSlugVariant(s, Lower(nameSlug)) ==> r >= 85)
      && (nameSlug != "" && Contains(s, Lower(nameSlug)) ==> r >= 55)
      && (r > 0 <==>
            (sku != "" && Contains(s, Lower(sku)))
            || (nameSlug != "" && (Contains(s, Lower(nameSlug)) || IsSlugVariant(s, Lower(nameSlug)))))
  {
    var s := Lower(stem);
    ContainsSelf(s);
  }

  /** Without a SKU and without a name slug nothing scores. */
  lemma ScoreMatchNothingToMatch(stem: string)
    ensures ScoreMatch(stem, "", "") == 0
  {
  }

  // ---------------------------------------------------------------------------
  // Candidates by stem
  // ---------------------------------------------------------------------------

  /** `candidates`: lower-cased stem -> the files with that stem, in first-seen order of stems. */
  type Candidates = PyDict.Dict<string, seq<MediaFile>>

  /** Every list in the index holds a file (`setdefault` creates a list only to append to it). */
  predicate NonEmptyLists(c: Candidates) {
    forall i :: 0 <= i < |c| ==> c[i].1 != []
  }

  /** `candidates.setdefault(f.stem.lower(), []).append(f)` */
  function AddCandidate(c: Candidates, f: MediaFile): Candidates {
    var k := Lower(f.stem);
    PyDict.Set(c, k, PyDict.Get(c, k).GetOr([]) + [f])
  }

  /** The candidates after indexing `files` in order. */
  function CandidatesOf(files: seq<MediaFile>): Candidates {
    if files == [] then [] else AddCandidate(CandidatesOf(files[..|files| - 1]), files[|files| - 1])
  }

  /** The files whose lower-cased stem is `k`, in order. */
  function WithStem(files: seq<MediaFile>, k: string): seq<MediaFile> {
    if files == [] then []
    else WithStem(files[..|files| - 1], k) + if Lower(files[|files| - 1].stem) == k then [files[|files| - 1]] else []
  }

  /** `WithStem` keeps exactly the files with that stem. */
  lemma {:induction false} WithStemMembers(files: seq<MediaFile>, k: string)
    ensures forall f :: f in WithStem(files, k) <==> f in files && Lower(f.stem) == k
  {
    if files != [] {
      WithStemMembers(files[..|files| - 1], k);
      assert files == files[..|files| - 1] + [files[|files| - 1]];
    }
  }

  /** What the index should hold under `k`: the files with that stem, or nothing. */
  function Indexed(files: seq<MediaFile>, k: string): Option<seq<MediaFile>> {
    if WithStem(files, k) == [] then None else Some(WithStem(files, k))
  }

  /** One `setdefault(...).append(f)`: the file joins the end of its stem's list, other keys keep theirs. */
  lemma AddCandidateGet(c: Candidates, f: MediaFile, k: string)
    requires PyDict.Valid(c)
    ensures PyDict.Valid(AddCandidate(c, f))
    ensures PyDict.Get(AddCandidate(c, f), k)
      == if k == Lower(f.stem) then Some(PyDict.Get(c, k).GetOr([]) + [f]) else PyDict.Get(c, k)
  {
    var key := Lower(f.stem);
    var v := PyDict.Get(c, key).GetOr([]) + [f];
    PyDict.SetValid(c, key, v);
    PyDict.SetGet(c, key, v, k);
  }

  /**
   * The index has no key twice and maps every stem to exactly the files with
   * that stem, in order; a stem no file has is not a key.
   */
  lemma {:induction false} CandidatesOfSpec(files: seq<MediaFile>)
    ensures PyDict.Valid(CandidatesOf(files))
    ensures forall k :: PyDict.Get(CandidatesOf(files), k) == Indexed(files, k)
  {
    if files != [] {
      var init := files[..|files| - 1];
      var f := files[|files| - 1];
      CandidatesOfSpec(init);
      AddCandidateGet(CandidatesOf(init), f, "");
      forall k
        ensures PyDict.Get(CandidatesOf(files), k) == Indexed(files, k)
      {
        var c := CandidatesOf(init);
        assert CandidatesOf(files) == AddCandidate(c, f);
        AddCandidateGet(c, f, k);
        assert PyDict.Get(c, k) == Indexed(init, k);
        if Lower(f.stem) == k {
          assert WithStem(files, k) == WithStem(init, k) + [f];
          assert PyDict.Get(c, k).GetOr([]) == WithStem(init, k);
        } else {
          assert WithStem(files, k) == WithStem(init, k);
        }
      }
    }
  }

  /** Storing a non-empty list keeps every list of the index non-empty. */
  lemma {:induction false} SetKeepsNonEmpty(c: Candidates, k: string, v: seq<MediaFile>)
    requires NonEmptyLists(c) && v != []
    ensures NonEmptyLists(PyDict.Set(c, k, v))
  {
    if c != [] && c[0].0 != k {
      SetKeepsNonEmpty(c[1..], k, v);
      var r := PyDict.Set(c, k, v);
      assert r == [c[0]] + PyDict.Set(c[1..], k, v);
      forall i | 0 < i < |r| ensures r[i].1 != [] {
        assert r[i] == PyDict.Set(c[1..], k, v)[i - 1];
      }
    } else if c != [] {
      var r := PyDict.Set(c, k, v);
      forall i | 0 < i < |r| ensures r[i].1 != [] {
        assert r[i] == c[i];
      }
    }
  }

  /** Every list in the index holds at least one file. */
  lemma {:induction false} CandidatesNonEmpty(files: seq<MediaFile>)
    ensures NonEmptyLists(CandidatesOf(files))
  {
    if files != [] {
      var f := files[|files| - 1];
      var c := CandidatesOf(files[..|files| - 1]);
      CandidatesNonEmpty(files[..|files| - 1]);
      SetKeepsNonEmpty(c, Lower(f.stem), PyDict.Get(c, Lower(f.stem)).GetOr([]) + [f]);
    }
  }

  /** The `for f in files` loop that builds the index. */
  method IndexByStem(files: seq<MediaFile>) returns (c: Candidates)
    ensures c == CandidatesOf(files)
  {
    c := [];
    for i := 0 to |files|
      invariant c == CandidatesOf(files[..i])
    {
      assert files[..i + 1][..i] == files[..i];
      var key := Lower(files[i].stem);
      var list := PyDict.Get(c, key).GetOr([]);
      c := PyDict.Set(c, key, list + [files[i]]);
    }
    assert files[..|files|] == files;
  }

  // ---------------------------------------------------------------------------
  // Choosing a file for one product
  // ---------------------------------------------------------------------------

  /** The exact stems tried: the lower-cased SKU, the name slug and its two variants. */
  function Stems(sku: string, nameSlug: string): set<string> {
    (if sku != "" then {Lower(sku)} else {})
    + (if nameSlug != "" then {nameSlug, ReplaceChar(nameSlug, '-', '_'), RemoveChar(nameSlug, '-')} else {})
  }

  /** The first stem, in the set's iteration order, that is a key of the index. */
  function ExactHit(order: seq<string>, c: Candidates): (r: Option<nat>)
    ensures r.Some? ==> r.value < |order| && order[r.value] in PyDict.Keys(c)
    ensures r.Some? ==> forall j :: 0 <= j < r.value ==> order[j] !in PyDict.Keys(c)
    ensures r.None? ==> forall j :: 0 <= j < |order| ==> order[j] !in PyDict.Keys(c)
  {
    if order == [] then None
    else if order[0] in PyDict.Keys(c) then Some(0)
    else match ExactHit(order[1..], c)
      case None => None
      case Some(j) => Some(j + 1)
  }

  /** `candidates[k][0]`: the first file indexed under a key. */
  function FileUnder(c: Candidates, k: string): (f: MediaFile)
    requires NonEmptyLists(c) && k in PyDict.Keys(c)
    ensures PyDict.IndexOfKey(c, k).Some? && f == c[PyDict.IndexOfKey(c, k).value].1[0]
  {
    PyDict.GetByIndex(c, k);
    PyDict.Get(c, k).value[0]
  }

  /** `order` lists each member of `stems` once: how a Python set iterates. */
  ghost predicate IsIterationOrder(order: seq<string>, stems: set<string>) {
    && (forall s :: s in order <==> s in stems)
    && (forall i, j :: 0 <= i < j < |order| ==> order[i] != order[j])
  }

  /** Whatever the iteration order, an exact hit exists exactly when one of the stems is indexed. */
  lemma ExactHitIffStemIndexed(order: seq<string>, stems: set<string>, c: Candidates)
    requires IsIterationOrder(order, stems)
    ensures ExactHit(order, c).Some? <==> exists s :: s in stems && s in PyDict.Keys(c)
  {
    if s :| s in stems && s in PyDict.Keys(c) {
      var i :| 0 <= i < |order| && order[i] == s;
    }
  }

  /** `order` is how the stem set built for a product with this name slug iterates. */
  ghost predicate IsStemOrder(p: Product, nameSlug: string, order: seq<string>) {
    IsIterationOrder(order, Stems(SkuOf(p), nameSlug))
  }

  /**
   * For the stems of a SKU and a name slug: an exact hit exists exactly when
   * the lower-cased SKU (if any) or the slug or one of its two variants (if
   * any) is indexed, and the stem hit is one of them.
   */
  lemma ExactHitOfProductStems(sku: string, nameSlug: string, c: Candidates, order: seq<string>)
    requires IsIterationOrder(order, Stems(sku, nameSlug))
    ensures ExactHit(order, c).Some? <==>
      || (sku != "" && Lower(sku) in PyDict.Keys(c))
      || (nameSlug != "" &&
          (|| nameSlug in PyDict.Keys(c)
           || ReplaceChar(nameSlug, '-', '_') in PyDict.Keys(c)
           || RemoveChar(nameSlug, '-') in PyDict.Keys(c)))
    ensures ExactHit(order, c).Some? ==> order[ExactHit(order, c).value] in Stems(sku, nameSlug)
  {
    ExactHitIffStemIndexed(order, Stems(sku, nameSlug), c);
  }

  /** `score_match` with the product's SKU and name slug fixed. */
  function Scorer(sku: string, nameSlug: string): string -> int {
    stem => ScoreMatch(stem, sku, nameSlug)
  }

  /**
   * The heuristic scan over the index in order: the first entry whose score
   * beats everything before it, starting from 0.
   */
  function Scan(c: Candidates, score: string -> int): (Option<MediaFile>, int)
    requires NonEmptyLists(c)
  {
    if c == [] then (None, 0)
    else
      var (best, top) := Scan(c[..|c| - 1], score);
      var sc := score(c[|c| - 1].0);
      if sc > top then (Some(c[|c| - 1].1[0]), sc) else (best, top)
  }

  /** Entry `i` reaches `top` and is the first entry that does. */
  predicate FirstReaching(c: Candidates, score: string -> int, i: int, top: int) {
    && 0 <= i < |c|
    && score(c[i].0) == top
    && forall j :: 0 <= j < i ==> score(c[j].0) < top
  }

  /**
   * The scan's score is the highest score over the index, or 0; it has found
   * no file exactly when that is 0.
   */
  lemma {:induction false} ScanIsMax(c: Candidates, score: string -> int)
    requires NonEmptyLists(c)
    ensures Scan(c, score).1 >= 0
    ensures forall i :: 0 <= i < |c| ==> score(c[i].0) <= Scan(c, score).1
    ensures Scan(c, score).0.None? <==> Scan(c, score).1 == 0
  {
    if c != [] {
      ScanIsMax(c[..|c| - 1], score);
    }
  }

  /** A file the scan has found is the first file of the first entry reaching the best score. */
  lemma {:induction false} ScanIsFirst(c: Candidates, score: string -> int)
    requires NonEmptyLists(c)
    ensures var (best, top) := Scan(c, score);
      best.Some? ==> exists i :: FirstReaching(c, score, i, top) && best == Some(c[i].1[0])
  {
    if c != [] {
      var init := c[..|c| - 1];
      ScanIsFirst(init, score);
      ScanIsMax(init, score);
      var (best, top) := Scan(init, score);
      var sc := score(c[|c| - 1].0);
      if sc > top {
        assert FirstReaching(c, score, |c| - 1, sc);
      } else if best.Some? {
        var i :| FirstReaching(init, score, i, top) && best == Some(init[i].1[0]);
        assert c[i] == init[i];
        assert FirstReaching(c, score, i, top);
      }
    }
  }

  /** The scan loop of `handle`, proved against `Scan`. */
  method HeuristicScan(c: Candidates, sku: string, nameSlug: string) returns (bestFile: Option<MediaFile>, bestScore: int)
    requires NonEmptyLists(c)
    ensures (bestFile, bestScore) == Scan(c, Scorer(sku, nameSlug))
  {
    bestFile, bestScore := None, 0;
    for i := 0 to |c|
      invariant (bestFile, bestScore) == Scan(c[..i], Scorer(sku, nameSlug))
    {
      assert c[..i + 1][..i] == c[..i];
      var sc := ScoreMatch(c[i].0, sku, nameSlug);
      if sc > bestScore {
        bestFile, bestScore := Some(c[i].1[0]), sc;
      }
    }
    assert c[..|c|] == c;
  }

  /**
   * `(str(prod.image.name) or "").strip()` as written: a NULL image column
   * gives the text "None", which counts as an image already set.
   */
  function ExistingImageAsWritten(p: Product): string {
    Strip(match p.image case None => "None" case Some(n) => n)
  }

  /** The evidently intended existing image: empty when the column is NULL. */
  function ExistingImage(p: Product): string {
    Strip(p.image.GetOr(""))
  }

  /** As written, a product without an image is reported as having one called "None". */
  lemma NullImageAsWritten(p: Product)
    requires p.image.None?
    ensures ExistingImageAsWritten(p) == "None"
  {
    StripNoSpace("None");
  }

  /** Intended: a product has an existing image exactly when its name has a non-space character. */
  lemma ExistingImageSpec(p: Product)
    ensures ExistingImage(p) == "" <==> (p.image.None? || LeadingSpaces(p.image.value) == |p.image.value|)
  {
    var s := p.image.GetOr("");
    var t := TrimStart(s);
    TrailingSpacesAreSpaces(t);
    if LeadingSpaces(s) < |s| {
      assert t[0] == s[LeadingSpaces(s)];
    }
  }

  /** `(prod.sku or "").strip()` */
  function SkuOf(p: Product): string {
    Strip(p.sku.GetOr(""))
  }

  /**
   * The file and score chosen for a product without image: the first
   * indexed exact stem (100 when it is the SKU, else 90), or else the
   * heuristic scan's best.
   */
  function Choice(c: Candidates, order: seq<string>, sku: string, nameSlug: string): (Option<MediaFile>, int)
    requires NonEmptyLists(c)
  {
    match ExactHit(order, c)
    case Some(j) => (Some(FileUnder(c, order[j])), if order[j] == Lower(sku) then 100 else 90)
    case None => Scan(c, Scorer(sku, nameSlug))
  }

  /** The row for a choice: a suggestion from a score of 55 up, else none. */
  function Suggestion(sku: string, choice: (Option<MediaFile>, int)): Row {
    if choice.0.Some? && choice.1 >= 55 then Row(sku, choice.0.value.path, "suggested:" + IntToString(choice.1))
    else Row(sku, "", "no-suggestion")
  }

  /**
   * The row for one product, given the index, the product's name slug and the
   * order in which its stem set iterates.
   */
  function RowFor(p: Product, nameSlug: string, c: Candidates, order: seq<string>): Row
    requires NonEmptyLists(c) && IsStemOrder(p, nameSlug, order)
  {
    if ExistingImage(p) != "" then Row(SkuOf(p), ExistingImage(p), "already-set")
    else Suggestion(SkuOf(p), Choice(c, order, SkuOf(p), nameSlug))
  }

  /** The `for stem in stems` loop: the position of the first stem that is a key of the index. */
  method FindExact(order: seq<string>, c: Candidates) returns (hit: Option<nat>)
    ensures hit == ExactHit(order, c)
  {
    var j := 0;
    while j < |order|
      invariant 0 <= j <= |order|
      invariant forall i :: 0 <= i < j ==> order[i] !in PyDict.Keys(c)
    {
      if PyDict.Get(c, order[j]).Some? {
        return Some(j);
      }
      j := j + 1;
    }
    return None;
  }

  /**
   * The body of the product loop in `handle`: an image already set is
   * reported as such; otherwise an exact stem wins over the heuristic scan,
   * which suggests a file only from a score of 55 up.
   */
  method ProductRow(p: Product, slugify: string -> string, c: Candidates, order: seq<string>) returns (row: Row)
    requires NonEmptyLists(c) && IsStemOrder(p, slugify(p.name), order)
    ensures row == RowFor(p, slugify(p.name), c, order)
  {
    var sku := SkuOf(p);
    var nameSlug := slugify(p.name);
    var existing := ExistingImage(p);
    if existing != "" {
      return Row(sku, existing, "already-set");
    }
    var bestFile: Option<MediaFile>;
    var bestScore: int;
    var hit := FindExact(order, c);
    if hit.Some? {
      var stem := order[hit.value];
      bestFile := Some(FileUnder(c, stem));
      bestScore := if stem == Lower(sku) then 100 else 90;
    } else {
      bestFile, bestScore := HeuristicScan(c, sku, nameSlug);
    }
    assert (bestFile, bestScore) == Choice(c, order, sku, nameSlug);
    if bestFile.Some? && bestScore >= 55 {
      row := Row(sku, bestFile.value.path, "suggested:" + IntToString(bestScore));
    } else {
      row := Row(sku, "", "no-suggestion");
    }
  }

  /** An exact stem hit is always suggested, with 100 for the SKU and 90 otherwise. */
  lemma ExactHitSuggested(p: Product, nameSlug: string, c: Candidates, order: seq<string>)
    requires NonEmptyLists(c) && IsStemOrder(p, nameSlug, order)
    requires ExistingImage(p) == "" && ExactHit(order, c).Some?
    ensures var j := ExactHit(order, c).value;
      RowFor(p, nameSlug, c, order).note
        == if order[j] == Lower(SkuOf(p)) then "suggested:100" else "suggested:90"
  {
    var j := ExactHit(order, c).value;
    var sku := SkuOf(p);
    var score := if order[j] == Lower(sku) then 100 else 90;
    var choice := Choice(c, order, sku, nameSlug);
    assert choice == (Some(FileUnder(c, order[j])), score);
    assert RowFor(p, nameSlug, c, order) == Suggestion(sku, choice);
    assert Suggestion(sku, choice).note == "suggested:" + IntToString(score);
    ExactScoreTexts();
  }

  /** The two exact-hit scores as the note writes them. */
  lemma ExactScoreTexts()
    ensures IntToString(100) == "100" && IntToString(90) == "90"
  {
    assert NatToString(100) == NatToString(10) + [DigitChar(0)];
    assert NatToString(10) == NatToString(1) + [DigitChar(0)];
    assert NatToString(90) == NatToString(9) + [DigitChar(0)];
  }

  /**
   * Without an exact hit, a file is suggested exactly when some stem scores
   * 55 or more, and then it is the scan's choice.
   */
  lemma HeuristicThreshold(p: Product, nameSlug: string, c: Candidates, order: seq<string>)
    requires NonEmptyLists(c) && IsStemOrder(p, nameSlug, order)
    requires ExistingImage(p) == "" && ExactHit(order, c).None?
    ensures RowFor(p, nameSlug, c, order).note == "no-suggestion"
      <==> forall i :: 0 <= i < |c| ==> ScoreMatch(c[i].0, SkuOf(p), nameSlug) < 55
  {
    var sku := SkuOf(p);
    var score := Scorer(sku, nameSlug);
    ScanIsMax(c, score);
    ScanIsFirst(c, score);
    var (best, top) := Scan(c, score);
    var row := RowFor(p, nameSlug, c, order);
    if best.Some? && top >= 55 {
      assert row.note == "suggested:" + IntToString(top);
      assert row.note[0] == 's';
      var i :| FirstReaching(c, score, i, top) && best == Some(c[i].1[0]);
      assert ScoreMatch(c[i].0, sku, nameSlug) >= 55;
    } else {
      assert row.note == "no-suggestion";
      forall i | 0 <= i < |c| ensures ScoreMatch(c[i].0, sku, nameSlug) < 55 {
        assert score(c[i].0) <= top;
      }
    }
  }

  /** A product whose image is set gets the `already-set` row whatever the files are. */
  lemma AlreadySetRow(p: Product, nameSlug: string, c: Candidates, order: seq<string>)
    requires NonEmptyLists(c) && IsStemOrder(p, nameSlug, order)
    requires ExistingImage(p) != ""
    ensures RowFor(p, nameSlug, c, order) == Row(SkuOf(p), ExistingImage(p), "already-set")
  {
  }

  /**
   * The product loop of `handle`, in id order: one row per product, the
   * product's own row at its position. `orders[k]` is the iteration order of
   * product `k`'s stem set (its lower-cased SKU and its name slug with the
   * slug's two variants), which Python's string hashing decides.
   */
  method Rows(products: seq<Product>, slugify: string -> string, files: seq<MediaFile>, orders: seq<seq<string>>)
    returns (rows: seq<Row>)
    requires |orders| == |products|
    requires forall k :: 0 <= k < |products| ==> IsStemOrder(products[k], slugify(products[k].name), orders[k])
    ensures |rows| == |products|
    ensures NonEmptyLists(CandidatesOf(files))
    ensures forall k :: 0 <= k < |products| ==>
      rows[k] == RowFor(products[k], slugify(products[k].name), CandidatesOf(files), orders[k])
  {
    var c := IndexByStem(files);
    CandidatesNonEmpty(files);
    rows := RowsOver(products, slugify, c, orders);
  }

  /** The loop itself, over an index already built. */
  method RowsOver(products: seq<Product>, slugify: string -> string, c: Candidates, orders: seq<seq<string>>)
    returns (rows: seq<Row>)
    requires |orders| == |products| && NonEmptyLists(c)
    requires forall k :: 0 <= k < |products| ==> IsStemOrder(products[k], slugify(products[k].name), orders[k])
    ensures |rows| == |products|
    ensures forall k :: 0 <= k < |products| ==> rows[k] == RowFor(products[k], slugify(products[k].name), c, orders[k])
  {
    rows := [];
    for k := 0 to |products|
      invariant |rows| == k
      invariant forall l :: 0 <= l < k ==> rows[l] == RowFor(products[l], slugify(products[l].name), c, orders[l])
    {
      var row := ProductRow(products[k], slugify, c, orders[k]);
      rows := rows + [row];
    }
  }
}
