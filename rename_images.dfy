/**
 * The one-off `rename_images.py` script: every entry of `media/products`
 * whose name matches `^(.*?)(_[a-z0-9]+)?(\.\w+)$` is renamed to group 1
 * followed by group 3, which drops a Cloudinary-style `_suffix` sitting
 * right before the extension.
 *
 * The regular expression is modelled by the order in which a backtracking
 * matcher tries its choices: the lazy group 1 grows one character at a
 * time; at each length the optional group 2 is tried first, its greedy
 * `[a-z0-9]+` longest first, and only then without group 2. A match is the
 * pair (end of group 1, start of group 3). Names are ASCII; `.` does not
 * match a newline.
 */
module RenameImages {
  import opened Wrappers
  import opened Text

  const Folder: string := "media/products"

  /** The class `[a-z0-9]`. */
  predicate IsLowAlnum(c: char) { IsLower(c) || IsDigit(c) }

  /** `\.\w+$` matches from `p`: a dot, then one or more word characters up to the end. */
  predicate ExtAt(s: string, p: nat) {
    p + 2 <= |s| && s[p] == '.' && forall i :: p < i < |s| ==> IsWordChar(s[i])
  }

  /** `_[a-z0-9]+` matches exactly `s[k..p]`. */
  predicate SuffixAt(s: string, k: nat, p: nat) {
    k + 2 <= p <= |s| && s[k] == '_' && forall i :: k < i < p ==> IsLowAlnum(s[i])
  }

  predicate NoNewline(s: string, n: nat) {
    forall i :: 0 <= i < n && i < |s| ==> s[i] != '\n'
  }

  /** Group 2 present, ending at `hi`, `hi - 1`, ...: the first end from which group 3 matches. */
  function TrySuffix(s: string, k: nat, hi: nat): (r: Option<nat>)
    ensures r.Some? ==> k + 2 <= r.value <= hi && SuffixAt(s, k, r.value) && ExtAt(s, r.value)
    ensures r.None? ==> forall p :: k + 2 <= p <= hi ==> !(SuffixAt(s, k, p) && ExtAt(s, p))
    decreases hi
  {
    if hi < k + 2 then None
    else if SuffixAt(s, k, hi) && ExtAt(s, hi) then Some(hi)
    else TrySuffix(s, k, hi - 1)
  }

  /** Group 1 is `s[..k]`: first with group 2, then without it. */
  function TryAt(s: string, k: nat): (r: Option<nat>)
    ensures r.Some? ==> ExtAt(s, r.value) && (r.value == k || SuffixAt(s, k, r.value))
    ensures r.None? ==> !ExtAt(s, k) && forall p :: !(SuffixAt(s, k, p) && ExtAt(s, p))
  {
    match TrySuffix(s, k, |s|)
    case Some(p) => Some(p)
    case None => if ExtAt(s, k) then Some(k) else None
  }

  /** The lazy group 1 grown from length `k` on; `s[..k]` holds no newline. */
  function Search(s: string, k: nat): (r: Option<(nat, nat)>)
    requires k <= |s| && NoNewline(s, k)
    ensures r.Some? ==> (k <= r.value.0 <= |s| && NoNewline(s, r.value.0)
      && TryAt(s, r.value.0) == Some(r.value.1)
      && forall j :: k <= j < r.value.0 ==> TryAt(s, j).None?)
    decreases |s| - k
  {
    match TryAt(s, k)
    case Some(p) => Some((k, p))
    case None => if k < |s| && s[k] != '\n' then Search(s, k + 1) else None
  }

  /** `re.match(pattern, s)`: the end of group 1 and the start of group 3. */
  function Match(s: string): Option<(nat, nat)> {
    Search(s, 0)
  }

  /** `match.group(1) + match.group(3)` when the name matches. */
  function NewName(s: string): Option<string> {
    match Match(s)
    case Some((k, p)) => Some(s[..k] + s[p..])
    case None => None
  }

  /** `os.path.join(folder, name)` for a name without a slash. */
  function PathJoin(folder: string, name: string): string {
    folder + "/" + name
  }

  // ---------------------------------------------------------------------------
  // What the pattern matches
  // ---------------------------------------------------------------------------

  /** The extension is the text from the last dot: it starts at one place only. */
  lemma ExtUnique(s: string, p: nat)
    requires ExtAt(s, p)
    ensures forall q: nat :: ExtAt(s, q) ==> q == p
  {
    forall q: nat | q != p ensures !ExtAt(s, q) {
      if p < q < |s| {
        assert IsWordChar(s[q]);
      } else if q < p {
        assert !IsWordChar(s[p]);
      }
    }
  }

  /** The search from `k0` stops at the first `k` where an attempt succeeds. */
  lemma {:induction false} SearchStops(s: string, k0: nat, k: nat, p: nat)
    requires k0 <= k <= |s| && NoNewline(s, |s|)
    requires forall j :: k0 <= j < k ==> TryAt(s, j).None?
    requires TryAt(s, k) == Some(p)
    ensures Search(s, k0) == Some((k, p))
    decreases k - k0
  {
    if k0 < k {
      SearchStops(s, k0 + 1, k, p);
    }
  }

  /** A name without newline and with an extension is always matched, at the latest with group 1 running to the dot. */
  lemma {:induction false} SearchFinds(s: string, k: nat, e: nat)
    requires k <= e && ExtAt(s, e) && NoNewline(s, |s|)
    ensures Search(s, k).Some?
    decreases e - k
  {
    if TryAt(s, k).None? {
      assert k != e;
      SearchFinds(s, k + 1, e);
    }
  }

  /** A matched name is free of newlines. */
  lemma MatchHasNoNewline(s: string)
    requires Match(s).Some?
    ensures NoNewline(s, |s|)
  {
    var (k, p) := Match(s).value;
    forall i | 0 <= i < |s| ensures s[i] != '\n' {
      if k <= i < p {
        assert SuffixAt(s, k, p);
        assert i == k || IsLowAlnum(s[i]);
      } else if p <= i {
        assert i == p || IsWordChar(s[i]);
      }
    }
  }

  /**
   * `re.match` succeeds exactly on the names without a newline that end
   * with a dot followed by one or more word characters.
   */
  lemma MatchIff(s: string)
    ensures Match(s).Some? <==> NoNewline(s, |s|) && exists p :: ExtAt(s, p)
  {
    if Match(s).Some? {
      MatchHasNoNewline(s);
      assert ExtAt(s, Match(s).value.1);
    }
    if NoNewline(s, |s|) && exists p :: ExtAt(s, p) {
      var e :| ExtAt(s, e);
      SearchFinds(s, 0, e);
    }
  }

  /** In a match, group 3 is the extension and group 2 is empty or a `_[a-z0-9]+` suffix right before it. */
  lemma MatchGroups(s: string)
    requires Match(s).Some?
    ensures var (k, p) := Match(s).value;
      ExtAt(s, p) && (k == p || SuffixAt(s, k, p))
  {
  }

  /** When `s[k..p]` is a `_[a-z0-9]+` suffix before the extension at `p`, the lazy group 1 stops at `k`: the suffix is always removed. */
  lemma SuffixRemoved(s: string, k: nat, p: nat)
    requires SuffixAt(s, k, p) && ExtAt(s, p) && NoNewline(s, |s|)
    ensures Match(s) == Some((k, p))
    ensures NewName(s) == Some(s[..k] + s[p..])
  {
    ExtUnique(s, p);
    forall j: nat | j < k ensures TryAt(s, j).None? {
      assert !IsLowAlnum(s[k]);
      assert !SuffixAt(s, j, p);
      assert !ExtAt(s, j);
    }
    assert TrySuffix(s, k, |s|) == Some(p);
    SearchStops(s, 0, k, p);
  }

  /** Without such a suffix the whole name is group 1 plus group 3: the new name is the old one. */
  lemma NoSuffixKept(s: string, p: nat)
    requires ExtAt(s, p) && NoNewline(s, |s|)
    requires forall k: nat :: !SuffixAt(s, k, p)
    ensures Match(s) == Some((p, p))
    ensures NewName(s) == Some(s)
  {
    ExtUnique(s, p);
    forall j: nat | j < p ensures TryAt(s, j).None? {
      assert !SuffixAt(s, j, p);
      assert !ExtAt(s, j);
    }
    assert !SuffixAt(s, p, p);
    assert TrySuffix(s, p, |s|) == None;
    SearchStops(s, 0, p, p);
    assert s[..p] + s[p..] == s;
  }

  /** The new name keeps the extension and differs from the old exactly when a suffix was dropped. */
  lemma NewNameSpec(s: string)
    requires NewName(s).Some?
    ensures var (k, p) := Match(s).value;
      && NewName(s).value == s[..k] + s[p..]
      && (NewName(s).value != s <==> k < p)
      && |NewName(s).value| == |s| - (p - k)
  {
    var (k, p) := Match(s).value;
    if k == p {
      assert s[..k] + s[p..] == s;
    }
  }

  predicate OneLine(s: string) { '\n' !in s }

  predicate AllLowAlnum(s: string) { forall c <- s :: IsLowAlnum(c) }

  predicate AllWordChars(s: string) { forall c <- s :: IsWordChar(c) }

  /** A stem, `_`, a non-empty `[a-z0-9]` run, a dot and a non-empty word extension: the run and its `_` go. */
  lemma SuffixDropped(stem: string, suffix: string, ext: string)
    requires OneLine(stem) && |suffix| >= 1 && AllLowAlnum(suffix) && |ext| >= 1 && AllWordChars(ext)
    ensures NewName(stem + "_" + suffix + "." + ext) == Some(stem + "." + ext)
  {
    var s := stem + "_" + suffix + "." + ext;
    var k := |stem|;
    var p := k + 1 + |suffix|;
    forall i | k < i < p ensures IsLowAlnum(s[i]) {
      assert s[i] == suffix[i - k - 1];
      assert suffix[i - k - 1] in suffix;
    }
    forall i | p < i < |s| ensures IsWordChar(s[i]) {
      assert s[i] == ext[i - p - 1];
      assert ext[i - p - 1] in ext;
    }
    forall i | 0 <= i < |s| ensures s[i] != '\n' {
      if i < k {
        assert s[i] == stem[i];
        assert stem[i] in stem;
      }
    }
    SuffixRemoved(s, k, p);
    assert s[..k] == stem;
    assert s[p..] == "." + ext;
    assert s[..k] + s[p..] == stem + "." + ext;
  }

  /** The example from the script: the random suffix goes, the extension stays. */
  lemma CupcakeExample()
    ensures NewName("choco-swirl-cupcake" + "_" + "llaewg" + "." + "jpg") == Some("choco-swirl-cupcake" + "." + "jpg")
  {
    assert OneLine("choco-swirl-cupcake") && AllLowAlnum("llaewg") && AllWordChars("jpg");
    SuffixDropped("choco-swirl-cupcake", "llaewg", "jpg");
  }

  /** A character outside `[a-z0-9]` right before the extension leaves no suffix to drop: the name is kept. */
  lemma NonLowAlnumBeforeExtKept(s: string, p: nat)
    requires ExtAt(s, p) && NoNewline(s, |s|)
    requires p == 0 || !IsLowAlnum(s[p - 1])
    ensures NewName(s) == Some(s)
  {
    forall k: nat ensures !SuffixAt(s, k, p) {
      if k + 2 <= p {
        assert s[p - 1] == s[p - 1];
      }
    }
    NoSuffixKept(s, p);
  }

  /** Upper-case letters are not in `[a-z0-9]`: `cake_AB.jpg` keeps its name. */
  lemma UpperSuffixKept()
    ensures NewName("cake_AB.jpg") == Some("cake_AB.jpg")
  {
    var s := "cake_AB.jpg";
    assert ExtAt(s, 7);
    assert !IsLowAlnum(s[6]);
    NonLowAlnumBeforeExtKept(s, 7);
  }

  /**
   * A name is left alone when, after its last dot `d`, some character is not
   * a word character, or when it has no dot at all.
   */
  lemma NonWordExtensionNotMatched(s: string, d: nat, i: nat)
    requires d < i < |s| && !IsWordChar(s[i])
    requires forall j :: d < j < |s| ==> s[j] != '.'
    ensures NewName(s).None?
  {
    forall p: nat ensures !ExtAt(s, p) {
      if p <= d {
        assert !IsWordChar(s[i]);
      } else if p < |s| {
        assert s[p] != '.';
      }
    }
    MatchIff(s);
  }

  /** A name without a dot is left alone. */
  lemma NoDotNotMatched(s: string)
    requires forall j :: 0 <= j < |s| ==> s[j] != '.'
    ensures NewName(s).None?
  {
    forall p: nat ensures !ExtAt(s, p) {
      if p < |s| {
        assert s[p] != '.';
      }
    }
    MatchIff(s);
  }

  /** Two names can be given the same new name; the later `os.rename` then replaces the earlier result. */
  lemma TwoNamesOneTarget()
    ensures NewName("cake" + "_" + "1" + "." + "jpg") == NewName("cake" + "_" + "2" + "." + "jpg") == Some("cake" + "." + "jpg")
  {
    assert OneLine("cake") && AllLowAlnum("1") && AllLowAlnum("2") && AllWordChars("jpg");
    SuffixDropped("cake", "1", "jpg");
    SuffixDropped("cake", "2", "jpg");
  }

  // ---------------------------------------------------------------------------
  // The renaming loop
  // ---------------------------------------------------------------------------

  /** The renames the script performs for one directory entry. */
  function RenameOf(folder: string, name: string): seq<(string, string)> {
    match NewName(name)
    case None => []
    case Some(n) =>
      if PathJoin(folder, name) != PathJoin(folder, n) then [(PathJoin(folder, name), PathJoin(folder, n))] else []
  }

  /** The renames for a listing, in listing order. */
  function Plan(folder: string, names: seq<string>): seq<(string, string)> {
    if names == [] then [] else Plan(folder, names[..|names| - 1]) + RenameOf(folder, names[|names| - 1])
  }

  /** Joining under one folder tells names apart: the paths differ exactly when the names do. */
  lemma PathJoinInjective(folder: string, a: string, b: string)
    ensures PathJoin(folder, a) == PathJoin(folder, b) <==> a == b
  {
    if PathJoin(folder, a) == PathJoin(folder, b) {
      var m := |folder| + 1;
      assert a == PathJoin(folder, a)[m..];
      assert b == PathJoin(folder, b)[m..];
    }
  }

  /** An entry is renamed exactly when its name carries a suffix, and the target keeps folder and extension. */
  lemma RenameOfSpec(folder: string, name: string)
    ensures |RenameOf(folder, name)| <= 1
    ensures |RenameOf(folder, name)| == 1 <==> Match(name).Some? && Match(name).value.0 < Match(name).value.1
    ensures RenameOf(folder, name) != [] ==>
      var (k, p) := Match(name).value;
      RenameOf(folder, name)[0] == (PathJoin(folder, name), PathJoin(folder, name[..k] + name[p..]))
  {
    if NewName(name).Some? {
      NewNameSpec(name);
      PathJoinInjective(folder, name, NewName(name).value);
    }
  }

  /** Every planned rename comes from an entry of the listing whose new name differs from its name. */
  lemma {:induction false} PlanSpec(folder: string, names: seq<string>)
    ensures |Plan(folder, names)| <= |names|
    ensures forall r :: r in Plan(folder, names) ==>
      exists i :: 0 <= i < |names| && NewName(names[i]).Some? && NewName(names[i]).value != names[i]
        && r == (PathJoin(folder, names[i]), PathJoin(folder, NewName(names[i]).value))
  {
    if names != [] {
      var init, last := names[..|names| - 1], names[|names| - 1];
      PlanSpec(folder, init);
      RenameOfSpec(folder, last);
      forall r | r in Plan(folder, names)
        ensures exists i :: (0 <= i < |names| && NewName(names[i]).Some? && NewName(names[i]).value != names[i]
          && r == (PathJoin(folder, names[i]), PathJoin(folder, NewName(names[i]).value)))
      {
        if r in Plan(folder, init) {
          var i :| 0 <= i < |init| && NewName(init[i]).Some? && NewName(init[i]).value != init[i]
            && r == (PathJoin(folder, init[i]), PathJoin(folder, NewName(init[i]).value));
          assert names[i] == init[i];
        } else {
          assert r in RenameOf(folder, last);
          PathJoinInjective(folder, last, NewName(last).value);
          assert names[|names| - 1] == last;
        }
      }
    }
  }

  /**
   * The script's loop over `os.listdir(folder)`: the renames it issues, in
   * order. The file system calls become the returned list.
   */
  method RenameAll(folder: string, names: seq<string>) returns (renames: seq<(string, string)>)
    ensures renames == Plan(folder, names)
  {
    renames := [];
    for i := 0 to |names|
      invariant renames == Plan(folder, names[..i])
    {
      var filename := names[i];
      var m := NewName(filename);
      if m.Some? {
        var newName := m.value;
        var oldPath := PathJoin(folder, filename);
        var newPath := PathJoin(folder, newName);
        if oldPath != newPath {
          renames := renames + [(oldPath, newPath)];
        }
      }
      assert names[..i + 1][..i] == names[..i];
    }
    assert names[..|names|] == names;
  }
}
