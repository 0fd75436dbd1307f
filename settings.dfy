/**
 * The environment-driven part of the project settings
 * (cake_it_easy_v2/settings.py): boolean flags, the comma-separated host and
 * origin lists, and the security flags derived from DEBUG. The process
 * environment is a map from variable name to value.
 */
module Settings {
  import opened Text

  type Env = map<string, string>

  /** `os.getenv(key, default)` */
  function Getenv(env: Env, key: string, default: string): string {
    if key in env then env[key] else default
  }

  /** `str(b)` for a Python bool. */
  function BoolText(b: bool): string {
    if b then "True" else "False"
  }

  /** `env_bool`: the variable, or `str(default)` when unset, lower-cased, equals "true". */
  function EnvBool(env: Env, key: string, default: bool): bool {
    Lower(Getenv(env, key, BoolText(default))) == "true"
  }

  /**
   * An unset variable gives the default; a set one is true exactly when it
   * spells "true" in any mix of cases.
   */
  lemma EnvBoolSpec(env: Env, key: string, default: bool)
    ensures key !in env ==> EnvBool(env, key, default) == default
    ensures key in env ==> (EnvBool(env, key, default) <==> Lower(env[key]) == "true")
  {
    assert Lower("True") == "true";
    assert Lower("False") == "false";
  }

  lemma EnvBoolExamples()
    ensures EnvBool(map["DEBUG" := "TRUE"], "DEBUG", false)
    ensures !EnvBool(map["DEBUG" := "1"], "DEBUG", true)
    ensures !EnvBool(map["DEBUG" := "yes"], "DEBUG", false)
  {
    assert Lower("TRUE") == "true";
    assert Lower("1") == "1";
    assert Lower("yes") == "yes";
  }

  // ---------------------------------------------------------------------------
  // Comma-separated lists
  // ---------------------------------------------------------------------------

  /** `[p.strip() for p in parts if p.strip()]` */
  function StrippedNonBlank(parts: seq<string>): (r: seq<string>)
    ensures |r| <= |parts|
  {
    if parts == [] then []
    else (if Strip(parts[0]) != "" then [Strip(parts[0])] else []) + StrippedNonBlank(parts[1..])
  }

  /** A comma-separated setting: split on commas, each piece stripped, blank pieces dropped. */
  function CommaList(raw: string): seq<string> {
    StrippedNonBlank(Split(raw, ","))
  }

  /** Each kept entry is a non-blank piece, stripped; every non-blank piece is kept. */
  lemma {:induction false} StrippedNonBlankSpec(parts: seq<string>)
    ensures forall e <- StrippedNonBlank(parts) :: e != "" && IsStripped(e) && exists p <- parts :: e == Strip(p)
    ensures forall p <- parts :: Strip(p) != "" ==> Strip(p) in StrippedNonBlank(parts)
  {
    if parts != [] {
      StrippedNonBlankSpec(parts[1..]);
      StripSpec(parts[0]);
      forall e <- StrippedNonBlank(parts[1..]) ensures exists p <- parts :: e == Strip(p) {
        var p :| p in parts[1..] && e == Strip(p);
        assert p in parts;
      }
      forall p <- parts | p != parts[0] ensures p in parts[1..] {
        var k :| 0 <= k < |parts| && parts[k] == p;
        assert parts[1..][k - 1] == p;
      }
    }
  }

  /** An entry a comma list can carry: non-empty, no surrounding whitespace, no comma. */
  predicate CleanEntry(e: string) {
    e != "" && IsStripped(e) && ',' !in e
  }

  /** The entries of a comma list are non-empty, carry no surrounding whitespace and hold no comma. */
  lemma CommaListSpec(raw: string)
    ensures forall e <- CommaList(raw) :: CleanEntry(e)
    ensures forall p <- Split(raw, ",") :: Strip(p) != "" ==> Strip(p) in CommaList(raw)
  {
    var parts := Split(raw, ",");
    StrippedNonBlankSpec(parts);
    SplitPiecesFree(raw, ",");
    forall e <- CommaList(raw) ensures ',' !in e {
      var p :| p in parts && e == Strip(p);
      CharFree(p, ',');
      StripKeepsOut(p, ',');
    }
  }

  /** Keeping the stripped non-blank pieces of clean pieces keeps them all. */
  lemma {:induction false} StrippedNonBlankOfClean(parts: seq<string>)
    requires forall p <- parts :: p != "" && IsStripped(p)
    ensures StrippedNonBlank(parts) == parts
  {
    if parts != [] {
      assert parts[0] in parts;
      StripOfStripped(parts[0]);
      forall p <- parts[1..] ensures p != "" && IsStripped(p) { assert p in parts; }
      StrippedNonBlankOfClean(parts[1..]);
    }
  }

  /** Writing clean entries with commas between them and reading the setting back gives the same list. */
  lemma CommaListRoundTrip(entries: seq<string>)
    requires forall e <- entries :: CleanEntry(e)
    ensures CommaList(Join(entries, ",")) == entries
  {
    if entries == [] {
      assert Split("", ",") == [""];
      assert Strip("") == "";
    } else {
      SplitJoin(entries, ',');
      StrippedNonBlankOfClean(entries);
    }
  }

  /** A variable set to blanks and commas only yields an empty list, not the defaults. */
  lemma BlankVariableEmptiesList(raw: string)
    requires forall i :: 0 <= i < |raw| ==> IsSpace(raw[i]) || raw[i] == ','
    ensures CommaList(raw) == []
  {
    var parts := Split(raw, ",");
    StrippedNonBlankSpec(parts);
    SplitPiecesFree(raw, ",");
    JoinSplit(raw, ",");
    if CommaList(raw) != [] {
      var e := CommaList(raw)[0];
      assert e in CommaList(raw);
      var p :| p in parts && e == Strip(p);
      BlankPieceOfBlankJoin(parts, p);
      StripEmptyIff(p);
    }
  }

  /** A piece of a split is all whitespace when the text is only blanks and commas and the piece has no comma. */
  lemma BlankPieceOfBlankJoin(parts: seq<string>, p: string)
    requires p in parts
    requires forall q <- parts :: !Contains(q, ",")
    requires forall i :: 0 <= i < |Join(parts, ",")| ==> IsSpace(Join(parts, ",")[i]) || Join(parts, ",")[i] == ','
    ensures forall i :: 0 <= i < |p| ==> IsSpace(p[i])
  {
    var k :| 0 <= k < |parts| && parts[k] == p;
    var off := JoinOffset(parts, k);
    forall i | 0 <= i < |p| ensures IsSpace(p[i]) {
      assert Join(parts, ",")[off + i] == p[i];
      CharFree(p, ',');
      assert p[i] in p;
    }
  }

  /** Where piece `k` starts inside the joined text. */
  lemma {:induction false} JoinOffset(parts: seq<string>, k: nat) returns (off: nat)
    requires k < |parts|
    ensures off + |parts[k]| <= |Join(parts, ",")|
    ensures Join(parts, ",")[off .. off + |parts[k]|] == parts[k]
  {
    if |parts| == 1 {
      off := 0;
    } else {
      JoinCons(parts[0], parts[1..], ",");
      assert parts == [parts[0]] + parts[1..];
      var j := Join(parts, ",");
      if k == 0 {
        off := 0;
        assert j[..|parts[0]|] == parts[0];
      } else {
        var sub := JoinOffset(parts[1..], k - 1);
        off := |parts[0]| + 1 + sub;
        assert j[off .. off + |parts[k]|] == Join(parts[1..], ",")[sub .. sub + |parts[k]|];
      }
    }
  }

  const DefaultHosts: seq<string> := ["localhost", "127.0.0.1", ".herokuapp.com", ".onrender.com"]
  const DefaultCsrf: seq<string> := ["https://localhost", "https://127.0.0.1", "https://*.herokuapp.com", "https://*.onrender.com"]

  /** `ALLOWED_HOSTS` */
  function AllowedHosts(env: Env): seq<string> {
    CommaList(Getenv(env, "ALLOWED_HOSTS", Join(DefaultHosts, ",")))
  }

  /** `CSRF_TRUSTED_ORIGINS` */
  function CsrfTrustedOrigins(env: Env): seq<string> {
    CommaList(Getenv(env, "CSRF_TRUSTED_ORIGINS", Join(DefaultCsrf, ",")))
  }

  /** With the variables unset, the lists are the built-in defaults, entry for entry. */
  lemma DefaultsWhenUnset(env: Env)
    ensures "ALLOWED_HOSTS" !in env ==> AllowedHosts(env) == DefaultHosts
    ensures "CSRF_TRUSTED_ORIGINS" !in env ==> CsrfTrustedOrigins(env) == DefaultCsrf
  {
    DefaultHostsClean();
    CommaListRoundTrip(DefaultHosts);
    DefaultCsrfClean();
    CommaListRoundTrip(DefaultCsrf);
  }

  lemma DefaultHostsClean()
    ensures forall e <- DefaultHosts :: CleanEntry(e)
  {
    assert CleanEntry("localhost") && CleanEntry("127.0.0.1");
    assert CleanEntry(".herokuapp.com") && CleanEntry(".onrender.com");
  }

  lemma DefaultCsrfClean()
    ensures forall e <- DefaultCsrf :: CleanEntry(e)
  {
    assert CleanEntry("https://localhost") && CleanEntry("https://127.0.0.1");
    assert CleanEntry("https://*.herokuapp.com") && CleanEntry("https://*.onrender.com");
  }

  // ---------------------------------------------------------------------------
  // Security flags
  // ---------------------------------------------------------------------------

  datatype Security = Security(
    sslRedirect: bool,
    csrfCookieSecure: bool,
    sessionCookieSecure: bool,
    hstsSeconds: nat,
    hstsIncludeSubdomains: bool,
    hstsPreload: bool)

  /** `DEBUG = env_bool("DEBUG", False)` */
  function Debug(env: Env): bool {
    EnvBool(env, "DEBUG", false)
  }

  /** The production security settings, each derived from DEBUG. */
  function SecurityFor(debug: bool): (s: Security) {
    Security(!debug, !debug, !debug, if !debug then 31536000 else 0, !debug, !debug)
  }

  /**
   * Every switch is on exactly when DEBUG is off, and HSTS lasts a year then
   * and is disabled otherwise.
   */
  lemma SecurityForSpec(debug: bool)
    ensures var s := SecurityFor(debug);
      && s.sslRedirect == s.csrfCookieSecure == s.sessionCookieSecure == s.hstsIncludeSubdomains == s.hstsPreload == !debug
      && (s.hstsSeconds > 0 <==> !debug)
      && (!debug ==> s.hstsSeconds == 365 * 24 * 60 * 60)
  {
  }

  /** With DEBUG unset the site runs with every protection on. */
  lemma SecureByDefault(env: Env)
    requires "DEBUG" !in env
    ensures SecurityFor(Debug(env)) == Security(true, true, true, 31536000, true, true)
  {
    EnvBoolSpec(env, "DEBUG", false);
  }
}
