/** The resolver script (script.py): pick a source URL from a package's PyPI
    `project_urls` in three passes — a key mentioning `source`, then a key
    mentioning `repository`, then a value containing `/github.com/` — and fall
    back to the not-found text. The PyPI client is an oracle. */
module PypiSource {
  import opened Wrappers
  import opened Text
  import Resolver

  /** The fallback the script prints; the same text the service compares against. */
  const NotFound: string := Resolver.NotFound

  /** The keys of a Python dict are distinct. */
  predicate DistinctKeys(entries: seq<(string, string)>) {
    forall i, j :: 0 <= i < j < |entries| ==> entries[i].0 != entries[j].0
  }

  /** `project_urls` as its items in dict order: label to URL. */
  type ProjectUrls = entries: seq<(string, string)> | DistinctKeys(entries) witness []

  /** The three passes over `project_urls`. */
  datatype SearchPass = SourceKey | RepositoryKey | GithubValue

  /** The test each pass applies to one item. */
  predicate PassMatches(p: SearchPass, entry: (string, string)) {
    match p
    case SourceKey => Contains(Lower(entry.0), "source")
    case RepositoryKey => Contains(Lower(entry.0), "repository")
    case GithubValue => Contains(entry.1, "/github.com/")
  }

  /** The index of the first item at or after `from` that the pass accepts. */
  function FirstMatchFrom(pkg: seq<(string, string)>, p: SearchPass, from: nat): (r: Option<nat>)
    requires from <= |pkg|
    ensures r.Some? ==> from <= r.value < |pkg| && PassMatches(p, pkg[r.value])
    ensures r.Some? ==> forall j :: from <= j < r.value ==> !PassMatches(p, pkg[j])
    ensures r.None? ==> forall j :: from <= j < |pkg| ==> !PassMatches(p, pkg[j])
    decreases |pkg| - from
  {
    if from == |pkg| then None
    else if PassMatches(p, pkg[from]) then Some(from)
    else FirstMatchFrom(pkg, p, from + 1)
  }

  /** The key one pass assigns to `source_key`, or `""` when it breaks nowhere. */
  function PassKey(pkg: seq<(string, string)>, p: SearchPass): string {
    match FirstMatchFrom(pkg, p, 0)
    case Some(i) => pkg[i].0
    case None => ""
  }

  /** `source_key` after the three passes: a later pass runs only while the key is
      still `""`. */
  function SelectedKey(pkg: seq<(string, string)>): string {
    var k1 := PassKey(pkg, SourceKey);
    if k1 != "" then k1
    else
      var k2 := PassKey(pkg, RepositoryKey);
      if k2 != "" then k2 else PassKey(pkg, GithubValue)
  }

  /** `pkg[key]`; `None` is the `KeyError` a missing key raises. */
  function Lookup(pkg: ProjectUrls, key: string): (r: Option<string>)
    ensures r.Some? <==> exists j :: 0 <= j < |pkg| && pkg[j].0 == key
    ensures forall j :: 0 <= j < |pkg| && pkg[j].0 == key ==> r == Some(pkg[j].1)
  {
    LookupFrom(pkg, key, 0)
  }

  function LookupFrom(pkg: ProjectUrls, key: string, from: nat): (r: Option<string>)
    requires from <= |pkg|
    ensures r.Some? <==> exists j :: from <= j < |pkg| && pkg[j].0 == key
    ensures forall j :: from <= j < |pkg| && pkg[j].0 == key ==> r == Some(pkg[j].1)
    decreases |pkg| - from
  {
    if from == |pkg| then None
    else if pkg[from].0 == key then Some(pkg[from].1)
    else LookupFrom(pkg, key, from + 1)
  }

  /** The printed `githubURL` for the package's metadata; `None` is any exception
      before the passes (unknown package, `project_urls` missing or `None`). */
  function SourceUrl(metadata: Option<ProjectUrls>): (githubURL: string)
    ensures metadata.None? ==> githubURL == NotFound
    ensures metadata.Some? && SelectedKey(metadata.value) == "" ==> githubURL == NotFound
    ensures metadata.Some? && SelectedKey(metadata.value) != "" ==>
      Lookup(metadata.value, SelectedKey(metadata.value)) == Some(githubURL)
  {
    match metadata
    case None => NotFound
    case Some(pkg) =>
      var key := SelectedKey(pkg);
      if key == "" then NotFound
      else
        match Lookup(pkg, key)
        case Some(v) => v
        case None => NotFound
  }

  /** One `for key in pkg` loop with its `break`. */
  method ScanPass(pkg: seq<(string, string)>, p: SearchPass) returns (key: string)
    ensures key == PassKey(pkg, p)
  {
    key := "";
    var i := 0;
    while i < |pkg|
      invariant 0 <= i <= |pkg|
      invariant FirstMatchFrom(pkg, p, i) == FirstMatchFrom(pkg, p, 0)
    {
      if PassMatches(p, pkg[i]) {
        key := pkg[i].0;
        break;
      }
      i := i + 1;
    }
  }

  /** The script's body after the metadata fetch. */
  method FindGithubUrl(metadata: Option<ProjectUrls>) returns (githubURL: string)
    ensures githubURL == SourceUrl(metadata)
  {
    if metadata.None? {
      return NotFound;
    }
    var pkg := metadata.value;
    var sourceKey := ScanPass(pkg, SourceKey);
    if sourceKey == "" {
      sourceKey := ScanPass(pkg, RepositoryKey);
    }
    if sourceKey == "" {
      sourceKey := ScanPass(pkg, GithubValue);
    }
    if sourceKey == "" {
      githubURL := NotFound;
    } else {
      var v := Lookup(pkg, sourceKey);
      githubURL := if v.Some? then v.value else NotFound;
    }
  }

  /** A key mentioning `source` is never empty, and neither is one mentioning
      `repository`. */
  lemma KeyPassKeyNonEmpty(pkg: seq<(string, string)>, p: SearchPass)
    requires p != GithubValue && FirstMatchFrom(pkg, p, 0).Some?
    ensures PassKey(pkg, p) != ""
  {
  }

  /** The key found by a pass is looked up to its own value. */
  lemma PassValue(pkg: ProjectUrls, p: SearchPass)
    requires FirstMatchFrom(pkg, p, 0).Some?
    ensures Lookup(pkg, PassKey(pkg, p)) == Some(pkg[FirstMatchFrom(pkg, p, 0).value].1)
  {
  }

  /** A pass that accepts some item finds one. */
  lemma SomeMatch(pkg: seq<(string, string)>, p: SearchPass)
    requires exists j :: 0 <= j < |pkg| && PassMatches(p, pkg[j])
    ensures FirstMatchFrom(pkg, p, 0).Some?
  {
  }

  /** With no `source` key and some `repository` key, the second pass decides the key. */
  lemma SelectedRepositoryKey(pkg: seq<(string, string)>)
    requires FirstMatchFrom(pkg, SourceKey, 0).None? && FirstMatchFrom(pkg, RepositoryKey, 0).Some?
    ensures SelectedKey(pkg) == PassKey(pkg, RepositoryKey) != ""
  {
    KeyPassKeyNonEmpty(pkg, RepositoryKey);
  }

  /** With neither key pass matching, the third pass decides the key. */
  lemma SelectedGithubKey(pkg: seq<(string, string)>)
    requires FirstMatchFrom(pkg, SourceKey, 0).None? && FirstMatchFrom(pkg, RepositoryKey, 0).None?
    ensures SelectedKey(pkg) == PassKey(pkg, GithubValue)
  {
  }

  /** When some key mentions `source` (in any letter case), the result is the value
      of the first such key in dict order. */
  lemma SourceKeyWins(pkg: ProjectUrls)
    requires exists j :: 0 <= j < |pkg| && PassMatches(SourceKey, pkg[j])
    ensures SourceUrl(Some(pkg)) == pkg[FirstMatchFrom(pkg, SourceKey, 0).value].1
  {
    SomeMatch(pkg, SourceKey);
    KeyPassKeyNonEmpty(pkg, SourceKey);
    PassValue(pkg, SourceKey);
  }

  /** `repository` keys count only when no key mentions `source` (the first pass
      finds nothing); then the first of them decides. */
  lemma RepositoryKeyNext(pkg: ProjectUrls)
    requires FirstMatchFrom(pkg, SourceKey, 0).None?
    requires exists j :: 0 <= j < |pkg| && PassMatches(RepositoryKey, pkg[j])
    ensures SourceUrl(Some(pkg)) == pkg[FirstMatchFrom(pkg, RepositoryKey, 0).value].1
  {
    SomeMatch(pkg, RepositoryKey);
    SelectedRepositoryKey(pkg);
    PassValue(pkg, RepositoryKey);
  }

  /** A value containing `/github.com/` is chosen only when neither key pass matched,
      and then the first such item decides — unless its key is `""`, which the
      script cannot tell apart from "nothing found". */
  lemma GithubValueLast(pkg: ProjectUrls)
    requires FirstMatchFrom(pkg, SourceKey, 0).None? && FirstMatchFrom(pkg, RepositoryKey, 0).None?
    requires FirstMatchFrom(pkg, GithubValue, 0).Some?
    ensures var i := FirstMatchFrom(pkg, GithubValue, 0).value;
      SourceUrl(Some(pkg)) == if pkg[i].0 == "" then NotFound else pkg[i].1
  {
    SelectedGithubKey(pkg);
    var i := FirstMatchFrom(pkg, GithubValue, 0).value;
    if pkg[i].0 != "" {
      PassValue(pkg, GithubValue);
    }
  }

  /** When no pass matches, the result is the not-found text. */
  lemma NoMatchIsNotFound(pkg: ProjectUrls)
    requires forall p: SearchPass :: FirstMatchFrom(pkg, p, 0).None?
    ensures SourceUrl(Some(pkg)) == NotFound
  {
    assert FirstMatchFrom(pkg, SourceKey, 0).None?;
    assert FirstMatchFrom(pkg, RepositoryKey, 0).None?;
    assert FirstMatchFrom(pkg, GithubValue, 0).None?;
  }

  /** Any other result is one of the `project_urls` values (not necessarily a
      github.com URL). */
  lemma ResultIsAValue(metadata: Option<ProjectUrls>)
    ensures SourceUrl(metadata) == NotFound ||
      (metadata.Some? && exists j :: 0 <= j < |metadata.value| && SourceUrl(metadata) == metadata.value[j].1)
  {
    if metadata.Some? {
      var pkg := metadata.value;
      var key := SelectedKey(pkg);
      if key != "" {
        var j :| 0 <= j < |pkg| && pkg[j].0 == key;
        assert SourceUrl(metadata) == pkg[j].1;
      }
    }
  }

  /** `sys.argv[1]` when there is one, otherwise `""`. */
  function PackageNameArg(argv: seq<string>): (name: string)
    ensures |argv| > 1 ==> name == argv[1]
    ensures |argv| <= 1 ==> name == ""
  {
    if |argv| > 1 then argv[1] else ""
  }

  /** The script as the service runs it: `python script.py <name>`, with `pypi`
      giving the package's `project_urls` (or `None` on any exception). */
  function ScriptOutput(argv: seq<string>, pypi: string -> Option<ProjectUrls>): (githubURL: string)
    ensures |argv| <= 1 ==> githubURL == SourceUrl(pypi(""))
    ensures |argv| > 1 ==> githubURL == SourceUrl(pypi(argv[1]))
  {
    SourceUrl(pypi(PackageNameArg(argv)))
  }

  /** The service's Python resolution with this script as the resolver, when the
      directory has no URL for the package: `false` (`None`) for the not-found
      text, otherwise one of the `project_urls` values of the package the script
      was run for. */
  lemma ResolutionWithScript(dir: Resolver.Directory, name: string, pypi: string -> Option<ProjectUrls>)
    ensures var resolver := (arg: string) => ScriptOutput(["script.py", arg], pypi);
      var plan := Resolver.PlanFor(dir, name);
      var r := Resolver.ResolvePython(dir, name, resolver);
      plan.RunResolver? ==>
        r.None? || (pypi(plan.arg).Some? && exists j :: 0 <= j < |pypi(plan.arg).value| && r.value == pypi(plan.arg).value[j].1)
  {
    var plan := Resolver.PlanFor(dir, name);
    if plan.RunResolver? {
      assert PackageNameArg(["script.py", plan.arg]) == plan.arg;
      ResultIsAValue(pypi(plan.arg));
    }
  }
}
