/** Repository resolution (index.js): the npm path of the `/getGithub` route,
    the Python path shared by `/getGithub` and `/addThanks`, and the `getGithub`
    helper that turns the resolver script's not-found text into `false`.
    The npm registry and the resolver script are oracles passed in as functions. */
module Resolver {
  import opened Wrappers
  import opened Text

  /** The not-found text of the resolver script and of the route's response. */
  const NotFound: string := "No GitHub URL found"

  /** Normalisation of the npm registry's `repository.url` (`None` stands for the
      `false` that `getJSRepo` returns when the fetch or the field access fails):
      a URL comes back exactly when the input starts with `git+` and the rest ends
      with `.git`, and then it is the input with those two parts removed. */
  function NpmRepositoryUrl(repoUrl: Option<string>): (r: Option<string>)
    ensures r.Some? <==>
      repoUrl.Some? && StartsWith(repoUrl.value, "git+") && EndsWith(repoUrl.value[4..], ".git")
    ensures r.Some? ==> "git+" + r.value + ".git" == repoUrl.value
    ensures r.Some? ==> |r.value| == |repoUrl.value| - 8
  {
    if repoUrl.None? || repoUrl.value == "" then None
    else if StartsWith(repoUrl.value, "git+") then
      var rest := repoUrl.value[4..];
      if EndsWith(rest, ".git") then
        assert repoUrl.value == "git+" + rest;
        assert rest == rest[..|rest| - 4] + ".git";
        Some(rest[..|rest| - 4])
      else None
    else None
  }

  /** Every URL `u` is what the npm path makes of `git+u.git`. */
  lemma NpmRepositoryUrlInverse(u: string)
    ensures NpmRepositoryUrl(Some("git+" + u + ".git")) == Some(u)
  {
    var s := "git+" + u + ".git";
    assert s[..4] == "git+";
    assert s[4..] == u + ".git";
    var r := NpmRepositoryUrl(Some(s));
    assert r.Some?;
    assert "git+" + r.value + ".git" == "git+" + u + ".git";
    assert r.value == ("git+" + r.value + ".git")[4..4 + |r.value|];
    assert u == ("git+" + u + ".git")[4..4 + |u|];
  }

  /** Only one `git+` and one `.git` are removed and nothing else is checked: a
      registry URL with a slash before `.git` comes back with a trailing slash. */
  lemma NpmKeepsTrailingSlash()
    ensures NpmRepositoryUrl(Some("git+https://github.com/o/r/.git")) == Some("https://github.com/o/r/")
  {
    NpmRepositoryUrlInverse("https://github.com/o/r/");
    assert "git+" + "https://github.com/o/r/" + ".git" == "git+https://github.com/o/r/.git";
  }

  /** A directory entry of the PythonPackage collection. */
  datatype PackageEntry = PackageEntry(installname: string, usename: string, github: Option<string>)

  /** The package directory, looked up by `usename`. */
  type Directory = map<string, PackageEntry>

  /** JavaScript truthiness of an entry's `github` field. */
  predicate HasGithub(e: PackageEntry) {
    e.github.Some? && e.github.value != ""
  }

  /** JavaScript truthiness of a resolution (`None` is `false`). */
  predicate Truthy(r: Option<string>) {
    r.Some? && r.value != ""
  }

  /** What the Python path does for `name`: use the stored URL, or run the
      resolver script with one argument. */
  datatype Plan = Cached(url: string) | RunResolver(arg: string)

  /** The stored URL is used exactly when the entry exists and has one; otherwise
      the script gets the entry's `installname`, or the raw name when there is no entry. */
  function PlanFor(dir: Directory, name: string): (p: Plan)
    ensures p.Cached? <==> name in dir && HasGithub(dir[name])
    ensures p.Cached? ==> p.url == dir[name].github.value && p.url != ""
    ensures p.RunResolver? && name in dir ==> p.arg == dir[name].installname
    ensures p.RunResolver? && name !in dir ==> p.arg == name
  {
    if name in dir && HasGithub(dir[name]) then Cached(dir[name].github.value)
    else if name in dir then RunResolver(dir[name].installname)
    else RunResolver(name)
  }

  /** The `close` handler of `getGithub`: the script's `githubURL` field, with the
      not-found text turned into `false` (`None`). */
  function ResolverResult(githubURL: string): (r: Option<string>)
    ensures r.None? <==> githubURL == NotFound
    ensures r.Some? ==> r.value == githubURL
  {
    if githubURL == NotFound then None else Some(githubURL)
  }

  /** The Python resolution of `name`; `resolver` maps the script's argument to
      the `githubURL` field it prints. */
  function ResolvePython(dir: Directory, name: string, resolver: string -> string): (r: Option<string>)
    ensures name in dir && HasGithub(dir[name]) ==> r == Some(dir[name].github.value)
    ensures r.None? ==> resolver(PlanFor(dir, name).arg) == NotFound
    ensures r.Some? && !(name in dir && HasGithub(dir[name])) ==>
      r.value == resolver(PlanFor(dir, name).arg) && r.value != NotFound
  {
    match PlanFor(dir, name)
    case Cached(u) => Some(u)
    case RunResolver(arg) => ResolverResult(resolver(arg))
  }

  /** A stored URL makes the resolver irrelevant: the script is never consulted. */
  lemma CachedIgnoresResolver(dir: Directory, name: string, r1: string -> string, r2: string -> string)
    requires name in dir && HasGithub(dir[name])
    ensures ResolvePython(dir, name, r1) == ResolvePython(dir, name, r2)
  {
  }

  /** Otherwise the result depends on the resolver only through its answer for the
      planned argument. */
  lemma ResolverSeesOnlyItsArgument(dir: Directory, name: string, r1: string -> string, r2: string -> string)
    requires PlanFor(dir, name).RunResolver?
    requires r1(PlanFor(dir, name).arg) == r2(PlanFor(dir, name).arg)
    ensures ResolvePython(dir, name, r1) == ResolvePython(dir, name, r2)
  {
  }

  /** The `url` field of the `/getGithub` response, or `None` when the language is
      neither `javascript` nor `python` and no response is sent. `registry` gives
      `repository.url` of a package's npm metadata. */
  function GetGithubRoute(language: string, packageName: string, registry: string -> Option<string>,
                          dir: Directory, resolver: string -> string): (r: Option<string>)
    ensures r.None? <==> language != "javascript" && language != "python"
    ensures language == "python" && packageName in dir && HasGithub(dir[packageName]) ==>
      r == Some(dir[packageName].github.value)
    ensures language == "javascript" && NpmRepositoryUrl(registry(packageName)).Some? ==>
      r == NpmRepositoryUrl(registry(packageName))
    ensures language == "javascript" && NpmRepositoryUrl(registry(packageName)).None? ==> r == Some(NotFound)
    ensures language == "python" && Truthy(ResolvePython(dir, packageName, resolver)) ==>
      r == ResolvePython(dir, packageName, resolver)
    ensures language == "python" && !Truthy(ResolvePython(dir, packageName, resolver)) ==> r == Some(NotFound)
  {
    if language == "javascript" then
      match NpmRepositoryUrl(registry(packageName))
      case Some(u) => Some(u)
      case None => Some(NotFound)
    else if language == "python" then
      var url := ResolvePython(dir, packageName, resolver);
      if Truthy(url) then Some(url.value) else Some(NotFound)
    else None
  }
}
