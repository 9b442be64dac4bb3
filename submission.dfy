/** The `/addThanks` route (index.js): resolve the package's repository, split it
    into owner and repository, collect and deduplicate the recent committers of
    the files that define the thanked modules, save a pending Thanks record and
    fill in the package directory. The two collections are fields of `Database`;
    the resolver script, the code search and the commits API are oracles. */
module Submission {
  import opened Wrappers
  import opened Text
  import opened Resolver
  import opened GithubUrl
  import opened ModuleLocator
  import opened Contributors

  /** The status every new Thanks record gets. */
  const Pending: string := "pending"

  /** The fields of the request body that the route reads (`personalnotes` is kept
      as an opaque string). */
  datatype ThanksRequest = ThanksRequest(packagename: string, modules: seq<string>,
                                         personalnotes: string, userid: string, language: string)

  /** The external services the route consults: the resolver script (argument to
      printed `githubURL`), the code search (query to first hit) and the commits API. */
  datatype Services = Services(resolver: string -> string, search: string -> Option<string>,
                               commits: CommitsRequest -> Option<seq<Commit>>)

  /** A document of the Thanks collection (without its default timestamp). */
  datatype ThanksRecord = ThanksRecord(packagename: string, modules: seq<string>, personalnotes: string,
                                       status: string, userid: string, contributors: seq<Contributor>)

  /** The required string fields of the Thanks schema must be non-empty for `save`
      to succeed. */
  predicate Savable(t: ThanksRecord) {
    t.packagename != "" && t.status != "" && t.userid != ""
  }

  /** How a request ends. Every outcome but `Saved` sends no response and writes
      nothing: the language is not `python`, the resolution is falsy, the split
      throws, a commits request throws, or the Thanks document fails validation. */
  datatype Outcome =
    | NotPython
    | Unresolved
    | SplitFailed
    | CommitsFailed
    | Rejected
    | Saved(record: ThanksRecord, url: string)

  /** The directory after a saved submission: an entry that has a `github` keeps it,
      an entry without one gets `url`, and a missing entry is created with
      `installname == usename == name`. Nothing else changes. */
  function UpdateDirectory(dir: Directory, name: string, url: string): (d: Directory)
    ensures name in d
    ensures forall k :: k != name ==> (k in d <==> k in dir)
    ensures forall k :: k != name && k in dir ==> d[k] == dir[k]
    ensures name in dir && HasGithub(dir[name]) ==> d[name] == dir[name]
    ensures name in dir && !HasGithub(dir[name]) ==>
      d[name].installname == dir[name].installname && d[name].usename == dir[name].usename &&
      d[name].github == Some(url)
    ensures name !in dir ==> d[name] == PackageEntry(name, name, Some(url))
  {
    if name in dir && HasGithub(dir[name]) then dir
    else if name in dir then dir[name := dir[name].(github := Some(url))]
    else dir[name := PackageEntry(name, name, Some(url))]
  }

  /** Write-once: once an entry has a non-empty `github`, later updates leave the
      whole directory as it is, whatever URL they carry. */
  lemma UpdateDirectoryWriteOnce(dir: Directory, name: string, u1: string, u2: string)
    requires u1 != ""
    ensures HasGithub(UpdateDirectory(dir, name, u1)[name])
    ensures UpdateDirectory(UpdateDirectory(dir, name, u1), name, u2) == UpdateDirectory(dir, name, u1)
  {
  }

  /** The outcome of one request against the directory `dir`. */
  function Submit(dir: Directory, req: ThanksRequest, svc: Services): (o: Outcome)
    ensures o.NotPython? <==> req.language != "python"
    ensures req.language == "python" ==>
      (o.Unresolved? <==> !Truthy(ResolvePython(dir, req.packagename, svc.resolver)))
    ensures o.Saved? ==> Truthy(ResolvePython(dir, req.packagename, svc.resolver))
    ensures o.Saved? ==> SplitOwnerRepo(o.url).Some? && o.url != ""
    ensures o.Saved? ==> o.url == StripTrailingSlash(ResolvePython(dir, req.packagename, svc.resolver).value)
    ensures o.Saved? ==> o.record.status == Pending && Savable(o.record)
    ensures o.Saved? ==>
      o.record.packagename == req.packagename && o.record.modules == req.modules &&
      o.record.personalnotes == req.personalnotes && o.record.userid == req.userid
    ensures o.Saved? ==> NoDuplicates(o.record.contributors)
    ensures req.language == "python" && Truthy(ResolvePython(dir, req.packagename, svc.resolver)) ==>
      var url := StripTrailingSlash(ResolvePython(dir, req.packagename, svc.resolver).value);
      (o.SplitFailed? <==> SplitOwnerRepo(url).None?) &&
      (SplitOwnerRepo(url).Some? ==>
        var split := SplitOwnerRepo(url).value;
        var paths := GetAllFiles(split.owner, RepoText(split.repo), req.modules, svc.search);
        var all := AllContributors(split.owner, RepoText(split.repo), paths, svc.commits);
        (o.CommitsFailed? <==> all.None?) &&
        (all.Some? ==>
          (o.Rejected? <==> req.packagename == "" || req.userid == "") &&
          (o.Saved? <==> req.packagename != "" && req.userid != "")))
  {
    if req.language != "python" then NotPython
    else
      var resolved := ResolvePython(dir, req.packagename, svc.resolver);
      if !Truthy(resolved) then Unresolved
      else
        var url := StripTrailingSlash(resolved.value);
        match SplitOwnerRepo(url)
        case None => SplitFailed
        case Some(split) =>
          var repo := RepoText(split.repo);
          var paths := GetAllFiles(split.owner, repo, req.modules, svc.search);
          match AllContributors(split.owner, repo, paths, svc.commits)
          case None => CommitsFailed
          case Some(unfiltered) =>
            DedupContents(unfiltered);
            var record := ThanksRecord(req.packagename, req.modules, req.personalnotes, Pending,
                                       req.userid, Dedup(unfiltered));
            if !Savable(record) then Rejected
            else Saved(record, url)
  }

  /** The contributors of a saved record are exactly the authors of the commits
      fetched for the modules' files (each `(email, name)` pair once), listed at
      their first occurrence in module order. */
  lemma SavedContributors(dir: Directory, req: ThanksRequest, svc: Services)
    requires Submit(dir, req, svc).Saved?
    ensures var url := Submit(dir, req, svc).url;
      var split := SplitOwnerRepo(url).value;
      var paths := GetAllFiles(split.owner, RepoText(split.repo), req.modules, svc.search);
      var all := AllContributors(split.owner, RepoText(split.repo), paths, svc.commits);
      all.Some? && Submit(dir, req, svc).record.contributors == Dedup(all.value) &&
      forall c :: c in Submit(dir, req, svc).record.contributors <==> c in all.value
  {
    var url := Submit(dir, req, svc).url;
    var split := SplitOwnerRepo(url).value;
    var paths := GetAllFiles(split.owner, RepoText(split.repo), req.modules, svc.search);
    var all := AllContributors(split.owner, RepoText(split.repo), paths, svc.commits);
    DedupContents(all.value);
  }

  /** After a saved submission the package resolves from the directory: a later
      request for the same name never consults the resolver. */
  lemma SavedUrlIsCached(dir: Directory, req: ThanksRequest, svc: Services)
    requires Submit(dir, req, svc).Saved?
    ensures var d := UpdateDirectory(dir, req.packagename, Submit(dir, req, svc).url);
      PlanFor(d, req.packagename).Cached?
  {
  }

  /** The two collections the route reads and writes. */
  class Database {
    var packages: Directory
    var thanks: seq<ThanksRecord>

    constructor (packages0: Directory)
      ensures packages == packages0 && thanks == []
    {
      packages := packages0;
      thanks := [];
    }

    /** The handler. The Thanks record is saved before the directory is touched, and
        only a saved submission changes anything. */
    method AddThanks(req: ThanksRequest, svc: Services) returns (outcome: Outcome)
      modifies this
      ensures outcome == Submit(old(packages), req, svc)
      ensures outcome.Saved? ==> thanks == old(thanks) + [outcome.record]
      ensures outcome.Saved? ==> packages == UpdateDirectory(old(packages), req.packagename, outcome.url)
      ensures !outcome.Saved? ==> thanks == old(thanks) && packages == old(packages)
    {
      if req.language != "python" {
        return NotPython;
      }
      var githubURL := ResolvePython(packages, req.packagename, svc.resolver);
      if !Truthy(githubURL) {
        return Unresolved;
      }
      var url := StripTrailingSlash(githubURL.value);
      var split := SplitOwnerRepo(url);
      if split.None? {
        return SplitFailed;
      }
      var owner := split.value.owner;
      var repo := RepoText(split.value.repo);
      var moduleFilePaths := GetAllFiles(owner, repo, req.modules, svc.search);
      var unfiltered := CollectContributors(owner, repo, moduleFilePaths, svc.commits);
      if unfiltered.None? {
        return CommitsFailed;
      }
      var contributors := Dedup(unfiltered.value);
      var record := ThanksRecord(req.packagename, req.modules, req.personalnotes, Pending, req.userid, contributors);
      if !Savable(record) {
        return Rejected;
      }
      thanks := thanks + [record];
      var name := req.packagename;
      if name in packages && !HasGithub(packages[name]) {
        packages := packages[name := packages[name].(github := Some(url))];
      } else if name !in packages {
        packages := packages[name := PackageEntry(name, name, Some(url))];
      }
      outcome := Saved(record, url);
    }
  }
}
