/** The contributor aggregator (index.js `getContributors` and the contributor part
    of `/addThanks`): commit authors per file path, concatenated in module order,
    then deduplicated by `(email, name)` keeping first occurrences. The commits
    API is an oracle; `None` is a request that throws. */
module Contributors {
  import opened Wrappers

  /** A commit author as `getContributors` records it. */
  datatype Contributor = Contributor(email: string, name: string)

  /** The part of a listed commit that is read: its author's email and name. */
  datatype Commit = Commit(authorEmail: string, authorName: string)

  /** The `path` parameter of a commits request: left out, or given (possibly as
      `undefined`, which is `Given(None)`). */
  datatype PathField = Omitted | Given(value: Option<string>)

  /** `GET /repos/{owner}/{repo}/commits` with its parameters. */
  datatype CommitsRequest = CommitsRequest(owner: string, repo: string, path: PathField, perPage: nat, page: nat)

  /** The request `getContributors` sends: the ten most recent commits, first page
      only, of the whole repository when the path is `""` and of that path otherwise. */
  function RequestFor(owner: string, repo: string, filePath: Option<string>): (q: CommitsRequest)
    ensures q.owner == owner && q.repo == repo && q.perPage == 10 && q.page == 1
    ensures q.path.Omitted? <==> filePath == Some("")
    ensures q.path.Given? ==> q.path.value == filePath
  {
    if filePath == Some("") then CommitsRequest(owner, repo, Omitted, 10, 1)
    else CommitsRequest(owner, repo, Given(filePath), 10, 1)
  }

  /** The authors of a list of commits, one per commit, in the same order. */
  function AuthorsOf(commits: seq<Commit>): (cs: seq<Contributor>)
    ensures |cs| == |commits|
    ensures forall i :: 0 <= i < |commits| ==>
      cs[i] == Contributor(commits[i].authorEmail, commits[i].authorName)
  {
    if commits == [] then []
    else [Contributor(commits[0].authorEmail, commits[0].authorName)] + AuthorsOf(commits[1..])
  }

  /** `getContributors`; `None` when the commits request throws. */
  function GetContributors(owner: string, repo: string, filePath: Option<string>,
                           api: CommitsRequest -> Option<seq<Commit>>): (r: Option<seq<Contributor>>)
    ensures r.None? <==> api(RequestFor(owner, repo, filePath)).None?
    ensures r.Some? ==>
      var commits := api(RequestFor(owner, repo, filePath)).value;
      |r.value| == |commits| &&
      forall i :: 0 <= i < |commits| ==> r.value[i] == Contributor(commits[i].authorEmail, commits[i].authorName)
  {
    match api(RequestFor(owner, repo, filePath))
    case None => None
    case Some(commits) => Some(AuthorsOf(commits))
  }

  /** Two contributor lists appended, or `None` when either request threw. */
  function Concat(a: Option<seq<Contributor>>, b: Option<seq<Contributor>>): Option<seq<Contributor>> {
    if a.Some? && b.Some? then Some(a.value + b.value) else None
  }

  /** Appending is associative. */
  lemma ConcatAssociative(a: Option<seq<Contributor>>, b: Option<seq<Contributor>>, c: Option<seq<Contributor>>)
    ensures Concat(Concat(a, b), c) == Concat(a, Concat(b, c))
  {
    if a.Some? && b.Some? && c.Some? {
      assert a.value + b.value + c.value == a.value + (b.value + c.value);
    }
  }

  /** The concatenation, in path order, of the contributors of every path;
      `None` as soon as one request throws. */
  function AllContributors(owner: string, repo: string, paths: seq<Option<string>>,
                           api: CommitsRequest -> Option<seq<Commit>>): Option<seq<Contributor>>
  {
    if paths == [] then Some([])
    else
      Concat(AllContributors(owner, repo, paths[..|paths| - 1], api),
           GetContributors(owner, repo, paths[|paths| - 1], api))
  }

  /** Contributors are concatenated in module order: the contributors of `ps + qs`
      are those of `ps` followed by those of `qs`, and the whole fails when either part does. */
  lemma {:induction false} AllContributorsAppend(owner: string, repo: string, ps: seq<Option<string>>,
                                                 qs: seq<Option<string>>, api: CommitsRequest -> Option<seq<Commit>>)
    ensures AllContributors(owner, repo, ps + qs, api) ==
      Concat(AllContributors(owner, repo, ps, api), AllContributors(owner, repo, qs, api))
    decreases |qs|
  {
    var a := AllContributors(owner, repo, ps, api);
    if qs == [] {
      assert ps + qs == ps;
      if a.Some? {
        assert a.value + [] == a.value;
      }
    } else {
      var init := qs[..|qs| - 1];
      var last := qs[|qs| - 1];
      AllContributorsAppend(owner, repo, ps, init, api);
      var whole := ps + qs;
      assert whole[..|whole| - 1] == ps + init;
      assert whole[|whole| - 1] == last;
      ConcatAssociative(a, AllContributors(owner, repo, init, api), GetContributors(owner, repo, last, api));
    }
  }

  /** One more path adds its contributors at the end. */
  lemma AllContributorsStep(owner: string, repo: string, paths: seq<Option<string>>, i: nat,
                            api: CommitsRequest -> Option<seq<Commit>>)
    requires i < |paths|
    ensures AllContributors(owner, repo, paths[..i + 1], api) ==
      Concat(AllContributors(owner, repo, paths[..i], api), GetContributors(owner, repo, paths[i], api))
  {
    assert paths[..i + 1][..i] == paths[..i];
  }

  /** A failed request fails the whole collection. */
  lemma AllContributorsFails(owner: string, repo: string, paths: seq<Option<string>>, i: nat,
                             api: CommitsRequest -> Option<seq<Commit>>)
    requires i < |paths| && GetContributors(owner, repo, paths[i], api).None?
    ensures AllContributors(owner, repo, paths, api).None?
  {
    AllContributorsStep(owner, repo, paths, i, api);
    AllContributorsAppend(owner, repo, paths[..i + 1], paths[i + 1..], api);
    assert paths[..i + 1] + paths[i + 1..] == paths;
  }

  /** The `for` loop of `/addThanks` that pushes every contributor of every path
      into `unfilteredContributors`. */
  method CollectContributors(owner: string, repo: string, paths: seq<Option<string>>,
                             api: CommitsRequest -> Option<seq<Commit>>)
    returns (unfiltered: Option<seq<Contributor>>)
    ensures unfiltered == AllContributors(owner, repo, paths, api)
  {
    var acc: seq<Contributor> := [];
    var i := 0;
    while i < |paths|
      invariant 0 <= i <= |paths|
      invariant AllContributors(owner, repo, paths[..i], api) == Some(acc)
    {
      var found := GetContributors(owner, repo, paths[i], api);
      if found.None? {
        AllContributorsFails(owner, repo, paths, i, api);
        return None;
      }
      AllContributorsStep(owner, repo, paths, i, api);
      ghost var start := acc;
      var j := 0;
      while j < |found.value|
        invariant 0 <= j <= |found.value|
        invariant acc == start + found.value[..j]
      {
        acc := acc + [found.value[j]];
        j := j + 1;
        assert found.value[..j] == found.value[..j - 1] + [found.value[j - 1]];
      }
      assert found.value[..j] == found.value;
      i := i + 1;
    }
    assert paths[..i] == paths;
    unfiltered := Some(acc);
  }

  /** The `findIndex` test of the dedup filter: same email and same name. */
  predicate SameAuthor(t: Contributor, c: Contributor) {
    t.email == c.email && t.name == c.name
  }

  /** `self.findIndex(t => SameAuthor(t, c))` from index `k` on; -1 when there is none. */
  function FindIndexFrom(s: seq<Contributor>, c: Contributor, k: nat): (r: int)
    requires k <= |s|
    ensures r == -1 || k <= r < |s|
    ensures r >= 0 ==> SameAuthor(s[r], c)
    ensures r >= 0 ==> forall j :: k <= j < r ==> !SameAuthor(s[j], c)
    ensures r == -1 ==> forall j :: k <= j < |s| ==> !SameAuthor(s[j], c)
    decreases |s| - k
  {
    if k == |s| then -1
    else if SameAuthor(s[k], c) then k
    else FindIndexFrom(s, c, k + 1)
  }

  /** The first index of an entry of `s` whose email and name are those of `s[i]`
      is `i` exactly when `s[i]` does not occur before `i`. */
  lemma FindIndexFirst(s: seq<Contributor>, i: nat)
    requires i < |s|
    ensures FindIndexFrom(s, s[i], 0) == i <==> s[i] !in s[..i]
  {
    var r := FindIndexFrom(s, s[i], 0);
    if s[i] in s[..i] {
      var j :| 0 <= j < i && s[..i][j] == s[i];
      assert s[j] == s[i];
    }
  }

  /** The dedup filter as written, over the first `n` entries:
      `s.filter((x, index, self) => index === self.findIndex(...))`. */
  function KeepFirst(s: seq<Contributor>, n: nat): seq<Contributor>
    requires n <= |s|
  {
    if n == 0 then []
    else
      KeepFirst(s, n - 1) + (if FindIndexFrom(s, s[n - 1], 0) == n - 1 then [s[n - 1]] else [])
  }

  /** The dedup of the concatenated contributors. */
  function Dedup(s: seq<Contributor>): (r: seq<Contributor>)
    ensures r == Distinct(s)
  {
    KeepFirstIsDistinct(s, |s|);
    assert s[..|s|] == s;
    KeepFirst(s, |s|)
  }

  /** The reference definition of "keep the first occurrence of each entry": keep an
      entry exactly when it has not occurred earlier. */
  function Distinct(s: seq<Contributor>): seq<Contributor> {
    if s == [] then []
    else
      var init := s[..|s| - 1];
      Distinct(init) + (if s[|s| - 1] in init then [] else [s[|s| - 1]])
  }

  /** No two entries share `(email, name)`. */
  predicate NoDuplicates(s: seq<Contributor>) {
    forall i, j :: 0 <= i < j < |s| ==> !SameAuthor(s[i], s[j])
  }

  /** The filter-with-findIndex of the source computes the reference definition. */
  lemma {:induction false} KeepFirstIsDistinct(s: seq<Contributor>, n: nat)
    requires n <= |s|
    ensures KeepFirst(s, n) == Distinct(s[..n])
  {
    if n > 0 {
      KeepFirstIsDistinct(s, n - 1);
      FindIndexFirst(s, n - 1);
      assert s[..n][..n - 1] == s[..n - 1];
      assert s[..n][n - 1] == s[n - 1];
    }
  }

  /** The reference definition keeps exactly the entries of its input. */
  lemma {:induction false} DistinctElements(s: seq<Contributor>)
    ensures forall x :: x in Distinct(s) <==> x in s
  {
    if s != [] {
      var init := s[..|s| - 1];
      DistinctElements(init);
      assert s == init + [s[|s| - 1]];
    }
  }

  /** The reference definition has no two entries with the same email and name. */
  lemma {:induction false} DistinctNoDuplicates(s: seq<Contributor>)
    ensures NoDuplicates(Distinct(s))
  {
    if s != [] {
      var init := s[..|s| - 1];
      DistinctNoDuplicates(init);
      DistinctElements(init);
    }
  }

  /** A sequence without duplicates is its own dedup. */
  lemma {:induction false} DistinctOfNoDuplicates(s: seq<Contributor>)
    requires NoDuplicates(s)
    ensures Distinct(s) == s
  {
    if s != [] {
      var init := s[..|s| - 1];
      assert NoDuplicates(init);
      DistinctOfNoDuplicates(init);
      assert s[|s| - 1] !in init;
      assert s == init + [s[|s| - 1]];
    }
  }

  /** Dedup keeps every `(email, name)` pair of its input and no other, and no pair twice. */
  lemma DedupContents(s: seq<Contributor>)
    ensures forall x :: x in Dedup(s) <==> x in s
    ensures NoDuplicates(Dedup(s))
  {
    KeepFirstIsDistinct(s, |s|);
    assert s[..|s|] == s;
    DistinctElements(s);
    DistinctNoDuplicates(s);
  }

  /** Dedup is idempotent. */
  lemma DedupIdempotent(s: seq<Contributor>)
    ensures Dedup(Dedup(s)) == Dedup(s)
  {
    var d := Dedup(s);
    DedupContents(s);
    KeepFirstIsDistinct(d, |d|);
    assert d[..|d|] == d;
    DistinctOfNoDuplicates(d);
  }

  /** Dedup is the subsequence of first occurrences: it picks entries of `s` at
      strictly increasing indices `idx`, each the first occurrence of its pair. */
  lemma {:induction false} DistinctIsFirstOccurrences(s: seq<Contributor>) returns (idx: seq<nat>)
    ensures |idx| == |Distinct(s)|
    ensures forall i :: 0 <= i < |idx| ==> idx[i] < |s| && Distinct(s)[i] == s[idx[i]]
    ensures forall i :: 0 <= i < |idx| ==> s[idx[i]] !in s[..idx[i]]
    ensures forall i, j :: 0 <= i < j < |idx| ==> idx[i] < idx[j]
  {
    if s == [] {
      idx := [];
    } else {
      var n := |s| - 1;
      var init := s[..n];
      var before := DistinctIsFirstOccurrences(init);
      var extra := if s[n] in init then [] else [s[n]];
      assert Distinct(s) == Distinct(init) + extra;
      idx := before + (if s[n] in init then [] else [n]);
      forall i | 0 <= i < |before|
        ensures idx[i] < |s| && Distinct(s)[i] == s[idx[i]] && s[idx[i]] !in s[..idx[i]]
      {
        assert s[..before[i]] == init[..before[i]];
      }
    }
  }

  /** The same, for the dedup as written. */
  lemma DedupIsFirstOccurrences(s: seq<Contributor>) returns (idx: seq<nat>)
    ensures |idx| == |Dedup(s)|
    ensures forall i :: 0 <= i < |idx| ==> idx[i] < |s| && Dedup(s)[i] == s[idx[i]]
    ensures forall i :: 0 <= i < |idx| ==> s[idx[i]] !in s[..idx[i]]
    ensures forall i, j :: 0 <= i < j < |idx| ==> idx[i] < idx[j]
  {
    KeepFirstIsDistinct(s, |s|);
    assert s[..|s|] == s;
    idx := DistinctIsFirstOccurrences(s);
  }
}
