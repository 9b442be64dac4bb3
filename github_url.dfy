/** Owner/repository extraction from a resolved GitHub URL, as `/addThanks` does it
    (index.js): drop one trailing slash, pick the `https` or `http` prefix, split on
    it and take the first two `/`-pieces of what follows the first occurrence. */
module GithubUrl {
  import opened Wrappers
  import opened Text

  const HttpsPrefix: string := "https://github.com/"
  const HttpPrefix: string := "http://github.com/"

  /** At most one trailing `/` is removed. */
  function StripTrailingSlash(url: string): (r: string)
    ensures |url| > 0 && url[|url| - 1] == '/' ==> r + "/" == url
    ensures !(|url| > 0 && url[|url| - 1] == '/') ==> r == url
  {
    if |url| > 0 && url[|url| - 1] == '/' then url[..|url| - 1] else url
  }

  /** The prefix to split on: `https://github.com/` whenever `https` occurs anywhere. */
  function SplitPrefix(url: string): (p: string)
    ensures p == HttpsPrefix <==> Contains(url, "https")
    ensures p == HttpPrefix <==> !Contains(url, "https")
  {
    if Contains(url, "https") then HttpsPrefix else HttpPrefix
  }

  /** `owner` and `repo` of the destructuring `const [owner, repo] = ...`; `repo` is
      `None` (JavaScript's `undefined`) when the piece after the prefix has no `/`. */
  datatype OwnerRepo = OwnerRepo(owner: string, repo: Option<string>)

  /** The text a possibly undefined `repo` becomes in a string concatenation. */
  function RepoText(repo: Option<string>): string {
    match repo
    case Some(r) => r
    case None => "undefined"
  }

  /** `url.split(prefix)[1].split("/")`; `None` when the handler throws because the
      prefix does not occur and there is no second piece. */
  function SplitOwnerRepo(url: string): (r: Option<OwnerRepo>)
    ensures r.None? <==> !Contains(url, SplitPrefix(url))
    ensures r.Some? ==> |url| >= |SplitPrefix(url)|
    ensures r.Some? ==> '/' !in r.value.owner
    ensures r.Some? && r.value.repo.Some? ==> '/' !in r.value.repo.value
  {
    var parts := Split(url, SplitPrefix(url));
    if |parts| < 2 then None
    else
      SplitPiecesLackSeparator(url, SplitPrefix(url));
      var pieces := Split(parts[1], "/");
      SplitPiecesLackSeparator(parts[1], "/");
      ContainsChar(pieces[0], '/');
      if |pieces| > 1 then
        ContainsChar(pieces[1], '/');
        Some(OwnerRepo(pieces[0], Some(pieces[1])))
      else Some(OwnerRepo(pieces[0], None))
  }

  /** The text between the first occurrence of the split prefix and the next one
      (or the end): the second piece of `url.split(prefix)`. */
  function AfterPrefix(url: string): (seg: string)
    requires Contains(url, SplitPrefix(url))
    ensures var i := IndexOf(url, SplitPrefix(url)).value;
      var rest := url[i + |SplitPrefix(url)|..];
      && StartsWith(rest, seg)
      && (|seg| == |rest| || OccursAt(rest, SplitPrefix(url), |seg|))
      && !Contains(seg, SplitPrefix(url))
    ensures seg == Split(url, SplitPrefix(url))[1]
  {
    var prefix := SplitPrefix(url);
    var i := IndexOf(url, prefix).value;
    var rest := url[i + |prefix|..];
    SplitAtFirst(url, prefix);
    SplitHeadIsPrefix(rest, prefix);
    SplitPiecesLackSeparator(rest, prefix);
    Split(rest, prefix)[0]
  }

  /** The owner and the repository are the first two `/`-pieces of the text after
      the prefix: without a `/` in that text the owner is all of it and the
      repository is undefined; otherwise owner, `/` and repository form a prefix
      of that text which runs to its next `/` or to its end. */
  lemma SplitOwnerRepoReadsAfterPrefix(url: string)
    requires SplitOwnerRepo(url).Some?
    ensures Contains(url, SplitPrefix(url))
    ensures SplitOwnerRepo(url).value.repo.None? <==> '/' !in AfterPrefix(url)
    ensures SplitOwnerRepo(url).value.repo.None? ==> SplitOwnerRepo(url).value.owner == AfterPrefix(url)
    ensures var seg := AfterPrefix(url);
      var o := SplitOwnerRepo(url).value;
      o.repo.Some? ==>
        var t := o.owner + "/" + o.repo.value;
        StartsWith(seg, t) && (|t| == |seg| || seg[|t|] == '/')
  {
    var prefix := SplitPrefix(url);
    var seg := AfterPrefix(url);
    var pieces := Split(seg, "/");
    var o := SplitOwnerRepo(url).value;
    assert o == OwnerRepo(pieces[0], if |pieces| > 1 then Some(pieces[1]) else None);
    FirstTwoPiecesOnChar(seg, '/');
  }

  /** A URL with a path beyond the repository, such as
      `https://github.com/{owner}/{repo}/tree/main`, still gives that owner and
      repository: later path pieces are dropped. */
  lemma HttpsUrlWithLongerPath(owner: string, repo: string, tail: string)
    requires '/' !in owner && '/' !in repo
    requires !Contains(owner + "/" + repo + "/" + tail, HttpsPrefix)
    ensures SplitOwnerRepo(HttpsPrefix + owner + "/" + repo + "/" + tail) == Some(OwnerRepo(owner, Some(repo)))
  {
    var rest := owner + "/" + repo + "/" + tail;
    var url := HttpsPrefix + rest;
    assert url == HttpsPrefix + owner + "/" + repo + "/" + tail;
    assert OccursAt(url, "https", 0) by { assert url[..5] == "https"; }
    assert SplitPrefix(url) == HttpsPrefix;
    LongerPathSplit(HttpsPrefix, owner, repo, tail);
  }

  /** Splitting `prefix + owner/repo/tail` on a prefix that does not occur after it. */
  lemma LongerPathSplit(prefix: string, owner: string, repo: string, tail: string)
    requires prefix != "" && '/' !in owner && '/' !in repo
    requires !Contains(owner + "/" + repo + "/" + tail, prefix)
    ensures Split(prefix + (owner + "/" + repo + "/" + tail), prefix) == ["", owner + "/" + repo + "/" + tail]
    ensures var pieces := Split(owner + "/" + repo + "/" + tail, "/");
      |pieces| > 1 && pieces[0] == owner && pieces[1] == repo
  {
    var rest := owner + "/" + repo + "/" + tail;
    SplitAtLeadingSeparator(prefix, rest);
    assert rest == owner + ['/'] + (repo + "/" + tail);
    SplitAtChar(owner, '/', repo + "/" + tail);
    assert repo + "/" + tail == repo + ['/'] + tail;
    SplitAtChar(repo, '/', tail);
  }

  /** A pattern with `:` in it does not occur in a text without `:`. */
  lemma NoColonNoOccurrence(s: string, pattern: string, p: nat)
    requires ':' !in s && p < |pattern| && pattern[p] == ':'
    ensures !Contains(s, pattern)
  {
    forall j: nat ensures !OccursAt(s, pattern, j) {
      if j + |pattern| <= |s| {
        assert s[j..j + |pattern|][p] == s[j + p];
      }
    }
  }

  /** `https://github.com/{owner}/{repo}/tree/main` (a branch page, such as
      `https://github.com/o/r/tree/main`) splits into that owner and repository. */
  lemma TreeUrlSplits(owner: string, repo: string)
    requires '/' !in owner && '/' !in repo && ':' !in owner && ':' !in repo
    ensures SplitOwnerRepo(StripTrailingSlash(HttpsPrefix + owner + "/" + repo + "/tree/main")) ==
      Some(OwnerRepo(owner, Some(repo)))
  {
    var tail := "tree/main";
    var rest := owner + "/" + repo + "/" + tail;
    assert ':' !in rest by {
      assert ':' !in tail;
    }
    NoColonNoOccurrence(rest, HttpsPrefix, 5);
    assert HttpsPrefix + owner + "/" + repo + "/tree/main" == (HttpsPrefix + owner + "/" + repo + "/tree/") + "main";
    NoTrailingSlash(HttpsPrefix + owner + "/" + repo + "/tree/", "main");
    assert HttpsPrefix + owner + "/" + repo + "/tree/main" == HttpsPrefix + owner + "/" + repo + "/" + tail;
    HttpsUrlWithLongerPath(owner, repo, tail);
  }

  /** A string in which `/` stands at most at position `k` contains no occurrence of
      a pattern with `/` at two different positions. */
  lemma NoOccurrenceWithTwoSlashes(s: string, k: nat, pattern: string, p: nat, q: nat)
    requires forall j :: 0 <= j < |s| && s[j] == '/' ==> j == k
    requires p < q < |pattern| && pattern[p] == '/' && pattern[q] == '/'
    ensures !Contains(s, pattern)
  {
  }

  /** The canonical form `https://github.com/{owner}/{repo}`, with or without one
      trailing slash, gives back its owner and repository. */
  lemma CanonicalHttpsUrl(owner: string, repo: string, trailingSlash: bool)
    requires '/' !in owner && '/' !in repo && repo != ""
    ensures var url := HttpsPrefix + owner + "/" + repo + (if trailingSlash then "/" else "");
      SplitOwnerRepo(StripTrailingSlash(url)) == Some(OwnerRepo(owner, Some(repo)))
  {
    var base := HttpsPrefix + owner + "/" + repo;
    var url := base + (if trailingSlash then "/" else "");
    assert StripTrailingSlash(url) == base by {
      if !trailingSlash {
        assert base[|base| - 1] == repo[|repo| - 1];
      }
    }
    assert OccursAt(base, "https", 0) by { assert base[..5] == "https"; }
    assert SplitPrefix(base) == HttpsPrefix;
    CanonicalSplit(HttpsPrefix, owner, repo, 6, 7);
  }

  /** The same for `http://github.com/{owner}/{repo}` when `https` occurs nowhere in
      it (see `HttpUrlMentioningHttpsDoesNotSplit` for what happens otherwise). */
  lemma CanonicalHttpUrl(owner: string, repo: string, trailingSlash: bool)
    requires '/' !in owner && '/' !in repo && repo != ""
    requires !Contains(HttpPrefix + owner + "/" + repo, "https")
    ensures var url := HttpPrefix + owner + "/" + repo + (if trailingSlash then "/" else "");
      SplitOwnerRepo(StripTrailingSlash(url)) == Some(OwnerRepo(owner, Some(repo)))
  {
    var base := HttpPrefix + owner + "/" + repo;
    var url := base + (if trailingSlash then "/" else "");
    assert StripTrailingSlash(url) == base by {
      if !trailingSlash {
        assert base[|base| - 1] == repo[|repo| - 1];
      }
    }
    assert SplitPrefix(base) == HttpPrefix;
    CanonicalSplit(HttpPrefix, owner, repo, 5, 6);
  }

  /** An occurrence stays an occurrence when text is put in front. */
  lemma OccursAfterPrefix(x: string, t: string, sub: string, i: nat)
    requires OccursAt(t, sub, i)
    ensures OccursAt(x + t, sub, |x| + i)
  {
    assert (x + t)[|x| + i..|x| + i + |sub|] == t[i..i + |sub|];
  }

  /** A pattern with `:` at index 5 cannot occur in `http:` followed by text without `:`. */
  lemma NoColonAfterScheme(rest: string, pattern: string)
    requires ':' !in rest && |pattern| > 5 && pattern[5] == ':'
    ensures !Contains("http:" + rest, pattern)
  {
    var url := "http:" + rest;
    forall j: nat ensures !OccursAt(url, pattern, j) {
      if j + |pattern| <= |url| {
        assert url[j + 5] == rest[j];
        assert url[j..j + |pattern|][5] == url[j + 5];
      }
    }
  }

  /** A URL ending in a non-empty repository name without `/` loses nothing to the
      trailing-slash strip. */
  lemma NoTrailingSlash(base: string, repo: string)
    requires repo != "" && '/' !in repo
    ensures StripTrailingSlash(base + repo) == base + repo
  {
    assert (base + repo)[|base + repo| - 1] == repo[|repo| - 1];
  }

  /** An `http` URL whose text after the host mentions `https` is split on the
      `https` prefix. */
  lemma HttpsMentionChoosesHttps(t: string)
    requires Contains(t, "https")
    ensures SplitPrefix(HttpPrefix + t) == HttpsPrefix
  {
    OccursAfterPrefix(HttpPrefix, t, "https", IndexOf(t, "https").value);
  }

  /** The only `:` of `http://github.com/` followed by text without `:` is the
      scheme's. */
  lemma HttpPrefixColon(t: string)
    requires ':' !in t
    ensures HttpPrefix + t == "http:" + ("//github.com/" + t) && ':' !in "//github.com/" + t
  {
    assert ':' !in "//github.com/";
  }

  /** Because the prefix is chosen by `includes("https")` anywhere in the URL, an
      `http://github.com/{owner}/{repo}` URL whose path mentions `https` (such as
      `http://github.com/httpsify/tool`) is split on the wrong prefix, and the
      handler throws. */
  lemma HttpUrlMentioningHttpsDoesNotSplit(owner: string, repo: string)
    requires '/' !in repo && repo != ""
    requires ':' !in owner && ':' !in repo
    requires Contains(owner + "/" + repo, "https")
    ensures SplitOwnerRepo(StripTrailingSlash(HttpPrefix + owner + "/" + repo)).None?
  {
    var t := owner + "/" + repo;
    var url := HttpPrefix + t;
    assert HttpPrefix + owner + "/" + repo == url == (HttpPrefix + owner + "/") + repo;
    NoTrailingSlash(HttpPrefix + owner + "/", repo);
    HttpsMentionChoosesHttps(t);
    HttpPrefixColon(t);
    NoColonAfterScheme("//github.com/" + t, HttpsPrefix);
  }

  /** The core of both canonical cases: splitting `prefix + owner/repo` on a prefix
      that has `/` at two positions. */
  lemma CanonicalSplit(prefix: string, owner: string, repo: string, p: nat, q: nat)
    requires prefix != "" && p < q < |prefix| && prefix[p] == '/' && prefix[q] == '/'
    requires '/' !in owner && '/' !in repo
    ensures Split(prefix + owner + "/" + repo, prefix) == ["", owner + "/" + repo]
    ensures Split(owner + "/" + repo, "/") == [owner, repo]
  {
    var rest := owner + "/" + repo;
    assert forall j :: 0 <= j < |rest| && rest[j] == '/' ==> j == |owner|;
    NoOccurrenceWithTwoSlashes(rest, |owner|, prefix, p, q);
    assert prefix + owner + "/" + repo == prefix + rest;
    SplitAtLeadingSeparator(prefix, rest);
    SplitAtChar(owner, '/', repo);
    SplitWithoutChar(repo, '/');
  }
}
