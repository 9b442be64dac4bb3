# Hug-Reports backend: a verified model of its core logic

Hug-Reports lets a developer thank the maintainers of the packages their code
imports. The backend does five things. It resolves a package to its GitHub
repository: through the npm registry for JavaScript, and through a package
directory or a PyPI resolver script for Python. It finds the files that define
the thanked modules. It collects and deduplicates the recent committers of
those files. It stores a pending "thanks" record. It filters import lists
against a block list. Two seed scripts fill the package directory and the
block list from text files.

This project models the pure and sequential logic around those calls. The
database, the network and the spawned script are abstract inputs:

- the package directory is a `map` keyed by `usename`;
- the block list is a `set` of names;
- PyPI `project_urls` is a sequence of key/value pairs with distinct keys;
- commit lists and search hits are sequences;
- the npm registry, the resolver script, the code search and the commits API
  are function-typed oracles.

Modules, one per concern:

- `Wrappers`: `Option`.
- `Text`: the string operations with their JavaScript or Python meaning: `indexOf`, `includes`, `startsWith`, `endsWith`, `split` on a non-empty separator, `trim` with JavaScript's whitespace set, ASCII `lower`.
- `Resolver`: the npm normalisation in `/getGithub`, the directory-or-resolver decision, and the resolver's not-found text becoming `false`.
- `GithubUrl`: owner/repository extraction in `/addThanks`.
- `ModuleLocator`: `getFile` and `getAllFiles`.
- `Contributors`: `getContributors`, the contributor collection loop, and the `filter`/`findIndex` dedup together with a reference definition.
- `ImportFilter`: `/filterPythonImports`, as the nested loops and as a specification function.
- `Submission`: `/addThanks`, as class `Database`, whose `packages` and `thanks` fields the handler updates.
- `PypiSource`: script.py's three passes and its sentinel.
- `SeedMapping` and `SeedBlocklist`: the two seed scripts.

Two behaviours of the code a reader may not expect:

- An import group whose entries are all blocked is dropped from the `/filterPythonImports` output, because the key is created on the first push only (`ImportFilter.FilterImportsByKey`).
- A resolved URL is not guaranteed to lack a trailing slash or a `.git` suffix. The npm path strips exactly one leading `git+` and one trailing `.git` (`Resolver.NpmKeepsTrailingSlash`). The Python path returns a `project_urls` value unchanged.

## Model

| member | source | states |
|---|---|---|
| Resolver.NpmRepositoryUrl | index.js:202-229 | a URL comes back iff the lookup succeeded, the URL starts with `git+` and what follows ends with `.git`; then `"git+" + out + ".git"` is the input and the output is 8 characters shorter |
| Resolver.NpmRepositoryUrlInverse | index.js:210-215 | every `u` is what `git+u.git` normalises to |
| Resolver.NpmKeepsTrailingSlash | index.js:210-215 | `git+https://github.com/o/r/.git` normalises to a URL ending in `/` |
| Resolver.PlanFor | index.js:232-245 | the stored URL is used iff the entry exists and its `github` is non-empty; otherwise the resolver gets the `installname` of an existing entry, or the raw name |
| Resolver.ResolverResult | index.js:190-196 | the script's `githubURL` becomes `false` exactly when it is the not-found text, and is passed through otherwise |
| Resolver.ResolvePython | index.js:232-245 | an entry with a URL resolves to it; otherwise the result is the resolver's answer for the planned argument, with the not-found text turned into `false` |
| Resolver.CachedIgnoresResolver | index.js:236-237 | with a stored URL, any two resolvers give the same result, so the script is never consulted |
| Resolver.ResolverSeesOnlyItsArgument | index.js:238-245 | without one, the result depends on the resolver only through its answer for the planned argument |
| Resolver.GetGithubRoute | index.js:200-257 | no response unless the language is `javascript` or `python`; on the npm path the normalised registry URL is the answer whenever there is one, and the not-found text otherwise; on the Python path a truthy resolution is the answer, and a falsy one gives the not-found text; a stored Python URL is answered as is |
| GithubUrl.StripTrailingSlash | index.js:338-340 | exactly one trailing `/` is removed when present, and nothing otherwise |
| GithubUrl.SplitPrefix | index.js:341-346 | the split prefix is `https://github.com/` iff `https` occurs anywhere in the URL, else `http://github.com/` |
| GithubUrl.SplitOwnerRepo | index.js:347 | the split fails (the handler throws) iff the chosen prefix does not occur; owner and repository contain no `/` |
| GithubUrl.AfterPrefix | index.js:347 | it is the second piece of `url.split(prefix)`: the text after the prefix's first occurrence, up to the next occurrence of the prefix or the end, which does not contain the prefix |
| GithubUrl.SplitOwnerRepoReadsAfterPrefix | index.js:347 | the repository is undefined iff the text after the prefix has no `/`, and the owner is then all of that text; otherwise `owner/repo` is a prefix of that text that ends at its end or at its next `/` |
| GithubUrl.HttpsUrlWithLongerPath | index.js:341-347 | `https://github.com/{owner}/{repo}/{tail}` gives exactly that owner and repository; later path pieces are dropped |
| GithubUrl.TreeUrlSplits | index.js:338-347 | `https://github.com/{owner}/{repo}/tree/main` gives exactly that owner and repository |
| GithubUrl.CanonicalHttpsUrl | index.js:338-347 | `https://github.com/{owner}/{repo}`, with or without a trailing slash, gives back exactly that owner and repository |
| GithubUrl.CanonicalHttpUrl | index.js:338-347 | the same for `http://github.com/{owner}/{repo}` when `https` occurs nowhere in it |
| GithubUrl.HttpUrlMentioningHttpsDoesNotSplit | index.js:341-347 | any `http://github.com/{owner}/{repo}` whose path mentions `https` (such as `http://github.com/httpsify/tool`) is split on the `https` prefix and the split fails |
| GithubUrl.HttpsMentionChoosesHttps | index.js:342-346 | an `http://github.com/` URL whose path mentions `https` is split on the `https` prefix |
| GithubUrl.CanonicalSplit | index.js:347 | splitting `prefix + owner/repo` on that prefix gives `["", owner/repo]`, and splitting that on `/` gives `[owner, repo]` |
| ModuleLocator.LookupFor | index.js:99-102 | an empty module name is never searched for; any other gives a query made of the name, ` in:file language:python repo:` and `owner/repo`, and nothing else |
| ModuleLocator.GetFile | index.js:98-118 | `""` for an empty name, otherwise the search's first hit, or undefined when the search fails |
| ModuleLocator.GetAllFiles | index.js:121-130 | one result per module name, aligned index for index with `getFile` on that name |
| Contributors.GetContributors | index.js:132-171 | fails iff the commits request for that file fails; otherwise one contributor per listed commit, in order, holding that commit's author email and name |
| Contributors.RequestFor | index.js:139-161 | the request asks for page 1 with 10 commits; it leaves out `path` exactly when the file path is `""`, and passes the path (possibly undefined) otherwise |
| Contributors.AuthorsOf | index.js:146-152 | one contributor per listed commit, in order, holding its author's email and name |
| Contributors.AllContributorsAppend | index.js:354-360 | the contributors of `ps + qs` are those of `ps` followed by those of `qs`, and fail iff either part fails |
| Contributors.AllContributorsFails | index.js:354-360 | one failing request makes the whole collection fail |
| Contributors.CollectContributors | index.js:354-360 | the push loop produces the concatenation, in module order, of every path's contributors, or fails when one request throws |
| Contributors.FindIndexFrom | index.js:366-367 | `findIndex` gives the first index with equal email and name, or -1 when there is none |
| Contributors.FindIndexFirst | index.js:363-369 | the filter keeps index `i` iff `s[i]` does not occur before `i` |
| Contributors.KeepFirstIsDistinct | index.js:363-369 | the filter-with-`findIndex` computes the reference first-occurrences definition |
| Contributors.DistinctElements | index.js:363-369 | the reference definition keeps exactly the pairs of its input |
| Contributors.DistinctNoDuplicates | index.js:363-369 | the reference definition has no two entries with the same email and name |
| Contributors.DistinctOfNoDuplicates | index.js:363-369 | a list without duplicates is its own dedup |
| Contributors.DistinctIsFirstOccurrences | index.js:363-369 | the reference definition is the subsequence of first occurrences, at strictly increasing indices |
| Contributors.Dedup | index.js:363-369 | the filter-with-`findIndex` dedup equals the reference first-occurrences definition `Distinct` |
| Contributors.DedupContents | index.js:363-369 | dedup keeps every input pair and no other, and no pair twice |
| Contributors.DedupIdempotent | index.js:363-369 | dedup applied twice equals dedup applied once |
| Contributors.DedupIsFirstOccurrences | index.js:363-369 | dedup's output is the input's first occurrences, in input order |
| ImportFilter.FilterImports | index.js:297-311 | no key of the filtered map holds an empty list |
| ImportFilter.KeptIsUnblockedSubsequence | index.js:299-310 | the kept entries of a group are exactly its unblocked entries, in their original order |
| ImportFilter.AddGroupPush | index.js:303-308 | one push appends the entry to the key's list, creating the key when it is absent |
| ImportFilter.FilterImportsByKey | index.js:297-311 | a key is in the output iff its group keeps some entry, and it then maps to exactly the group's unblocked entries; all-blocked and empty groups vanish |
| ImportFilter.FilterPythonImports | index.js:291-315 | the nested push loops compute the specification `FilterImports` |
| ImportFilter.OsNumpyGroup | index.js:297-311 | with `os` blocked, `{"file1": [os, numpy]}` filters to `{"file1": [numpy]}` |
| Submission.UpdateDirectory | index.js:382-394 | an entry with a URL is unchanged; an entry without one gets the URL; a missing entry is created with `installname == usename == packagename`; no other key changes |
| Submission.UpdateDirectoryWriteOnce | index.js:382-394 | once set, an entry's URL is never overwritten: a second update leaves the directory unchanged whatever URL it carries |
| Submission.Submit | index.js:318-400 | nothing is saved unless the language is `python` and the resolution is truthy; then the split fails iff the URL has no split prefix, the collection fails iff a commits request fails, the record is rejected iff the package name or user id is empty, and it is saved otherwise; a saved record is `pending`, carries the request's fields and duplicate-free contributors, and its URL is the slash-stripped resolution |
| Submission.SavedContributors | index.js:348-381 | a saved record's contributors are the dedup of the commit authors for the files found for the modules, and hold every such pair |
| Submission.SavedUrlIsCached | index.js:323-334 | after a saved submission the package resolves from the directory, without the resolver |
| Submission.Database.AddThanks | index.js:318-400 | the handler's outcome is `Submit`'s; only a saved submission appends the record and updates the directory, and then by `UpdateDirectory` |
| PypiSource.SourceUrl | script.py:16-43 | missing metadata or no selected key gives `No GitHub URL found`; a selected key gives its `project_urls` value |
| PypiSource.ScriptOutput | script.py:7-43 | the script looks up `argv[1]`, or `""` without an argument, and prints `SourceUrl` of its metadata |
| PypiSource.FirstMatchFrom | script.py:20-35 | the first item from a given position that a pass accepts; no earlier one is accepted |
| PypiSource.Lookup | script.py:39 | `pkg[key]` is the value of the item with that key, and fails only for a missing key |
| PypiSource.ScanPass | script.py:20-35 | one `for`/`break` loop sets the key of the first accepted item, or leaves it `""` |
| PypiSource.FindGithubUrl | script.py:16-39 | the passes, run while the key is still `""`, and the final lookup compute `SourceUrl` |
| PypiSource.KeyPassKeyNonEmpty | script.py:20-29 | a key found by the `source` or `repository` pass is never `""` |
| PypiSource.SelectedRepositoryKey | script.py:24-29 | with no `source` key and some `repository` key, the second pass decides the key |
| PypiSource.SelectedGithubKey | script.py:30-35 | with neither key pass matching, the third pass decides the key |
| PypiSource.PassValue | script.py:38-39 | the key found by a pass looks up to that item's value |
| PypiSource.SourceKeyWins | script.py:20-23 | if any key contains `source` (any letter case), the result is the value of the first such key |
| PypiSource.RepositoryKeyNext | script.py:24-29 | with no `source` key, the first key containing `repository` decides |
| PypiSource.GithubValueLast | script.py:30-39 | with neither kind of key, the first value containing `/github.com/` decides, unless that item's key is `""`, which yields the sentinel |
| PypiSource.NoMatchIsNotFound | script.py:36-37 | when no pass matches, the result is `No GitHub URL found` |
| PypiSource.ResultIsAValue | script.py:36-43 | the result is the sentinel or one of the `project_urls` values; missing metadata gives the sentinel |
| PypiSource.PackageNameArg | script.py:8-11 | the package name is `argv[1]`, or `""` when there is no argument |
| PypiSource.ResolutionWithScript | script.py:36-39 | with this script as the resolver, a package without a stored URL resolves to `false` or to one of its `project_urls` values |
| SeedMapping.ParseMappingLine | seed-db.js:30 | neither field contains `:`; `installname` is undefined iff the line has no `:` |
| SeedMapping.UsenameField | seed-db.js:30 | `usename` is the untrimmed text before the first `:`, or the whole line when there is none |
| SeedMapping.InstallnameField | seed-db.js:30 | `installname` is undefined iff the line has no `:`; otherwise it is the text between the first and second `:` (or the end), and later fields are dropped |
| SeedMapping.MappingRoundTrip | seed-db.js:30 | colon-free `u` and `i` joined by `:` parse back to `u` and `i` |
| SeedMapping.SingleColonLine | seed-db.js:30 | for a line with exactly one `:`, `usename + ":" + installname` is the line |
| SeedMapping.RequestsLine | seed-db.js:29-35 | the line `requests:requests2` gives the entry `{installname: requests2, usename: requests}` with no URL |
| SeedMapping.LineWithoutColonFails | seed-db.js:14-18 | a line without `:` fails the required `installname` |
| SeedMapping.EntryOf | seed-db.js:31-34 | the saved entry carries the line's two fields and never a `github` URL |
| SeedMapping.ImportMapping | seed-db.js:28-45 | one entry per line in file order; the first invalid line stops the import, and the lines before it stay saved |
| SeedBlocklist.BlockedRecord | seed_blocked_python_modules.js:33-37 | `installname` always equals `usename` |
| SeedBlocklist.BlockedNameIsTrimmed | seed_blocked_python_modules.js:33 | the name is a contiguous slice of the line: only whitespace is cut from the ends, inner whitespace stays, none is left at the ends, and trimming again changes nothing |
| SeedBlocklist.BlankLineFails | seed_blocked_python_modules.js:14-17 | a document is invalid iff its line is entirely whitespace |
| SeedBlocklist.ImportBlocklist | seed_blocked_python_modules.js:30-48 | one document per line in file order; the first invalid line stops the import, and earlier documents stay saved |
| SeedBlocklist.BlockSet | seed_blocked_python_modules.js:34-37 | the block list holds exactly the stored `usename`s |
| SeedBlocklist.BlockedNamesAreTrimmed | seed_blocked_python_modules.js:33 | every name on the block list is its own trim, so an import name with surrounding whitespace is never blocked |
| SeedBlocklist.OsLine | seed_blocked_python_modules.js:31-37 | the line `os` puts exactly `os` on the block list |
| SeedBlocklist.BlockedOsIsFiltered | seed_blocked_python_modules.js:31-37 | a block-list file with the line `os` makes the filter turn `{"file1": [os, numpy]}` into `{"file1": [numpy]}` |
| Text.Split | index.js:347 | `split` always gives at least one piece, and a single piece iff the separator does not occur |
| Text.SplitPiecesLackSeparator | index.js:347 | no piece of a split contains the separator |
| Text.FirstTwoPiecesOnChar | index.js:347 | a split on one character has a second piece iff the character occurs, and is the whole text otherwise; first piece, character and second piece form a prefix that ends at the text's end or at the next occurrence |
| Text.SplitJoin | seed-db.js:30 | joining a split's pieces with the separator gives back the input |
| Text.TrimIsSlice | seed_blocked_python_modules.js:33 | `trim` keeps a contiguous slice and removes only JavaScript whitespace, leaving none at either end |
| Text.TrimIdempotent | seed_blocked_python_modules.js:33 | trimming twice equals trimming once |

## Left out

- HTTP plumbing: Express routing, CORS, body parsing and response writing. The handlers are modelled by the values they compute. `Submission.Outcome` names the silent no-response paths of `/addThanks`.
- Mongoose: connections and schemas. `findOne` on the directory is a map lookup by `usename`, so duplicate `usename` documents are not modelled. Of validation, only the required string fields are modelled: `save` fails on an undefined or empty value.
- Submission.Savable: the `required` check on the Thanks document's array fields (`modules`, `contributors`) is not modelled, because it depends on the Mongoose version's treatment of empty arrays.
- Mongoose errors during a directory save in `/addThanks`: they are not modelled.
- Timestamps and their defaults are not modelled.
- The block-list lookup is `name in blocked`: Mongoose dropping an `undefined` `packageName` from the query filter is not modelled, because import entries here always carry a string.
- The network: the npm fetch, the code search and the commits API are oracles. `None` stands for a thrown request, a missing field or no hit. `per_page` limits are request parameters, and the API, not the backend, enforces them.
- The spawned script: stdout accumulation and `JSON.parse` are not modelled. The resolver oracle returns the `githubURL` field. Output that is not JSON, which makes the close handler throw, is not modelled.
- `json.dumps`: the script's single-key output object is modelled by its `githubURL` value.
- The `PyPIJSON` client: it is an oracle. Any exception before the passes becomes `None` metadata.
- PypiSource.PassMatches: a `project_urls` value that is not a string (such as `None`) is not modelled. There, the third pass raises `TypeError` and the script prints the sentinel. Values are strings here.
- Text.Lower: lower-cases ASCII only, whereas Python's `str.lower` covers all of Unicode. For the words `source` and `repository` the two agree on every key. The only non-ASCII characters that lower to ASCII letters are KELVIN SIGN (to `k`) and LATIN CAPITAL LETTER I WITH DOT ABOVE (to `i` plus a combining dot), and neither can complete those words.
- `Promise.all` concurrency in `getAllFiles`: it is modelled as an order-preserving sequential map.
- Submission.Submit: an undefined `repo` (a URL with nothing after the owner) is passed to the search query as the text `undefined`, as string concatenation does. The model passes the same text to the commits request, whose URL-template expansion of `undefined` is not modelled.
- ImportFilter.FilterPythonImports: group keys that name inherited `Object.prototype` properties (such as `constructor`) are not modelled. For such keys `allowedPackages[key]` is truthy before the first push, and `push` throws.
- getContributors.js: it is a standalone driver script whose logic repeats `getContributors` in index.js.
- `/addEditUrlThanks`, `/addUser`, `/updateUser` and `/getThanks`: they are plain create/read/update calls with no logic.
- The private-key and dotenv loading: it is configuration.
- The seed scripts' `readline` splitting of the file into lines: the input is the sequence of lines. The collection is the sequence of documents that the import inserted.
