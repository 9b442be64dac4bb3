/** The module locator (index.js `getFile`, `getAllFiles`): one candidate file path
    per module name, found with a code-search query. The search API is an oracle
    giving the path of the first hit, or `None` when the search fails or finds
    nothing (both end in `getFile`'s catch block and return `undefined`). */
module ModuleLocator {
  import opened Wrappers
  import opened Text

  /** The fixed middle part of every code-search query. */
  const QueryQualifier: string := " in:file language:python repo:"

  /** What `getFile` does for one module name: nothing (empty name) or a search. */
  datatype FileLookup = WholeRepository | CodeSearch(query: string)

  /** An empty module name is never searched for; any other name gives the query
      `<name> in:file language:python repo:<owner>/<repo>`, read here as: it starts
      with the name and the qualifier, ends with `owner/repo`, and has nothing else. */
  function LookupFor(owner: string, repo: string, element: string): (l: FileLookup)
    ensures l.WholeRepository? <==> element == ""
    ensures l.CodeSearch? ==> StartsWith(l.query, element + QueryQualifier)
    ensures l.CodeSearch? ==> EndsWith(l.query, owner + "/" + repo)
    ensures l.CodeSearch? ==> |l.query| == |element + QueryQualifier| + |owner + "/" + repo|
  {
    if element == "" then WholeRepository
    else
      var q := element + QueryQualifier + owner + "/" + repo;
      assert q == (element + QueryQualifier) + (owner + "/" + repo);
      CodeSearch(q)
  }

  /** `getFile`: `""` for an empty module name, otherwise the search oracle's answer
      for the query (`None` is `undefined`). */
  function GetFile(owner: string, repo: string, element: string, search: string -> Option<string>): (path: Option<string>)
    ensures element == "" ==> path == Some("")
    ensures element != "" ==> path == search(LookupFor(owner, repo, element).query)
  {
    match LookupFor(owner, repo, element)
    case WholeRepository => Some("")
    case CodeSearch(q) => search(q)
  }

  /** `getAllFiles`: the `Promise.all` over `modules.map(getFile)`, taken in order.
      The result is aligned with `modules` index for index. */
  function GetAllFiles(owner: string, repo: string, modules: seq<string>, search: string -> Option<string>)
    : (paths: seq<Option<string>>)
    ensures |paths| == |modules|
    ensures forall i :: 0 <= i < |modules| ==> paths[i] == GetFile(owner, repo, modules[i], search)
  {
    if modules == [] then []
    else [GetFile(owner, repo, modules[0], search)] + GetAllFiles(owner, repo, modules[1..], search)
  }
}
