/** The directory seeder (seed-db.js): every line `usename:installname` of the
    mapping file becomes one PythonPackage document, in file order, until a
    document fails validation. The file is the sequence of its lines; the
    collection is the sequence of documents inserted. */
module SeedMapping {
  import opened Wrappers
  import opened Text
  import opened Resolver

  /** The two fields `const [usename, installname] = line.split(":")` binds;
      `installname` is `None` (`undefined`) when the line has no `:`. */
  datatype MappingFields = MappingFields(usename: string, installname: Option<string>)

  /** `line.split(":")` destructured into its first two pieces. */
  function ParseMappingLine(line: string): (f: MappingFields)
    ensures ':' !in f.usename
    ensures f.installname.None? <==> ':' !in line
    ensures f.installname.Some? ==> ':' !in f.installname.value
  {
    var parts := Split(line, ":");
    FirstTwoPiecesOnChar(line, ':');
    SplitPiecesLackSeparator(line, ":");
    ContainsChar(parts[0], ':');
    if |parts| > 1 then
      ContainsChar(parts[1], ':');
      MappingFields(parts[0], Some(parts[1]))
    else MappingFields(parts[0], None)
  }

  /** `usename` is the text before the first `:`, or all of the line when there is
      none; nothing is trimmed. */
  lemma UsenameField(line: string)
    ensures var u := ParseMappingLine(line).usename;
      ':' !in u && StartsWith(line, u) && (|u| == |line| || line[|u|] == ':')
  {
    SplitOnChar(line, ':');
    var u := ParseMappingLine(line).usename;
    assert line[..|u|] == u;
  }

  /** `installname` is undefined exactly when the line has no `:`; otherwise it is
      the text between the first and the second `:` (or the end of the line), so
      later fields are dropped. */
  lemma InstallnameField(line: string)
    ensures ParseMappingLine(line).installname.None? <==> ':' !in line
    ensures var f := ParseMappingLine(line);
      f.installname.Some? ==>
        var n := |f.usename| + 1 + |f.installname.value|;
        ':' !in f.installname.value && StartsWith(line, f.usename + ":" + f.installname.value) &&
        (n == |line| || line[n] == ':')
  {
    FirstTwoPiecesOnChar(line, ':');
    SplitPiecesLackSeparator(line, ":");
    var parts := Split(line, ":");
    if |parts| > 1 {
      ContainsChar(parts[1], ':');
    }
  }

  /** A colon-free name and install name joined by `:` parse back to themselves. */
  lemma MappingRoundTrip(usename: string, installname: string)
    requires ':' !in usename && ':' !in installname
    ensures ParseMappingLine(usename + ":" + installname) == MappingFields(usename, Some(installname))
  {
    SplitAtChar(usename, ':', installname);
    SplitWithoutChar(installname, ':');
    assert usename + ":" + installname == usename + [':'] + installname;
  }

  /** The line `requests:requests2` gives the entry with `usename` `requests` and
      `installname` `requests2`, and no URL. */
  lemma RequestsLine()
    ensures Savable(ParseMappingLine("requests:requests2"))
    ensures EntryOf(ParseMappingLine("requests:requests2")) == PackageEntry("requests2", "requests", None)
  {
    var u, i := "requests", "requests2";
    assert ':' !in u && ':' !in i;
    MappingRoundTrip(u, i);
    assert u + ":" + i == "requests:requests2";
  }

  /** A line with exactly one `:` is its two fields joined by `:`. */
  lemma SingleColonLine(line: string, k: nat)
    requires k < |line| && line[k] == ':'
    requires forall j :: 0 <= j < |line| && line[j] == ':' ==> j == k
    ensures var f := ParseMappingLine(line);
      f.installname.Some? && f.usename + ":" + f.installname.value == line
  {
    var u := line[..k];
    var i := line[k + 1..];
    assert line == u + ":" + i;
    assert ':' !in u by {
      forall j | 0 <= j < |u| ensures u[j] != ':' { assert u[j] == line[j]; }
    }
    assert ':' !in i by {
      forall j | 0 <= j < |i| ensures i[j] != ':' { assert i[j] == line[k + 1 + j]; }
    }
    MappingRoundTrip(u, i);
  }

  /** Both fields are required strings: neither may be undefined or empty. */
  predicate Savable(f: MappingFields) {
    f.usename != "" && f.installname.Some? && f.installname.value != ""
  }

  /** A line without `:` always stops the import. */
  lemma LineWithoutColonFails(line: string)
    requires ':' !in line
    ensures !Savable(ParseMappingLine(line))
  {
    InstallnameField(line);
  }

  /** The document saved for a valid line; `github` is never set. */
  function EntryOf(f: MappingFields): (e: PackageEntry)
    requires Savable(f)
    ensures e.usename == f.usename && e.installname == f.installname.value && e.github.None?
  {
    PackageEntry(f.installname.value, f.usename, None)
  }

  /** `importData`: the documents inserted, one per line in file order, and the
      index of the line whose save failed, if any; lines before it stay saved and
      no later line is read. */
  method ImportMapping(lines: seq<string>) returns (saved: seq<PackageEntry>, failedAt: Option<nat>)
    ensures failedAt.None? ==> |saved| == |lines|
    ensures failedAt.Some? ==>
      failedAt.value < |lines| && |saved| == failedAt.value && !Savable(ParseMappingLine(lines[failedAt.value]))
    ensures forall i :: 0 <= i < |saved| ==>
      Savable(ParseMappingLine(lines[i])) && saved[i] == EntryOf(ParseMappingLine(lines[i]))
  {
    saved := [];
    var i := 0;
    while i < |lines|
      invariant 0 <= i <= |lines| && |saved| == i
      invariant forall j :: 0 <= j < i ==>
        Savable(ParseMappingLine(lines[j])) && saved[j] == EntryOf(ParseMappingLine(lines[j]))
    {
      var fields := ParseMappingLine(lines[i]);
      if !Savable(fields) {
        return saved, Some(i);
      }
      saved := saved + [EntryOf(fields)];
      i := i + 1;
    }
    failedAt := None;
  }
}
