/** The block-list seeder (seed_blocked_python_modules.js): every line of the
    block-list file, trimmed, becomes one BlockedPythonPackage document whose
    `usename` and `installname` are both the trimmed line, in file order, until
    a document fails validation. */
module SeedBlocklist {
  import opened Wrappers
  import opened Text
  import ImportFilter

  /** A document of the BlockedPythonPackage collection. */
  datatype BlockedEntry = BlockedEntry(usename: string, installname: string)

  /** The document built for one line. */
  function BlockedRecord(line: string): (e: BlockedEntry)
    ensures e.installname == e.usename
  {
    var usename := Trim(line);
    BlockedEntry(usename, usename)
  }

  /** The stored name is a contiguous slice of the line: only whitespace is cut
      from either end, inner whitespace stays, none is left at the ends, and
      trimming the name again changes nothing. */
  lemma BlockedNameIsTrimmed(line: string) returns (i: nat, j: nat)
    ensures i <= j <= |line| && BlockedRecord(line).usename == line[i..j]
    ensures forall k :: 0 <= k < i ==> IsJsWhitespace(line[k])
    ensures forall k :: j <= k < |line| ==> IsJsWhitespace(line[k])
    ensures var u := BlockedRecord(line).usename;
      u == [] || (!IsJsWhitespace(u[0]) && !IsJsWhitespace(u[|u| - 1]))
    ensures Trim(BlockedRecord(line).usename) == BlockedRecord(line).usename
  {
    assert BlockedRecord(line).usename == Trim(line);
    i, j := TrimIsSlice(line);
    TrimIdempotent(line);
  }

  /** Both fields are required strings; they are equal, so the document is valid
      exactly when the trimmed line is not empty. */
  predicate Savable(e: BlockedEntry) {
    e.usename != "" && e.installname != ""
  }

  /** A line made only of whitespace (or nothing) stops the import; any other line
      gives a valid document. */
  lemma BlankLineFails(line: string)
    ensures !Savable(BlockedRecord(line)) <==> forall k :: 0 <= k < |line| ==> IsJsWhitespace(line[k])
  {
    var i, j := TrimIsSlice(line);
    if !Savable(BlockedRecord(line)) {
      assert i == j;
      forall k | 0 <= k < |line| ensures IsJsWhitespace(line[k]) {
        if k < i {
        } else {
          assert j <= k;
        }
      }
    } else {
      assert !IsJsWhitespace(line[i]);
    }
  }

  /** `importData`: the documents inserted, one per line in file order, and the
      index of the line whose save failed, if any; lines before it stay saved and
      no later line is read. */
  method ImportBlocklist(lines: seq<string>) returns (saved: seq<BlockedEntry>, failedAt: Option<nat>)
    ensures failedAt.None? ==> |saved| == |lines|
    ensures failedAt.Some? ==>
      failedAt.value < |lines| && |saved| == failedAt.value && !Savable(BlockedRecord(lines[failedAt.value]))
    ensures forall i :: 0 <= i < |saved| ==> saved[i] == BlockedRecord(lines[i])
    ensures forall i :: 0 <= i < |saved| ==> Savable(saved[i])
  {
    saved := [];
    var i := 0;
    while i < |lines|
      invariant 0 <= i <= |lines| && |saved| == i
      invariant forall j :: 0 <= j < i ==> saved[j] == BlockedRecord(lines[j])
      invariant forall j :: 0 <= j < i ==> Savable(saved[j])
    {
      var blocked := BlockedRecord(lines[i]);
      if !Savable(blocked) {
        return saved, Some(i);
      }
      saved := saved + [blocked];
      i := i + 1;
    }
    failedAt := None;
  }

  /** The block list `/filterPythonImports` reads: the `usename`s of the documents. */
  function BlockSet(saved: seq<BlockedEntry>): (blocked: set<string>)
    ensures forall i :: 0 <= i < |saved| ==> saved[i].usename in blocked
    ensures forall name :: name in blocked ==> exists i :: 0 <= i < |saved| && saved[i].usename == name
  {
    set i | 0 <= i < |saved| :: saved[i].usename
  }

  /** A name read from the file blocks exactly its trimmed form: an import whose
      `packageName` carries surrounding whitespace is not caught by that line. */
  lemma BlockedNamesAreTrimmed(saved: seq<BlockedEntry>, lines: seq<string>, name: string)
    requires |saved| <= |lines|
    requires forall i :: 0 <= i < |saved| ==> saved[i] == BlockedRecord(lines[i])
    requires name in BlockSet(saved)
    ensures Trim(name) == name
  {
    var i :| 0 <= i < |saved| && saved[i].usename == name;
    TrimIdempotent(lines[i]);
  }

  /** The line `os` is stored as the name `os`. */
  lemma OsLine()
    ensures BlockSet([BlockedRecord("os")]) == {"os"}
  {
    var saved := [BlockedRecord("os")];
    assert TrimStart("os") == "os";
    assert TrimEnd("os") == "os";
    assert saved[0].usename == "os";
    forall x ensures x in BlockSet(saved) <==> x == "os" {
      if x in BlockSet(saved) {
        var i :| 0 <= i < |saved| && saved[i].usename == x;
      }
    }
  }

  /** A block-list file with the line `os` makes the filter drop `os` and keep
      `numpy` in a group that has both. */
  lemma BlockedOsIsFiltered(d1: string, d2: string)
    ensures var os := ImportFilter.ImportEntry("os", d1);
      var numpy := ImportFilter.ImportEntry("numpy", d2);
      ImportFilter.FilterImports([("file1", [os, numpy])], BlockSet([BlockedRecord("os")])) == map["file1" := [numpy]]
  {
    OsLine();
    ImportFilter.OsNumpyGroup(d1, d2);
  }
}
