/** The `/filterPythonImports` route (index.js): drop every import whose
    `packageName` is on the block list, group by group. The block list is the set
    of `usename`s of the BlockedPythonPackage collection; the request's `imports`
    object is the sequence of its entries in `Object.entries` order. */
module ImportFilter {

  /** One import of a group; `details` stands for the entry's other fields, which
      are passed through untouched. */
  datatype ImportEntry = ImportEntry(packageName: string, details: string)

  /** The entries of `group` that are not blocked, in their original order. */
  function Kept(group: seq<ImportEntry>, blocked: set<string>): seq<ImportEntry> {
    if group == [] then []
    else
      var init := group[..|group| - 1];
      var last := group[|group| - 1];
      Kept(init, blocked) + (if last.packageName in blocked then [] else [last])
  }

  /** The kept entries are exactly the unblocked ones, in order: they are the entries
      at the strictly increasing indices `idx`, and `idx` holds every index whose
      entry is not blocked and no other. */
  lemma {:induction false} KeptIsUnblockedSubsequence(group: seq<ImportEntry>, blocked: set<string>)
    returns (idx: seq<nat>)
    ensures |idx| == |Kept(group, blocked)|
    ensures forall i :: 0 <= i < |idx| ==> idx[i] < |group| && Kept(group, blocked)[i] == group[idx[i]]
    ensures forall i, j :: 0 <= i < j < |idx| ==> idx[i] < idx[j]
    ensures forall j :: 0 <= j < |group| ==> (j in idx <==> group[j].packageName !in blocked)
  {
    if group == [] {
      idx := [];
    } else {
      var n := |group| - 1;
      var init := group[..n];
      var before := KeptIsUnblockedSubsequence(init, blocked);
      idx := before + (if group[n].packageName in blocked then [] else [n]);
      forall j | 0 <= j < n ensures group[j] == init[j] { }
    }
  }

  /** `allowedPackages` after the inner loop over one group: the key is created on
      the first push only, so a group that keeps nothing adds no key. */
  function AddGroup(allowed: map<string, seq<ImportEntry>>, key: string, kept: seq<ImportEntry>)
    : map<string, seq<ImportEntry>>
  {
    if kept == [] then allowed
    else allowed[key := (if key in allowed then allowed[key] else []) + kept]
  }

  /** One push into the group's list, as the inner loop does it. */
  lemma AddGroupPush(allowed: map<string, seq<ImportEntry>>, key: string, kept: seq<ImportEntry>, e: ImportEntry)
    ensures var a := AddGroup(allowed, key, kept);
      AddGroup(allowed, key, kept + [e]) == a[key := (if key in a then a[key] else []) + [e]]
  {
    var base := if key in allowed then allowed[key] else [];
    if kept == [] {
      assert kept + [e] == [e];
    } else {
      assert base + (kept + [e]) == (base + kept) + [e];
    }
  }

  /** `allowedPackages` after the outer loop over `imports`. */
  function FilterImports(imports: seq<(string, seq<ImportEntry>)>, blocked: set<string>)
    : (allowed: map<string, seq<ImportEntry>>)
    ensures forall k :: k in allowed ==> allowed[k] != []
  {
    if imports == [] then map[]
    else
      var init := imports[..|imports| - 1];
      var last := imports[|imports| - 1];
      AddGroup(FilterImports(init, blocked), last.0, Kept(last.1, blocked))
  }

  /** The entries of a JavaScript object have distinct keys. */
  predicate DistinctKeys(imports: seq<(string, seq<ImportEntry>)>) {
    forall i, j :: 0 <= i < j < |imports| ==> imports[i].0 != imports[j].0
  }

  /** Some group with key `k` keeps an entry. */
  predicate KeyKept(imports: seq<(string, seq<ImportEntry>)>, blocked: set<string>, k: string) {
    exists i :: 0 <= i < |imports| && imports[i].0 == k && Kept(imports[i].1, blocked) != []
  }

  /** Whether some group with key `k` keeps an entry, split at the last group. */
  lemma KeyKeptSnoc(imports: seq<(string, seq<ImportEntry>)>, blocked: set<string>, k: string)
    requires imports != []
    ensures var n := |imports| - 1;
      KeyKept(imports, blocked, k) <==>
        KeyKept(imports[..n], blocked, k) || (imports[n].0 == k && Kept(imports[n].1, blocked) != [])
  {
    var n := |imports| - 1;
    var init := imports[..n];
    if KeyKept(imports, blocked, k) {
      var i :| 0 <= i < |imports| && imports[i].0 == k && Kept(imports[i].1, blocked) != [];
      if i < n {
        assert init[i] == imports[i];
      }
    }
    if KeyKept(init, blocked, k) {
      var i :| 0 <= i < n && init[i].0 == k && Kept(init[i].1, blocked) != [];
      assert imports[i] == init[i];
    }
  }

  /** The output at one key: present exactly when its group keeps something, and
      then holding that group's unblocked entries. */
  lemma {:induction false} FilterImportsAt(imports: seq<(string, seq<ImportEntry>)>, blocked: set<string>, k: string)
    requires DistinctKeys(imports)
    ensures k in FilterImports(imports, blocked) <==> KeyKept(imports, blocked, k)
    ensures forall i :: 0 <= i < |imports| && imports[i].0 == k && Kept(imports[i].1, blocked) != [] ==>
      FilterImports(imports, blocked)[k] == Kept(imports[i].1, blocked)
  {
    if imports != [] {
      var n := |imports| - 1;
      var init := imports[..n];
      var last := imports[n];
      assert DistinctKeys(init);
      FilterImportsAt(init, blocked, k);
      KeyKeptSnoc(imports, blocked, k);
      var m := FilterImports(init, blocked);
      assert FilterImports(imports, blocked) == AddGroup(m, last.0, Kept(last.1, blocked));
      if last.0 == k {
        assert k !in m by {
          forall i | 0 <= i < n ensures init[i].0 != k {
            assert init[i] == imports[i];
          }
        }
        forall i | 0 <= i < |imports| && imports[i].0 == k && Kept(imports[i].1, blocked) != []
          ensures i == n
        {
        }
      } else {
        forall i | 0 <= i < |imports| && imports[i].0 == k && Kept(imports[i].1, blocked) != []
          ensures FilterImports(imports, blocked)[k] == Kept(imports[i].1, blocked)
        {
          assert i < n && init[i] == imports[i];
        }
      }
    }
  }

  /** For an object's entries: a key is in the output exactly when its group keeps
      something (all-blocked and empty groups vanish), and then it maps to the
      group's unblocked entries. */
  lemma FilterImportsByKey(imports: seq<(string, seq<ImportEntry>)>, blocked: set<string>)
    requires DistinctKeys(imports)
    ensures forall k :: k in FilterImports(imports, blocked) <==> KeyKept(imports, blocked, k)
    ensures forall i :: 0 <= i < |imports| && Kept(imports[i].1, blocked) != [] ==>
      imports[i].0 in FilterImports(imports, blocked) &&
      FilterImports(imports, blocked)[imports[i].0] == Kept(imports[i].1, blocked)
  {
    forall k ensures k in FilterImports(imports, blocked) <==> KeyKept(imports, blocked, k) {
      FilterImportsAt(imports, blocked, k);
    }
    forall i | 0 <= i < |imports| && Kept(imports[i].1, blocked) != []
      ensures imports[i].0 in FilterImports(imports, blocked) &&
        FilterImports(imports, blocked)[imports[i].0] == Kept(imports[i].1, blocked)
    {
      FilterImportsAt(imports, blocked, imports[i].0);
    }
  }

  /** The handler's nested loops, pushing the unblocked entries of each group into
      `allowedPackages`. */
  method FilterPythonImports(imports: seq<(string, seq<ImportEntry>)>, blocked: set<string>)
    returns (allowed: map<string, seq<ImportEntry>>)
    ensures allowed == FilterImports(imports, blocked)
  {
    allowed := map[];
    var g := 0;
    while g < |imports|
      invariant 0 <= g <= |imports|
      invariant allowed == FilterImports(imports[..g], blocked)
    {
      var (key, value) := imports[g];
      ghost var before := allowed;
      var i := 0;
      while i < |value|
        invariant 0 <= i <= |value|
        invariant allowed == AddGroup(before, key, Kept(value[..i], blocked))
      {
        assert value[..i + 1][..i] == value[..i];
        assert Kept(value[..i + 1], blocked) ==
          Kept(value[..i], blocked) + (if value[i].packageName in blocked then [] else [value[i]]);
        if value[i].packageName !in blocked {
          ghost var prev := allowed;
          if key in allowed {
            allowed := allowed[key := allowed[key] + [value[i]]];
          } else {
            assert [] + [value[i]] == [value[i]];
            allowed := allowed[key := [value[i]]];
          }
          assert allowed == prev[key := (if key in prev then prev[key] else []) + [value[i]]];
          AddGroupPush(before, key, Kept(value[..i], blocked), value[i]);
        } else {
          assert Kept(value[..i + 1], blocked) == Kept(value[..i], blocked);
        }
        assert allowed == AddGroup(before, key, Kept(value[..i + 1], blocked));
        i := i + 1;
      }
      assert value[..i] == value;
      assert imports[..g + 1][..g] == imports[..g];
      g := g + 1;
    }
    assert imports[..g] == imports;
  }

  /** With `os` blocked, the group `[os, numpy]` keeps only `numpy`. */
  lemma OsNumpyGroup(d1: string, d2: string)
    ensures var os := ImportEntry("os", d1);
      var numpy := ImportEntry("numpy", d2);
      FilterImports([("file1", [os, numpy])], {"os"}) == map["file1" := [numpy]]
  {
    var os := ImportEntry("os", d1);
    var numpy := ImportEntry("numpy", d2);
    var group := [os, numpy];
    assert group[..1] == [os];
    assert [os][..0] == [];
    assert Kept([os], {"os"}) == [];
    assert "numpy" !in {"os"} by { assert "numpy"[0] != "os"[0]; }
    assert Kept(group, {"os"}) == [numpy];
    var imports := [("file1", group)];
    assert imports[..0] == [];
  }
}
