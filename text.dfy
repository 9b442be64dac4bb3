/** The string operations the service relies on, with JavaScript's (and, where
    noted, Python's) meaning: `indexOf`, `includes`, `startsWith`, `endsWith`,
    `split`, `trim` and ASCII lower-casing. */
module Text {
  import opened Wrappers

  /** `sub` occurs in `s` at index `i`. */
  predicate OccursAt(s: string, sub: string, i: nat) {
    i + |sub| <= |s| && s[i..i + |sub|] == sub
  }

  /** `s.indexOf(sub, from)`: the least index at or after `from` where `sub` occurs. */
  function IndexOfFrom(s: string, sub: string, from: nat): (r: Option<nat>)
    ensures r.Some? ==> from <= r.value && OccursAt(s, sub, r.value)
    ensures r.Some? ==> forall j :: from <= j < r.value ==> !OccursAt(s, sub, j)
    ensures r.None? ==> forall j :: from <= j ==> !OccursAt(s, sub, j)
    decreases |s| - from
  {
    if |s| < from + |sub| then None
    else if s[from..from + |sub|] == sub then Some(from)
    else IndexOfFrom(s, sub, from + 1)
  }

  /** `s.indexOf(sub)`, with `None` for JavaScript's -1. */
  function IndexOf(s: string, sub: string): Option<nat> {
    IndexOfFrom(s, sub, 0)
  }

  /** JavaScript's `s.includes(sub)`, Python's `sub in s`. */
  predicate Contains(s: string, sub: string) {
    IndexOf(s, sub).Some?
  }

  predicate StartsWith(s: string, prefix: string) {
    |prefix| <= |s| && s[..|prefix|] == prefix
  }

  predicate EndsWith(s: string, suffix: string) {
    |suffix| <= |s| && s[|s| - |suffix|..] == suffix
  }

  /** An occurrence inside a prefix of `s` is an occurrence in `s`. */
  lemma OccursInPrefix(s: string, sub: string, n: nat)
    requires n <= |s|
    ensures forall j: nat :: OccursAt(s[..n], sub, j) ==> OccursAt(s, sub, j)
  {
    forall j: nat | OccursAt(s[..n], sub, j) ensures OccursAt(s, sub, j) {
      assert s[..n][j..j + |sub|] == s[j..j + |sub|];
    }
  }

  /** A one-character separator occurs exactly where that character stands. */
  lemma OccursAtChar(s: string, c: char, j: nat)
    ensures OccursAt(s, [c], j) <==> j < |s| && s[j] == c
  {
    if j < |s| {
      assert s[j..j + 1] == [s[j]];
    }
  }

  /** `s.split(sep)` for a non-empty separator: the pieces between successive
      left-to-right occurrences of `sep`. */
  function Split(s: string, sep: string): (parts: seq<string>)
    requires sep != ""
    ensures |parts| >= 1
    ensures |parts| == 1 <==> !Contains(s, sep)
    decreases |s|
  {
    match IndexOf(s, sep)
    case None => [s]
    case Some(i) => [s[..i]] + Split(s[i + |sep|..], sep)
  }

  /** No piece of a split contains the separator. */
  lemma {:induction false} SplitPiecesLackSeparator(s: string, sep: string)
    requires sep != ""
    ensures forall k :: 0 <= k < |Split(s, sep)| ==> !Contains(Split(s, sep)[k], sep)
    decreases |s|
  {
    if IndexOf(s, sep).Some? {
      var i := IndexOf(s, sep).value;
      var rest := s[i + |sep|..];
      SplitAtFirst(s, sep);
      SplitPiecesLackSeparator(rest, sep);
      OccursInPrefix(s, sep, i);
      assert !Contains(s[..i], sep);
    }
  }

  /** `parts.join(sep)`. */
  function Join(parts: seq<string>, sep: string): string
    requires |parts| >= 1
  {
    if |parts| == 1 then parts[0] else parts[0] + sep + Join(parts[1..], sep)
  }

  /** Splitting loses nothing: joining the pieces with the separator gives the input back. */
  lemma {:induction false} SplitJoin(s: string, sep: string)
    requires sep != ""
    ensures Join(Split(s, sep), sep) == s
    decreases |s|
  {
    if IndexOf(s, sep).Some? {
      var i := IndexOf(s, sep).value;
      var rest := s[i + |sep|..];
      SplitAtFirst(s, sep);
      SplitJoin(rest, sep);
      assert Join(Split(s, sep), sep) == s[..i] + sep + Join(Split(rest, sep), sep);
    }
  }

  /** The first piece of a split is a prefix of the input that runs to the first
      occurrence of the separator, or to the end when there is none. */
  lemma SplitHeadIsPrefix(s: string, sep: string)
    requires sep != ""
    ensures StartsWith(s, Split(s, sep)[0])
    ensures |Split(s, sep)[0]| == |s| || OccursAt(s, sep, |Split(s, sep)[0]|)
  {
    match IndexOf(s, sep)
    case None =>
    case Some(i) =>
  }

  /** Splitting at the first occurrence of the separator. */
  lemma SplitAtFirst(s: string, sep: string)
    requires sep != "" && IndexOf(s, sep).Some?
    ensures var i := IndexOf(s, sep).value;
      && s == s[..i] + sep + s[i + |sep|..]
      && Split(s, sep) == [s[..i]] + Split(s[i + |sep|..], sep)
  {
    var i := IndexOf(s, sep).value;
    assert s[i..i + |sep|] == sep;
  }

  /** A string that begins with the separator and has no further occurrence of it
      splits into an empty piece and the rest. */
  lemma SplitAtLeadingSeparator(sep: string, rest: string)
    requires sep != "" && !Contains(rest, sep)
    ensures Split(sep + rest, sep) == ["", rest]
  {
    var s := sep + rest;
    assert OccursAt(s, sep, 0) by { assert s[..|sep|] == sep; }
    assert IndexOf(s, sep) == Some(0);
    SplitAtFirst(s, sep);
    assert s[|sep|..] == rest;
  }

  /** With a one-character separator, a string made of a separator-free piece,
      the separator and a tail splits into that piece followed by the tail's pieces. */
  lemma SplitAtChar(a: string, c: char, b: string)
    requires c !in a
    ensures Split(a + [c] + b, [c]) == [a] + Split(b, [c])
  {
    var s := a + [c] + b;
    OccursAtChar(s, c, |a|);
    forall j: nat | j < |a| ensures !OccursAt(s, [c], j) {
      OccursAtChar(s, c, j);
      assert s[j] == a[j];
    }
    assert IndexOf(s, [c]) == Some(|a|);
    assert s[..|a|] == a;
    assert s[|a| + 1..] == b;
  }

  /** A string without the separator character is a single piece. */
  lemma SplitWithoutChar(a: string, c: char)
    requires c !in a
    ensures Split(a, [c]) == [a]
  {
    forall j: nat ensures !OccursAt(a, [c], j) {
      OccursAtChar(a, c, j);
    }
    assert IndexOf(a, [c]).None?;
  }

  /** A one-character string occurs in `s` exactly when its character does. */
  lemma ContainsChar(s: string, c: char)
    ensures Contains(s, [c]) <==> c in s
  {
    if c in s {
      var j :| 0 <= j < |s| && s[j] == c;
      OccursAtChar(s, c, j);
    }
    if Contains(s, [c]) {
      OccursAtChar(s, c, IndexOf(s, [c]).value);
    }
  }

  /** Splitting on a character: the first piece is free of it and, when the
      character occurs, is followed in `s` by it and by the text the other pieces
      come from. */
  lemma SplitOnChar(s: string, c: char)
    ensures c !in Split(s, [c])[0]
    ensures c !in s ==> Split(s, [c]) == [s]
    ensures c in s ==>
      var h := Split(s, [c])[0];
      |h| < |s| && s[|h|] == c && s == h + [c] + s[|h| + 1..] &&
      Split(s, [c]) == [h] + Split(s[|h| + 1..], [c])
  {
    if c in s {
      ContainsChar(s, c);
      var i := IndexOf(s, [c]).value;
      SplitAtFirst(s, [c]);
      OccursAtChar(s, c, i);
      forall j | 0 <= j < i ensures s[j] != c {
        OccursAtChar(s, c, j);
      }
      assert Split(s, [c])[0] == s[..i];
    } else {
      SplitWithoutChar(s, c);
    }
  }

  /** The first piece of a split on a character: free of it, a prefix of `s`, and
      followed in `s` by the character unless it is all of `s`. */
  lemma SplitHeadOnChar(s: string, c: char)
    ensures c !in Split(s, [c])[0] && StartsWith(s, Split(s, [c])[0])
    ensures c in s ==> |Split(s, [c])[0]| < |s| && s[|Split(s, [c])[0]|] == c
    ensures c !in s ==> Split(s, [c])[0] == s
  {
    SplitOnChar(s, c);
    var h := Split(s, [c])[0];
    assert s[..|h|] == h;
  }

  /** When `s` is a piece without `c`, then `c`, then `rest`: that piece, `c` and
      the first piece of `rest` form a prefix of `s` that runs to the next `c` or
      to the end. */
  lemma SecondPieceOnChar(s: string, h: string, c: char, rest: string)
    requires s == h + [c] + rest && c !in h
    ensures var h2 := Split(rest, [c])[0];
      var n := |h| + 1 + |h2|;
      c !in h2 && StartsWith(s, h + [c] + h2) && (n == |s| || s[n] == c)
  {
    SplitHeadOnChar(rest, c);
    var h2 := Split(rest, [c])[0];
    var n := |h| + 1 + |h2|;
    assert s[|h| + 1..] == rest;
    assert s[..n] == h + [c] + h2 by {
      assert s[..n] == h + [c] + rest[..|h2|];
    }
    if c in rest {
      assert s[n] == rest[|h2|];
    }
  }

  /** The first two pieces of a split on a character: there is a second piece
      exactly when the character occurs; the first piece, followed by the
      character and the second piece when there is one, is a prefix of `s` that
      runs to the next occurrence of the character or to the end. */
  lemma FirstTwoPiecesOnChar(s: string, c: char)
    ensures |Split(s, [c])| > 1 <==> c in s
    ensures |Split(s, [c])| == 1 ==> Split(s, [c])[0] == s
    ensures var parts := Split(s, [c]);
      |parts| > 1 ==>
        var t := parts[0] + [c] + parts[1];
        StartsWith(s, t) && (|t| == |s| || s[|t|] == c)
  {
    SplitOnChar(s, c);
    var parts := Split(s, [c]);
    var h := parts[0];
    if c in s {
      var rest := s[|h| + 1..];
      SecondPieceOnChar(s, h, c, rest);
      assert parts == [h] + Split(rest, [c]);
    }
  }

  /** The characters JavaScript's `trim` removes: WhiteSpace and LineTerminator. */
  predicate IsJsWhitespace(c: char) {
    c == '\t' || c == '\n' || c == '\U{000B}' || c == '\U{000C}' || c == '\r' || c == ' '
    || c == '\U{00A0}' || c == '\U{1680}' || ('\U{2000}' <= c <= '\U{200A}')
    || c == '\U{2028}' || c == '\U{2029}' || c == '\U{202F}' || c == '\U{205F}'
    || c == '\U{3000}' || c == '\U{FEFF}'
  }

  /** `s.trimStart()`: a suffix of `s`; what it drops is whitespace and what it keeps
      does not start with whitespace. */
  function TrimStart(s: string): (r: string)
    ensures |r| <= |s| && r == s[|s| - |r|..]
    ensures forall k :: 0 <= k < |s| - |r| ==> IsJsWhitespace(s[k])
    ensures r == [] || !IsJsWhitespace(r[0])
    decreases |s|
  {
    if |s| > 0 && IsJsWhitespace(s[0]) then TrimStart(s[1..]) else s
  }

  /** `s.trimEnd()`: a prefix of `s`; what it drops is whitespace and what it keeps
      does not end with whitespace. */
  function TrimEnd(s: string): (r: string)
    ensures |r| <= |s| && r == s[..|r|]
    ensures forall k :: |r| <= k < |s| ==> IsJsWhitespace(s[k])
    ensures r == [] || !IsJsWhitespace(r[|r| - 1])
    decreases |s|
  {
    if |s| > 0 && IsJsWhitespace(s[|s| - 1]) then TrimEnd(s[..|s| - 1]) else s
  }

  /** `s.trim()`. */
  function Trim(s: string): string {
    TrimEnd(TrimStart(s))
  }

  /** Trimming keeps a contiguous slice of the input (inner whitespace included),
      drops only whitespace around it, and leaves no whitespace at either end. */
  lemma TrimIsSlice(s: string) returns (i: nat, j: nat)
    ensures i <= j <= |s| && Trim(s) == s[i..j]
    ensures forall k :: 0 <= k < i ==> IsJsWhitespace(s[k])
    ensures forall k :: j <= k < |s| ==> IsJsWhitespace(s[k])
    ensures Trim(s) == [] || (!IsJsWhitespace(Trim(s)[0]) && !IsJsWhitespace(Trim(s)[|Trim(s)| - 1]))
  {
    i := |s| - |TrimStart(s)|;
    j := i + |Trim(s)|;
    TrimSlice(s, i);
    TrimTrailing(s, i);
    TrimClean(s);
  }

  /** The trimmed text sits at index `i` of `s`, where `trimStart` cut `i` characters. */
  lemma TrimSlice(s: string, i: nat)
    requires i == |s| - |TrimStart(s)|
    ensures i + |Trim(s)| <= |s| && Trim(s) == s[i..i + |Trim(s)|]
  {
    var t := TrimStart(s);
    var r := TrimEnd(t);
    assert t == s[i..];
    assert r == t[..|r|];
    SliceOfSuffix(s, i, |r|);
  }

  /** What `trimEnd` cuts after the `trimStart` of `s` is whitespace of `s`. */
  lemma TrimTrailing(s: string, i: nat)
    requires i == |s| - |TrimStart(s)|
    ensures forall k :: i + |Trim(s)| <= k < |s| ==> IsJsWhitespace(s[k])
  {
    var t := TrimStart(s);
    TrimEndTail(s, t, i, TrimEnd(t));
  }

  /** The trimmed text neither starts nor ends with whitespace. */
  lemma TrimClean(s: string)
    ensures Trim(s) == [] || (!IsJsWhitespace(Trim(s)[0]) && !IsJsWhitespace(Trim(s)[|Trim(s)| - 1]))
  {
    var t := TrimStart(s);
    var r := TrimEnd(t);
    if r != [] {
      assert r[0] == t[0];
    }
  }

  /** A prefix of a suffix is a slice. */
  lemma SliceOfSuffix(s: string, i: nat, n: nat)
    requires i + n <= |s|
    ensures s[i..][..n] == s[i..i + n]
  {
  }

  /** What `trimEnd` drops from the suffix `t` of `s` is whitespace of `s`. */
  lemma TrimEndTail(s: string, t: string, i: nat, r: string)
    requires i + |t| == |s| && t == s[i..]
    requires |r| <= |t| && forall k :: |r| <= k < |t| ==> IsJsWhitespace(t[k])
    ensures forall k :: i + |r| <= k < |s| ==> IsJsWhitespace(s[k])
  {
    forall k | i + |r| <= k < |s| ensures IsJsWhitespace(s[k]) {
      assert s[k] == t[k - i];
    }
  }

  /** Trimming is idempotent. */
  lemma TrimIdempotent(s: string)
    ensures Trim(Trim(s)) == Trim(s)
  {
    var r := Trim(s);
    var _, _ := TrimIsSlice(s);
    assert TrimStart(r) == r;
    assert TrimEnd(r) == r;
  }

  /** ASCII lower-casing of one character (Python's `str.lower` on ASCII). */
  function LowerChar(c: char): char {
    if 'A' <= c <= 'Z' then (c as int + 32) as char else c
  }

  /** `s.lower()`, character by character. */
  function Lower(s: string): string {
    seq(|s|, k requires 0 <= k < |s| => LowerChar(s[k]))
  }
}
