/**
 The string operations of Go's `strings` and `slices` packages that the model needs:
 splitting and joining on one separator, trimming white space, and sorting without duplicates.
 A `char` is a Unicode scalar value; comparing scalar values position by position is the order
 Go gets by comparing the UTF-8 bytes.
 */
module Text {

  // ----- splitting and joining ---------------------------------------------------------------

  ghost predicate Free(s: string, sep: char) {
    sep !in s
  }

  ghost predicate AllFree(parts: seq<string>, sep: char) {
    forall i :: 0 <= i < |parts| ==> Free(parts[i], sep)
  }

  /** `strings.Split(s, sep)`: always at least one part. */
  function Split(s: string, sep: char): (parts: seq<string>)
    ensures |parts| >= 1
  {
    if s == "" then [""]
    else if s[0] == sep then [""] + Split(s[1..], sep)
    else
      var rest := Split(s[1..], sep);
      [[s[0]] + rest[0]] + rest[1..]
  }

  /** `strings.Join(parts, sep)`. */
  function Join(parts: seq<string>, sep: char): string {
    if |parts| == 0 then ""
    else if |parts| == 1 then parts[0]
    else parts[0] + [sep] + Join(parts[1..], sep)
  }

  lemma {:induction false} SplitPrefix(head: string, rest: string, sep: char)
    requires Free(head, sep)
    ensures Split(head + [sep] + rest, sep) == [head] + Split(rest, sep)
  {
    var s := head + [sep] + rest;
    if head == "" {
      assert s[1..] == rest;
    } else {
      assert s[1..] == head[1..] + [sep] + rest;
      SplitPrefix(head[1..], rest, sep);
      assert [head[0]] + head[1..] == head;
    }
  }

  lemma {:induction false} SplitWhole(s: string, sep: char)
    requires Free(s, sep)
    ensures Split(s, sep) == [s]
  {
    if s != "" {
      SplitWhole(s[1..], sep);
      assert [s[0]] + s[1..] == s;
    }
  }

  /** Splitting undoes joining, for separator-free parts. */
  lemma {:induction false} SplitJoin(parts: seq<string>, sep: char)
    requires |parts| >= 1 && AllFree(parts, sep)
    ensures Split(Join(parts, sep), sep) == parts
  {
    if |parts| == 1 {
      SplitWhole(parts[0], sep);
    } else {
      SplitJoin(parts[1..], sep);
      SplitPrefix(parts[0], Join(parts[1..], sep), sep);
    }
  }

  /** Joining undoes splitting, and every part of a split is separator-free. */
  lemma {:induction false} JoinSplit(s: string, sep: char)
    ensures AllFree(Split(s, sep), sep)
    ensures Join(Split(s, sep), sep) == s
  {
    if s != "" {
      JoinSplit(s[1..], sep);
      var rest := Split(s[1..], sep);
      if s[0] == sep {
        var parts := [""] + rest;
        assert parts[1..] == rest;
        assert Join(parts, sep) == "" + [sep] + s[1..];
      } else {
        var parts := [[s[0]] + rest[0]] + rest[1..];
        assert Split(s, sep) == parts;
        if |rest| == 1 {
          assert Join(parts, sep) == [s[0]] + s[1..];
        } else {
          assert parts[1..] == rest[1..];
          assert Join(parts, sep) == [s[0]] + (rest[0] + [sep] + Join(rest[1..], sep));
        }
      }
    }
  }

  lemma {:induction false} JoinAppend(a: seq<string>, b: seq<string>, sep: char)
    requires |a| >= 1 && |b| >= 1
    ensures Join(a + b, sep) == Join(a, sep) + [sep] + Join(b, sep)
  {
    if |a| == 1 {
      assert (a + b)[1..] == b;
    } else {
      assert (a + b)[1..] == a[1..] + b;
      JoinAppend(a[1..], b, sep);
    }
  }

  lemma {:induction false} SplitAppend(s: string, t: string, sep: char)
    ensures Split(s + [sep] + t, sep) == Split(s, sep) + Split(t, sep)
  {
    var whole := s + [sep] + t;
    if s == "" {
      assert whole[1..] == t;
    } else {
      assert whole[1..] == s[1..] + [sep] + t;
      SplitAppend(s[1..], t, sep);
    }
  }

  // ----- white space -----------------------------------------------------------------------

  /** `unicode.IsSpace`. */
  predicate IsSpace(c: char) {
    c in {'\t', '\n', '\U{000B}', '\U{000C}', '\r', ' ', '\U{0085}', '\U{00A0}', '\U{1680}',
          '\U{2028}', '\U{2029}', '\U{202F}', '\U{205F}', '\U{3000}'}
    || '\U{2000}' <= c <= '\U{200A}'
  }

  ghost predicate AllSpace(s: string) {
    forall i :: 0 <= i < |s| ==> IsSpace(s[i])
  }

  ghost predicate Trimmed(s: string) {
    s == "" || (!IsSpace(s[0]) && !IsSpace(s[|s| - 1]))
  }

  function TrimLeft(s: string): string {
    if s != "" && IsSpace(s[0]) then TrimLeft(s[1..]) else s
  }

  function TrimRight(s: string): string {
    if s != "" && IsSpace(s[|s| - 1]) then TrimRight(s[..|s| - 1]) else s
  }

  /** `strings.TrimSpace`. */
  function TrimSpace(s: string): string {
    TrimRight(TrimLeft(s))
  }

  lemma {:induction false} TrimLeftSplits(s: string) returns (pad: string)
    ensures AllSpace(pad) && s == pad + TrimLeft(s)
    ensures TrimLeft(s) == "" || !IsSpace(TrimLeft(s)[0])
  {
    pad := "";
    if s != "" && IsSpace(s[0]) {
      var rest := TrimLeftSplits(s[1..]);
      pad := [s[0]] + rest;
    }
  }

  lemma {:induction false} TrimRightSplits(s: string) returns (pad: string)
    ensures AllSpace(pad) && s == TrimRight(s) + pad
    ensures TrimRight(s) == "" || !IsSpace(TrimRight(s)[|TrimRight(s)| - 1])
  {
    pad := "";
    if s != "" && IsSpace(s[|s| - 1]) {
      var rest := TrimRightSplits(s[..|s| - 1]);
      pad := rest + [s[|s| - 1]];
    }
  }

  /** Trimming cuts white space off both ends, and leaves none there. */
  lemma TrimSplits(s: string) returns (left: string, right: string)
    ensures AllSpace(left) && AllSpace(right)
    ensures s == left + TrimSpace(s) + right && Trimmed(TrimSpace(s))
  {
    left := TrimLeftSplits(s);
    right := TrimRightSplits(TrimLeft(s));
    if TrimSpace(s) != "" {
      assert TrimLeft(s)[0] == TrimSpace(s)[0];
    }
  }

  lemma {:induction false} TrimLeftPad(pad: string, s: string)
    requires AllSpace(pad)
    ensures TrimLeft(pad + s) == TrimLeft(s)
  {
    if pad == "" {
      assert pad + s == s;
    } else {
      assert (pad + s)[1..] == pad[1..] + s;
      TrimLeftPad(pad[1..], s);
    }
  }

  lemma {:induction false} TrimRightPad(s: string, pad: string)
    requires AllSpace(pad)
    ensures TrimRight(s + pad) == TrimRight(s)
  {
    if pad == "" {
      assert s + pad == s;
    } else {
      assert (s + pad)[..|s + pad| - 1] == s + pad[..|pad| - 1];
      TrimRightPad(s, pad[..|pad| - 1]);
    }
  }

  /** Trimming a padded text gives the text back. */
  lemma TrimPadded(left: string, s: string, right: string)
    requires AllSpace(left) && AllSpace(right) && Trimmed(s)
    ensures TrimSpace(left + s + right) == s
  {
    assert left + s + right == left + (s + right);
    TrimLeftPad(left, s + right);
    if s == "" {
      assert s + right == right + "";
      TrimLeftPad(right, "");
    } else {
      TrimRightPad(s, right);
    }
  }

  // ----- sorting ---------------------------------------------------------------------------

  /** The order `slices.Sort` uses on strings. */
  predicate Less(a: string, b: string) {
    b != "" && (a == "" || a[0] < b[0] || (a[0] == b[0] && Less(a[1..], b[1..])))
  }

  /** Strings are compared at the first place where they differ; one that ends there comes first. */
  lemma {:induction false} LessAtFirstDifference(a: string, b: string)
    ensures Less(a, b) <==>
      exists n :: 0 <= n <= |a| && n < |b| && a[..n] == b[..n] && (n < |a| ==> a[n] < b[n])
  {
    if a == "" || b == "" || a[0] != b[0] {
      if Less(a, b) {
        assert a[..0] == b[..0];
      }
    } else {
      LessAtFirstDifference(a[1..], b[1..]);
      if n :| 0 <= n <= |a| && n < |b| && a[..n] == b[..n] && (n < |a| ==> a[n] < b[n]) {
        assert n > 0;
        assert a[1..][..n - 1] == a[..n][1..] && b[1..][..n - 1] == b[..n][1..];
      }
      if m :| (0 <= m <= |a[1..]| && m < |b[1..]| && a[1..][..m] == b[1..][..m] &&
               (m < |a[1..]| ==> a[1..][m] < b[1..][m])) {
        assert a[..m + 1] == [a[0]] + a[1..][..m] && b[..m + 1] == [b[0]] + b[1..][..m];
        assert a[..m + 1] == b[..m + 1];
      }
    }
  }

  lemma {:induction false} LessTotal(a: string, b: string)
    ensures Less(a, b) || a == b || Less(b, a)
  {
    if a != "" && b != "" && a[0] == b[0] {
      LessTotal(a[1..], b[1..]);
      assert a == [a[0]] + a[1..] && b == [b[0]] + b[1..];
    }
  }

  lemma {:induction false} LessIrreflexive(a: string)
    ensures !Less(a, a)
  {
    if a != "" {
      LessIrreflexive(a[1..]);
    }
  }

  lemma {:induction false} LessTransitive(a: string, b: string, c: string)
    requires Less(a, b) && Less(b, c)
    ensures Less(a, c)
  {
    if a != "" && a[0] == b[0] && b[0] == c[0] {
      LessTransitive(a[1..], b[1..], c[1..]);
    }
  }

  ghost predicate StrictlySorted(s: seq<string>) {
    forall i, j :: 0 <= i < j < |s| ==> Less(s[i], s[j])
  }

  function Insert(x: string, sorted: seq<string>): seq<string> {
    if sorted == [] then [x]
    else if x == sorted[0] then sorted
    else if Less(x, sorted[0]) then [x] + sorted
    else [sorted[0]] + Insert(x, sorted[1..])
  }

  lemma {:induction false} InsertSpec(x: string, s: seq<string>)
    requires StrictlySorted(s)
    ensures StrictlySorted(Insert(x, s))
    ensures forall y :: y in Insert(x, s) <==> y == x || y in s
  {
    if s != [] && x != s[0] {
      LessTotal(x, s[0]);
      if Less(x, s[0]) {
        forall j | 0 <= j < |s| ensures Less(x, s[j]) {
          if j > 0 { LessTransitive(x, s[0], s[j]); }
        }
      } else {
        InsertSpec(x, s[1..]);
        var tail := Insert(x, s[1..]);
        forall j | 0 <= j < |tail| ensures Less(s[0], tail[j]) {
          assert tail[j] in tail;
        }
        assert s == [s[0]] + s[1..];
      }
    }
  }

  /** `uniqueSortedStrings`: a sorted copy without repetitions. */
  function UniqueSorted(values: seq<string>): seq<string> {
    if values == [] then [] else Insert(values[0], UniqueSorted(values[1..]))
  }

  /** The result is strictly increasing and holds exactly the given strings. */
  lemma {:induction false} UniqueSortedSpec(values: seq<string>)
    ensures StrictlySorted(UniqueSorted(values))
    ensures forall y :: y in UniqueSorted(values) <==> y in values
  {
    if values != [] {
      UniqueSortedSpec(values[1..]);
      InsertSpec(values[0], UniqueSorted(values[1..]));
    }
  }

  lemma FirstMember(s: seq<string>) returns (x: string)
    requires s != []
    ensures x in s
  {
    x := s[0];
  }

  /** A strictly increasing list is determined by the strings in it. */
  lemma {:induction false} SortedUnique(a: seq<string>, b: seq<string>)
    requires StrictlySorted(a) && StrictlySorted(b)
    requires forall y :: y in a <==> y in b
    ensures a == b
  {
    if a == [] {
      if b != [] { var _ := FirstMember(b); }
    } else {
      assert a[0] in b;
      assert b[0] in a;
      var i :| 0 <= i < |b| && b[i] == a[0];
      var j :| 0 <= j < |a| && a[j] == b[0];
      if a[0] != b[0] {
        assert Less(b[0], a[0]) && Less(a[0], b[0]);
        LessTransitive(a[0], b[0], a[0]);
        LessIrreflexive(a[0]);
      }
      forall y ensures y in a[1..] <==> y in b[1..] {
        LessIrreflexive(a[0]);
        if y in a[1..] { assert y in b; assert Less(a[0], y); }
        if y in b[1..] { assert y in a; assert Less(b[0], y); }
      }
      SortedUnique(a[1..], b[1..]);
      assert a == [a[0]] + a[1..] && b == [b[0]] + b[1..];
    }
  }

  function InsertSorted(x: string, sorted: seq<string>): seq<string> {
    if sorted == [] || !Less(sorted[0], x) then [x] + sorted else [sorted[0]] + InsertSorted(x, sorted[1..])
  }

  /** `sort.Strings`. */
  function Sort(values: seq<string>): seq<string> {
    if values == [] then [] else InsertSorted(values[0], Sort(values[1..]))
  }

  lemma {:induction false} InsertSortedKeeps(x: string, sorted: seq<string>)
    ensures multiset(InsertSorted(x, sorted)) == multiset(sorted) + multiset{x}
  {
    if sorted != [] && Less(sorted[0], x) {
      InsertSortedKeeps(x, sorted[1..]);
      assert sorted == [sorted[0]] + sorted[1..];
    }
  }

  lemma {:induction false} SortKeeps(values: seq<string>)
    ensures multiset(Sort(values)) == multiset(values)
    ensures forall y :: y in Sort(values) <==> y in values
  {
    if values != [] {
      SortKeeps(values[1..]);
      InsertSortedKeeps(values[0], Sort(values[1..]));
      assert values == [values[0]] + values[1..];
    }
    assert forall y :: y in Sort(values) <==> y in multiset(Sort(values));
  }

  ghost predicate Sorted(s: seq<string>) {
    forall i, j :: 0 <= i < j < |s| ==> !Less(s[j], s[i])
  }

  lemma NotLessTransitive(a: string, b: string, c: string)
    requires !Less(b, a) && !Less(c, b)
    ensures !Less(c, a)
  {
  }

  lemma {:induction false} InsertSortedSorts(x: string, sorted: seq<string>)
    requires Sorted(sorted)
    ensures Sorted(InsertSorted(x, sorted))
  {
    if sorted == [] || !Less(sorted[0], x) {
      forall j | 0 <= j < |sorted| ensures !Less(sorted[j], x) {
        if j > 0 { NotLessTransitive(x, sorted[0], sorted[j]); }
      }
    } else {
      var tail := InsertSorted(x, sorted[1..]);
      InsertSortedSorts(x, sorted[1..]);
      InsertSortedKeeps(x, sorted[1..]);
      forall j | 0 <= j < |tail| ensures !Less(tail[j], sorted[0]) {
        assert tail[j] in multiset(tail);
        if Less(x, sorted[0]) {
          LessTransitive(x, sorted[0], x);
          LessIrreflexive(x);
        }
      }
    }
  }

  lemma {:induction false} SortSorts(values: seq<string>)
    ensures Sorted(Sort(values))
  {
    if values != [] {
      SortSorts(values[1..]);
      InsertSortedSorts(values[0], Sort(values[1..]));
    }
  }
}
