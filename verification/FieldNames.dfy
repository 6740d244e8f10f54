/**
 `foldQueryFieldName` of query_fields.go: a canonical representative of a public field name under
 Unicode simple case folding. `unicode.SimpleFold` is a parameter, constrained only by what
 Unicode says of it: it moves every character around a finite cycle, with known ASCII cycles.
 */
module FieldNames {

  // ----- cycles of a function ----------------------------------------------------------------

  function Iterate(f: char -> char, n: nat, c: char): char {
    if n == 0 then c else f(Iterate(f, n - 1, c))
  }

  ghost predicate Cyclic(f: char -> char) {
    forall c :: Returns(f, c)
  }

  ghost predicate Returns(f: char -> char, c: char) {
    exists n: nat :: n > 0 && Iterate(f, n, c) == c
  }

  /** Both characters are on one cycle: `strings.EqualFold` on single characters. */
  ghost predicate SameCycle(f: char -> char, a: char, b: char) {
    exists n: nat :: Iterate(f, n, a) == b
  }

  lemma {:induction false} IterateAdd(f: char -> char, m: nat, n: nat, c: char)
    ensures Iterate(f, m + n, c) == Iterate(f, m, Iterate(f, n, c))
    decreases m
  {
    if m > 0 {
      IterateAdd(f, m - 1, n, c);
    }
  }

  /** Once back at the start, iterating meets nothing new. */
  lemma {:induction false} IterateWraps(f: char -> char, k: nat, n: nat, c: char) returns (j: nat)
    requires k > 0 && Iterate(f, k, c) == c
    ensures j < k && Iterate(f, n, c) == Iterate(f, j, c)
    decreases n
  {
    if n < k {
      j := n;
    } else {
      IterateAdd(f, n - k, k, c);
      j := IterateWraps(f, k, n - k, c);
    }
  }

  lemma SameCycleSymmetric(f: char -> char, a: char, b: char)
    requires Cyclic(f) && SameCycle(f, a, b)
    ensures SameCycle(f, b, a)
  {
    var n: nat :| Iterate(f, n, a) == b;
    assert Returns(f, a);
    var k: nat :| k > 0 && Iterate(f, k, a) == a;
    var j := IterateWraps(f, k, n, a);
    IterateAdd(f, k - j, j, a);
    assert Iterate(f, k - j, b) == a;
  }

  lemma SameCycleTransitive(f: char -> char, a: char, b: char, c: char)
    requires SameCycle(f, a, b) && SameCycle(f, b, c)
    ensures SameCycle(f, a, c)
  {
    var m: nat :| Iterate(f, m, a) == b;
    var n: nat :| Iterate(f, n, b) == c;
    IterateAdd(f, n, m, a);
  }

  /** A set that holds a character and is closed under the function holds its whole cycle. */
  lemma {:induction false} CycleWithin(f: char -> char, s: set<char>, a: char, n: nat)
    requires a in s && forall c :: c in s ==> f(c) in s
    ensures Iterate(f, n, a) in s
    decreases n
  {
    if n > 0 {
      CycleWithin(f, s, a, n - 1);
    }
  }

  // ----- the least character of a cycle --------------------------------------------------------

  ghost predicate IsLeast(f: char -> char, c: char, m: char) {
    SameCycle(f, c, m) && forall x :: SameCycle(f, c, x) ==> m <= x
  }

  /** The loop of `foldQueryFieldName` around one cycle. */
  method LeastOfCycle(f: char -> char, r: char) returns (minimum: char)
    requires Cyclic(f)
    ensures IsLeast(f, r, minimum)
  {
    minimum := r;
    var next := f(r);
    assert Returns(f, r);
    ghost var period: nat :| period > 0 && Iterate(f, period, r) == r;
    ghost var k: nat := 1;
    ghost var at: nat := 0;
    assert Iterate(f, 0, r) == r && Iterate(f, 1, r) == f(r);
    while next != r
      invariant 1 <= k <= period && next == Iterate(f, k, r)
      invariant at < k && minimum == Iterate(f, at, r)
      invariant forall j: nat :: j < k ==> minimum <= Iterate(f, j, r)
      decreases period - k
    {
      if next < minimum {
        minimum, at := next, k;
      }
      next, k := f(next), k + 1;
    }
    forall x | SameCycle(f, r, x) ensures minimum <= x {
      var n: nat :| Iterate(f, n, r) == x;
      var j := IterateWraps(f, k, n, r);
    }
  }

  lemma LeastExists(f: char -> char, r: char) returns (m: char)
    requires Cyclic(f)
    ensures IsLeast(f, r, m)
  {
    assert Returns(f, r);
    var k: nat :| k > 0 && Iterate(f, k, r) == r;
    m := r;
    assert Iterate(f, 0, r) == r;
    for j := 1 to k
      invariant SameCycle(f, r, m)
      invariant forall i: nat :: i < j ==> m <= Iterate(f, i, r)
    {
      if Iterate(f, j, r) < m {
        m := Iterate(f, j, r);
      }
    }
    forall x | SameCycle(f, r, x) ensures m <= x {
      var n: nat :| Iterate(f, n, r) == x;
      var j := IterateWraps(f, k, n, r);
    }
  }

  ghost function Least(f: char -> char, c: char): (m: char)
    requires Cyclic(f)
    ensures IsLeast(f, c, m)
  {
    LeastIsSomewhere(f, c);
    var m :| IsLeast(f, c, m);
    m
  }

  lemma LeastIsSomewhere(f: char -> char, c: char)
    requires Cyclic(f)
    ensures exists m :: IsLeast(f, c, m)
  {
    var m := LeastExists(f, c);
  }

  /** Two characters are on one cycle exactly when their cycles have the same least character. */
  lemma LeastDecides(f: char -> char, a: char, b: char)
    requires Cyclic(f)
    ensures SameCycle(f, a, b) <==> Least(f, a) == Least(f, b)
  {
    if SameCycle(f, a, b) {
      SameCycleTransitive(f, a, b, Least(f, b));
      SameCycleSymmetric(f, a, b);
      SameCycleTransitive(f, b, a, Least(f, a));
    }
    if Least(f, a) == Least(f, b) {
      SameCycleSymmetric(f, b, Least(f, b));
      SameCycleTransitive(f, a, Least(f, a), b);
    }
  }

  // ----- folding a name ----------------------------------------------------------------------

  predicate IsUpper(c: char) { 'A' <= c <= 'Z' }

  predicate IsLower(c: char) { 'a' <= c <= 'z' }

  function ToLower(c: char): char
    requires IsUpper(c)
  {
    (c as int + 32) as char
  }

  function ToUpper(c: char): char
    requires IsLower(c)
  {
    (c as int - 32) as char
  }

  /** Unicode's simple case folding on ASCII: two-letter cycles, a third member for K (the kelvin
      sign) and for S (the long s), and everything else alone. */
  ghost predicate AsciiFold(f: char -> char) {
    && (forall c :: IsUpper(c) ==> f(c) == ToLower(c))
    && (forall c :: IsLower(c) && c != 'k' && c != 's' ==> f(c) == ToUpper(c))
    && f('k') == '\U{212A}' && f('\U{212A}') == 'K'
    && f('s') == '\U{017F}' && f('\U{017F}') == 'S'
    && (forall c :: c < '\U{0080}' && !IsUpper(c) && !IsLower(c) ==> f(c) == c)
  }

  ghost predicate Unicode(f: char -> char) {
    Cyclic(f) && AsciiFold(f)
  }

  ghost function FoldRune(f: char -> char, c: char): char
    requires Cyclic(f)
  {
    var m := Least(f, c);
    if IsUpper(m) then ToLower(m) else m
  }

  ghost function Fold(f: char -> char, name: string): string
    requires Cyclic(f)
  {
    seq(|name|, i requires 0 <= i < |name| => FoldRune(f, name[i]))
  }

  /** `strings.EqualFold`. */
  ghost predicate EqualFold(f: char -> char, a: string, b: string) {
    |a| == |b| && forall i :: 0 <= i < |a| ==> SameCycle(f, a[i], b[i])
  }

  lemma LeastOfLower(f: char -> char, c: char)
    requires Unicode(f) && IsLower(c)
    ensures Least(f, c) == ToUpper(c)
  {
    var upper := ToUpper(c);
    var third := if c == 'k' then '\U{212A}' else if c == 's' then '\U{017F}' else c;
    var cycle := {c, upper, third};
    assert f(upper) == c;
    assert Iterate(f, 0, upper) == upper && Iterate(f, 1, upper) == c;
    SameCycleSymmetric(f, upper, c);
    var n: nat :| Iterate(f, n, c) == Least(f, c);
    CycleWithin(f, cycle, c, n);
  }

  lemma LeastOfOther(f: char -> char, c: char)
    requires Unicode(f) && c < '\U{0080}' && !IsUpper(c) && !IsLower(c)
    ensures Least(f, c) == c
  {
    var n: nat :| Iterate(f, n, c) == Least(f, c);
    CycleWithin(f, {c}, c, n);
  }

  /** The ASCII fast path: a character below 128 that is no capital is its own representative. */
  lemma FoldOfLowerAscii(f: char -> char, c: char)
    requires Unicode(f) && c < '\U{0080}' && !IsUpper(c)
    ensures FoldRune(f, c) == c
  {
    if IsLower(c) {
      LeastOfLower(f, c);
    } else {
      LeastOfOther(f, c);
    }
  }

  /** Representatives are equal exactly for characters on one cycle: turning a least capital into
      its small letter does not make it meet another cycle's least character. */
  lemma FoldRuneDecides(f: char -> char, a: char, b: char)
    requires Unicode(f)
    ensures FoldRune(f, a) == FoldRune(f, b) <==> SameCycle(f, a, b)
  {
    LeastDecides(f, a, b);
    LowerIsNotLeast(f, a);
    LowerIsNotLeast(f, b);
  }

  lemma LowerIsNotLeast(f: char -> char, a: char)
    requires Unicode(f)
    ensures !IsLower(Least(f, a))
  {
    var m := Least(f, a);
    if IsLower(m) {
      LeastOfLower(f, m);
      LeastDecides(f, a, m);
    }
  }

  /** Folded names are equal exactly when the names are equal under simple folding. */
  lemma FoldDecides(f: char -> char, a: string, b: string)
    requires Unicode(f)
    ensures Fold(f, a) == Fold(f, b) <==> EqualFold(f, a, b)
  {
    forall i | 0 <= i < |a| && i < |b|
      ensures FoldRune(f, a[i]) == FoldRune(f, b[i]) <==> SameCycle(f, a[i], b[i])
    {
      FoldRuneDecides(f, a[i], b[i]);
    }
    if Fold(f, a) == Fold(f, b) {
      assert |Fold(f, a)| == |Fold(f, b)|;
      forall i | 0 <= i < |a| ensures SameCycle(f, a[i], b[i]) {
        assert Fold(f, a)[i] == Fold(f, b)[i];
      }
    }
  }

  /** `foldQueryFieldName`. */
  method FoldQueryFieldName(f: char -> char, name: string) returns (folded: string)
    requires Unicode(f)
    ensures folded == Fold(f, name)
  {
    var asciiLower := true;
    var i := 0;
    while i < |name|
      invariant 0 <= i <= |name|
      invariant asciiLower ==> forall j :: 0 <= j < i ==> FoldRune(f, name[j]) == name[j]
    {
      if name[i] >= '\U{0080}' || IsUpper(name[i]) {
        asciiLower := false;
        break;
      }
      FoldOfLowerAscii(f, name[i]);
      i := i + 1;
    }
    if asciiLower {
      return name;
    }
    folded := "";
    for k := 0 to |name|
      invariant |folded| == k && forall j :: 0 <= j < k ==> folded[j] == FoldRune(f, name[j])
    {
      var minimum := LeastOfCycle(f, name[k]);
      assert minimum == Least(f, name[k]);
      folded := folded + [if IsUpper(minimum) then ToLower(minimum) else minimum];
    }
  }

  /** A function with nothing but the ASCII cycles, to show that the hypotheses can be met. */
  function AsciiOnly(c: char): char {
    if IsUpper(c) then ToLower(c)
    else if c == 'k' then '\U{212A}' else if c == '\U{212A}' then 'K'
    else if c == 's' then '\U{017F}' else if c == '\U{017F}' then 'S'
    else if IsLower(c) then ToUpper(c)
    else c
  }

  lemma HypothesesCanBeMet()
    ensures Unicode(AsciiOnly)
  {
    forall c ensures Returns(AsciiOnly, c) {
      assert Iterate(AsciiOnly, 0, c) == c;
      assert Iterate(AsciiOnly, 1, c) == AsciiOnly(c);
      assert Iterate(AsciiOnly, 2, c) == AsciiOnly(AsciiOnly(c));
      assert Iterate(AsciiOnly, 3, c) == AsciiOnly(AsciiOnly(AsciiOnly(c)));
    }
  }
}
