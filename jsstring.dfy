/**
 * The JavaScript string primitives that the interview engine calls: `trim`,
 * `Array.prototype.join` and the decimal rendering of a number inside a
 * template literal. Beside them: a first-occurrence search that stands for
 * the lazy `[\s\S]*?` of the fence regexes, the greedy `\s*`, ASCII case
 * folding for the `i` flag, and `split` on one character, which the engine
 * does not call and which is here to state that a join can be undone.
 * Strings are sequences of Unicode scalar values; JavaScript's UTF-16 code
 * units agree with them on every character these functions inspect.
 */
module JsString {
  import opened Wrappers

  /** The ECMAScript WhiteSpace and LineTerminator code points: what `trim` strips and what `\s` matches. */
  predicate IsSpace(c: char) {
    || c == '\t' || c == '\n' || c == '\U{000B}' || c == '\U{000C}' || c == '\r' || c == ' '
    || c == '\U{00A0}' || c == '\U{1680}' || ('\U{2000}' <= c <= '\U{200A}')
    || c == '\U{2028}' || c == '\U{2029}' || c == '\U{202F}' || c == '\U{205F}'
    || c == '\U{3000}' || c == '\U{FEFF}'
  }

  predicate AllSpace(s: string) {
    forall k :: 0 <= k < |s| ==> IsSpace(s[k])
  }

  /** Neither the first nor the last character is white space. */
  predicate NoOuterSpace(s: string) {
    s == [] || (!IsSpace(s[0]) && !IsSpace(s[|s| - 1]))
  }

  /** `r` is `s` with some white space removed at each end. */
  ghost predicate PaddedBy(s: string, r: string) {
    exists i :: 0 <= i <= |s| - |r| && s[i..i + |r|] == r && AllSpace(s[..i]) && AllSpace(s[i + |r|..])
  }

  /** The first index at or after `i` that does not hold white space (the end of a greedy `\s*`). */
  function SkipSpace(s: string, i: nat): (j: nat)
    requires i <= |s|
    ensures i <= j <= |s|
    ensures AllSpace(s[i..j])
    ensures j < |s| ==> !IsSpace(s[j])
    decreases |s| - i
  {
    if i < |s| && IsSpace(s[i]) then
      var j := SkipSpace(s, i + 1);
      assert s[i..j] == [s[i]] + s[i + 1..j];
      j
    else i
  }

  /** `SkipSpace` stops at the first character that is not white space. */
  lemma {:induction false} SkipSpaceTo(s: string, i: nat, j: nat)
    requires i <= j < |s|
    requires AllSpace(s[i..j]) && !IsSpace(s[j])
    ensures SkipSpace(s, i) == j
    decreases j - i
  {
    if i < j {
      assert s[i] == s[i..j][0];
      assert s[i + 1..j] == s[i..j][1..];
      SkipSpaceTo(s, i + 1, j);
    }
  }

  /** The start of the white space that ends at `j`, looking no further back than `i`. */
  function SkipSpaceBack(s: string, i: nat, j: nat): (k: nat)
    requires i <= j <= |s|
    ensures i <= k <= j
    ensures AllSpace(s[k..j])
    ensures i < k ==> !IsSpace(s[k - 1])
    decreases j - i
  {
    if i < j && IsSpace(s[j - 1]) then
      var k := SkipSpaceBack(s, i, j - 1);
      assert s[k..j] == s[k..j - 1] + [s[j - 1]];
      k
    else j
  }

  /** `SkipSpaceBack` stops just after the last character that is not white space. */
  lemma {:induction false} SkipSpaceBackTo(s: string, i: nat, k: nat, j: nat)
    requires i < k <= j <= |s|
    requires AllSpace(s[k..j]) && !IsSpace(s[k - 1])
    ensures SkipSpaceBack(s, i, j) == k
    decreases j - k
  {
    if k < j {
      assert s[j - 1] == s[k..j][j - 1 - k];
      assert s[k..j - 1] == s[k..j][..j - 1 - k];
      SkipSpaceBackTo(s, i, k, j - 1);
    }
  }

  /** `String.prototype.trim`: what is left once the white space at both ends is removed. */
  function Trim(s: string): (r: string)
    ensures |r| <= |s|
    ensures NoOuterSpace(r)
    ensures PaddedBy(s, r)
    ensures r == [] <==> AllSpace(s)
  {
    var i := SkipSpace(s, 0);
    var j := SkipSpaceBack(s, i, |s|);
    TrimNoOuter(s, i, j);
    TrimPaddedBy(s, i, j);
    TrimEmpty(s, i, j);
    s[i..j]
  }

  lemma TrimNoOuter(s: string, i: nat, j: nat)
    requires i == SkipSpace(s, 0) && j == SkipSpaceBack(s, i, |s|)
    ensures NoOuterSpace(s[i..j])
  {
    if i < j {
      assert s[i..j][0] == s[i] && s[i..j][j - i - 1] == s[j - 1];
    }
  }

  lemma TrimPaddedBy(s: string, i: nat, j: nat)
    requires i == SkipSpace(s, 0) && j == SkipSpaceBack(s, i, |s|)
    ensures PaddedBy(s, s[i..j])
  {
    assert s[..i] == s[0..i] && s[j..] == s[j..|s|];
    PaddedIntro(s, s[i..j], i);
  }

  lemma TrimEmpty(s: string, i: nat, j: nat)
    requires i == SkipSpace(s, 0) && j == SkipSpaceBack(s, i, |s|)
    ensures s[i..j] == [] <==> AllSpace(s)
  {
    if i == j {
      forall k | 0 <= k < |s| ensures IsSpace(s[k]) {
        SliceIndex(s, j, |s|, k);
      }
    }
  }

  /** An element of a slice is the element of the sequence at the shifted index. */
  lemma SliceIndex(s: string, lo: nat, hi: nat, k: nat)
    ensures lo <= k < hi <= |s| ==> s[lo..hi][k - lo] == s[k]
  {
  }

  lemma {:induction false} PaddedIntro(s: string, r: string, i: int)
    requires 0 <= i <= |s| - |r| && s[i..i + |r|] == r && AllSpace(s[..i]) && AllSpace(s[i + |r|..])
    ensures PaddedBy(s, r)
  {
  }

  /** Trimming removes exactly the white-space padding around a text that has none of its own. */
  lemma TrimPadded(a: string, r: string, b: string)
    requires AllSpace(a) && AllSpace(b) && NoOuterSpace(r)
    ensures Trim(a + r + b) == r
  {
    var s := a + r + b;
    if r == [] {
      assert s == a + b;
      forall k | 0 <= k < |s| ensures IsSpace(s[k]) {
        if k >= |a| { assert s[k] == b[k - |a|]; }
      }
    } else {
      var i, j := |a|, |a| + |r|;
      assert s[0..i] == a && s[i] == r[0] && s[i..j] == r;
      SkipSpaceTo(s, 0, i);
      assert s[j..|s|] == b && s[j - 1] == r[|r| - 1];
      SkipSpaceBackTo(s, i, j, |s|);
    }
  }

  /** A text without outer white space is its own trim. */
  lemma TrimFixed(r: string)
    requires NoOuterSpace(r)
    ensures Trim(r) == r
  {
    assert [] + r + [] == r;
    TrimPadded([], r, []);
  }

  /** Trimming twice is trimming once. */
  lemma TrimIdempotent(s: string)
    ensures Trim(Trim(s)) == Trim(s)
  {
    TrimFixed(Trim(s));
  }

  /** `Array.prototype.join(sep)` over strings. */
  function Join(parts: seq<string>, sep: string): string
  {
    if |parts| == 0 then ""
    else if |parts| == 1 then parts[0]
    else parts[0] + sep + Join(parts[1..], sep)
  }

  /** `String.prototype.split(c)`: the pieces between occurrences of `c`, never fewer than one. */
  function Split(s: string, c: char): (r: seq<string>)
    ensures |r| >= 1
    ensures forall k :: 0 <= k < |r| ==> c !in r[k]
  {
    if s == [] then [[]]
    else
      var rest := Split(s[1..], c);
      if s[0] == c then [[]] + rest else [[s[0]] + rest[0]] + rest[1..]
  }

  lemma {:induction false} SplitWithout(a: string, c: char)
    requires c !in a
    ensures Split(a, c) == [a]
  {
    if a != [] {
      SplitWithout(a[1..], c);
      assert [a[0]] + a[1..] == a;
    }
  }

  lemma {:induction false} SplitAfter(a: string, c: char, b: string)
    requires c !in a
    ensures Split(a + [c] + b, c) == [a] + Split(b, c)
  {
    if a == [] {
      assert a + [c] + b == [c] + b;
      assert ([c] + b)[1..] == b;
    } else {
      assert (a + [c] + b)[1..] == a[1..] + [c] + b;
      SplitAfter(a[1..], c, b);
      assert [a[0]] + a[1..] == a;
    }
  }

  /** Splitting a join on a one-character separator that no part contains gives the parts back. */
  lemma {:induction false} SplitJoin(parts: seq<string>, c: char)
    requires |parts| >= 1
    requires forall k :: 0 <= k < |parts| ==> c !in parts[k]
    ensures Split(Join(parts, [c]), c) == parts
  {
    if |parts| == 1 {
      SplitWithout(parts[0], c);
    } else {
      SplitJoin(parts[1..], c);
      SplitAfter(parts[0], c, Join(parts[1..], [c]));
      assert parts == [parts[0]] + parts[1..];
    }
  }

  /** Joining blocks that are each two lines around the separator is joining all the lines. */
  lemma {:induction false} JoinPairs(blocks: seq<string>, lines: seq<string>, sep: string)
    requires |lines| == 2 * |blocks|
    requires forall i :: 0 <= i < |blocks| ==> blocks[i] == lines[2 * i] + sep + lines[2 * i + 1]
    ensures Join(blocks, sep) == Join(lines, sep)
  {
    if |blocks| == 1 {
      assert Join(lines[1..], sep) == lines[1];
    } else if |blocks| > 1 {
      forall i | 0 <= i < |blocks| - 1
        ensures blocks[1..][i] == lines[2..][2 * i] + sep + lines[2..][2 * i + 1]
      {
        assert blocks[1..][i] == blocks[i + 1];
      }
      JoinPairs(blocks[1..], lines[2..], sep);
      assert lines[1..][1..] == lines[2..];
    }
  }

  function DigitChar(d: nat): (c: char)
    requires d < 10
    ensures '0' <= c <= '9'
    ensures c as int - '0' as int == d
  {
    "0123456789"[d]
  }

  /** The decimal rendering of a natural number, as a template literal prints it: no leading zero. */
  function Decimal(n: nat): (r: string)
    ensures |r| >= 1
    ensures forall k :: 0 <= k < |r| ==> '0' <= r[k] <= '9'
    ensures r[0] == '0' ==> n == 0
  {
    if n < 10 then [DigitChar(n)] else Decimal(n / 10) + [DigitChar(n % 10)]
  }

  /** The number a run of decimal digits spells, most significant digit first. */
  function Val(r: string): nat
    requires forall k :: 0 <= k < |r| ==> '0' <= r[k] <= '9'
  {
    if r == [] then 0 else 10 * Val(r[..|r| - 1]) + (r[|r| - 1] as int - '0' as int)
  }

  /** The digits `Decimal` prints spell the number back. */
  lemma {:induction false} DecimalVal(n: nat)
    ensures Val(Decimal(n)) == n
  {
    var r := Decimal(n);
    if n >= 10 {
      DecimalVal(n / 10);
      assert r[..|r| - 1] == Decimal(n / 10);
    } else {
      assert r[..|r| - 1] == [];
    }
  }

  /** `pat` occurs in `s` starting at index `i`. */
  predicate OccursAt(s: string, pat: string, i: nat) {
    i + |pat| <= |s| && s[i..i + |pat|] == pat
  }

  predicate Contains(s: string, pat: string) {
    exists i: nat | i <= |s| :: OccursAt(s, pat, i)
  }

  /** The first index at or after `from` where `pat` occurs (`indexOf(pat, from)`), if any. */
  function IndexOfFrom(s: string, pat: string, from: nat): (r: Option<nat>)
    ensures r.Some? ==> from <= r.value && OccursAt(s, pat, r.value)
    ensures r.Some? ==> forall i :: from <= i < r.value ==> !OccursAt(s, pat, i)
    ensures r.None? ==> forall i: nat :: from <= i ==> !OccursAt(s, pat, i)
    decreases |s| - from
  {
    if from + |pat| > |s| then None
    else if OccursAt(s, pat, from) then Some(from)
    else IndexOfFrom(s, pat, from + 1)
  }

  /** A text occurs at the end of any text it ends. */
  lemma OccursAtEnd(x: string, y: string)
    ensures OccursAt(x + y, y, |x|)
  {
    assert (x + y)[|x|..|x| + |y|] == y;
  }

  /** `indexOf` finds an occurrence that no earlier one precedes. */
  lemma {:induction false} IndexOfFromIs(s: string, pat: string, from: nat, c: nat)
    requires from <= c && OccursAt(s, pat, c)
    requires forall i :: from <= i < c ==> !OccursAt(s, pat, i)
    ensures IndexOfFrom(s, pat, from) == Some(c)
    decreases c - from
  {
    if from < c {
      IndexOfFromIs(s, pat, from + 1, c);
    }
  }

  /** A pattern does not occur where its first character is absent. */
  lemma NotOccursAt(s: string, pat: string, i: nat)
    requires pat != [] && i < |s| && s[i] != pat[0]
    ensures !OccursAt(s, pat, i)
  {
    if i + |pat| <= |s| {
      assert s[i..i + |pat|][0] == s[i];
    }
  }

  /** The upper-case form of an ASCII letter; every other character is its own. */
  function AsciiUpper(c: char): char {
    if 'a' <= c <= 'z' then (c as int - 32) as char else c
  }

  /** Two texts equal up to the case of ASCII letters, as a regular expression with the `i` flag compares them. */
  predicate EqualsIgnoringCase(a: string, b: string) {
    |a| == |b| && forall k :: 0 <= k < |a| ==> AsciiUpper(a[k]) == AsciiUpper(b[k])
  }
}
