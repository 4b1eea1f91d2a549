/** The JavaScript string and array operations the extension relies on, written out on `seq<char>`.
    Only what the modelled code uses is here: `trim`, the `\s` class, `split` and `join` on one
    character, `startsWith`, `includes`/`indexOf`, `replace` with a string pattern, `filter`,
    `[...new Set(xs)]`, `Number.prototype.toString` on whole numbers and `toLowerCase` on ASCII. */
module Text {

  /** The characters that `String.prototype.trim` removes and that the regular-expression class `\s`
      matches: the ECMAScript WhiteSpace and LineTerminator code points. */
  predicate IsWhitespace(c: char) {
    c == ' ' || c == '\t' || c == '\n' || c == '\r' || c == '\U{B}' || c == '\U{C}'
    || c == '\U{A0}' || c == '\U{1680}' || ('\U{2000}' <= c <= '\U{200A}')
    || c == '\U{2028}' || c == '\U{2029}' || c == '\U{202F}' || c == '\U{205F}'
    || c == '\U{3000}' || c == '\U{FEFF}'
  }

  /** Every character of `s` is white space (`s.trim()` is empty). */
  predicate IsBlank(s: string) {
    forall i :: 0 <= i < |s| ==> IsWhitespace(s[i])
  }

  /** `s.trimStart()`: the suffix of `s` left after dropping its leading white space. */
  function TrimStart(s: string): (r: string)
    ensures |r| <= |s| && r == s[|s| - |r|..]
    ensures r != [] ==> !IsWhitespace(r[0])
    ensures IsBlank(s[..|s| - |r|])
    decreases |s|
  {
    if s != [] && IsWhitespace(s[0]) then
      var r := TrimStart(s[1..]);
      assert s[..|s| - |r|] == [s[0]] + s[1..][..|s| - 1 - |r|];
      r
    else s
  }

  /** `s.trimEnd()`: the prefix of `s` left after dropping its trailing white space. */
  function TrimEnd(s: string): (r: string)
    ensures |r| <= |s| && r == s[..|r|]
    ensures r != [] ==> !IsWhitespace(r[|r| - 1])
    ensures IsBlank(s[|r|..])
    decreases |s|
  {
    if s != [] && IsWhitespace(s[|s| - 1]) then
      var r := TrimEnd(s[..|s| - 1]);
      assert s[|r|..] == s[..|s| - 1][|r|..] + [s[|s| - 1]];
      r
    else s
  }

  /** Neither end of `s` is white space. */
  predicate IsTrimmed(s: string) {
    s != [] ==> !IsWhitespace(s[0]) && !IsWhitespace(s[|s| - 1])
  }

  /** Trimming the start of a blank text leaves nothing. */
  lemma {:induction false} TrimStartBlank(s: string)
    requires IsBlank(s)
    ensures TrimStart(s) == []
    decreases |s|
  {
    if s != [] {
      TrimStartBlank(s[1..]);
    }
  }

  /** Two blank texts make a blank text. */
  lemma BlankConcat(a: string, b: string)
    requires IsBlank(a) && IsBlank(b)
    ensures IsBlank(a + b)
  {
  }

  /** Both trimming passes leave nothing exactly when the text is blank. */
  lemma TrimsEmptyWhenBlank(s: string)
    ensures TrimEnd(TrimStart(s)) == [] <==> IsBlank(s)
  {
    var t := TrimStart(s);
    var k := |s| - |t|;
    if TrimEnd(t) == [] {
      assert t[0..] == t;
      BlankConcat(s[..k], t);
      assert s == s[..k] + t;
    }
    if IsBlank(s) {
      TrimStartBlank(s);
    }
  }

  /** A blank-prefixed suffix `t` of `s` and a blank-suffixed prefix `r` of `t`: `r` is `s` with a
      blank prefix and a blank suffix cut off. */
  lemma BlankEndsCut(s: string, t: string, r: string)
    requires |t| <= |s| && t == s[|s| - |t|..] && IsBlank(s[..|s| - |t|])
    requires |r| <= |t| && r == t[..|r|] && IsBlank(t[|r|..])
    ensures exists i, j :: 0 <= i <= j <= |s| && r == s[i..j] && IsBlank(s[..i]) && IsBlank(s[j..])
  {
    var i := |s| - |t|;
    var j := i + |r|;
    assert s[i..j] == r;
    assert s[j..] == t[|r|..];
  }

  /** Both trimming passes cut a blank prefix and a blank suffix off `s`. */
  lemma TrimsBlankEnds(s: string)
    ensures var r := TrimEnd(TrimStart(s));
      exists i, j :: 0 <= i <= j <= |s| && r == s[i..j] && IsBlank(s[..i]) && IsBlank(s[j..])
  {
    var t := TrimStart(s);
    BlankEndsCut(s, t, TrimEnd(t));
  }

  /** `s.trim()`: `s` without its blank ends, so an infix of `s` with no white space at either end,
      empty exactly when `s` is blank. */
  function Trim(s: string): (r: string)
    ensures IsTrimmed(r)
    ensures |r| <= |s|
    ensures exists i, j :: 0 <= i <= j <= |s| && r == s[i..j] && IsBlank(s[..i]) && IsBlank(s[j..])
    ensures r == [] <==> IsBlank(s)
  {
    var t := TrimStart(s);
    TrimsEmptyWhenBlank(s);
    TrimsBlankEnds(s);
    assert TrimEnd(t) != [] ==> TrimEnd(t)[0] == t[0];
    TrimEnd(t)
  }

  /** Trimming a trimmed string changes nothing; in particular trimming is idempotent. */
  lemma TrimTrimmed(s: string)
    requires IsTrimmed(s)
    ensures Trim(s) == s
  {
  }

  lemma TrimIdempotent(s: string)
    ensures Trim(Trim(s)) == Trim(s)
  {
    TrimTrimmed(Trim(s));
  }

  /** The match of `/^\s*\/` on `s`: its longest prefix of white space. */
  function LeadingWhitespace(s: string): (r: string)
    ensures |r| <= |s| && r == s[..|r|]
    ensures IsBlank(r)
    ensures |r| < |s| ==> !IsWhitespace(s[|r|])
  {
    var t := TrimStart(s);
    assert |t| > 0 ==> s[|s| - |t|] == t[0];
    s[..|s| - |t|]
  }

  /** `s.startsWith(p)`. */
  predicate StartsWith(s: string, p: string) {
    |p| <= |s| && s[..|p|] == p
  }

  /** `pat` occurs in `s` at position `i`. */
  predicate OccursAt(s: string, pat: string, i: nat) {
    i + |pat| <= |s| && s[i..i + |pat|] == pat
  }

  /** `s.indexOf(pat, from)`: the first position at or after `from` where `pat` occurs, or -1. */
  function IndexOfFrom(s: string, pat: string, from: nat): (r: int)
    ensures r == -1 || (from <= r && OccursAt(s, pat, r))
    ensures forall j: nat :: from <= j && (r == -1 || j < r) ==> !OccursAt(s, pat, j)
    decreases |s| - from
  {
    if from + |pat| > |s| then -1
    else if s[from..from + |pat|] == pat then from
    else IndexOfFrom(s, pat, from + 1)
  }

  /** `s.indexOf(pat)`. */
  function IndexOf(s: string, pat: string): int {
    IndexOfFrom(s, pat, 0)
  }

  /** `s.includes(pat)`. */
  predicate Contains(s: string, pat: string) {
    IndexOf(s, pat) >= 0
  }

  lemma ContainsIff(s: string, pat: string, i: nat)
    ensures OccursAt(s, pat, i) ==> Contains(s, pat)
    ensures Contains(s, pat) ==> OccursAt(s, pat, IndexOf(s, pat))
  {
  }

  /** `s.replace(pat, rep)` with a string pattern: the first occurrence of `pat`, if any, becomes `rep`. */
  function ReplaceFirst(s: string, pat: string, rep: string): (r: string)
  {
    var i := IndexOf(s, pat);
    if i < 0 then s else s[..i] + rep + s[i + |pat|..]
  }

  /** A pattern that does not occur leaves the text as it is. */
  lemma ReplaceFirstAbsent(s: string, pat: string, rep: string)
    requires !Contains(s, pat)
    ensures ReplaceFirst(s, pat, rep) == s
  {
  }

  /** Only the first occurrence is replaced: the text before it is kept, `rep` stands where it was,
      and every later occurrence that does not overlap it is still there, shifted by the length change. */
  lemma ReplaceFirstOnlyFirst(s: string, pat: string, rep: string, j: nat)
    requires Contains(s, pat)
    ensures var i := IndexOf(s, pat);
      var r := ReplaceFirst(s, pat, rep);
      r[..i] == s[..i] && OccursAt(r, rep, i)
      && (OccursAt(s, pat, j) && j >= i + |pat| ==> OccursAt(r, pat, j - |pat| + |rep|))
  {
    var i := IndexOf(s, pat);
    var r := ReplaceFirst(s, pat, rep);
    assert r == s[..i] + rep + s[i + |pat|..];
    assert r[..i] == s[..i];
    assert r[i..i + |rep|] == rep;
    if OccursAt(s, pat, j) && j >= i + |pat| {
      var k := j - |pat| + |rep|;
      assert r[k..k + |pat|] == s[i + |pat|..][j - (i + |pat|)..j - (i + |pat|) + |pat|];
    }
  }

  /** When the pattern's first character does not occur before it, the replacement lands exactly where
      the pattern stands. */
  lemma ReplaceFirstAfter(a: string, pat: string, rep: string, b: string)
    requires |pat| > 0 && pat[0] !in a
    ensures ReplaceFirst(a + pat + b, pat, rep) == a + rep + b
  {
    var s := a + pat + b;
    assert s[|a|..|a| + |pat|] == pat;
    assert OccursAt(s, pat, |a|);
    forall j: nat | j < |a|
      ensures !OccursAt(s, pat, j)
    {
      if j + |pat| <= |s| {
        assert s[j..j + |pat|][0] == a[j] != pat[0];
      }
    }
    var i := IndexOf(s, pat);
    assert i != -1;
    assert i >= |a|;
    assert i == |a|;
    assert s[..|a|] == a;
    assert s[|a| + |pat|..] == b;
  }

  /** Position of the first `c` in `s`. */
  function FirstIndexOf(s: string, c: char): (i: nat)
    requires c in s
    ensures i < |s| && s[i] == c && c !in s[..i]
  {
    if s[0] == c then 0
    else
      var k := FirstIndexOf(s[1..], c);
      assert s[..k + 1] == [s[0]] + s[1..][..k];
      1 + k
  }

  /** `parts.join(sep)`. */
  function Join(parts: seq<string>, sep: char): string
    decreases |parts|
  {
    if |parts| == 0 then ""
    else if |parts| == 1 then parts[0]
    else parts[0] + [sep] + Join(parts[1..], sep)
  }

  /** A join starts with its first piece, followed by the separator when more pieces follow. */
  lemma JoinStartsWithHead(parts: seq<string>, sep: char)
    requires |parts| >= 1
    ensures StartsWith(Join(parts, sep), parts[0])
    ensures |parts| >= 2 ==> StartsWith(Join(parts, sep), parts[0] + [sep])
  {
    if |parts| >= 2 {
      var s := Join(parts, sep);
      assert s == parts[0] + [sep] + Join(parts[1..], sep);
      assert s[..|parts[0]| + 1] == parts[0] + [sep];
      assert s[..|parts[0]|] == parts[0];
    }
  }

  /** `s.split(sep)` on a one-character separator: the pieces between separators, at least one, none
      holding `sep`, and joining them back with `sep` gives `s` again. */
  function Split(s: string, sep: char): (parts: seq<string>)
    ensures |parts| >= 1
    ensures forall p :: p in parts ==> sep !in p
    ensures Join(parts, sep) == s
    decreases |s|
  {
    if sep !in s then [s]
    else
      var i := FirstIndexOf(s, sep);
      var rest := Split(s[i + 1..], sep);
      assert ([s[..i]] + rest)[1..] == rest;
      assert s == s[..i] + [sep] + s[i + 1..];
      [s[..i]] + rest
  }

  /** The other half of the round trip: splitting a join of separator-free pieces gives the pieces back. */
  lemma {:induction false} SplitJoin(parts: seq<string>, sep: char)
    requires |parts| >= 1
    requires forall p :: p in parts ==> sep !in p
    ensures Split(Join(parts, sep), sep) == parts
    decreases |parts|
  {
    if |parts| > 1 {
      var head := parts[0];
      var rest := Join(parts[1..], sep);
      var s := head + [sep] + rest;
      assert s == Join(parts, sep);
      assert s[|head|] == sep;
      assert head in parts;
      assert forall k :: 0 <= k < |head| ==> s[k] == head[k] != sep;
      var i := FirstIndexOf(s, sep);
      assert forall k :: 0 <= k < i ==> s[k] == s[..i][k] != sep;
      assert i == |head|;
      assert s[..i] == head;
      assert s[i + 1..] == rest;
      SplitJoin(parts[1..], sep);
      assert parts == [head] + parts[1..];
    }
  }

  /** `s.filter(keep)`: the elements of `s` that satisfy `keep`, in their original order. */
  function Filter<T(!new)>(s: seq<T>, keep: T -> bool): (r: seq<T>)
    ensures |r| <= |s|
    ensures forall x :: x in r <==> x in s && keep(x)
  {
    if s == [] then []
    else if keep(s[0]) then [s[0]] + Filter(s[1..], keep)
    else Filter(s[1..], keep)
  }

  /** The elements of `a` occur in `b` in the same order: `a` is `b` with some elements deleted. */
  predicate IsSubsequence<T(==)>(a: seq<T>, b: seq<T>)
    decreases |b|
  {
    a == []
    || (b != [] && ((a[0] == b[0] && IsSubsequence(a[1..], b[1..])) || IsSubsequence(a, b[1..])))
  }

  /** Filtering one more element at the end keeps it exactly when it passes. */
  lemma {:induction false} FilterAppend<T(!new)>(s: seq<T>, x: T, keep: T -> bool)
    ensures Filter(s + [x], keep) == Filter(s, keep) + (if keep(x) then [x] else [])
    decreases |s|
  {
    if s != [] {
      FilterAppend(s[1..], x, keep);
      assert (s + [x])[1..] == s[1..] + [x];
    }
  }

  /** The step of a loop that filters a sequence front to back. */
  lemma FilterPrefixStep<T(!new)>(s: seq<T>, i: nat, keep: T -> bool)
    requires i < |s|
    ensures Filter(s[..i + 1], keep) == Filter(s[..i], keep) + (if keep(s[i]) then [s[i]] else [])
  {
    assert s[..i + 1] == s[..i] + [s[i]];
    FilterAppend(s[..i], s[i], keep);
  }

  /** Filtering distributes over concatenation. */
  lemma {:induction false} FilterConcat<T(!new)>(a: seq<T>, b: seq<T>, keep: T -> bool)
    ensures Filter(a + b, keep) == Filter(a, keep) + Filter(b, keep)
    decreases |a|
  {
    if a == [] {
      assert a + b == b;
    } else {
      var ab := a + b;
      var head := if keep(a[0]) then [a[0]] else [];
      var rest := Filter(a[1..], keep);
      assert Filter(ab, keep) == head + Filter(a[1..] + b, keep) by {
        assert ab[0] == a[0];
        assert ab[1..] == a[1..] + b;
      }
      FilterConcat(a[1..], b, keep);
      assert head + (rest + Filter(b, keep)) == (head + rest) + Filter(b, keep);
    }
  }

  /** Two callbacks that agree on the elements filter alike. */
  lemma {:induction false} FilterCongruent<T(!new)>(s: seq<T>, keep: T -> bool, same: T -> bool)
    requires forall x :: x in s ==> keep(x) == same(x)
    ensures Filter(s, keep) == Filter(s, same)
    decreases |s|
  {
    if s != [] {
      FilterCongruent(s[1..], keep, same);
    }
  }

  /** Every sequence is a subsequence of itself. */
  lemma {:induction false} SubsequenceSelf<T>(s: seq<T>)
    ensures IsSubsequence(s, s)
    decreases |s|
  {
    if s != [] {
      SubsequenceSelf(s[1..]);
    }
  }

  /** Filtering deletes elements and never reorders the ones it keeps. */
  lemma {:induction false} FilterIsSubsequence<T(!new)>(s: seq<T>, keep: T -> bool)
    ensures IsSubsequence(Filter(s, keep), s)
    decreases |s|
  {
    if s != [] {
      FilterIsSubsequence(s[1..], keep);
    }
  }

  /** `s.map(f)`. */
  function Map<A, B>(s: seq<A>, f: A -> B): (r: seq<B>)
    ensures |r| == |s| && forall i :: 0 <= i < |s| ==> r[i] == f(s[i])
  {
    seq(|s|, i requires 0 <= i < |s| => f(s[i]))
  }

  /** The mapped sequence holds exactly the images of the elements. */
  lemma MapMembers<A, B>(s: seq<A>, f: A -> B, y: B)
    ensures y in Map(s, f) <==> exists i :: 0 <= i < |s| && f(s[i]) == y
  {
    if exists i :: 0 <= i < |s| && f(s[i]) == y {
      var i :| 0 <= i < |s| && f(s[i]) == y;
      assert Map(s, f)[i] == y;
    }
  }

  /** Mapping distributes over appending one element. */
  lemma MapAppend<A, B>(s: seq<A>, x: A, f: A -> B)
    ensures Map(s + [x], f) == Map(s, f) + [f(x)]
  {
  }

  /** Mapping distributes over concatenation. */
  lemma MapConcat<A, B>(a: seq<A>, b: seq<A>, f: A -> B)
    ensures Map(a + b, f) == Map(a, f) + Map(b, f)
  {
  }

  /** No element of `s` occurs twice. */
  predicate NoDuplicates<T(==)>(s: seq<T>) {
    forall i, j :: 0 <= i < j < |s| ==> s[i] != s[j]
  }

  /** `[...new Set(s)]`: elements are added in order and an element already present is skipped,
      so the result holds each distinct element of `s` once, in order of first occurrence. */
  function Dedup<T(==,!new)>(s: seq<T>): (r: seq<T>)
    ensures |r| <= |s|
    ensures NoDuplicates(r)
    ensures forall x :: x in r <==> x in s
    decreases |s|
  {
    if s == [] then []
    else
      var front := Dedup(s[..|s| - 1]);
      var last := s[|s| - 1];
      assert s == s[..|s| - 1] + [last];
      if last in front then front else front + [last]
  }

  /** A sequence without duplicates is its own de-duplication. */
  lemma {:induction false} DedupDistinct<T(!new)>(s: seq<T>)
    requires NoDuplicates(s)
    ensures Dedup(s) == s
    decreases |s|
  {
    if s != [] {
      var init := s[..|s| - 1];
      DedupDistinct(init);
      assert s[|s| - 1] !in init;
      assert s == init + [s[|s| - 1]];
    }
  }

  /** Elements seen later never disturb the ones already collected: `Dedup(s)` is a prefix of
      `Dedup(s + t)`, which is what keeps the result in order of first occurrence. */
  lemma {:induction false} DedupExtends<T(!new)>(s: seq<T>, t: seq<T>)
    ensures var before := Dedup(s);
      var after := Dedup(s + t);
      |before| <= |after| && after[..|before|] == before
    decreases |t|
  {
    if t == [] {
      assert s + t == s;
    } else {
      var init := t[..|t| - 1];
      DedupExtends(s, init);
      assert (s + t)[..|s + t| - 1] == s + init;
    }
  }

  /** A decimal digit. */
  predicate IsDigit(c: char) {
    '0' <= c <= '9'
  }

  /** `n.toString()` for a whole number: its decimal numeral, without leading zeros. */
  function DecimalString(n: nat): (s: string)
    ensures s != [] && forall i :: 0 <= i < |s| ==> IsDigit(s[i])
    ensures s[0] == '0' ==> n == 0
    decreases n
  {
    if n < 10 then [('0' as int + n) as char]
    else DecimalString(n / 10) + [('0' as int + n % 10) as char]
  }

  /** The number a string of decimal digits denotes. */
  function DecimalValue(s: string): nat
    requires forall i :: 0 <= i < |s| ==> IsDigit(s[i])
    decreases |s|
  {
    if s == [] then 0
    else
      assert IsDigit(s[|s| - 1]);
      10 * DecimalValue(s[..|s| - 1]) + (s[|s| - 1] as int - '0' as int)
  }

  /** Reading a numeral back gives the number: `DecimalString` loses nothing. */
  lemma {:induction false} DecimalRoundTrip(n: nat)
    ensures DecimalValue(DecimalString(n)) == n
    decreases n
  {
    if n >= 10 {
      DecimalRoundTrip(n / 10);
      var s := DecimalString(n);
      assert s[..|s| - 1] == DecimalString(n / 10);
    }
  }

  /** Different numbers have different numerals. */
  lemma DecimalStringInjective(a: nat, b: nat)
    requires DecimalString(a) == DecimalString(b)
    ensures a == b
  {
    DecimalRoundTrip(a);
    DecimalRoundTrip(b);
  }

  /** An upper-case ASCII letter. */
  predicate IsUpperAscii(c: char) {
    'A' <= c <= 'Z'
  }

  /** `s.toLowerCase()` restricted to ASCII: each upper-case letter becomes its lower-case letter. */
  function ToLowerAscii(s: string): (r: string)
    ensures |r| == |s|
    ensures forall i :: 0 <= i < |s| ==> !IsUpperAscii(r[i])
  {
    seq(|s|, i requires 0 <= i < |s| => if IsUpperAscii(s[i]) then (s[i] as int + 32) as char else s[i])
  }

  /** Lower-casing a string without upper-case letters leaves it as it is. */
  lemma ToLowerAsciiIdentity(s: string)
    requires forall i :: 0 <= i < |s| ==> !IsUpperAscii(s[i])
    ensures ToLowerAscii(s) == s
  {
  }
}
