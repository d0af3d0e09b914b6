/**
  The few Python string operations the pipeline relies on, with Python's exact semantics:
  `str.find`, `str.split`, `str.join`, `str.replace`, `str.upper` (ASCII) and decimal
  digit strings.
 */
module Strings {

  import opened Options

  predicate IsDigit(c: char) {
    '0' <= c <= '9'
  }

  predicate AllDigits(s: string) {
    forall i :: 0 <= i < |s| ==> IsDigit(s[i])
  }

  /** `p` occurs in `s` starting at index `i`. */
  predicate OccursAt(s: string, p: string, i: int) {
    0 <= i && i + |p| <= |s| && s[i..i + |p|] == p
  }

  /** Python's `s.find(p, from)`: the least index at or after `from` where `p` occurs, or -1. */
  function Find(s: string, p: string, from: nat): (r: int)
    ensures r == -1 || (from <= r && OccursAt(s, p, r))
    ensures r == -1 <==> forall i :: from <= i ==> !OccursAt(s, p, i)
    ensures forall i :: from <= i < r ==> !OccursAt(s, p, i)
    decreases |s| - from
  {
    if from + |p| > |s| then -1
    else if s[from..from + |p|] == p then from
    else Find(s, p, from + 1)
  }

  /** Python's `p in s`. */
  predicate Contains(s: string, p: string) {
    Find(s, p, 0) >= 0
  }

  /** A position where `p` occurs, preceded by no other occurrence, is what `Find` returns. */
  lemma FindIsFirst(s: string, p: string, from: nat, i: int)
    requires from <= i && OccursAt(s, p, i)
    requires forall k :: from <= k < i ==> !OccursAt(s, p, k)
    ensures Find(s, p, from) == i
  {
  }

  /** A one-character pattern is contained exactly when the character is. */
  lemma ContainsChar(s: string, c: char)
    ensures Contains(s, [c]) <==> c in s
  {
    if c in s {
      var i :| 0 <= i < |s| && s[i] == c;
      assert s[i..i + 1] == [c];
      assert OccursAt(s, [c], i);
    }
    if Contains(s, [c]) {
      var i := Find(s, [c], 0);
      assert s[i..i + 1] == [c];
      assert s[i] == c;
    }
  }

  /** An occurrence inside a prefix is an occurrence in the whole string. */
  lemma OccursInPrefix(s: string, p: string, n: nat, k: int)
    requires n <= |s| && OccursAt(s[..n], p, k)
    ensures OccursAt(s, p, k) && k + |p| <= n
  {
    assert s[..n][k..k + |p|] == s[k..k + |p|];
  }

  /** An occurrence inside a slice is an occurrence in the whole string, shifted by its start. */
  lemma OccursInSlice(s: string, p: string, a: nat, b: nat, k: int)
    requires a <= b <= |s| && OccursAt(s[a..b], p, k)
    ensures OccursAt(s, p, a + k) && a + k + |p| <= b
  {
    var t := s[a..b][k..k + |p|];
    var u := s[a + k..a + k + |p|];
    forall i | 0 <= i < |t|
      ensures t[i] == u[i]
    {
      assert t[i] == s[a..b][k + i];
    }
    assert t == u;
  }

  /** An occurrence of `p` at `k` puts the first character of `p` at `k`. */
  lemma OccursAtHead(s: string, p: string, k: int)
    requires |p| > 0
    ensures OccursAt(s, p, k) ==> s[k] == p[0]
  {
    if OccursAt(s, p, k) {
      assert s[k..k + |p|][0] == s[k];
    }
  }

  /** The text before the first occurrence of `p` does not contain `p`. */
  lemma HeadBeforeFirstFree(s: string, p: string, i: int)
    requires |p| > 0 && i == Find(s, p, 0) && i >= 0
    ensures !Contains(s[..i], p)
  {
    if Contains(s[..i], p) {
      OccursInPrefix(s, p, i, Find(s[..i], p, 0));
      assert false;
    }
  }

  /** When the first character of `p` is absent from `a`, `p` is first found right after `a`. */
  lemma FindAfterFree(a: string, p: string, rest: string)
    requires |p| > 0 && p[0] !in a
    ensures Find(a + p + rest, p, 0) == |a|
  {
    var s := a + p + rest;
    assert s[|a|..|a| + |p|] == p;
    forall k | 0 <= k < |a|
      ensures !OccursAt(s, p, k)
    {
      OccursAtHead(s, p, k);
      assert s[k] == a[k];
    }
    FindIsFirst(s, p, 0, |a|);
  }

  /** When the first character of `p` is absent from `s`, `p` does not occur in `s`. */
  lemma NotFoundInFree(s: string, p: string, from: nat)
    requires |p| > 0 && p[0] !in s
    ensures Find(s, p, from) == -1
  {
    forall k | from <= k
      ensures !OccursAt(s, p, k)
    {
      OccursAtHead(s, p, k);
    }
  }

  /** Searching `u + v` from `|u| + j` is searching `v` from `j`, shifted by `|u|`. */
  lemma {:induction false} FindShiftFrom(u: string, v: string, p: string, j: nat)
    ensures Find(u + v, p, |u| + j) == if Find(v, p, j) >= 0 then |u| + Find(v, p, j) else -1
    decreases |v| - j
  {
    if j + |p| <= |v| {
      assert (u + v)[|u| + j..|u| + j + |p|] == v[j..j + |p|];
      FindShiftFrom(u, v, p, j + 1);
    }
  }

  /** Searching `u + v` from `|u|` is searching `v` from its start, shifted by `|u|`. */
  lemma FindShift(u: string, v: string, p: string)
    ensures Find(v, p, 0) >= 0 ==> Find(u + v, p, |u|) == |u| + Find(v, p, 0)
    ensures Find(v, p, 0) < 0 ==> Find(u + v, p, |u|) == -1
  {
    FindShiftFrom(u, v, p, 0);
  }

  /**
    A marker whose last character appears nowhere earlier in it, searched in `a + p + rest`
    with `a` free of it, is first found right after `a`: no occurrence can straddle the seam.
   */
  lemma FindMarkerAfter(a: string, p: string, rest: string)
    requires |p| > 0 && p[|p| - 1] !in p[..|p| - 1]
    requires !Contains(a, p)
    ensures Find(a + p + rest, p, 0) == |a|
  {
    var s := a + p + rest;
    assert s[|a|..|a| + |p|] == p;
    forall k | 0 <= k < |a|
      ensures !OccursAt(s, p, k)
    {
      if k + |p| <= |a| {
        assert s[k..k + |p|] == a[k..k + |p|];
        assert !OccursAt(a, p, k);
      } else {
        var j := k + |p| - 1;
        assert s[j] == p[j - |a|] == p[..|p| - 1][j - |a|];
        assert s[k..k + |p|][|p| - 1] != p[|p| - 1];
      }
    }
    FindIsFirst(s, p, 0, |a|);
  }

  /** The longest run of digits at the head of `s`: what a greedy `\d+` (or `\d*`) takes. */
  function DigitPrefix(s: string): (r: string)
    ensures r <= s && AllDigits(r)
    ensures |r| < |s| ==> !IsDigit(s[|r|])
    decreases |s|
  {
    if |s| > 0 && IsDigit(s[0]) then [s[0]] + DigitPrefix(s[1..]) else []
  }

  /** Digits followed by a non-digit: the run is exactly the digits. */
  lemma {:induction false} DigitPrefixOf(d: string, rest: string)
    requires AllDigits(d)
    requires |rest| > 0 ==> !IsDigit(rest[0])
    ensures DigitPrefix(d + rest) == d
    decreases |d|
  {
    if |d| == 0 {
      assert d + rest == rest;
    } else {
      assert (d + rest)[0] == d[0];
      assert (d + rest)[1..] == d[1..] + rest;
      DigitPrefixOf(d[1..], rest);
      assert d == [d[0]] + d[1..];
    }
  }

  // ---------------------------------------------------------------------------------------
  // split / join / replace

  /** Python's `s.split(sep)` for a non-empty separator: occurrences are consumed left to right. */
  function Split(s: string, sep: string): (parts: seq<string>)
    requires |sep| > 0
    ensures |parts| >= 1
    decreases |s|
  {
    var i := Find(s, sep, 0);
    if i < 0 then [s] else [s[..i]] + Split(s[i + |sep|..], sep)
  }

  /** Python's `sep.join(parts)`. */
  function Join(parts: seq<string>, sep: string): string {
    if |parts| == 0 then ""
    else if |parts| == 1 then parts[0]
    else parts[0] + sep + Join(parts[1..], sep)
  }

  /** Joining the pieces of a split with the same separator restores the original string. */
  lemma {:induction false} JoinSplit(s: string, sep: string)
    requires |sep| > 0
    ensures Join(Split(s, sep), sep) == s
    decreases |s|
  {
    var i := Find(s, sep, 0);
    if i >= 0 {
      var rest := s[i + |sep|..];
      var tail := Split(rest, sep);
      JoinSplit(rest, sep);
      var parts := [s[..i]] + tail;
      assert Split(s, sep) == parts;
      assert |parts| >= 2 && parts[0] == s[..i] && parts[1..] == tail;
      assert Join(parts, sep) == s[..i] + sep + Join(tail, sep);
      assert s[i..i + |sep|] == sep;
      assert s == s[..i] + s[i..i + |sep|] + rest;
    }
  }

  /** No piece of a split contains the separator. */
  lemma {:induction false} SplitPiecesFree(s: string, sep: string)
    requires |sep| > 0
    ensures forall k :: 0 <= k < |Split(s, sep)| ==> !Contains(Split(s, sep)[k], sep)
    decreases |s|
  {
    var i := Find(s, sep, 0);
    if i >= 0 {
      var rest := s[i + |sep|..];
      SplitPiecesFree(rest, sep);
      var head := s[..i];
      HeadBeforeFirstFree(s, sep, i);
      var tail := Split(rest, sep);
      var parts := Split(s, sep);
      assert parts == [head] + tail;
      forall k | 0 <= k < |parts|
        ensures !Contains(parts[k], sep)
      {
        if k > 0 {
          assert parts[k] == tail[k - 1];
        }
      }
    }
  }

  /** A string without the separator splits into itself alone. */
  lemma SplitFree(s: string, sep: string)
    requires |sep| > 0 && !Contains(s, sep)
    ensures Split(s, sep) == [s]
  {
  }

  /** When the separator's first character is absent from `a`, `a` is the first piece. */
  lemma SplitAfterFree(a: string, sep: string, rest: string)
    requires |sep| > 0 && sep[0] !in a
    ensures Split(a + sep + rest, sep) == [a] + Split(rest, sep)
  {
    var s := a + sep + rest;
    FindAfterFree(a, sep, rest);
    assert s[..|a|] == a;
    assert s[|a| + |sep|..] == rest;
  }

  /** A pattern with a character that `s` lacks does not occur in `s`. */
  lemma MissingCharNotContained(s: string, p: string, k: nat)
    requires k < |p| && p[k] !in s
    ensures !Contains(s, p)
  {
    forall i | 0 <= i
      ensures !OccursAt(s, p, i)
    {
      if i + |p| <= |s| {
        assert s[i..i + |p|][k] == s[i + k] != p[k];
      }
    }
  }

  /** Python's `s.replace(p, r)` for a non-empty pattern: non-overlapping, left to right. */
  function ReplaceAll(s: string, p: string, r: string): string
    requires |p| > 0
    decreases |s|
  {
    var i := Find(s, p, 0);
    if i < 0 then s else s[..i] + r + ReplaceAll(s[i + |p|..], p, r)
  }

  /** `s.replace(p, r) == r.join(s.split(p))`: replacement agrees with the split/join reading. */
  lemma {:induction false} ReplaceAllIsJoinSplit(s: string, p: string, r: string)
    requires |p| > 0
    ensures ReplaceAll(s, p, r) == Join(Split(s, p), r)
    decreases |s|
  {
    var i := Find(s, p, 0);
    if i >= 0 {
      var head := s[..i];
      var rest := s[i + |p|..];
      ReplaceAllIsJoinSplit(rest, p, r);
      var tail := Split(rest, p);
      var parts := [head] + tail;
      SplitAtFirst(s, p);
      ReplaceAtFirst(s, p, r);
      assert parts[0] == head && parts[1..] == tail;
      assert Join(parts, r) == head + r + Join(tail, r);
    } else {
      assert Split(s, p) == [s];
    }
  }

  /** Split one step: the text before the first occurrence, then the split of the text after it. */
  lemma SplitAtFirst(s: string, p: string)
    requires |p| > 0 && Find(s, p, 0) >= 0
    ensures Split(s, p) == [s[..Find(s, p, 0)]] + Split(s[Find(s, p, 0) + |p|..], p)
  {
  }

  /** Replace one step: the text before the first occurrence, the replacement, then the rest replaced. */
  lemma ReplaceAtFirst(s: string, p: string, r: string)
    requires |p| > 0 && Find(s, p, 0) >= 0
    ensures ReplaceAll(s, p, r) == s[..Find(s, p, 0)] + r + ReplaceAll(s[Find(s, p, 0) + |p|..], p, r)
  {
  }

  /** A marker as in `FindMarkerAfter` is replaced first right after `a`. */
  lemma ReplaceAfterMarker(a: string, p: string, r: string, rest: string)
    requires |p| > 0 && p[|p| - 1] !in p[..|p| - 1]
    requires !Contains(a, p)
    ensures ReplaceAll(a + p + rest, p, r) == a + r + ReplaceAll(rest, p, r)
  {
    var t := a + p + rest;
    FindMarkerAfter(a, p, rest);
    ReplaceAtFirst(t, p, r);
    assert t[..|a|] == a && t[|a| + |p|..] == rest;
  }

  /** The last piece of `s.split(sep)`: what follows the last separator, found left to right. */
  function LastPiece(s: string, sep: string): string
    requires |sep| > 0
    decreases |s|
  {
    var i := Find(s, sep, 0);
    if i < 0 then s else LastPiece(s[i + |sep|..], sep)
  }

  /** `LastPiece` is the last element of the split. */
  lemma {:induction false} LastPieceOfSplit(s: string, sep: string)
    requires |sep| > 0
    ensures LastPiece(s, sep) == Split(s, sep)[|Split(s, sep)| - 1]
    decreases |s|
  {
    var i := Find(s, sep, 0);
    if i < 0 {
      LastPieceFree(s, sep);
      SplitFree(s, sep);
    } else {
      var rest := s[i + |sep|..];
      LastPieceOfSplit(rest, sep);
      SplitAt(s, sep, i);
      LastPieceAt(s, sep, i);
      LastOfCons(s[..i], Split(rest, sep));
    }
  }

  /** The split at the first separator. */
  lemma SplitAt(s: string, sep: string, i: int)
    requires |sep| > 0 && i == Find(s, sep, 0) && i >= 0
    ensures Split(s, sep) == [s[..i]] + Split(s[i + |sep|..], sep)
  {
  }

  lemma LastOfCons(x: string, t: seq<string>)
    requires |t| > 0
    ensures ([x] + t)[|[x] + t| - 1] == t[|t| - 1]
  {
  }

  /** `t` ends `s`. */
  predicate EndsWith(s: string, t: string) {
    |t| <= |s| && s[|s| - |t|..] == t
  }

  /** The last piece ends the text; where the separator occurs, it follows a separator. */
  lemma {:induction false} LastPieceSuffix(s: string, sep: string)
    requires |sep| > 0
    ensures EndsWith(s, LastPiece(s, sep))
    ensures Contains(s, sep) ==> EndsWith(s, sep + LastPiece(s, sep))
    decreases |s|
  {
    if Contains(s, sep) {
      var i := Find(s, sep, 0);
      var rest := s[i + |sep|..];
      LastPieceAt(s, sep, i);
      LastPieceSuffix(rest, sep);
      if !Contains(rest, sep) {
        LastPieceFree(rest, sep);
      }
      SuffixThroughSeparator(s, sep, i, LastPiece(rest, sep));
    } else {
      LastPieceFree(s, sep);
    }
  }

  /** A suffix of what follows a separator, or all of it, is a suffix of the whole text. */
  lemma SuffixThroughSeparator(s: string, sep: string, i: nat, last: string)
    requires OccursAt(s, sep, i)
    requires EndsWith(s[i + |sep|..], last)
    requires EndsWith(s[i + |sep|..], sep + last) || last == s[i + |sep|..]
    ensures EndsWith(s, last) && EndsWith(s, sep + last)
  {
    EndsWithTail(s, i + |sep|, last);
    if last == s[i + |sep|..] {
      SeparatorThenTail(s, sep, i);
    } else {
      EndsWithTail(s, i + |sep|, sep + last);
    }
  }

  /**
    With a separator made of one character twice, the last piece of `pre + sep + code` is
    `code` when `code` lacks that character and `pre` does not end with it.
   */
  lemma {:induction false} LastPieceAfterDoubled(pre: string, sep: string, code: string)
    requires |sep| == 2 && sep[0] == sep[1] && sep[0] !in code
    requires |pre| > 0 ==> pre[|pre| - 1] != sep[0]
    ensures LastPiece(pre + sep + code, sep) == code
    decreases |pre|
  {
    var s := pre + sep + code;
    var i := Find(s, sep, 0);
    FirstDoubledAt(pre, sep, code);
    LastPieceAt(s, sep, i);
    if i == |pre| {
      assert s[i + 2..] == code;
      MissingCharNotContained(code, sep, 0);
      LastPieceFree(code, sep);
    } else {
      var pre' := pre[i + 2..];
      assert s[i + 2..] == pre' + sep + code;
      assert |pre'| > 0 ==> pre'[|pre'| - 1] == pre[|pre| - 1];
      LastPieceAfterDoubled(pre', sep, code);
    }
  }

  /** The first doubled separator in `pre + sep + code` starts in `pre` or right after it. */
  lemma FirstDoubledAt(pre: string, sep: string, code: string)
    requires |sep| == 2 && sep[0] == sep[1]
    requires |pre| > 0 ==> pre[|pre| - 1] != sep[0]
    ensures var i := Find(pre + sep + code, sep, 0); 0 <= i <= |pre| && i != |pre| - 1
  {
    var s := pre + sep + code;
    assert s[|pre|..|pre| + 2] == sep;
    assert OccursAt(s, sep, |pre|);
    if |pre| > 0 {
      assert s[|pre| - 1..|pre| + 1][0] == pre[|pre| - 1];
      assert !OccursAt(s, sep, |pre| - 1);
    }
  }

  lemma LastPieceAt(s: string, sep: string, i: int)
    requires |sep| > 0 && i == Find(s, sep, 0) && i >= 0
    ensures LastPiece(s, sep) == LastPiece(s[i + |sep|..], sep)
  {
  }

  lemma LastPieceFree(s: string, sep: string)
    requires |sep| > 0 && !Contains(s, sep)
    ensures LastPiece(s, sep) == s
  {
  }

  /** What ends a tail of `s` ends `s`. */
  lemma EndsWithTail(s: string, j: nat, t: string)
    requires j <= |s| && EndsWith(s[j..], t)
    ensures EndsWith(s, t)
  {
    assert s[|s| - |t|..] == s[j..][|s| - j - |t|..];
  }

  /** Where the separator occurs, the text from there on is the separator and what follows it. */
  lemma SeparatorThenTail(s: string, sep: string, i: nat)
    requires OccursAt(s, sep, i)
    ensures EndsWith(s, sep + s[i + |sep|..])
  {
    assert s[i..] == s[i..i + |sep|] + s[i + |sep|..];
  }

  /** A string in which the pattern's first character never appears is left unchanged. */
  lemma ReplaceAbsent(s: string, p: string, r: string)
    requires |p| > 0 && p[0] !in s
    ensures ReplaceAll(s, p, r) == s
  {
    NotFoundInFree(s, p, 0);
  }

  /** Replacement never introduces a character found in neither the string nor the replacement. */
  lemma {:induction false} ReplaceKeepsAbsent(s: string, p: string, r: string, c: char)
    requires |p| > 0 && c !in s && c !in r
    ensures c !in ReplaceAll(s, p, r)
    decreases |s|
  {
    var i := Find(s, p, 0);
    if i >= 0 {
      var head := s[..i];
      var rest := s[i + |p|..];
      assert s == head + s[i..i + |p|] + rest;
      ReplaceKeepsAbsent(rest, p, r, c);
      ReplaceAtFirst(s, p, r);
    }
  }

  /** Replacing a one-character pattern by a text without it leaves none of it. */
  lemma {:induction false} ReplaceCharGone(s: string, c: char, r: string)
    requires c !in r
    ensures c !in ReplaceAll(s, [c], r)
    decreases |s|
  {
    var i := Find(s, [c], 0);
    if i >= 0 {
      var rest := s[i + 1..];
      ReplaceCharGone(rest, c, r);
      HeadBeforeFirstFree(s, [c], i);
      ContainsChar(s[..i], c);
      ReplaceAtFirst(s, [c], r);
    } else {
      ContainsChar(s, c);
    }
  }

  /** Reference definition: `s` with every `c` dropped. */
  function Without(s: string, c: char): string {
    if |s| == 0 then ""
    else (if s[0] == c then "" else [s[0]]) + Without(s[1..], c)
  }

  lemma {:induction false} WithoutConcat(a: string, b: string, c: char)
    ensures Without(a + b, c) == Without(a, c) + Without(b, c)
    decreases |a|
  {
    if |a| > 0 {
      var h := if a[0] == c then "" else [a[0]];
      assert (a + b)[0] == a[0];
      assert (a + b)[1..] == a[1..] + b;
      WithoutConcat(a[1..], b, c);
      assert Without(a + b, c) == h + Without(a[1..] + b, c);
      assert Without(a, c) == h + Without(a[1..], c);
    } else {
      assert a + b == b;
    }
  }

  lemma {:induction false} WithoutAbsent(s: string, c: char)
    requires c !in s
    ensures Without(s, c) == s
    decreases |s|
  {
    if |s| > 0 {
      WithoutAbsent(s[1..], c);
    }
  }

  lemma {:induction false} WithoutRemoves(s: string, c: char)
    ensures c !in Without(s, c)
    decreases |s|
  {
    if |s| > 0 {
      WithoutRemoves(s[1..], c);
    }
  }

  /** Dropping `c` from a string whose first `c` sits at `i`. */
  lemma WithoutAtFirst(s: string, c: char, i: nat)
    requires i < |s| && s[i] == c && c !in s[..i]
    ensures Without(s, c) == s[..i] + Without(s[i + 1..], c)
  {
    assert s == s[..i] + ([c] + s[i + 1..]);
    WithoutConcat(s[..i], [c] + s[i + 1..], c);
    WithoutAbsent(s[..i], c);
    assert ([c] + s[i + 1..])[1..] == s[i + 1..];
  }

  /** Deleting every marker and then every `c`, split at the first marker. */
  lemma DeleteAfterMarker(a: string, p: string, rest: string, c: char)
    requires |p| > 0 && p[|p| - 1] !in p[..|p| - 1]
    requires !Contains(a, p)
    ensures Without(ReplaceAll(a + p + rest, p, ""), c) == Without(a, c) + Without(ReplaceAll(rest, p, ""), c)
  {
    var t := ReplaceAll(rest, p, "");
    ReplaceAfterMarker(a, p, "", rest);
    EmptyMiddle(a, t);
    WithoutConcat(a, t, c);
  }

  lemma EmptyMiddle(a: string, b: string)
    ensures a + "" + b == a + b
  {
    assert a + "" == a;
  }

  /** Deleting a one-character pattern drops exactly its occurrences. */
  lemma {:induction false} RemoveCharIsWithout(s: string, c: char)
    ensures ReplaceAll(s, [c], "") == Without(s, c)
    decreases |s|
  {
    var i := Find(s, [c], 0);
    if i < 0 {
      ContainsChar(s, c);
      WithoutAbsent(s, c);
    } else {
      var rest := s[i + 1..];
      RemoveCharIsWithout(rest, c);
      HeadBeforeFirstFree(s, [c], i);
      ContainsChar(s[..i], c);
      OccursAtHead(s, [c], i);
      WithoutAtFirst(s, c, i);
      ReplaceAtFirst(s, [c], "");
      EmptyMiddle(s[..i], ReplaceAll(rest, [c], ""));
    }
  }

  /** After deleting a character, none of it is left. */
  lemma RemoveCharLeavesNone(s: string, c: char)
    ensures c !in ReplaceAll(s, [c], "")
  {
    RemoveCharIsWithout(s, c);
    WithoutRemoves(s, c);
  }

  /** Every `c` turned into `d`, character by character. */
  function SwapChar(s: string, c: char, d: char): (r: string)
    ensures |r| == |s|
  {
    seq(|s|, i requires 0 <= i < |s| => if s[i] == c then d else s[i])
  }

  lemma SwapCharConcat(a: string, b: string, c: char, d: char)
    ensures SwapChar(a + b, c, d) == SwapChar(a, c, d) + SwapChar(b, c, d)
  {
    var l := SwapChar(a + b, c, d);
    var r := SwapChar(a, c, d) + SwapChar(b, c, d);
    forall i | 0 <= i < |l|
      ensures l[i] == r[i]
    {
      if i >= |a| {
        assert (a + b)[i] == b[i - |a|];
      }
    }
  }

  lemma SwapCharAbsent(s: string, c: char, d: char)
    requires c !in s
    ensures SwapChar(s, c, d) == s
  {
  }

  /** Swapping in a character the pattern lacks cannot create an occurrence of it. */
  lemma SwapKeepsAbsent(s: string, c: char, d: char, p: string)
    requires d !in p && !Contains(s, p)
    ensures !Contains(SwapChar(s, c, d), p)
  {
    forall k | 0 <= k
      ensures !OccursAt(SwapChar(s, c, d), p, k)
    {
      assert !OccursAt(s, p, k);
      SwapKeepsAbsentAt(s, c, d, p, k);
    }
  }

  lemma SwapKeepsAbsentAt(s: string, c: char, d: char, p: string, k: nat)
    requires d !in p && !OccursAt(s, p, k)
    ensures !OccursAt(SwapChar(s, c, d), p, k)
  {
    var t := SwapChar(s, c, d);
    if k + |p| <= |t| {
      var j :| 0 <= j < |p| && s[k..k + |p|][j] != p[j];
      assert s[k + j] != p[j];
      assert p[j] != d;
      assert t[k..k + |p|][j] == t[k + j] != p[j];
    }
  }

  lemma SwapAtFirst(head: string, rest: string, c: char, d: char)
    requires c !in head
    ensures SwapChar(head + [c] + rest, c, d) == head + [d] + SwapChar(rest, c, d)
  {
    SwapCharConcat(head + [c], rest, c, d);
    SwapCharConcat(head, [c], c, d);
    SwapCharAbsent(head, c, d);
    assert SwapChar([c], c, d) == [d];
  }

  /** Replacing a one-character pattern by one character swaps exactly its occurrences. */
  lemma {:induction false} ReplaceCharIsSwap(s: string, c: char, d: char)
    ensures ReplaceAll(s, [c], [d]) == SwapChar(s, c, d)
    decreases |s|
  {
    var i := Find(s, [c], 0);
    if i < 0 {
      ContainsChar(s, c);
      SwapCharAbsent(s, c, d);
    } else {
      var head, rest := s[..i], s[i + 1..];
      ReplaceCharIsSwap(rest, c, d);
      ReplaceAtFirst(s, [c], [d]);
      HeadBeforeFirstFree(s, [c], i);
      ContainsChar(head, c);
      OccursAtHead(s, [c], i);
      SwapAtFirst(head, rest, c, d);
      AroundIndex(s, i);
    }
  }

  /** A text is its part before `i`, its character at `i` and its part after `i`. */
  lemma AroundIndex(s: string, i: nat)
    requires i < |s|
    ensures s == s[..i] + [s[i]] + s[i + 1..]
  {
    assert s[..i] + [s[i]] == s[..i + 1];
  }

  // ---------------------------------------------------------------------------------------
  // upper case

  /** Python's `str.upper` on ASCII letters; other characters are kept. */
  function UpperChar(c: char): char {
    if 'a' <= c <= 'z' then ((c as int) - 32) as char else c
  }

  function Upper(s: string): (r: string)
    ensures |r| == |s|
  {
    seq(|s|, i requires 0 <= i < |s| => UpperChar(s[i]))
  }

  /** Upper-casing twice is upper-casing once, and no lower-case ASCII letter survives. */
  lemma UpperIdempotent(s: string)
    ensures Upper(Upper(s)) == Upper(s)
    ensures forall i :: 0 <= i < |s| ==> !('a' <= Upper(s)[i] <= 'z')
  {
  }

  // ---------------------------------------------------------------------------------------
  // decimal digits

  function DigitValue(c: char): nat
    requires IsDigit(c)
  {
    (c as int) - ('0' as int)
  }

  function DigitChar(d: nat): (c: char)
    requires d < 10
    ensures IsDigit(c) && DigitValue(c) == d
  {
    (('0' as int) + d) as char
  }

  /** The value of a string of decimal digits (leading zeros allowed). */
  function ParseNat(s: string): nat
    requires AllDigits(s)
  {
    if |s| == 0 then 0 else ParseNat(s[..|s| - 1]) * 10 + DigitValue(s[|s| - 1])
  }

  /** A digit string without superfluous leading zeros, as Python's `str(n)` prints it. */
  predicate Canonical(s: string) {
    |s| >= 1 && AllDigits(s) && (s[0] == '0' ==> |s| == 1)
  }

  /** Python's `str(n)` for a natural number. */
  function NatToString(n: nat): (s: string)
    ensures Canonical(s)
  {
    if n < 10 then [DigitChar(n)] else NatToString(n / 10) + [DigitChar(n % 10)]
  }

  lemma {:induction false} ParseNatToString(n: nat)
    ensures ParseNat(NatToString(n)) == n
  {
    if n >= 10 {
      var s := NatToString(n);
      ParseNatToString(n / 10);
      assert s[..|s| - 1] == NatToString(n / 10);
    }
  }

  lemma {:induction false} ParseNatZero(s: string)
    requires AllDigits(s) && ParseNat(s) == 0
    ensures forall i :: 0 <= i < |s| ==> s[i] == '0'
    decreases |s|
  {
    if |s| > 0 {
      ParseNatZero(s[..|s| - 1]);
      assert forall i :: 0 <= i < |s| - 1 ==> s[i] == s[..|s| - 1][i];
    }
  }

  /** Printing the value of a canonical digit string gives the string back. */
  lemma {:induction false} NatToStringParse(s: string)
    requires Canonical(s)
    ensures NatToString(ParseNat(s)) == s
    decreases |s|
  {
    var t := s[..|s| - 1];
    var d := DigitValue(s[|s| - 1]);
    if |t| > 0 {
      assert t[0] == s[0];
      assert Canonical(t);
      if ParseNat(t) == 0 {
        ParseNatZero(t);
        assert false;
      }
      NatToStringParse(t);
      var n := ParseNat(s);
      assert n == ParseNat(t) * 10 + d;
      assert n / 10 == ParseNat(t) && n % 10 == d;
      assert s == t + [s[|s| - 1]];
    } else {
      assert s == [s[0]];
    }
  }

  /** Distinct numbers print differently. */
  lemma NatToStringInjective(a: nat, b: nat)
    requires NatToString(a) == NatToString(b)
    ensures a == b
  {
    ParseNatToString(a);
    ParseNatToString(b);
  }

  /** Python's `str(i)` for an integer. */
  function IntToString(i: int): string {
    if i < 0 then "-" + NatToString(-i) else NatToString(i)
  }

  /**
    Integer text as `pd.to_numeric` reads it: an optional sign followed by digits;
    `None` for anything else.
   */
  function ParseInt(s: string): (r: Option<int>)
    ensures r.Some? ==> |s| >= 1
  {
    if |s| >= 2 && s[0] == '-' && AllDigits(s[1..]) then Some(0 - ParseNat(s[1..]))
    else if |s| >= 2 && s[0] == '+' && AllDigits(s[1..]) then Some(ParseNat(s[1..]))
    else if |s| >= 1 && AllDigits(s) then Some(ParseNat(s))
    else None
  }

  lemma ParseIntToString(i: int)
    ensures ParseInt(IntToString(i)) == Some(i)
  {
    if i < 0 {
      ParseIntNegative(-i);
    } else {
      ParseIntNatural(i);
    }
  }

  lemma ParseIntNegative(n: nat)
    ensures ParseInt("-" + NatToString(n)) == Some(0 - n)
  {
    var d := NatToString(n);
    var s := "-" + d;
    assert s[1..] == d;
    ParseNatToString(n);
    assert ParseInt(s) == Some(0 - ParseNat(d));
  }

  lemma ParseIntNatural(n: nat)
    ensures ParseInt(NatToString(n)) == Some(n)
  {
    var d := NatToString(n);
    assert IsDigit(d[0]);
    ParseNatToString(n);
    assert ParseInt(d) == Some(ParseNat(d));
  }

  /** Text holding a `.` is not integer text. */
  lemma DotNotInt(s: string, k: nat)
    requires k < |s| && s[k] == '.'
    ensures ParseInt(s).None?
  {
    if k > 0 {
      assert !AllDigits(s);
      assert s[1..][k - 1] == '.';
      assert !AllDigits(s[1..]);
    } else {
      assert !IsDigit(s[0]);
    }
  }

  /** Fixed-width, zero-padded decimal text of `n mod 10^width` (strftime's `%Y`, `%m`, `%d`). */
  function PadDigits(n: nat, width: nat): (s: string)
    ensures |s| == width && AllDigits(s)
  {
    if width == 0 then "" else PadDigits(n / 10, width - 1) + [DigitChar(n % 10)]
  }

  function Pow10(k: nat): nat {
    if k == 0 then 1 else 10 * Pow10(k - 1)
  }

  lemma {:induction false} ParsePadDigits(n: nat, width: nat)
    requires n < Pow10(width)
    ensures ParseNat(PadDigits(n, width)) == n
  {
    if width > 0 {
      var s := PadDigits(n, width);
      ParsePadDigits(n / 10, width - 1);
      assert s[..|s| - 1] == PadDigits(n / 10, width - 1);
    }
  }

  lemma {:induction false} PadDigitsParse(s: string)
    requires AllDigits(s)
    ensures PadDigits(ParseNat(s), |s|) == s
    decreases |s|
  {
    if |s| > 0 {
      var t := s[..|s| - 1];
      PadDigitsParse(t);
      var n := ParseNat(s);
      assert n / 10 == ParseNat(t) && n % 10 == DigitValue(s[|s| - 1]);
      assert s == t + [s[|s| - 1]];
    }
  }

  /** Digits written after digits scale the leading value by a power of ten. */
  lemma {:induction false} ParseNatConcat(a: string, b: string)
    requires AllDigits(a) && AllDigits(b)
    ensures AllDigits(a + b)
    ensures ParseNat(a + b) == ParseNat(a) * Pow10(|b|) + ParseNat(b)
    decreases |b|
  {
    if |b| > 0 {
      var b' := b[..|b| - 1];
      var ab := a + b;
      assert ab[..|ab| - 1] == a + b';
      assert ab[|ab| - 1] == b[|b| - 1];
      ParseNatConcat(a, b');
      ShiftDigit(ParseNat(a), Pow10(|b'|), ParseNat(b'), DigitValue(b[|b| - 1]));
    } else {
      assert a + b == a;
    }
  }

  lemma ShiftDigit(x: int, y: int, z: int, d: int)
    ensures (x * y + z) * 10 + d == x * (10 * y) + (z * 10 + d)
  {
  }

  lemma ParseNatBound(s: string)
    requires AllDigits(s)
    ensures ParseNat(s) < Pow10(|s|)
  {
  }

}
