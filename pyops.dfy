/**
 * The few Python built-ins that the two applications lean on, with Python's
 * own edge cases: list slicing (clamping and negative indices), a filtering
 * list comprehension, `str.strip` with one character, `str.split` on one
 * separator and its inverse `join`, and the case-insensitive substring test
 * that `ilike '%term%'` performs (ASCII letters only).
 */
module PyOps {

  // ---------------------------------------------------------------------
  // Slicing: s[start:stop] with step 1
  // ---------------------------------------------------------------------

  /** Where a slice bound lands in a list of length n: a negative bound
      counts from the end, and the result is clamped to 0..n. */
  function SliceIndex(i: int, n: nat): (k: nat)
    ensures k <= n
    ensures 0 <= i ==> k == if i <= n then i else n
    ensures i < 0 && 0 <= n + i ==> k == n + i
    ensures n + i < 0 ==> k == 0
  {
    if i < 0 then (if i + n < 0 then 0 else i + n)
    else if i > n then n
    else i
  }

  /** `s[start:stop]`: never fails, empty when the adjusted bounds cross. */
  function Slice<T>(s: seq<T>, start: int, stop: int): (r: seq<T>)
    ensures |r| <= |s|
  {
    var lo, hi := SliceIndex(start, |s|), SliceIndex(stop, |s|);
    if lo < hi then s[lo..hi] else []
  }

  /** With non-negative bounds a slice is the clamped subrange. */
  lemma SliceNonNegative<T>(s: seq<T>, start: int, stop: int)
    requires 0 <= start <= stop
    ensures var lo := if start < |s| then start else |s|;
            var hi := if stop < |s| then stop else |s|;
            Slice(s, start, stop) == s[lo..hi]
  {
  }

  // ---------------------------------------------------------------------
  // [x for x in s if keep(x)]
  // ---------------------------------------------------------------------

  function Filter<T>(s: seq<T>, keep: T -> bool): (r: seq<T>)
    ensures |r| <= |s|
    ensures forall i :: 0 <= i < |r| ==> r[i] in s && keep(r[i])
  {
    if s == [] then []
    else (if keep(s[0]) then [s[0]] else []) + Filter(s[1..], keep)
  }

  /** Nothing that passes the test is lost. */
  lemma {:induction false} FilterKeeps<T>(s: seq<T>, keep: T -> bool, i: nat)
    requires i < |s| && keep(s[i])
    ensures s[i] in Filter(s, keep)
  {
    if i > 0 {
      FilterKeeps(s[1..], keep, i - 1);
    }
  }

  lemma FilterComplete<T>(s: seq<T>, keep: T -> bool)
    ensures forall i :: 0 <= i < |s| && keep(s[i]) ==> s[i] in Filter(s, keep)
  {
    forall i | 0 <= i < |s| && keep(s[i])
      ensures s[i] in Filter(s, keep)
    {
      FilterKeeps(s, keep, i);
    }
  }

  /** `a` occurs in `b` in order, possibly with gaps. */
  predicate IsSubsequence<T(==)>(a: seq<T>, b: seq<T>)
    decreases |b|
  {
    if b == [] then a == []
    else (a != [] && a[0] == b[0] && IsSubsequence(a[1..], b[1..])) || IsSubsequence(a, b[1..])
  }

  /** A filtered list keeps the original order. */
  lemma {:induction false} FilterIsSubsequence<T>(s: seq<T>, keep: T -> bool)
    ensures IsSubsequence(Filter(s, keep), s)
  {
    if s != [] {
      FilterIsSubsequence(s[1..], keep);
      var r := Filter(s, keep);
      if keep(s[0]) {
        assert r[0] == s[0] && r[1..] == Filter(s[1..], keep);
      } else {
        assert r == Filter(s[1..], keep);
      }
    }
  }

  /** Mapping both lists element by element keeps one a subsequence of the other. */
  lemma {:induction false} MapKeepsSubsequence<T, U>(a: seq<T>, b: seq<T>, f: T -> U, fa: seq<U>, fb: seq<U>)
    requires IsSubsequence(a, b)
    requires |fa| == |a| && forall i :: 0 <= i < |a| ==> fa[i] == f(a[i])
    requires |fb| == |b| && forall i :: 0 <= i < |b| ==> fb[i] == f(b[i])
    ensures IsSubsequence(fa, fb)
    decreases |b|
  {
    if b != [] {
      if a != [] && a[0] == b[0] && IsSubsequence(a[1..], b[1..]) {
        MapKeepsSubsequence(a[1..], b[1..], f, fa[1..], fb[1..]);
        assert fa[0] == fb[0];
      } else {
        MapKeepsSubsequence(a, b[1..], f, fa, fb[1..]);
      }
    }
  }

  lemma {:induction false} FilterAppend<T>(a: seq<T>, b: seq<T>, keep: T -> bool)
    ensures Filter(a + b, keep) == Filter(a, keep) + Filter(b, keep)
  {
    if a == [] {
      assert a + b == b;
    } else {
      assert (a + b)[0] == a[0];
      assert (a + b)[1..] == a[1..] + b;
      FilterAppend(a[1..], b, keep);
    }
  }

  lemma {:induction false} FilterKeepsAll<T>(s: seq<T>, keep: T -> bool)
    requires forall i :: 0 <= i < |s| ==> keep(s[i])
    ensures Filter(s, keep) == s
  {
    if s != [] {
      FilterKeepsAll(s[1..], keep);
    }
  }

  /** Filtering out one position and keeping every other one removes exactly that element. */
  lemma {:induction false} FilterDropsOne<T>(s: seq<T>, keep: T -> bool, k: nat)
    requires k < |s| && !keep(s[k])
    requires forall i :: 0 <= i < |s| && i != k ==> keep(s[i])
    ensures Filter(s, keep) == s[..k] + s[k+1..]
  {
    var pre, post := s[..k], s[k+1..];
    assert s == pre + ([s[k]] + post);
    forall i | 0 <= i < |pre| ensures keep(pre[i]) {
      assert pre[i] == s[i];
    }
    forall i | 0 <= i < |post| ensures keep(post[i]) {
      assert post[i] == s[k + 1 + i];
    }
    FilterAppend(pre, [s[k]] + post, keep);
    FilterAppend([s[k]], post, keep);
    assert Filter([s[k]], keep) == [] by {
      assert [s[k]][1..] == [];
    }
    FilterKeepsAll(pre, keep);
    FilterKeepsAll(post, keep);
  }

  /** Two complementary filters split a list: every element lands in exactly one part. */
  lemma {:induction false} FilterPartition<T>(s: seq<T>, p: T -> bool, q: T -> bool)
    requires forall x :: q(x) == !p(x)
    ensures multiset(Filter(s, p)) + multiset(Filter(s, q)) == multiset(s)
    ensures |Filter(s, p)| + |Filter(s, q)| == |s|
  {
    if s != [] {
      FilterPartition(s[1..], p, q);
      assert s == [s[0]] + s[1..];
    }
  }

  /** Two tests that agree everywhere keep the same elements. */
  lemma {:induction false} FilterSameKeep<T>(s: seq<T>, p: T -> bool, q: T -> bool)
    requires forall x :: p(x) == q(x)
    ensures Filter(s, p) == Filter(s, q)
  {
    if s != [] {
      FilterSameKeep(s[1..], p, q);
    }
  }

  /** Counting over a predicate that splits into two disjoint cases. */
  lemma {:induction false} FilterCountSplit<T>(s: seq<T>, p: T -> bool, q: T -> bool, r: T -> bool)
    requires forall x :: p(x) == (q(x) || r(x))
    requires forall x :: !(q(x) && r(x))
    ensures |Filter(s, p)| == |Filter(s, q)| + |Filter(s, r)|
  {
    if s != [] {
      FilterCountSplit(s[1..], p, q, r);
    }
  }

  // ---------------------------------------------------------------------
  // str.strip(c) for a single character c
  // ---------------------------------------------------------------------

  /** How many copies of `c` begin `s`. */
  function Leading(s: string, c: char): (k: nat)
    ensures k <= |s|
    ensures forall i :: 0 <= i < k ==> s[i] == c
    ensures k < |s| ==> s[k] != c
  {
    if s != [] && s[0] == c then 1 + Leading(s[1..], c) else 0
  }

  /** How many copies of `c` end `s`. */
  function Trailing(s: string, c: char): (k: nat)
    ensures k <= |s|
    ensures forall i :: |s| - k <= i < |s| ==> s[i] == c
    ensures k < |s| ==> s[|s| - 1 - k] != c
  {
    if s != [] && s[|s| - 1] == c then 1 + Trailing(s[..|s| - 1], c) else 0
  }

  /** `s.strip(c)`: drop every leading and every trailing `c`. */
  function Strip(s: string, c: char): (r: string)
    ensures |r| <= |s|
  {
    var t := s[Leading(s, c)..];
    t[..|t| - Trailing(t, c)]
  }

  /** What strip keeps is one contiguous piece of `s`, neither of whose ends
      is `c`, and everything it drops on either side is `c`. */
  lemma StripCharacterised(s: string, c: char)
    ensures var r, a := Strip(s, c), Leading(s, c);
      && a + |r| <= |s|
      && r == s[a..a + |r|]
      && (forall i :: 0 <= i < a ==> s[i] == c)
      && (forall i :: a + |r| <= i < |s| ==> s[i] == c)
      && (r != [] ==> r[0] != c && r[|r| - 1] != c)
  {
    var a := Leading(s, c);
    var t := s[a..];
    var b := Trailing(t, c);
    var r := Strip(s, c);
    assert r == t[..|t| - b];
    forall i | a + |r| <= i < |s|
      ensures s[i] == c
    {
      assert s[i] == t[i - a];
    }
    if r != [] {
      assert r[0] == s[a];
    }
  }

  /** Stripping twice changes nothing more. */
  lemma StripIdempotent(s: string, c: char)
    ensures Strip(Strip(s, c), c) == Strip(s, c)
  {
    var r := Strip(s, c);
    StripCharacterised(s, c);
    assert Leading(r, c) == 0;
    assert r[0..] == r;
    assert Trailing(r, c) == 0;
  }

  // ---------------------------------------------------------------------
  // s.split(sep) and sep.join(parts)
  // ---------------------------------------------------------------------

  /** `s.split(sep)`: the pieces between separators, empty pieces included. */
  function Split(s: string, sep: char): (parts: seq<string>)
    ensures |parts| >= 1
    decreases |s|
  {
    if s == [] then [""]
    else
      var rest := Split(s[1..], sep);
      if s[0] == sep then [""] + rest
      else [[s[0]] + rest[0]] + rest[1..]
  }

  /** Strip drops exactly a run of `c` on each side when what is between
      neither begins nor ends with `c`. */
  lemma StripEnds(pre: string, x: string, post: string, c: char)
    requires forall i :: 0 <= i < |pre| ==> pre[i] == c
    requires forall i :: 0 <= i < |post| ==> post[i] == c
    requires x != [] ==> x[0] != c && x[|x| - 1] != c
    ensures Strip(pre + x + post, c) == x
  {
    var s := pre + x + post;
    var a := Leading(s, c);
    if x == [] {
      assert forall i :: 0 <= i < |s| ==> s[i] == c;
      assert a == |s|;
    } else {
      assert s[|pre|] == x[0];
      assert a == |pre|;
      var t := s[a..];
      assert t == x + post;
      assert t[|x| - 1] == x[|x| - 1];
      assert Trailing(t, c) == |post|;
    }
  }

  /** `sep.join(parts)`. */
  function Join(parts: seq<string>, sep: char): string
    decreases |parts|
  {
    if parts == [] then ""
    else if |parts| == 1 then parts[0]
    else parts[0] + [sep] + Join(parts[1..], sep)
  }

  /** A character in no part, and other than the separator, is not in the join. */
  lemma {:induction false} JoinAvoids(parts: seq<string>, sep: char, c: char)
    requires c != sep
    requires forall p :: p in parts ==> c !in p
    ensures c !in Join(parts, sep)
    decreases |parts|
  {
    if |parts| > 1 {
      JoinAvoids(parts[1..], sep, c);
    }
  }

  /** No piece of a split contains the separator. */
  lemma {:induction false} SplitPiecesHaveNoSeparator(s: string, sep: char)
    ensures forall p :: p in Split(s, sep) ==> sep !in p
    decreases |s|
  {
    if s != [] {
      SplitPiecesHaveNoSeparator(s[1..], sep);
      var rest := Split(s[1..], sep);
      if s[0] != sep {
        assert rest[0] in rest;
        assert forall p :: p in rest[1..] ==> p in rest;
      }
    }
  }

  /** Splitting yields one more piece than there are separators. */
  lemma {:induction false} SplitCount(s: string, sep: char)
    ensures |Split(s, sep)| == multiset(s)[sep] + 1
    decreases |s|
  {
    if s != [] {
      SplitCount(s[1..], sep);
      assert s == [s[0]] + s[1..];
    }
  }

  /** Joining the pieces gives back the string that was split. */
  lemma {:induction false} JoinSplit(s: string, sep: char)
    ensures Join(Split(s, sep), sep) == s
    decreases |s|
  {
    if s != [] {
      JoinSplit(s[1..], sep);
      var rest := Split(s[1..], sep);
      if s[0] == sep {
        assert Split(s, sep)[1..] == rest;
        assert s == "" + [sep] + s[1..];
      } else {
        var parts := Split(s, sep);
        assert parts[1..] == rest[1..];
        if |rest| == 1 {
          assert s == [s[0]] + rest[0];
        } else {
          assert Join(rest, sep) == rest[0] + [sep] + Join(rest[1..], sep);
          assert s == ([s[0]] + rest[0]) + [sep] + Join(rest[1..], sep);
        }
      }
    }
  }

  /** Splitting a join of separator-free pieces gives back the pieces. */
  lemma {:induction false} SplitJoin(parts: seq<string>, sep: char)
    requires |parts| >= 1
    requires forall p :: p in parts ==> sep !in p
    ensures Split(Join(parts, sep), sep) == parts
    decreases |parts|
  {
    if |parts| == 1 {
      SplitPlain(parts[0], sep, []);
      assert parts[0] + "" == parts[0];
      assert Split("", sep) == [""];
    } else {
      SplitJoin(parts[1..], sep);
      var tail := [sep] + Join(parts[1..], sep);
      assert Join(parts, sep) == parts[0] + tail;
      SplitPlain(parts[0], sep, tail);
      assert tail[1..] == Join(parts[1..], sep);
      assert Split(tail, sep) == [""] + parts[1..];
      assert parts[0] + "" == parts[0];
      assert parts == [parts[0]] + parts[1..];
    }
  }

  /** Two separator-free pieces around one separator split into exactly those pieces. */
  lemma SplitPair(a: string, b: string, sep: char)
    requires sep !in a && sep !in b
    ensures Split(a + [sep] + b, sep) == [a, b]
  {
    assert Join([a, b], sep) == a + [sep] + Join([b], sep);
    SplitJoin([a, b], sep);
  }

  /** A separator-free prefix glues onto the first piece of what follows it. */
  lemma {:induction false} SplitPlain(w: string, sep: char, tail: string)
    requires sep !in w
    ensures var parts := Split(w + tail, sep);
      var rest := Split(tail, sep);
      parts == [w + rest[0]] + rest[1..]
    decreases |w|
  {
    if w == [] {
      assert w + tail == tail;
      var rest := Split(tail, sep);
      assert w + rest[0] == rest[0];
      assert rest == [rest[0]] + rest[1..];
    } else {
      SplitPlain(w[1..], sep, tail);
      assert (w + tail)[1..] == w[1..] + tail;
      assert (w + tail)[0] == w[0];
      assert [w[0]] + (w[1..] + Split(tail, sep)[0]) == w + Split(tail, sep)[0];
    }
  }

  // ---------------------------------------------------------------------
  // name ILIKE '%term%' (ASCII case folding only)
  // ---------------------------------------------------------------------

  function Lower(c: char): char
  {
    if 'A' <= c <= 'Z' then (c as int + 32) as char else c
  }

  function LowerString(s: string): (r: string)
    ensures |r| == |s|
    ensures forall i :: 0 <= i < |s| ==> r[i] == Lower(s[i])
  {
    if s == [] then [] else [Lower(s[0])] + LowerString(s[1..])
  }

  /** `t` occurs somewhere in `s`. */
  predicate IsInfix(t: string, s: string)
    decreases |s|
  {
    t <= s || (s != [] && IsInfix(t, s[1..]))
  }

  /** Where an occurrence starts. */
  function InfixOffset(t: string, s: string): (k: nat)
    requires IsInfix(t, s)
    ensures k + |t| <= |s| && s[k..k + |t|] == t
    decreases |s|
  {
    if t <= s then 0 else 1 + InfixOffset(t, s[1..])
  }

  /** Any occurrence is found. */
  lemma {:induction false} InfixAt(t: string, s: string, k: nat)
    requires k + |t| <= |s| && s[k..k + |t|] == t
    ensures IsInfix(t, s)
    decreases k
  {
    if k > 0 {
      assert s[1..][k - 1..k - 1 + |t|] == s[k..k + |t|];
      InfixAt(t, s[1..], k - 1);
    }
  }

  /** The test `name ILIKE '%' || term || '%'` performs, folding ASCII letters. */
  predicate ContainsIgnoringCase(name: string, term: string)
  {
    IsInfix(LowerString(term), LowerString(name))
  }

  /** The empty term occurs in every name. */
  lemma EmptyTermMatchesEveryName(name: string)
    ensures ContainsIgnoringCase(name, "")
  {
    assert LowerString("") == "";
  }

  /** Folding is idempotent: a lower-case string folds to itself. */
  lemma LowerStringIdempotent(s: string)
    ensures LowerString(LowerString(s)) == LowerString(s)
  {
    var l := LowerString(s);
    forall i | 0 <= i < |s| ensures LowerString(l)[i] == l[i] {
      assert l[i] == Lower(s[i]);
    }
  }

  /** The match ignores the case of the term. */
  lemma MatchIgnoresTermCase(name: string, term: string)
    ensures ContainsIgnoringCase(name, term) == ContainsIgnoringCase(name, LowerString(term))
  {
    LowerStringIdempotent(term);
  }

  /** A term that occurs in the name once both are folded, at any offset, matches. */
  lemma FoldedOccurrenceMatches(name: string, term: string, k: nat)
    requires k + |term| <= |name| && LowerString(name)[k..k + |term|] == LowerString(term)
    ensures ContainsIgnoringCase(name, term)
  {
    InfixAt(LowerString(term), LowerString(name), k);
  }

  /** A term written out in the name, at any offset, matches. */
  lemma OccurrenceMatches(name: string, term: string, k: nat)
    requires k + |term| <= |name| && name[k..k + |term|] == term
    ensures ContainsIgnoringCase(name, term)
  {
    assert LowerString(name)[k..k + |term|] == LowerString(term);
    FoldedOccurrenceMatches(name, term, k);
  }
}
