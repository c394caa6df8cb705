/** Splitting a C string at a separator and replacing the occurrences of one string by another: two
    greedy scanners that agree. */
module SplitReplace {
  import opened Bytes
  import opened Int32

  type Chars = seq<byte>

  /** Characters followed by the terminating NUL. */
  predicate CString(s: seq<byte>) {
    |s| > 0 && s[|s| - 1] == 0 && forall k :: 0 <= k < |s| - 1 ==> s[k] != 0
  }

  function Body(s: seq<byte>): Chars
    requires CString(s)
  {
    s[..|s| - 1]
  }

  predicate MatchAt(s: Chars, f: Chars, i: nat): (b: bool)
    ensures b ==> i + |f| <= |s|
  {
    i + |f| <= |s| && s[i..i + |f|] == f
  }

  /** The first occurrence of f in s from i on, or |s| when there is none. */
  function First(s: Chars, f: Chars, i: nat): (k: nat)
    requires 0 < |f| && i <= |s|
    ensures i <= k <= |s|
    ensures k < |s| ==> MatchAt(s, f, k)
    ensures forall j :: i <= j < k ==> !MatchAt(s, f, j)
    decreases |s| - i
  {
    if i == |s| || MatchAt(s, f, i) then i else First(s, f, i + 1)
  }

  lemma {:induction false} FirstIs(s: Chars, f: Chars, i: nat, k: nat)
    requires 0 < |f| && i <= k <= |s|
    requires k < |s| ==> MatchAt(s, f, k)
    requires forall j :: i <= j < k ==> !MatchAt(s, f, j)
    ensures First(s, f, i) == k
    decreases k - i
  {
    if i < k {
      FirstIs(s, f, i + 1, k);
    }
  }

  /** The components of s from `start` on. */
  function Split(s: Chars, sep: Chars, start: nat): (parts: seq<Chars>)
    requires 0 < |sep| && start <= |s|
    ensures |parts| > 0
    decreases |s| - start
  {
    var k := First(s, sep, start);
    if k == |s| then [s[start..]] else [s[start..k]] + Split(s, sep, k + |sep|)
  }

  function Join(parts: seq<Chars>, glue: Chars): Chars {
    if |parts| == 0 then []
    else if |parts| == 1 then parts[0]
    else parts[0] + glue + Join(parts[1..], glue)
  }

  /** s from i on with every occurrence of f, taken greedily from the left, replaced. */
  function Replaced(s: Chars, f: Chars, repl: Chars, i: nat): (r: Chars)
    requires 0 < |f| && i <= |s|
    decreases |s| - i
  {
    if i == |s| then []
    else if MatchAt(s, f, i) then repl + Replaced(s, f, repl, i + |f|)
    else [s[i]] + Replaced(s, f, repl, i + 1)
  }

  /** How many occurrences the greedy scan from i on takes. */
  function Count(s: Chars, f: Chars, i: nat): nat
    requires 0 < |f| && i <= |s|
    decreases |s| - i
  {
    if i == |s| then 0
    else if MatchAt(s, f, i) then 1 + Count(s, f, i + |f|)
    else Count(s, f, i + 1)
  }

  lemma {:induction false} ReplacedToFirst(s: Chars, f: Chars, repl: Chars, i: nat)
    requires 0 < |f| && i <= |s|
    ensures var k := First(s, f, i);
            Replaced(s, f, repl, i) == s[i..k] + (if k == |s| then [] else repl + Replaced(s, f, repl, k + |f|))
    decreases |s| - i
  {
    hide MatchAt, First, Replaced;
    ReplacedNext(s, f, repl, i);
    if i == |s| || MatchAt(s, f, i) {
      assert s[i..i] == [];
    } else {
      ReplacedToFirst(s, f, repl, i + 1);
      var k := First(s, f, i + 1);
      var rest := if k == |s| then [] else repl + Replaced(s, f, repl, k + |f|);
      assert s[i..k] == [s[i]] + s[i + 1..k];
      assert s[i..k] + rest == [s[i]] + (s[i + 1..k] + rest);
    }
  }

  lemma ReplacedNext(s: Chars, f: Chars, repl: Chars, i: nat)
    requires 0 < |f| && i <= |s|
    ensures i == |s| ==> First(s, f, i) == i && Replaced(s, f, repl, i) == []
    ensures i < |s| && MatchAt(s, f, i) ==>
              First(s, f, i) == i && Replaced(s, f, repl, i) == repl + Replaced(s, f, repl, i + |f|)
    ensures i < |s| && !MatchAt(s, f, i) ==>
              First(s, f, i) == First(s, f, i + 1) && Replaced(s, f, repl, i) == [s[i]] + Replaced(s, f, repl, i + 1)
  {
    hide MatchAt;
  }

  lemma JoinMore(part: Chars, rest: seq<Chars>, glue: Chars)
    requires |rest| > 0
    ensures Join([part] + rest, glue) == part + (glue + Join(rest, glue))
  {
    var parts := [part] + rest;
    assert parts[1..] == rest;
    assert part + glue + Join(rest, glue) == part + (glue + Join(rest, glue));
  }

  /** Replacing is splitting and joining with the replacement. */
  lemma {:induction false} ReplaceIsSplitJoin(s: Chars, f: Chars, repl: Chars, i: nat)
    requires 0 < |f| && i <= |s|
    ensures Replaced(s, f, repl, i) == Join(Split(s, f, i), repl)
    decreases |s| - i
  {
    hide MatchAt, First, Replaced;
    ReplacedToFirst(s, f, repl, i);
    var k := First(s, f, i);
    if k < |s| {
      ReplaceIsSplitJoin(s, f, repl, k + |f|);
      var rest := Split(s, f, k + |f|);
      assert Split(s, f, i) == [s[i..k]] + rest;
      JoinMore(s[i..k], rest, repl);
    } else {
      assert s[i..k] + [] == s[i..];
    }
  }

  lemma CutAtMatch(s: Chars, f: Chars, i: nat, k: nat)
    requires i <= k && MatchAt(s, f, k)
    ensures s[i..] == s[i..k] + f + s[k + |f|..]
  {
    assert s[i..] == s[i..k] + s[k..k + |f|] + s[k + |f|..];
  }

  /** Joining the components with the separator gives the source back. */
  lemma {:induction false} JoinRestores(s: Chars, sep: Chars, i: nat)
    requires 0 < |sep| && i <= |s|
    ensures Join(Split(s, sep, i), sep) == s[i..]
    decreases |s| - i
  {
    hide MatchAt;
    var k := First(s, sep, i);
    if k < |s| {
      JoinRestores(s, sep, k + |sep|);
      assert Split(s, sep, i)[1..] == Split(s, sep, k + |sep|);
      CutAtMatch(s, sep, i, k);
    }
  }

  /** Followed by the separator, the part first contains it at its end. */
  predicate EndsAtFirst(part: Chars, sep: Chars) {
    forall j :: 0 <= j < |part| ==> !MatchAt(part + sep, sep, j)
  }

  predicate Occurs(f: Chars, s: Chars) {
    exists j :: 0 <= j <= |s| && MatchAt(s, f, j)
  }

  /** The lists of components a split can return. */
  predicate Separated(parts: seq<Chars>, sep: Chars) {
    && |parts| > 0
    && (forall i :: 0 <= i < |parts| - 1 ==> EndsAtFirst(parts[i], sep))
    && !Occurs(sep, parts[|parts| - 1])
  }

  lemma SliceMatch(s: Chars, f: Chars, lo: nat, hi: nat, j: nat)
    requires lo <= hi <= |s| && lo + j + |f| <= hi
    ensures MatchAt(s[lo..hi], f, j) <==> MatchAt(s, f, lo + j)
  {
    var inner, outer := s[lo..hi][j..j + |f|], s[lo + j..lo + j + |f|];
    assert forall k :: 0 <= k < |f| ==> inner[k] == s[lo..hi][j + k] == s[lo + j + k] == outer[k];
    assert inner == outer;
  }

  lemma NoneFrom(s: Chars, sep: Chars, i: nat, k: nat)
    requires 0 < |sep| && i <= k <= |s|
    requires forall j :: i <= j < k ==> !MatchAt(s, sep, j)
    ensures k == |s| ==> !Occurs(sep, s[i..])
    ensures MatchAt(s, sep, k) ==> EndsAtFirst(s[i..k], sep)
  {
    if MatchAt(s, sep, k) {
      assert s[i..k] + sep == s[i..k + |sep|];
      forall j | 0 <= j < k - i ensures !MatchAt(s[i..k] + sep, sep, j) {
        SliceMatch(s, sep, i, k + |sep|, j);
      }
    }
    if k == |s| {
      forall j | 0 <= j <= |s[i..]| ensures !MatchAt(s[i..], sep, j) {
        if j + |sep| <= |s[i..]| {
          SliceMatch(s, sep, i, |s|, j);
        }
      }
    }
  }

  lemma SeparatedCons(part: Chars, rest: seq<Chars>, sep: Chars)
    requires EndsAtFirst(part, sep) && Separated(rest, sep)
    ensures Separated([part] + rest, sep)
  {
    var parts := [part] + rest;
    forall i | 0 <= i < |parts| - 1 ensures EndsAtFirst(parts[i], sep) {
      assert i > 0 ==> parts[i] == rest[i - 1];
    }
  }

  /** Every component but the last ends where the separator first occurs, and the last contains none. */
  lemma {:induction false} SplitSeparated(s: Chars, sep: Chars, i: nat)
    requires 0 < |sep| && i <= |s|
    ensures Separated(Split(s, sep, i), sep)
    decreases |s| - i
  {
    var k := First(s, sep, i);
    NoneFrom(s, sep, i, k);
    if k < |s| {
      SplitSeparated(s, sep, k + |sep|);
      SeparatedCons(s[i..k], Split(s, sep, k + |sep|), sep);
    }
  }

  /** A part that ends where the separator first occurs does not contain it. */
  lemma ContainsNone(part: Chars, sep: Chars)
    requires 0 < |sep| && EndsAtFirst(part, sep)
    ensures !Occurs(sep, part)
  {
    forall j | 0 <= j <= |part| ensures !MatchAt(part, sep, j) {
      if j + |sep| <= |part| {
        assert (part + sep)[..|part|] == part;
        SliceMatch(part + sep, sep, 0, |part|, j);
      }
    }
  }

  /** No component contains the separator. */
  lemma NoComponentContains(s: Chars, sep: Chars, c: nat)
    requires 0 < |sep| && c < |Split(s, sep, 0)|
    ensures !Occurs(sep, Split(s, sep, 0)[c])
  {
    SplitSeparated(s, sep, 0);
    if c < |Split(s, sep, 0)| - 1 {
      ContainsNone(Split(s, sep, 0)[c], sep);
    }
  }

  lemma HeadSlices(s: Chars, part: Chars, sep: Chars, tail: Chars, i: nat)
    requires i <= |s| && s[i..] == part + sep + tail
    ensures var k := i + |part|;
            && k + |sep| <= |s| && s[i..k + |sep|] == part + sep && s[i..k] == part
            && s[k..k + |sep|] == sep && s[k + |sep|..] == tail
  {
    var k := i + |part|;
    var whole := part + sep;
    assert s[i..k + |sep|] == s[i..][..|whole|] == whole;
    assert s[i..k] == whole[..|part|];
    assert s[k..k + |sep|] == whole[|part|..];
    assert s[k + |sep|..] == s[i..][|whole|..];
  }

  lemma HeadOfJoin(s: Chars, part: Chars, sep: Chars, tail: Chars, i: nat)
    requires 0 < |sep| && i <= |s| && EndsAtFirst(part, sep)
    requires s[i..] == part + sep + tail
    ensures i + |part| + |sep| <= |s| && s[i + |part| + |sep|..] == tail
    ensures Split(s, sep, i) == [part] + Split(s, sep, i + |part| + |sep|)
  {
    HeadSlices(s, part, sep, tail, i);
    var k := i + |part|;
    assert MatchAt(s, sep, k);
    hide MatchAt;
    forall j | i <= j < k ensures !MatchAt(s, sep, j) {
      SliceMatch(s, sep, i, k + |sep|, j - i);
    }
    FirstIs(s, sep, i, k);
  }

  lemma LastOfJoin(s: Chars, part: Chars, sep: Chars, i: nat)
    requires 0 < |sep| && i <= |s| && Separated([part], sep) && s[i..] == part
    ensures Split(s, sep, i) == [part]
  {
    assert !Occurs(sep, part);
    forall j | i <= j < |s| ensures !MatchAt(s, sep, j) {
      if j + |sep| <= |s| {
        SliceMatch(s, sep, i, |s|, j - i);
        assert !MatchAt(part, sep, j - i);
      }
    }
    FirstIs(s, sep, i, |s|);
  }

  lemma JoinCons(parts: seq<Chars>, glue: Chars)
    requires |parts| > 1
    ensures Join(parts, glue) == parts[0] + glue + Join(parts[1..], glue)
    ensures parts == [parts[0]] + parts[1..]
  {
  }

  lemma SeparatedTail(parts: seq<Chars>, sep: Chars)
    requires Separated(parts, sep) && |parts| > 1
    ensures EndsAtFirst(parts[0], sep) && Separated(parts[1..], sep)
  {
    var rest := parts[1..];
    forall i | 0 <= i < |rest| - 1 ensures EndsAtFirst(rest[i], sep) {
      assert rest[i] == parts[i + 1];
    }
  }

  /** Splitting undoes joining for separated parts, wherever the joined text begins. */
  lemma {:induction false} SplitOfJoin(s: Chars, parts: seq<Chars>, sep: Chars, i: nat)
    requires 0 < |sep| && i <= |s| && |parts| > 0 && Separated(parts, sep)
    requires s[i..] == Join(parts, sep)
    ensures Split(s, sep, i) == parts
    decreases |parts|
  {
    hide Separated, EndsAtFirst, Occurs, MatchAt, First, Split;
    if |parts| == 1 {
      assert parts == [parts[0]];
      LastOfJoin(s, parts[0], sep, i);
    } else {
      JoinCons(parts, sep);
      SeparatedTail(parts, sep);
      HeadOfJoin(s, parts[0], sep, Join(parts[1..], sep), i);
      SplitOfJoin(s, parts[1..], sep, i + |parts[0]| + |sep|);
    }
  }

  /** Exactly the separated lists survive joining and splitting. */
  lemma SplitUndoesJoinIff(parts: seq<Chars>, sep: Chars)
    requires 0 < |sep|
    ensures Split(Join(parts, sep), sep, 0) == parts <==> Separated(parts, sep)
  {
    var s := Join(parts, sep);
    SplitSeparated(s, sep, 0);
    if Separated(parts, sep) {
      assert s[0..] == s;
      SplitOfJoin(s, parts, sep, 0);
    }
  }

  /** Every match changes the length by the difference of the two lengths. */
  lemma {:induction false} ReplacedLength(s: Chars, f: Chars, repl: Chars, i: nat)
    requires 0 < |f| && i <= |s|
    ensures |Replaced(s, f, repl, i)| == |s| - i + Count(s, f, i) * (|repl| - |f|)
    decreases |s| - i
  {
    hide MatchAt;
    if i < |s| {
      if MatchAt(s, f, i) {
        ReplacedLength(s, f, repl, i + |f|);
        var c := Count(s, f, i + |f|);
        assert (1 + c) * (|repl| - |f|) == (|repl| - |f|) + c * (|repl| - |f|);
      } else {
        ReplacedLength(s, f, repl, i + 1);
      }
    }
  }

  /** The buffer size the code computes in 32-bit arithmetic, without the terminator. */
  function ComputedSize(srcLen: nat, findLen: nat, replLen: nat, matchCount: nat): nat {
    var sizeDelta := Wrap(matchCount * (replLen - findLen));
    var finalSize := Wrap(srcLen + sizeDelta);
    if finalSize < 0 then 0 else finalSize
  }

  /** The computed size is the length of the result exactly when that length fits 31 bits. */
  lemma SizeExactIff(s: Chars, f: Chars, repl: Chars)
    requires 0 < |f|
    ensures ComputedSize(|s|, |f|, |repl|, Count(s, f, 0)) == |Replaced(s, f, repl, 0)|
       <==> |Replaced(s, f, repl, 0)| < TWO31
  {
    ReplacedLength(s, f, repl, 0);
    var delta := Count(s, f, 0) * (|repl| - |f|);
    WrapSum(|s|, delta);
    var size := |Replaced(s, f, repl, 0)|;
    assert size == |s| + delta;
    if size < TWO31 {
      WrapUnique(size, size);
    }
  }

  method CStrLen(s: seq<byte>) returns (n: nat)
    requires CString(s)
    ensures n == |Body(s)| && n + 1 == |s|
  {
    n := 0;
    while s[n] != 0
      invariant 0 <= n <= |s| - 1
      decreases |s| - n
    {
      n := n + 1;
    }
  }

  lemma MatchGives(s: Chars, f: Chars, at: nat, i: nat)
    requires i < |f| && MatchAt(s, f, at)
    ensures at + i < |s| && s[at + i] == f[i]
  {
    assert s[at..at + |f|][i] == s[at + i];
  }

  lemma Mismatch(s: Chars, f: Chars, at: nat, i: nat)
    requires i < |f| && (at + i < |s| ==> s[at + i] != f[i])
    ensures !MatchAt(s, f, at)
  {
    if MatchAt(s, f, at) {
      MatchGives(s, f, at, i);
    }
  }

  method CStrStarts(s: seq<byte>, at: nat, prefix: seq<byte>) returns (b: bool)
    requires CString(s) && CString(prefix) && at < |s|
    ensures b <==> MatchAt(Body(s), Body(prefix), at)
  {
    var i := 0;
    while prefix[i] != 0
      invariant 0 <= i < |prefix| && at + i < |s|
      invariant s[at..at + i] == prefix[..i]
      decreases |prefix| - i
    {
      if s[at + i] != prefix[i] {
        Mismatch(Body(s), Body(prefix), at, i);
        return false;
      }
      i := i + 1;
    }
    b := true;
    assert i == |Body(prefix)|;
    assert Body(s)[at..at + i] == s[at..at + i];
  }

  /** The components found so far, with no separator between `start` and `si`. */
  ghost predicate Splitting(parts: seq<Chars>, s: Chars, sep: Chars, start: nat, si: nat)
    requires 0 < |sep|
  {
    && start <= |s| && start <= si
    && parts + Split(s, sep, start) == Split(s, sep, 0)
    && forall j :: start <= j < si ==> !MatchAt(s, sep, j)
  }

  lemma SplitNext(parts: seq<Chars>, s: Chars, sep: Chars, start: nat, si: nat)
    requires 0 < |sep| && si <= |s| && Splitting(parts, s, sep, start, si)
    ensures MatchAt(s, sep, si) ==> Splitting(parts + [s[start..si]], s, sep, si + |sep|, si + |sep|)
    ensures MatchAt(s, sep, si) ==> |parts| + 1 < |Split(s, sep, 0)|
    ensures !MatchAt(s, sep, si) ==> Splitting(parts, s, sep, start, si + 1)
  {
    hide MatchAt, First;
    if MatchAt(s, sep, si) {
      FirstIs(s, sep, start, si);
      var rest := Split(s, sep, si + |sep|);
      assert parts + ([s[start..si]] + rest) == parts + [s[start..si]] + rest;
    }
  }

  lemma SplitDone(parts: seq<Chars>, s: Chars, sep: Chars, start: nat)
    requires 0 < |sep| && Splitting(parts, s, sep, start, |s| + 1)
    ensures parts + [s[start..]] == Split(s, sep, 0)
  {
    FirstIs(s, sep, start, |s|);
  }

  /** The components of the source; none when a component or its entry cannot be stored.  `room` is the
      number of components for which the string pool and the entry table still have room. */
  method ComponentsSeparatedByString(src: seq<byte>, sep: seq<byte>, room: nat) returns (parts: seq<Chars>, ok: bool)
    requires CString(src) && CString(sep)
    ensures |Body(sep)| > 0 ==> ok == (|Split(Body(src), Body(sep), 0)| <= room)
    ensures |Body(sep)| > 0 && ok ==> parts == Split(Body(src), Body(sep), 0)
    ensures |Body(sep)| == 0 ==> ok == (|Body(src)| <= room)
    ensures |Body(sep)| == 0 && ok ==> parts == Singles(Body(src))
    ensures !ok ==> parts == []
  {
    var srcLen := CStrLen(src);
    var sepLen := CStrLen(sep);
    if sepLen == 0 {
      parts, ok := SplitSingly(src, srcLen, room);
    } else {
      parts, ok := SplitAt(src, sep, srcLen, sepLen, room);
    }
  }

  /** Every character as a component of its own. */
  function Singles(s: Chars): (parts: seq<Chars>)
    ensures |parts| == |s| && forall i :: 0 <= i < |s| ==> parts[i] == [s[i]]
  {
    if s == [] then [] else Singles(s[..|s| - 1]) + [[s[|s| - 1]]]
  }

  method SplitSingly(src: seq<byte>, srcLen: nat, room: nat) returns (parts: seq<Chars>, ok: bool)
    requires CString(src) && srcLen == |Body(src)|
    ensures ok == (srcLen <= room) && parts == if ok then Singles(Body(src)) else []
  {
    parts := [];
    var i := 0;
    while i < srcLen
      invariant 0 <= i <= srcLen && i <= room
      invariant |parts| == i && forall k :: 0 <= k < i ==> parts[k] == [src[k]]
    {
      if |parts| == room {
        return [], false;
      }
      parts := parts + [src[i..i + 1]];
      i := i + 1;
    }
    ok := true;
    assert parts == Singles(Body(src));
  }

  lemma BodySlice(src: seq<byte>, a: nat, b: nat)
    requires CString(src) && a <= b <= |Body(src)|
    ensures b < |src| && src[a..b] == Body(src)[a..b]
  {
  }

  method SplitAt(src: seq<byte>, sep: seq<byte>, srcLen: nat, sepLen: nat, room: nat)
      returns (parts: seq<Chars>, ok: bool)
    requires CString(src) && CString(sep) && srcLen == |Body(src)| && sepLen == |Body(sep)| > 0
    ensures ok == (|Split(Body(src), Body(sep), 0)| <= room)
    ensures parts == if ok then Split(Body(src), Body(sep), 0) else []
  {
    ghost var s, f := Body(src), Body(sep);
    parts := [];
    var start, si := 0, 0;
    assert Splitting(parts, s, f, start, si);
    hide MatchAt, Splitting, Split, First, Body;
    while si <= srcLen
      invariant 0 <= start <= si <= srcLen + 1 && start <= srcLen
      invariant |parts| <= room && Splitting(parts, s, f, start, si)
      decreases srcLen + 1 - si
    {
      var here := false;
      if si + sepLen <= srcLen {
        here := CStrStarts(src, si, sep);
      }
      SplitNext(parts, s, f, start, si);
      if here {
        if |parts| == room {
          return [], false;
        }
        BodySlice(src, start, si);
        parts := parts + [src[start..si]];
        si := si + sepLen;
        start := si;
      } else {
        si := si + 1;
      }
    }
    SplitDone(parts, s, f, start);
    if |parts| == room {
      return [], false;
    }
    BodySlice(src, start, srcLen);
    assert s[start..srcLen] == s[start..];
    parts, ok := parts + [src[start..srcLen]], true;
  }

  /** How many occurrences the replacement will take: the first pass. */
  method CountMatches(src: seq<byte>, find: seq<byte>) returns (matchCount: nat)
    requires CString(src) && CString(find) && |Body(find)| > 0
    ensures matchCount == Count(Body(src), Body(find), 0)
  {
    var srcLen := CStrLen(src);
    var findLen := CStrLen(find);
    ghost var s, f := Body(src), Body(find);
    matchCount := 0;
    var si := 0;
    while si + findLen <= srcLen
      invariant 0 <= si <= srcLen
      invariant matchCount + Count(s, f, si) == Count(s, f, 0)
    {
      var here := CStrStarts(src, si, find);
      if here {
        matchCount := matchCount + 1;
        si := si + findLen;
      } else {
        si := si + 1;
      }
    }
    CountNone(s, f, si);
  }

  lemma {:induction false} CountNone(s: Chars, f: Chars, i: nat)
    requires 0 < |f| && i <= |s| < i + |f|
    ensures Count(s, f, i) == 0
    decreases |s| - i
  {
    if i < |s| {
      CountNone(s, f, i + 1);
    }
  }

  /** What the second pass still writes of a replacement at ri: it stops before the last cell of the block. */
  function Clipped(repl: Chars, ri: nat, size: nat): Chars {
    if ri + |repl| <= size then repl else if ri < size then repl[..size - ri] else []
  }

  /** What the second pass writes for the source from i on, at ri in a block of size + 1 cells: replacements
      are clipped to the block, copied characters are not. */
  function FillText(s: Chars, f: Chars, repl: Chars, i: nat, ri: nat, size: nat): Chars
    requires 0 < |f| && i <= |s|
    decreases |s| - i
  {
    if i == |s| then []
    else if MatchAt(s, f, i) then
      var part := Clipped(repl, ri, size);
      part + FillText(s, f, repl, i + |f|, ri + |part|, size)
    else [s[i]] + FillText(s, f, repl, i + 1, ri + 1, size)
  }

  /** Nothing is clipped in a block with room for everything. */
  lemma {:induction false} FillIsReplaced(s: Chars, f: Chars, repl: Chars, i: nat, ri: nat, size: nat)
    requires 0 < |f| && i <= |s| && ri + |Replaced(s, f, repl, i)| <= size
    ensures FillText(s, f, repl, i, ri, size) == Replaced(s, f, repl, i)
    decreases |s| - i
  {
    hide MatchAt;
    if i < |s| {
      if MatchAt(s, f, i) {
        FillIsReplaced(s, f, repl, i + |f|, ri + |repl|, size);
      } else {
        FillIsReplaced(s, f, repl, i + 1, ri + 1, size);
      }
    }
  }

  /** `s` is `f` over and over from i on. */
  predicate Repeats(s: Chars, f: Chars, i: nat)
    requires 0 < |f|
    decreases |s| - i
  {
    i == |s| || (MatchAt(s, f, i) && Repeats(s, f, i + |f|))
  }

  lemma {:induction false} NothingFits(s: Chars, f: Chars, repl: Chars, i: nat, size: nat)
    requires 0 < |f| && i <= |s| && Repeats(s, f, i)
    ensures FillText(s, f, repl, i, size, size) == []
    decreases |s| - i
  {
    if i < |s| {
      NothingFits(s, f, repl, i + |f|, size);
      assert Clipped(repl, size, size) == [];
    }
  }

  /** `t` is the beginning of `r` over and over. */
  ghost predicate Periodic(t: Chars, r: Chars) {
    && (forall j :: 0 <= j < |r| && j < |t| ==> t[j] == r[j])
    && (forall i, j :: 0 <= i < j < |t| && j == i + |r| ==> t[j] == t[i])
  }

  lemma OneMorePeriod(t: Chars, r: Chars)
    requires Periodic(t, r)
    ensures Periodic(r + t, r)
  {
    forall i, j | 0 <= i < j < |r + t| && j == i + |r|
      ensures (r + t)[j] == (r + t)[i]
    {
      assert (r + t)[j] == t[i];
      assert i >= |r| ==> t[i] == t[i - |r|];
    }
  }

  /** Where the whole source is to be replaced, what is written is the replacement over and over, for as long as the
      block lasts. */
  lemma {:induction false} FillRepeats(s: Chars, f: Chars, repl: Chars, i: nat, ri: nat, size: nat, all: nat)
    requires 0 < |f| && i <= |s| && Repeats(s, f, i) && 0 < |repl| && ri <= size && all == Count(s, f, i) * |repl|
    ensures var t := FillText(s, f, repl, i, ri, size);
            |t| == (if all <= size - ri then all else size - ri) && Periodic(t, repl)
    decreases |s| - i
  {
    hide MatchAt, Periodic;
    if i < |s| {
      var rest := FillText(s, f, repl, i + |f|, ri + |repl|, size);
      Distributes(Count(s, f, i + |f|), |repl|);
      if ri + |repl| <= size {
        FillRepeats(s, f, repl, i + |f|, ri + |repl|, size, all - |repl|);
        OneMorePeriod(rest, repl);
      } else {
        NothingFits(s, f, repl, i + |f|, size);
        assert repl[..size - ri] + [] == repl[..size - ri];
        PrefixPeriodic(repl, size - ri);
      }
    } else {
      PrefixPeriodic(repl, 0);
    }
  }

  lemma PrefixPeriodic(r: Chars, n: nat)
    requires n <= |r|
    ensures Periodic(r[..n], r)
  {
  }

  lemma Distributes(n: nat, k: nat)
    ensures (n + 1) * k == n * k + k && n * k >= 0
  {
  }

  /** The receiver itself, a new string, or a second pass that writes behind its block. */
  datatype Outcome = Receiver | NewString(text: Chars) | Overrun

  function Filled(s: Chars, f: Chars, repl: Chars, size: nat): Outcome
    requires 0 < |f|
  {
    var text := FillText(s, f, repl, 0, 0, size);
    if |text| <= size then NewString(text) else Overrun
  }

  /** The whole method on strings; a block larger than largestBlock cannot be had. */
  function ReplaceOutcome(s: Chars, f: Chars, repl: Chars, largestBlock: nat): Outcome {
    if f == [] then Receiver
    else
      var size := ComputedSize(|s|, |f|, |repl|, Count(s, f, 0));
      if size + 1 > largestBlock then Receiver else Filled(s, f, repl, size)
  }

  /** Given a block, the new string is the split source joined with the replacement exactly when that is
      shorter than 2^31 characters. */
  lemma ReplaceRightIff(s: Chars, f: Chars, repl: Chars, largestBlock: nat)
    requires 0 < |f| && ReplaceOutcome(s, f, repl, largestBlock) != Receiver
    ensures ReplaceOutcome(s, f, repl, largestBlock) == NewString(Join(Split(s, f, 0), repl))
       <==> |Join(Split(s, f, 0), repl)| < TWO31
  {
    ReplaceIsSplitJoin(s, f, repl, 0);
    SizeExactIff(s, f, repl);
    var size := ComputedSize(|s|, |f|, |repl|, Count(s, f, 0));
    if |Replaced(s, f, repl, 0)| < TWO31 {
      FillIsReplaced(s, f, repl, 0, 0, size);
    } else {
      ComputedBelow(|s|, |f|, |repl|, Count(s, f, 0));
    }
  }

  lemma ComputedBelow(srcLen: nat, findLen: nat, replLen: nat, matchCount: nat)
    ensures ComputedSize(srcLen, findLen, replLen, matchCount) < TWO31
  {
  }

  /** A run of matches of one character is counted, and in a block of one cell leaves nothing. */
  lemma {:induction false} RunOfMatches(s: Chars, c: byte, repl: Chars, i: nat, n: nat)
    requires i <= n <= |s| && forall k :: i <= k < n ==> s[k] == c
    ensures Count(s, [c], i) == n - i + Count(s, [c], n)
    ensures FillText(s, [c], repl, i, 0, 0) == FillText(s, [c], repl, n, 0, 0)
    decreases n - i
  {
    if i < n {
      RunOfMatches(s, c, repl, i + 1, n);
      assert s[i..i + 1] == [c];
      assert Clipped(repl, 0, 0) == [];
    }
  }

  function Copies(c: byte, n: nat): (s: Chars)
    ensures |s| == n && forall k :: 0 <= k < n ==> s[k] == c
  {
    seq(n, _ => c)
  }

  /** 50000 characters, each to be replaced by 50000: the size wraps to 0, the new string is empty, and a
      character behind the last match is written outside the block. */
  lemma WrappedSize(repl: Chars, largestBlock: nat)
    requires |repl| == 50000 && largestBlock > 0
    ensures ReplaceOutcome(Copies(97, 50000), [97], repl, largestBlock) == NewString([])
    ensures ReplaceOutcome(Copies(97, 50000) + [98], [97], repl, largestBlock) == Overrun
  {
    var s := Copies(97, 50000);
    var t := s + [98];
    RunOfMatches(s, 97, repl, 0, |s|);
    RunOfMatches(t, 97, repl, 0, |s|);
    assert !MatchAt(t, [97], |s|) by {
      assert t[|s|] == 98;
    }
    assert Wrap(2499950000) == 2499950000 - 4294967296;
    assert ComputedSize(|s|, 1, |repl|, |s|) == 0 && ComputedSize(|t|, 1, |repl|, |s|) == 0;
  }

  /** Append a replacement to the buffer, but never up to or past its last cell. */
  method AppendClipped(result: array<byte>, at: nat, chars: seq<byte>, count: nat) returns (ri: nat)
    requires 0 < result.Length && at <= result.Length && count <= |chars|
    modifies result
    ensures ri <= result.Length
    ensures result[..ri] == old(result[..at]) + Clipped(chars[..count], at, result.Length - 1)
  {
    ri := at;
    var j := 0;
    while j < count && ri < result.Length - 1
      invariant 0 <= j <= count && ri == at + j <= result.Length
      invariant ri == at || ri < result.Length
      invariant result[..ri] == old(result[..at]) + chars[..j]
    {
      result[ri] := chars[j];
      ri := ri + 1;
      j := j + 1;
    }
    assert chars[..count][..j] == chars[..j];
  }

  /** The text so far, and what the second pass will add to it. */
  ghost predicate Filling(out: Chars, s: Chars, f: Chars, repl: Chars, si: nat, size: nat)
    requires 0 < |f|
  {
    si <= |s| && out + FillText(s, f, repl, si, |out|, size) == FillText(s, f, repl, 0, 0, size)
  }

  lemma FillBegins(s: Chars, f: Chars, repl: Chars, size: nat)
    requires 0 < |f|
    ensures Filling([], s, f, repl, 0, size)
  {
  }

  lemma FillNext(out: Chars, s: Chars, f: Chars, repl: Chars, si: nat, size: nat)
    requires 0 < |f| && si < |s| && Filling(out, s, f, repl, si, size)
    ensures MatchAt(s, f, si) ==> Filling(out + Clipped(repl, |out|, size), s, f, repl, si + |f|, size)
    ensures !MatchAt(s, f, si) ==> Filling(out + [s[si]], s, f, repl, si + 1, size)
    ensures |out| <= |FillText(s, f, repl, 0, 0, size)|
  {
    hide MatchAt, Clipped;
    if MatchAt(s, f, si) {
      var part := Clipped(repl, |out|, size);
      var rest := FillText(s, f, repl, si + |f|, |out| + |part|, size);
      assert out + (part + rest) == out + part + rest;
    } else {
      var rest := FillText(s, f, repl, si + 1, |out| + 1, size);
      assert out + ([s[si]] + rest) == out + [s[si]] + rest;
    }
  }

  lemma FillDone(out: Chars, s: Chars, f: Chars, repl: Chars, size: nat)
    requires 0 < |f| && Filling(out, s, f, repl, |s|, size)
    ensures out == FillText(s, f, repl, 0, 0, size)
  {
  }

  /** The second pass, in a block of the given size, until it is done or about to write behind the block. */
  method FillReplaced(src: seq<byte>, find: seq<byte>, repl: seq<byte>, needed: nat)
      returns (outcome: Outcome, result: array<byte>)
    requires CString(src) && CString(find) && CString(repl) && |Body(find)| > 0 && needed > 0
    ensures fresh(result) && result.Length == needed
    ensures outcome == Filled(Body(src), Body(find), Body(repl), needed - 1)
    ensures outcome.NewString? ==> |outcome.text| < needed && result[..|outcome.text| + 1] == outcome.text + [0]
  {
    hide MatchAt, CString, FillText, Filling, Clipped;
    var srcLen := CStrLen(src);
    var findLen := CStrLen(find);
    var replLen := CStrLen(repl);
    ghost var s, f, r, size := Body(src), Body(find), Body(repl), needed - 1;
    result := new byte[needed];
    var ri, si := 0, 0;
    FillBegins(s, f, r, size);
    while si < srcLen
      invariant 0 <= si <= srcLen && 0 <= ri <= needed
      invariant Filling(result[..ri], s, f, r, si, size)
      decreases srcLen - si
    {
      var here := false;
      if si + findLen <= srcLen {
        here := CStrStarts(src, si, find);
      }
      ghost var out := result[..ri];
      FillNext(out, s, f, r, si, size);
      if here {
        ri := AppendClipped(result, ri, repl, replLen);
        si := si + findLen;
      } else {
        if ri == needed {
          return Overrun, result;
        }
        result[ri] := src[si];
        ri := ri + 1;
        assert result[..ri] == out + [s[si]];
        si := si + 1;
      }
    }
    FillDone(result[..ri], s, f, r, size);
    if ri == needed {
      return Overrun, result;
    }
    outcome := NewString(result[..ri]);
    result[ri] := 0;
    assert result[..ri + 1] == result[..ri] + [0];
  }

  /** The whole method: it does what splitting the source and joining the components with the replacement
      does exactly below 2^31 characters. */
  method StringByReplacingOccurrences(src: seq<byte>, find: seq<byte>, repl: seq<byte>, largestBlock: nat)
      returns (outcome: Outcome)
    requires CString(src) && CString(find) && CString(repl)
    ensures outcome == ReplaceOutcome(Body(src), Body(find), Body(repl), largestBlock)
    ensures outcome != Receiver ==>
              var joined := Join(Split(Body(src), Body(find), 0), Body(repl));
              outcome == NewString(joined) <==> |joined| < TWO31
  {
    var findLen := CStrLen(find);
    if findLen == 0 {
      return Receiver;
    }
    var srcLen := CStrLen(src);
    var replLen := CStrLen(repl);
    var matchCount := CountMatches(src, find);
    var needed := ComputedSize(srcLen, findLen, replLen, matchCount) + 1;
    if needed > largestBlock {
      return Receiver;
    }
    var result;
    outcome, result := FillReplaced(src, find, repl, needed);
    ReplaceRightIff(Body(src), Body(find), Body(repl), largestBlock);
  }
}
