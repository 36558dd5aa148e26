/** Python's `str.split(sep)` for a non-empty separator, and an independent
    scanning reference for non-overlapping occurrences that the split is
    proved against. */
module Text {

  datatype Option<+T> = None | Some(value: T)

  /** `t` occurs in `s` starting at index `i`. */
  predicate IsAt(s: string, t: string, i: int)
  {
    0 <= i && i + |t| <= |s| && s[i..i + |t|] == t
  }

  /** Python's `t in s`. */
  ghost predicate Contains(s: string, t: string)
  {
    exists i :: IsAt(s, t, i)
  }

  /** No occurrence of `t` in `s` starts before index `n`. */
  ghost predicate ClearOf(s: string, t: string, n: int)
  {
    forall k :: 0 <= k < n ==> !IsAt(s, t, k)
  }

  lemma ShiftAll(s: string, t: string)
    requires |s| > 0
    ensures forall j {:trigger IsAt(s, t, j)} :: 1 <= j ==> (IsAt(s, t, j) <==> IsAt(s[1..], t, j - 1))
  {
    forall j | 1 <= j
      ensures IsAt(s, t, j) <==> IsAt(s[1..], t, j - 1)
    {
      if j + |t| <= |s| {
        var a, b := s[j..j + |t|], s[1..][j - 1..j - 1 + |t|];
        forall m | 0 <= m < |t|
          ensures a[m] == b[m]
        {
        }
        assert a == b;
      }
    }
  }

  /** An occurrence that lies inside a prefix of `s` is an occurrence in that prefix. */
  lemma IsAtPrefix(p: string, q: string, t: string, k: int)
    requires 0 <= k && k + |t| <= |p|
    ensures IsAt(p + q, t, k) <==> IsAt(p, t, k)
  {
    assert (p + q)[k..k + |t|] == p[k..k + |t|];
  }

  /** Leftmost occurrence of `t` in `s` (`s.find(t)`, with `None` for -1). */
  function Find(s: string, t: string): (r: Option<nat>)
    requires |t| > 0
    ensures r.Some? ==> IsAt(s, t, r.value) && ClearOf(s, t, r.value)
    ensures r.None? ==> !Contains(s, t)
    decreases |s|
  {
    if |s| < |t| then None
    else if s[..|t|] == t then Some(0)
    else
      ShiftAll(s, t);
      match Find(s[1..], t)
      case None => None
      case Some(i) => Some(i + 1)
  }

  /** `Find` returns the one occurrence that has no earlier one. */
  lemma FindIs(s: string, t: string, i: nat)
    requires |t| > 0
    requires IsAt(s, t, i) && ClearOf(s, t, i)
    ensures Find(s, t) == Some(i)
  {
    match Find(s, t)
    case None =>
    case Some(j) =>
  }

  /** `s.split(sep)`: the pieces between the non-overlapping occurrences of
      `sep`, found left to right. */
  function Split(s: string, sep: string): (pieces: seq<string>)
    requires |sep| > 0
    ensures |pieces| >= 1
    decreases |s|
  {
    match Find(s, sep)
    case None => [s]
    case Some(i) => [s[..i]] + Split(s[i + |sep|..], sep)
  }

  /** `sep.join(pieces)`. */
  function Join(pieces: seq<string>, sep: string): string
    requires |pieces| >= 1
  {
    if |pieces| == 1 then pieces[0] else pieces[0] + sep + Join(pieces[1..], sep)
  }

  /** Non-overlapping occurrences of `sep`, counted by scanning one character
      at a time (`s.count(sep)`). */
  function Count(s: string, sep: string): nat
    requires |sep| > 0
    decreases |s|
  {
    if |s| < |sep| then 0
    else if s[..|sep|] == sep then 1 + Count(s[|sep|..], sep)
    else Count(s[1..], sep)
  }

  /** What remains of `s` after its `n`-th non-overlapping occurrence of `sep`
      (the whole of `s` for n = 0), by the same scan as `Count`. */
  function Past(s: string, sep: string, n: nat): Option<string>
    requires |sep| > 0
    decreases |s|
  {
    if n == 0 then Some(s)
    else if |s| < |sep| then None
    else if s[..|sep|] == sep then Past(s[|sep|..], sep, n - 1)
    else Past(s[1..], sep, n)
  }

  /** Joining the pieces with the separator gives back the source. */
  lemma {:induction false} SplitJoin(s: string, sep: string)
    requires |sep| > 0
    ensures Join(Split(s, sep), sep) == s
    decreases |s|
  {
    match Find(s, sep)
    case None =>
    case Some(i) =>
      var rest := s[i + |sep|..];
      var pieces := Split(s, sep);
      assert pieces == [s[..i]] + Split(rest, sep);
      assert pieces[1..] == Split(rest, sep);
      SplitJoin(rest, sep);
      calc {
        Join(pieces, sep);
        pieces[0] + sep + Join(pieces[1..], sep);
        s[..i] + sep + rest;
        { assert s[i..i + |sep|] == sep; }
        s;
      }
  }

  /** No piece contains the separator. */
  lemma {:induction false} SplitPiecesFree(s: string, sep: string)
    requires |sep| > 0
    ensures forall k :: 0 <= k < |Split(s, sep)| ==> !Contains(Split(s, sep)[k], sep)
    decreases |s|
  {
    match Find(s, sep)
    case None =>
    case Some(i) =>
      var rest := s[i + |sep|..];
      SplitPiecesFree(rest, sep);
      PrefixFree(s, sep, i);
      assert Split(s, sep) == [s[..i]] + Split(rest, sep);
  }

  /** A prefix in which no separator starts does not contain one. */
  lemma PrefixFree(s: string, sep: string, i: nat)
    requires |sep| > 0 && i <= |s| && ClearOf(s, sep, i)
    ensures !Contains(s[..i], sep)
  {
    assert s == s[..i] + s[i..];
    forall j | 0 <= j && j + |sep| <= i
      ensures !IsAt(s[..i], sep, j)
    {
      assert !IsAt(s, sep, j);
      IsAtPrefix(s[..i], s[i..], sep, j);
    }
  }

  /** The first piece is the longest prefix in which no separator starts. */
  lemma SplitHead(s: string, sep: string)
    requires |sep| > 0
    ensures var h := Split(s, sep)[0];
      |h| <= |s| && h == s[..|h|] && ClearOf(s, sep, |h|)
      && (|h| == |s| || IsAt(s, sep, |h|))
  {
  }

  /** Scanning past characters where no separator starts does not change the
      count. */
  lemma {:induction false} ScanSkipCount(s: string, sep: string, k: nat)
    requires |sep| > 0 && k <= |s| && ClearOf(s, sep, k)
    ensures Count(s, sep) == Count(s[k..], sep)
    decreases k
  {
    if k > 0 && |s| >= |sep| {
      assert !IsAt(s, sep, 0);
      assert s[..|sep|] != sep;
      ClearShift(s, sep, k);
      ScanSkipCount(s[1..], sep, k - 1);
      assert s[1..][k - 1..] == s[k..];
    }
  }

  /** Scanning past characters where no separator starts does not change
      what follows the `n`-th occurrence. */
  lemma {:induction false} ScanSkipPast(s: string, sep: string, k: nat, n: nat)
    requires |sep| > 0 && k <= |s| && ClearOf(s, sep, k) && n >= 1
    ensures Past(s, sep, n) == Past(s[k..], sep, n)
    decreases k
  {
    if k > 0 && |s| >= |sep| {
      assert !IsAt(s, sep, 0);
      assert s[..|sep|] != sep;
      ClearShift(s, sep, k);
      ScanSkipPast(s[1..], sep, k - 1, n);
      assert s[1..][k - 1..] == s[k..];
    }
  }

  lemma ClearShift(s: string, sep: string, k: nat)
    requires |sep| > 0 && 0 < k <= |s| && ClearOf(s, sep, k)
    ensures ClearOf(s[1..], sep, k - 1)
  {
    ShiftAll(s, sep);
    forall j | 0 <= j < k - 1
      ensures !IsAt(s[1..], sep, j)
    {
      assert !IsAt(s, sep, j + 1);
    }
  }

  /** An occurrence at the front is counted and consumed. */
  lemma ScanHit(s: string, sep: string, n: nat)
    requires |sep| > 0 && IsAt(s, sep, 0) && n >= 1
    ensures Count(s, sep) == 1 + Count(s[|sep|..], sep)
    ensures Past(s, sep, n) == Past(s[|sep|..], sep, n - 1)
  {
    assert s[..|sep|] == s[0..|sep|];
  }

  /** Without any occurrence the scan finds nothing. */
  lemma ScanNone(s: string, sep: string, n: nat)
    requires |sep| > 0 && !Contains(s, sep) && n >= 1
    ensures Count(s, sep) == 0
    ensures Past(s, sep, n).None?
  {
    ScanSkipCount(s, sep, |s|);
    ScanSkipPast(s, sep, |s|, n);
    assert s[|s|..] == "";
  }

  /** The split has exactly one piece more than the source has occurrences. */
  lemma {:induction false} SplitCount(s: string, sep: string)
    requires |sep| > 0
    ensures |Split(s, sep)| == Count(s, sep) + 1
    decreases |s|
  {
    match Find(s, sep)
    case None =>
      ScanNone(s, sep, 1);
    case Some(i) =>
      ScanSkipCount(s, sep, i);
      ScanHit(s[i..], sep, 1);
      assert s[i..][|sep|..] == s[i + |sep|..];
      SplitCount(s[i + |sep|..], sep);
  }

  /** Piece `n` of the split is the first piece of what follows the `n`-th
      occurrence; the index is in range exactly when that occurrence exists. */
  lemma {:induction false} SplitPast(s: string, sep: string, n: nat)
    requires |sep| > 0
    ensures n < |Split(s, sep)| <==> Past(s, sep, n).Some?
    ensures n < |Split(s, sep)| ==> Split(s, sep)[n] == Split(Past(s, sep, n).value, sep)[0]
    decreases |s|
  {
    if n > 0 {
      match Find(s, sep)
      case None =>
        ScanNone(s, sep, n);
      case Some(i) =>
        var rest := s[i + |sep|..];
        SplitStep(s, sep, i, n);
        SplitPast(rest, sep, n - 1);
    }
  }

  /** Past the first occurrence, piece `n` and the `n`-th occurrence become
      piece and occurrence `n - 1` of the rest. */
  lemma SplitStep(s: string, sep: string, i: nat, n: nat)
    requires |sep| > 0 && Find(s, sep) == Some(i) && n >= 1
    ensures Past(s, sep, n) == Past(s[i + |sep|..], sep, n - 1)
    ensures |Split(s, sep)| == 1 + |Split(s[i + |sep|..], sep)|
    ensures n < |Split(s, sep)| ==> Split(s, sep)[n] == Split(s[i + |sep|..], sep)[n - 1]
  {
    assert Past(s, sep, n) == Past(s[i + |sep|..], sep, n - 1) by {
      ScanSkipPast(s, sep, i, n);
      ScanHit(s[i..], sep, n);
      assert s[i..][|sep|..] == s[i + |sep|..];
    }
    var rest := s[i + |sep|..];
    assert Split(s, sep) == [s[..i]] + Split(rest, sep);
  }

  /** There is an occurrence exactly when the scan counts at least one. */
  lemma CountPositive(s: string, sep: string)
    requires |sep| > 0
    ensures Count(s, sep) >= 1 <==> Contains(s, sep)
  {
    match Find(s, sep)
    case None =>
      ScanNone(s, sep, 1);
    case Some(i) =>
      ScanSkipCount(s, sep, i);
      ScanHit(s[i..], sep, 1);
  }

  /** What follows an occurrence is a suffix of the source, and for n >= 1 the
      separator stands right in front of it. */
  lemma {:induction false} PastSuffix(s: string, sep: string, n: nat)
    requires |sep| > 0 && Past(s, sep, n).Some?
    ensures var t := Past(s, sep, n).value;
      |t| <= |s| && t == s[|s| - |t|..]
      && (n >= 1 ==> |s| - |t| >= |sep| && IsAt(s, sep, |s| - |t| - |sep|))
    decreases |s|
  {
    if n > 0 {
      if s[..|sep|] == sep {
        if n > 1 {
          PastSuffix(s[|sep|..], sep, n - 1);
          var t := Past(s, sep, n).value;
          IsAtDrop(s, |sep|, sep, |s| - |sep| - |t| - |sep|);
        }
      } else {
        PastSuffix(s[1..], sep, n);
        var t := Past(s, sep, n).value;
        IsAtDrop(s, 1, sep, |s| - 1 - |t| - |sep|);
      }
    }
  }

  /** An occurrence in a suffix is an occurrence in the whole. */
  lemma IsAtDrop(s: string, m: nat, t: string, j: int)
    requires m <= |s| && IsAt(s[m..], t, j)
    ensures IsAt(s, t, j + m)
  {
    assert s[m..][j..j + |t|] == s[j + m..j + m + |t|];
  }

  /** A piece free of the separator followed by the separator splits off as
      the first piece. */
  lemma SplitCons(p: string, sep: string, t: string)
    requires |sep| > 0 && ClearOf(p + sep, sep, |p|)
    ensures Split(p + sep + t, sep) == [p] + Split(t, sep)
  {
    var s := p + sep + t;
    assert s == (p + sep) + t;
    IsAtPrefix(p + sep, t, sep, |p|);
    assert (p + sep)[|p|..|p| + |sep|] == sep;
    forall k | 0 <= k < |p|
      ensures !IsAt(s, sep, k)
    {
      IsAtPrefix(p + sep, t, sep, k);
    }
    FindIs(s, sep, |p|);
    assert s[..|p|] == p;
    assert s[|p| + |sep|..] == t;
  }
}
