/** The JavaScript string operations the launcher relies on, on `seq<char>`:
    occurrence of a substring, `indexOf` from a start index, the pieces of
    `split` and `Array.prototype.join`, with the facts about them that the
    theorems of module `Splitting` combine. */
module Strings {
  import opened Wrappers

  /** `t` occurs somewhere in `s`. */
  predicate Mentions(s: string, t: string) {
    exists k: nat :: k <= |s| && OccursAt(s, t, k)
  }

  /** Two texts placed among three others are both mentioned. */
  lemma MentionsBoth(p: string, x: string, q: string, y: string, r: string)
    ensures Mentions(p + x + q + y + r, x) && Mentions(p + x + q + y + r, y)
  {
    var m := p + x + q + y + r;
    assert m[|p|..|p| + |x|] == x;
    assert OccursAt(m, x, |p|);
    assert m[|p + x + q|..|p + x + q| + |y|] == y;
    assert OccursAt(m, y, |p + x + q|);
  }

  /** `sep` occurs in `s` starting at index `i`. */
  predicate OccursAt(s: string, sep: string, i: nat) {
    i + |sep| <= |s| && s[i..i + |sep|] == sep
  }

  /** The first occurrence of `sep` in `s` at or after `from`. */
  function Find(s: string, sep: string, from: nat): (r: Option<nat>)
    requires |sep| > 0 && from <= |s|
    ensures r.Some? ==> from <= r.value && OccursAt(s, sep, r.value)
    ensures r.Some? ==> forall j :: from <= j < r.value ==> !OccursAt(s, sep, j)
    ensures r.None? ==> forall j :: from <= j ==> !OccursAt(s, sep, j)
    decreases |s| - from
  {
    if from + |sep| > |s| then None
    else if OccursAt(s, sep, from) then Some(from)
    else Find(s, sep, from + 1)
  }

  /** `s[from..].split(sep)` for a non-empty separator: the pieces between
      the occurrences of `sep`, found left to right without overlapping.
      There is always a piece. */
  function SplitFrom(s: string, sep: string, from: nat): (parts: seq<string>)
    requires |sep| > 0 && from <= |s|
    ensures |parts| > 0
    decreases |s| - from
  {
    match Find(s, sep, from)
    case None => [s[from..]]
    case Some(i) => [s[from..i]] + SplitFrom(s, sep, i + |sep|)
  }

  /** JavaScript's `parts.join(sep)`. */
  function Join(parts: seq<string>, sep: string): string {
    if |parts| == 0 then ""
    else if |parts| == 1 then parts[0]
    else parts[0] + sep + Join(parts[1..], sep)
  }

  /** The positions at or after `from` where `sep` occurs in `s`. */
  function Positions(s: string, sep: string, from: nat): set<nat> {
    set i: nat | from <= i < |s| && OccursAt(s, sep, i)
  }

  /** No proper suffix of `sep` is also a prefix of it, so two occurrences
      of `sep` can never overlap. */
  predicate BorderFree(sep: string) {
    forall d :: 0 < d < |sep| ==> !IsBorder(sep, d)
  }

  /** The suffix of `sep` from `d` on is also a prefix of it. */
  predicate IsBorder(sep: string, d: nat)
    requires d <= |sep|
  {
    sep[d..] == sep[..|sep| - d]
  }

  /** Both end-of-line markers `os.EOL` can be are border-free. */
  lemma EolBorderFree()
    ensures BorderFree("\n") && BorderFree("\r\n")
  {
    assert "\r\n"[1..][0] != "\r\n"[..1][0];
  }

  /** Occurrences of a border-free separator are at least its length apart. */
  lemma NoOverlap(s: string, sep: string, i: nat, j: nat)
    requires BorderFree(sep) && OccursAt(s, sep, i) && OccursAt(s, sep, j) && i < j
    ensures i + |sep| <= j
  {
    if j < i + |sep| {
      OverlapIsBorder(s, sep, i, j);
      assert false;
    }
  }

  /** Two occurrences less than `|sep|` apart make a suffix of `sep` equal
      to a prefix of it. */
  lemma OverlapIsBorder(s: string, sep: string, i: nat, j: nat)
    requires OccursAt(s, sep, i) && OccursAt(s, sep, j) && i < j < i + |sep|
    ensures IsBorder(sep, j - i)
  {
    var k, d := |sep|, j - i;
    SliceOfSlice(s, i, i + k, d, k - d);
    SliceOfSlice(s, j, j + k, 0, k - d);
    assert sep[d..] == s[i..i + k][d..k];
    assert sep[..k - d] == s[j..j + k][0..k - d];
  }

  /** Joining a first piece onto at least one more puts the separator
      between them. */
  lemma JoinCons(first: string, rest: seq<string>, sep: string)
    requires |rest| > 0
    ensures Join([first] + rest, sep) == first + sep + Join(rest, sep)
  {
    assert ([first] + rest)[1..] == rest;
  }

  /** Past the first occurrence, at `i`, there is one piece less; `next`
      is the index just past that occurrence. */
  lemma PiecesAfterFirst(s: string, sep: string, from: nat, i: nat, next: nat)
    requires |sep| > 0 && from <= |s| && Find(s, sep, from) == Some(i) && next == i + |sep|
    ensures next <= |s|
    ensures |SplitFrom(s, sep, from)| == |SplitFrom(s, sep, next)| + 1
  {
  }

  /** Without an occurrence there are no positions. */
  lemma NoPositions(s: string, sep: string, from: nat)
    requires |sep| > 0 && from <= |s| && Find(s, sep, from).None?
    ensures Positions(s, sep, from) == {}
    ensures |SplitFrom(s, sep, from)| == 1
  {
    assert forall j :: j in Positions(s, sep, from) ==> OccursAt(s, sep, j);
  }

  /** With a border-free separator, the positions from `from` on are the
      first one, `i`, and the positions from `next`, just past the
      occurrence at `i`, so there is one more of them. */
  lemma PositionsAfterFirst(s: string, sep: string, from: nat, i: nat, next: nat)
    requires |sep| > 0 && from <= |s| && BorderFree(sep) && Find(s, sep, from) == Some(i)
    requires next == i + |sep|
    ensures |Positions(s, sep, from)| == |Positions(s, sep, next)| + 1
  {
    forall j | j in Positions(s, sep, from) ensures j == i || j in Positions(s, sep, next) {
      if j != i {
        NoOverlap(s, sep, i, j);
      }
    }
    assert Positions(s, sep, from) == {i} + Positions(s, sep, next);
    assert i !in Positions(s, sep, next);
  }

  /** A window of a slice is the matching window of the whole text. */
  lemma SliceOfSlice(s: string, lo: nat, hi: nat, j: nat, len: nat)
    requires lo <= hi <= |s| && lo + j + len <= hi
    ensures s[lo..hi][j..j + len] == s[lo + j..lo + j + len]
  {
    var a, b := s[lo..hi][j..j + len], s[lo + j..lo + j + len];
    forall t | 0 <= t < len ensures a[t] == b[t] {
      assert a[t] == s[lo..hi][j + t];
    }
  }
}
