/** How many pieces `split` yields: one more than the positions where a
    separator that cannot overlap itself occurs. */
module SplitCount {
  import opened Wrappers
  import opened Strings

  /** With a border-free separator, the number of pieces is the number of
      positions where the separator occurs, plus one. */
  lemma SplitFromCount(s: string, sep: string, from: nat)
    requires |sep| > 0 && from <= |s|
    ensures BorderFree(sep) ==> |SplitFrom(s, sep, from)| == |Positions(s, sep, from)| + 1
  {
    if BorderFree(sep) {
      PiecesCount(s, sep, from);
    }
  }

  lemma {:induction false} PiecesCount(s: string, sep: string, from: nat)
    requires |sep| > 0 && from <= |s| && BorderFree(sep)
    ensures |SplitFrom(s, sep, from)| == |Positions(s, sep, from)| + 1
    decreases |s| - from
  {
    match Find(s, sep, from)
    case None =>
      NoPositions(s, sep, from);
    case Some(i) =>
      var next := i + |sep|;
      PiecesAfterFirst(s, sep, from, i, next);
      PositionsAfterFirst(s, sep, from, i, next);
      PiecesCount(s, sep, next);
  }
}

/** `String.prototype.split` for a non-empty separator, as used on the
    output of `emulator -list-avds`: the pieces rebuild the text, none holds
    the separator, and their number follows the separator's occurrences. */
module Splitting {
  import opened Wrappers
  import opened Strings
  import opened SplitCount

  /** JavaScript's `s.split(sep)`: joining the pieces with `sep` gives back
      `s`, no piece contains `sep`, and for a separator that cannot overlap
      itself there is one piece more than there are occurrences of `sep`. */
  function Split(s: string, sep: string): (parts: seq<string>)
    requires |sep| > 0
    ensures Join(parts, sep) == s
    ensures forall k, j :: 0 <= k < |parts| ==> !OccursAt(parts[k], sep, j)
    ensures BorderFree(sep) ==> |parts| == |Positions(s, sep, 0)| + 1
  {
    JoinSplitFrom(s, sep, 0);
    SplitFromPiecesFree(s, sep, 0);
    SplitFromCount(s, sep, 0);
    SplitFrom(s, sep, 0)
  }

  /** Joining the pieces with the separator gives back the text. */
  lemma {:induction false} JoinSplitFrom(s: string, sep: string, from: nat)
    requires |sep| > 0 && from <= |s|
    ensures Join(SplitFrom(s, sep, from), sep) == s[from..]
    decreases |s| - from
  {
    match Find(s, sep, from)
    case None =>
    case Some(i) =>
      var next := i + |sep|;
      var rest := SplitFrom(s, sep, next);
      JoinSplitFrom(s, sep, next);
      assert SplitFrom(s, sep, from) == [s[from..i]] + rest;
      JoinCons(s[from..i], rest, sep);
      assert s[i..next] == sep;
      assert s[from..] == s[from..i] + s[i..next] + s[next..];
  }

  /** No piece contains the separator. */
  lemma {:induction false} SplitFromPiecesFree(s: string, sep: string, from: nat)
    requires |sep| > 0 && from <= |s|
    ensures forall k, j :: 0 <= k < |SplitFrom(s, sep, from)| ==> !OccursAt(SplitFrom(s, sep, from)[k], sep, j)
    decreases |s| - from
  {
    var parts := SplitFrom(s, sep, from);
    match Find(s, sep, from)
    case None =>
      forall j: nat ensures !OccursAt(s[from..], sep, j) {
        if j + |sep| <= |s| - from {
          SliceOfSlice(s, from, |s|, j, |sep|);
          assert !OccursAt(s, sep, from + j);
        }
      }
    case Some(i) =>
      SplitFromPiecesFree(s, sep, i + |sep|);
      forall j: nat ensures !OccursAt(s[from..i], sep, j) {
        if j + |sep| <= i - from {
          SliceOfSlice(s, from, i, j, |sep|);
          assert !OccursAt(s, sep, from + j);
        }
      }
      forall k, j | 0 <= k < |parts| ensures !OccursAt(parts[k], sep, j) {
        if k > 0 {
          assert parts[k] == SplitFrom(s, sep, i + |sep|)[k - 1];
        }
      }
  }
}
