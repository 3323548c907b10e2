/**
  Models of the Python string builtins the reasoning parser is written with:
  the `in` operator on strings, `str.split` with an explicit separator and
  the open-ended slice `s[k:]`. `Find`, the leftmost-occurrence search, is
  the search behind `in` and `split`; `Join` (`sep.join`) is there only to
  state the round trip of `split`.
*/
module PyStr {

  datatype Option<T> = None | Some(value: T)

  /** `pat` occurs in `s` starting at index `i`. */
  predicate OccursAt(s: string, pat: string, i: int)
  {
    0 <= i && i + |pat| <= |s| && s[i..i + |pat|] == pat
  }

  /** `s.find(pat, from)`: the first index at or after `from` where `pat`
      occurs, with `None` standing for Python's -1. */
  function Find(s: string, pat: string, from: nat): (r: Option<nat>)
    ensures r.Some? ==> from <= r.value && r.value + |pat| <= |s|
    decreases |s| - from
  {
    if from + |pat| > |s| then None
    else if s[from..from + |pat|] == pat then Some(from)
    else Find(s, pat, from + 1)
  }

  /** `pat` occurs where `Find` says it does. */
  lemma {:induction false} FindOccurs(s: string, pat: string, from: nat)
    requires Find(s, pat, from).Some?
    ensures OccursAt(s, pat, Find(s, pat, from).value)
    decreases |s| - from
  {
    if s[from..from + |pat|] != pat {
      FindOccurs(s, pat, from + 1);
    }
  }

  /** The index `Find` returns is the first occurrence at or after `from`. */
  lemma {:induction false} FindFirst(s: string, pat: string, from: nat, j: int)
    requires Find(s, pat, from).Some? && from <= j < Find(s, pat, from).value
    ensures !OccursAt(s, pat, j)
    decreases |s| - from
  {
    if j > from {
      FindFirst(s, pat, from + 1, j);
    }
  }

  /** When `Find` returns `None`, `pat` occurs nowhere at or after `from`. */
  lemma {:induction false} FindNone(s: string, pat: string, from: nat, j: int)
    requires Find(s, pat, from).None? && from <= j
    ensures !OccursAt(s, pat, j)
    decreases |s| - from
  {
    if from + |pat| <= |s| && j > from {
      FindNone(s, pat, from + 1, j);
    }
  }

  /** `pat in s`: the search from 0 succeeds, which is exactly when `pat`
      occurs somewhere in `s`. */
  predicate Contains(s: string, pat: string): (b: bool)
    ensures b <==> exists i :: OccursAt(s, pat, i)
  {
    match Find(s, pat, 0)
    case Some(_) =>
      FindOccurs(s, pat, 0);
      true
    case None =>
      NoOccurrence(s, pat);
      false
  }

  /** Where the search from 0 finds nothing, `pat` occurs nowhere. */
  lemma NoOccurrence(s: string, pat: string)
    requires Find(s, pat, 0).None?
    ensures forall i :: !OccursAt(s, pat, i)
  {
    forall i ensures !OccursAt(s, pat, i) {
      if 0 <= i {
        FindNone(s, pat, 0, i);
      }
    }
  }

  /** An occurrence read in `b` is the same occurrence in `a + b`, shifted by `|a|`. */
  lemma OccursShift(a: string, b: string, pat: string, j: int)
    requires 0 <= j
    ensures OccursAt(a + b, pat, |a| + j) <==> OccursAt(b, pat, j)
  {
    if j + |pat| <= |b| {
      assert (a + b)[|a| + j..|a| + j + |pat|] == b[j..j + |pat|];
    }
  }

  /** The first occurrence at or after `from` is what `Find` returns. */
  lemma {:induction false} FindUnique(s: string, pat: string, from: nat, i: nat)
    requires from <= i && OccursAt(s, pat, i)
    requires forall j :: from <= j < i ==> !OccursAt(s, pat, j)
    ensures Find(s, pat, from) == Some(i)
    decreases i - from
  {
    if from < i {
      assert !OccursAt(s, pat, from);
      FindUnique(s, pat, from + 1, i);
    }
  }

  /** One differing character rules out an occurrence. */
  lemma Mismatch(s: string, pat: string, j: nat, n: nat)
    requires n < |pat| && j + n < |s| && s[j + n] != pat[n]
    ensures !OccursAt(s, pat, j)
  {
    if j + |pat| <= |s| {
      assert s[j..j + |pat|][n] != pat[n];
    }
  }

  /** An occurrence at `i` makes `Find` succeed, at `i` or before it. */
  lemma {:induction false} FindAtMost(s: string, pat: string, from: nat, i: int)
    requires from <= i && OccursAt(s, pat, i)
    ensures Find(s, pat, from).Some? && Find(s, pat, from).value <= i
    decreases i - from
  {
    if from < i && !OccursAt(s, pat, from) {
      FindAtMost(s, pat, from + 1, i);
    }
  }

  /** `s[k:]`: the suffix of `s` that starts at `k`; Python clamps an index
      past the end to the empty suffix. */
  function SliceFrom(s: string, k: nat): (r: string)
    ensures |r| == (if k <= |s| then |s| - k else 0)
    ensures s == s[..|s| - |r|] + r
  {
    if k <= |s| then s[k..] else ""
  }

  /** `s.split(sep)` for a non-empty separator: the pieces between successive
      non-overlapping occurrences of `sep`, found from left to right. */
  function Split(s: string, sep: string): (pieces: seq<string>)
    requires |sep| > 0
    ensures |pieces| >= 1
    ensures |pieces| == 1 <==> !Contains(s, sep)
  {
    SplitFrom(s, sep, 0)
  }

  /** The pieces of `s[from..]`, where the scan for separators starts at `from`. */
  function SplitFrom(s: string, sep: string, from: nat): (pieces: seq<string>)
    requires |sep| > 0 && from <= |s|
    ensures |pieces| >= 1
    ensures |pieces| == 1 <==> Find(s, sep, from).None?
    decreases |s| - from
  {
    match Find(s, sep, from)
    case None => [s[from..]]
    case Some(i) => [s[from..i]] + SplitFrom(s, sep, i + |sep|)
  }

  /** `sep.join(pieces)`. */
  function Join(pieces: seq<string>, sep: string): string
  {
    if pieces == [] then ""
    else if |pieces| == 1 then pieces[0]
    else pieces[0] + sep + Join(pieces[1..], sep)
  }

  /** When a separator is found at `i`, the first piece ends there and the
      scan resumes after it. */
  lemma SplitFromFound(s: string, sep: string, from: nat, i: nat)
    requires |sep| > 0 && from <= |s| && Find(s, sep, from) == Some(i)
    ensures SplitFrom(s, sep, from) == [s[from..i]] + SplitFrom(s, sep, i + |sep|)
  {
  }

  /** `sep.join([x] + tail)` for a non-empty `tail`. */
  lemma JoinCons(x: string, tail: seq<string>, sep: string)
    requires |tail| >= 1
    ensures Join([x] + tail, sep) == x + sep + Join(tail, sep)
  {
    assert ([x] + tail)[0] == x && ([x] + tail)[1..] == tail;
  }

  /** Joining the pieces with the separator gives back the text that was split. */
  lemma {:induction false} SplitFromJoin(s: string, sep: string, from: nat)
    requires |sep| > 0 && from <= |s|
    ensures Join(SplitFrom(s, sep, from), sep) == s[from..]
    decreases |s| - from
  {
    match Find(s, sep, from)
    case None =>
    case Some(i) =>
      var after := i + |sep|;
      var tail := SplitFrom(s, sep, after);
      assert SplitFrom(s, sep, from) == [s[from..i]] + tail by {
        SplitFromFound(s, sep, from, i);
      }
      assert Join(tail, sep) == s[after..] by {
        SplitFromJoin(s, sep, after);
      }
      assert OccursAt(s, sep, i) by {
        FindOccurs(s, sep, from);
      }
      JoinAround(s, sep, from, i, tail);
  }

  /** The piece before an occurrence at `i`, joined to pieces that rebuild the
      text after that occurrence, rebuilds the text from `from`. */
  lemma JoinAround(s: string, sep: string, from: nat, i: nat, tail: seq<string>)
    requires from <= i && OccursAt(s, sep, i) && |tail| >= 1
    requires Join(tail, sep) == s[i + |sep|..]
    ensures Join([s[from..i]] + tail, sep) == s[from..]
  {
    JoinCons(s[from..i], tail, sep);
    SliceAround(s, sep, from, i);
  }

  /** The text from `from` is the text up to an occurrence at `i`, the
      occurrence, and the text after it. */
  lemma SliceAround(s: string, pat: string, from: nat, i: nat)
    requires from <= i && OccursAt(s, pat, i)
    ensures s[from..] == s[from..i] + pat + s[i + |pat|..]
  {
    SliceConcat(s, from, i, i + |pat|);
  }

  /** Adjacent slices join into one. */
  lemma SliceConcat(s: string, a: nat, b: nat, c: nat)
    requires a <= b <= c <= |s|
    ensures s[a..] == s[a..b] + s[b..c] + s[c..]
    ensures s[a..c] == s[a..b] + s[b..c]
  {
    assert s[a..] == s[a..b] + s[b..];
    assert s[b..] == s[b..c] + s[c..];
  }

  /** `sep.join(s.split(sep)) == s`. */
  lemma {:induction false} SplitJoin(s: string, sep: string)
    requires |sep| > 0
    ensures Join(Split(s, sep), sep) == s
  {
    SplitFromJoin(s, sep, 0);
  }

  /** A piece that ends before the next separator does not contain the separator. */
  lemma {:induction false} SliceBeforeNext(s: string, pat: string, from: nat, i: nat)
    requires |pat| > 0 && from <= i <= |s|
    requires forall j :: from <= j < i ==> !OccursAt(s, pat, j)
    ensures !Contains(s[from..i], pat)
  {
    var piece := s[from..i];
    forall j | 0 <= j && j + |pat| <= |piece| ensures !OccursAt(piece, pat, j) {
      var inPiece, inText := piece[j..j + |pat|], s[from + j..from + j + |pat|];
      forall k | 0 <= k < |pat| ensures inPiece[k] == inText[k] {
        assert piece[j + k] == s[from + j + k];
      }
      assert inPiece == inText;
      assert !OccursAt(s, pat, from + j);
    }
  }

  /** The text before the first separator at or after `from` holds no separator. */
  lemma PieceBeforeFirstFree(s: string, sep: string, from: nat, i: nat)
    requires |sep| > 0 && from <= |s| && Find(s, sep, from) == Some(i)
    ensures !Contains(s[from..i], sep)
  {
    forall j | from <= j < i ensures !OccursAt(s, sep, j) {
      FindFirst(s, sep, from, j);
    }
    SliceBeforeNext(s, sep, from, i);
  }

  /** With no separator at or after `from`, the rest of `s` holds none. */
  lemma LastPieceFree(s: string, sep: string, from: nat)
    requires |sep| > 0 && from <= |s| && Find(s, sep, from).None?
    ensures !Contains(s[from..], sep)
  {
    forall j | from <= j < |s| ensures !OccursAt(s, sep, j) {
      FindNone(s, sep, from, j);
    }
    assert s[from..] == s[from..|s|];
    SliceBeforeNext(s, sep, from, |s|);
  }

  /** No piece holds `sep`. */
  predicate PiecesFree(pieces: seq<string>, sep: string)
  {
    forall k :: 0 <= k < |pieces| ==> !Contains(pieces[k], sep)
  }

  /** A separator-free piece in front of separator-free pieces. */
  lemma PiecesFreeCons(x: string, tail: seq<string>, sep: string)
    requires !Contains(x, sep) && PiecesFree(tail, sep)
    ensures PiecesFree([x] + tail, sep)
  {
    forall k | 0 <= k < |[x] + tail| ensures !Contains(([x] + tail)[k], sep) {
      if k > 0 {
        assert ([x] + tail)[k] == tail[k - 1];
      }
    }
  }

  /** No piece of a split contains the separator. */
  lemma {:induction false} SplitFromPiecesFree(s: string, sep: string, from: nat)
    requires |sep| > 0 && from <= |s|
    ensures PiecesFree(SplitFrom(s, sep, from), sep)
    decreases |s| - from
  {
    match Find(s, sep, from)
    case None =>
      assert SplitFrom(s, sep, from) == [s[from..]];
      LastPieceFree(s, sep, from);
    case Some(i) =>
      var tail := SplitFrom(s, sep, i + |sep|);
      assert SplitFrom(s, sep, from) == [s[from..i]] + tail by {
        SplitFromFound(s, sep, from, i);
      }
      assert PiecesFree([s[from..i]] + tail, sep) by {
        PieceBeforeFirstFree(s, sep, from, i);
        SplitFromPiecesFree(s, sep, i + |sep|);
        PiecesFreeCons(s[from..i], tail, sep);
      }
  }

  /** No piece of `s.split(sep)` contains `sep`. */
  lemma {:induction false} SplitPiecesFree(s: string, sep: string)
    requires |sep| > 0
    ensures PiecesFree(Split(s, sep), sep)
  {
    SplitFromPiecesFree(s, sep, 0);
  }

  /** The text from `after` up to the next occurrence of `sep`, or to the end. */
  function NextPiece(s: string, sep: string, after: nat): (r: string)
    requires after <= |s|
  {
    match Find(s, sep, after)
    case None => s[after..]
    case Some(j) => s[after..j]
  }

  /** The first two pieces of `s.split(sep)` when `sep` first occurs at `i`:
      the text before it, and the text from its end up to the next
      occurrence (or up to the end of `s` when there is no other). */
  lemma {:induction false} SplitFirstTwo(s: string, sep: string, i: nat)
    requires |sep| > 0 && Find(s, sep, 0) == Some(i)
    ensures |Split(s, sep)| >= 2
    ensures Split(s, sep)[0] == s[..i]
    ensures Split(s, sep)[1] == NextPiece(s, sep, i + |sep|)
  {
    assert Split(s, sep) == [s[0..i]] + SplitFrom(s, sep, i + |sep|);
  }

  /** An occurrence in `a` survives appending `b`. */
  lemma {:induction false} ContainsAppendRight(a: string, b: string, pat: string)
    requires Contains(a, pat)
    ensures Contains(a + b, pat)
  {
    var i := Find(a, pat, 0).value;
    FindOccurs(a, pat, 0);
    assert (a + b)[i..i + |pat|] == a[i..i + |pat|];
    FindAtMost(a + b, pat, 0, i);
  }

  /** An occurrence in `b` survives prepending `a`. */
  lemma {:induction false} ContainsAppendLeft(a: string, b: string, pat: string)
    requires Contains(b, pat)
    ensures Contains(a + b, pat)
  {
    var i := Find(b, pat, 0).value;
    FindOccurs(b, pat, 0);
    OccursShift(a, b, pat, i);
    FindAtMost(a + b, pat, 0, |a| + i);
  }

  /** `pat` occurs at most once in `s`. */
  ghost predicate AtMostOnce(s: string, pat: string)
  {
    forall i, j :: OccursAt(s, pat, i) && OccursAt(s, pat, j) ==> i == j
  }

  /** Splitting at a separator that occurs exactly once gives two pieces around it. */
  lemma {:induction false} SplitSingleOccurrence(s: string, sep: string)
    requires |sep| > 0 && Contains(s, sep) && AtMostOnce(s, sep)
    ensures |Split(s, sep)| == 2
    ensures Split(s, sep)[0] + sep + Split(s, sep)[1] == s
  {
    var i := Find(s, sep, 0).value;
    var after := i + |sep|;
    assert OccursAt(s, sep, i) by {
      FindOccurs(s, sep, 0);
    }
    assert SplitFrom(s, sep, after) == [s[after..]] by {
      if Find(s, sep, after).Some? {
        FindOccurs(s, sep, after);
      }
    }
    assert Split(s, sep) == [s[..i], s[after..]] by {
      SplitFromFound(s, sep, 0, i);
    }
    SliceAround(s, sep, 0, i);
  }
}
