/**
  A literal model of the one regular expression the reasoning parser compiles,
  `start(.*?)end` with DOTALL, for markers that hold no regex metacharacter.
  `findall` scans left to right; its first element is the group of the
  leftmost match, and a lazy `(.*?)` stops at the first `end` that follows the
  matched `start`.
*/
module Regex {
  import opened PyStr

  /** A match of `start(.*?)end` can begin at `p`: `start` occurs at `p` and
      `end` occurs somewhere in the text after that `start`. */
  predicate MatchesAt(t: string, start: string, end: string, p: int)
  {
    OccursAt(t, start, p) && Contains(t[p + |start|..], end)
  }

  /** The position of the leftmost match at or after `p`. */
  function FirstMatchFrom(t: string, start: string, end: string, p: nat): (r: Option<nat>)
    ensures r.Some? ==> p <= r.value && MatchesAt(t, start, end, r.value)
    decreases |t| - p
  {
    if p + |start| > |t| then None
    else if MatchesAt(t, start, end, p) then Some(p)
    else FirstMatchFrom(t, start, end, p + 1)
  }

  /** No match begins between `p` and the match `FirstMatchFrom` returns. */
  lemma {:induction false} FirstMatchLeftmost(t: string, start: string, end: string, p: nat, k: int)
    requires FirstMatchFrom(t, start, end, p).Some? && p <= k < FirstMatchFrom(t, start, end, p).value
    ensures !MatchesAt(t, start, end, k)
    decreases |t| - p
  {
    if k > p {
      FirstMatchLeftmost(t, start, end, p + 1, k);
    }
  }

  /** When `FirstMatchFrom` finds nothing, no match begins at or after `p`. */
  lemma {:induction false} FirstMatchNone(t: string, start: string, end: string, p: nat, k: int)
    requires FirstMatchFrom(t, start, end, p).None? && p <= k
    ensures !MatchesAt(t, start, end, k)
    decreases |t| - p
  {
    if p + |start| <= |t| && k > p {
      FirstMatchNone(t, start, end, p + 1, k);
    }
  }

  /** `re.compile(start(.*?)end, re.DOTALL).findall(t)[0]`, with `None`
      standing for the IndexError of an empty result list. There is a group
      exactly when some match exists; it begins right after the leftmost
      `start` that is followed by an `end`, and the lazy `(.*?)` makes it end
      at the first `end` after that `start`. */
  function FindAllFirst(t: string, start: string, end: string): (r: Option<string>)
    ensures r.Some? <==> FirstMatchFrom(t, start, end, 0).Some?
    ensures r.Some? ==>
              var g := FirstMatchFrom(t, start, end, 0).value + |start|;
              && OccursAt(t, end, g + |r.value|)
              && t[g..g + |r.value|] == r.value
              && forall j :: g <= j < g + |r.value| ==> !OccursAt(t, end, j)
  {
    match FirstMatchFrom(t, start, end, 0)
    case None => None
    case Some(p) =>
      var rest := t[p + |start|..];
      GroupInSuffix(t, p + |start|, end);
      Some(rest[..Find(rest, end, 0).value])
  }

  /** The text from `g` up to the first `end` found in the suffix `t[g..]`,
      read as positions of `t`. */
  lemma GroupInSuffix(t: string, g: nat, end: string)
    requires g <= |t| && Find(t[g..], end, 0).Some?
    ensures var q := Find(t[g..], end, 0).value;
            && OccursAt(t, end, g + q)
            && t[g..g + q] == t[g..][..q]
            && forall j :: g <= j < g + q ==> !OccursAt(t, end, j)
  {
    var rest := t[g..];
    var q := Find(rest, end, 0).value;
    assert t == t[..g] + rest;
    FindOccurs(rest, end, 0);
    OccursShift(t[..g], rest, end, q);
    forall j | g <= j < g + q ensures !OccursAt(t, end, j) {
      FindFirst(rest, end, 0, j - g);
      OccursShift(t[..g], rest, end, j - g);
    }
  }

  /** When `t` begins with `start`, the first match begins at 0 and its group
      runs up to the first `end` after that `start`. */
  lemma FindAllFirstAtStart(t: string, start: string, end: string, q: nat)
    requires OccursAt(t, start, 0)
    requires Find(t[|start|..], end, 0) == Some(q)
    ensures FindAllFirst(t, start, end) == Some(t[|start|..][..q])
  {
    assert MatchesAt(t, start, end, 0);
  }
}
