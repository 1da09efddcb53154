/**
 * The continuation link of a paged response.  `_to` checks that the `link`
 * header contains `rel="next"`, then runs `Matcher.find()` with the pattern
 * `.*<(.*)>; rel="next"` and takes group 1.  This is not a Web Linking
 * (RFC 8288) parser: `.` stops at line terminators, the leading `.*` is
 * greedy (the LAST suitable `<` wins) and so is the group (the LAST
 * `>; rel="next"` after it wins).
 *
 * `Selected` states declaratively which match `find()` reports; `NextLink`
 * computes it by scanning line by line, and `NextLinkSelects` proves the two
 * agree.
 */
module LinkHeader {
  import opened Wire

  const Marker: string := ">; rel=\"next\""

  /** The characters `.` does not match (no DOTALL, no UNIX_LINES). */
  predicate LineTerminator(c: char) {
    c == '\n' || c == '\r' || c == '\U{85}' || c == '\U{2028}' || c == '\U{2029}'
  }

  /** `.*` can consume `s[from..to]`. */
  predicate Dots(s: string, from: int, to: int)
    requires 0 <= from <= to <= |s|
  {
    forall k :: from <= k < to ==> !LineTerminator(s[k])
  }

  /** `t` occurs in `s` at position `k`. */
  predicate OccursAt(s: string, t: string, k: int) {
    0 <= k && k + |t| <= |s| && s[k..k + |t|] == t
  }

  predicate MarkerAt(s: string, j: int) {
    OccursAt(s, Marker, j)
  }

  /** The pattern, tried from `start`, matches with `<` at `i` and the group ending at `j`. */
  predicate MatchFrom(s: string, start: int, i: int, j: int) {
    0 <= start <= i < j && MarkerAt(s, j) && s[i] == '<' && Dots(s, start, i) && Dots(s, i + 1, j)
  }

  /**
   * The match `find()` reports: the first start position from which the
   * pattern matches; from there the longest prefix, then the longest group.
   */
  ghost predicate Selected(s: string, start: int, i: int, j: int) {
    && MatchFrom(s, start, i, j)
    && (forall st, i', j' :: 0 <= st < start ==> !MatchFrom(s, st, i', j'))
    && (forall i', j' :: MatchFrom(s, start, i', j') ==> i' < i || (i' == i && j' <= j))
  }

  /** First line terminator at or after `from`, or the end of the text. */
  function LineEnd(s: string, from: nat): (e: nat)
    requires from <= |s|
    ensures from <= e <= |s| && Dots(s, from, e)
    ensures e < |s| ==> LineTerminator(s[e])
    decreases |s| - from
  {
    if from == |s| || LineTerminator(s[from]) then from else LineEnd(s, from + 1)
  }

  /** Last position in `[lo, hi)` where the marker starts. */
  function LastMarker(s: string, lo: nat, hi: nat): (r: Option<nat>)
    requires lo <= hi
    ensures r.Some? ==> lo <= r.value < hi && MarkerAt(s, r.value)
    ensures r.Some? ==> forall j :: r.value < j < hi ==> !MarkerAt(s, j)
    ensures r.None? ==> forall j :: lo <= j < hi ==> !MarkerAt(s, j)
    decreases hi - lo
  {
    if lo == hi then None
    else if MarkerAt(s, hi - 1) then Some(hi - 1)
    else LastMarker(s, lo, hi - 1)
  }

  /** Last position in `[lo, hi)` holding `<`. */
  function LastOpen(s: string, lo: nat, hi: nat): (r: Option<nat>)
    requires lo <= hi <= |s|
    ensures r.Some? ==> lo <= r.value < hi && s[r.value] == '<'
    ensures r.Some? ==> forall i :: r.value < i < hi ==> s[i] != '<'
    ensures r.None? ==> forall i :: lo <= i < hi ==> s[i] != '<'
    decreases hi - lo
  {
    if lo == hi then None
    else if s[hi - 1] == '<' then Some(hi - 1)
    else LastOpen(s, lo, hi - 1)
  }

  /** Scans the lines from the one starting at `start`: (line start, `<` position, marker position). */
  function FindFrom(s: string, start: nat): Option<(nat, nat, nat)>
    requires start <= |s|
    decreases |s| - start
  {
    var e := LineEnd(s, start);
    var found :=
      match LastMarker(s, start, e)
      case None => None
      case Some(j) =>
        match LastOpen(s, start, j)
        case None => None
        case Some(i) => Some((start, i, j));
    if found.Some? then found
    else if e == |s| then None
    else FindFrom(s, e + 1)
  }

  /** Group 1 of the match `find()` reports, or `None` when the pattern matches nowhere. */
  function NextLink(s: string): Option<string> {
    match FindFrom(s, 0)
    case None => None
    case Some((_, i, j)) => if i < j <= |s| then Some(s[i + 1..j]) else None
  }

  /** Whether `t` occurs in `s` at `k` or later. */
  function OccursFrom(s: string, t: string, k: nat): (r: bool)
    ensures r <==> exists m :: k <= m && OccursAt(s, t, m)
    decreases |s| - k
  {
    if k + |t| > |s| then false else OccursAt(s, t, k) || OccursFrom(s, t, k + 1)
  }

  /** `String.contains`. */
  function Contains(s: string, t: string): (r: bool)
    ensures r <==> exists k :: OccursAt(s, t, k)
  {
    OccursFrom(s, t, 0)
  }

  // ---------------------------------------------------------------------------
  // Correctness of the scan

  /** A match tried from the start of a line lies inside that line. */
  lemma MatchInLine(s: string, start: nat, i: int, j: int)
    requires start <= |s| && MatchFrom(s, start, i, j)
    ensures j < LineEnd(s, start)
  {
    assert forall k :: start <= k < j ==> !LineTerminator(s[k]);
    assert s[j] == Marker[0];
  }

  /** A match tried from inside a line also matches from the line's start. */
  lemma LaterStart(s: string, start: nat, st: int, i: int, j: int)
    requires start <= |s| && start <= st <= LineEnd(s, start) && MatchFrom(s, st, i, j)
    ensures MatchFrom(s, start, i, j)
  {
    assert forall k :: start <= k < i ==> !LineTerminator(s[k]);
  }

  /** When the scan finds nothing in the line starting at `start`, no match starts anywhere in it. */
  lemma NoMatchInLine(s: string, start: nat)
    requires start <= |s|
    requires var e := LineEnd(s, start);
      LastMarker(s, start, e).None? || LastOpen(s, start, LastMarker(s, start, e).value).None?
    ensures forall st, i, j :: start <= st <= LineEnd(s, start) ==> !MatchFrom(s, st, i, j)
  {
    forall st, i, j | start <= st <= LineEnd(s, start) ensures !MatchFrom(s, st, i, j) {
      if MatchFrom(s, st, i, j) {
        LaterStart(s, start, st, i, j);
        MatchInLine(s, start, i, j);
      }
    }
  }

  /** The last `<` before the last marker of the line is the greedy choice among matches from `start`. */
  lemma Greedy(s: string, start: nat, i: nat, j: nat)
    requires start <= |s|
    requires LastMarker(s, start, LineEnd(s, start)) == Some(j)
    requires LastOpen(s, start, j) == Some(i)
    ensures MatchFrom(s, start, i, j)
    ensures forall i', j' :: MatchFrom(s, start, i', j') ==> i' < i || (i' == i && j' <= j)
  {
    forall i', j' | MatchFrom(s, start, i', j') ensures i' < i || (i' == i && j' <= j) {
      MatchInLine(s, start, i', j');
    }
  }

  /** A scan result is right: the selected match, or nothing when no match exists. */
  ghost predicate Explains(s: string, r: Option<(nat, nat, nat)>) {
    match r
    case Some((st, i, j)) => Selected(s, st, i, j)
    case None => forall st, i, j :: !MatchFrom(s, st, i, j)
  }

  /** Scanning from a line start before which no match starts finds the selected match, or correctly nothing. */
  lemma {:induction false} FindFromSelects(s: string, start: nat)
    requires start <= |s|
    requires forall st, i, j :: 0 <= st < start ==> !MatchFrom(s, st, i, j)
    ensures Explains(s, FindFrom(s, start))
    decreases |s| - start
  {
    var e := LineEnd(s, start);
    var lm := LastMarker(s, start, e);
    if lm.Some? && LastOpen(s, start, lm.value).Some? {
      LineFound(s, start);
    } else {
      LineSkipped(s, start);
      if e < |s| {
        FindFromSelects(s, e + 1);
      } else {
        NoMatchPastEnd(s);
      }
    }
  }

  /** A match in the line starting at `start` is the one the scan reports. */
  lemma LineFound(s: string, start: nat)
    requires start <= |s|
    requires forall st, i, j :: 0 <= st < start ==> !MatchFrom(s, st, i, j)
    requires var lm := LastMarker(s, start, LineEnd(s, start));
      lm.Some? && LastOpen(s, start, lm.value).Some?
    ensures FindFrom(s, start).Some? && Explains(s, FindFrom(s, start))
  {
    var j := LastMarker(s, start, LineEnd(s, start)).value;
    var i := LastOpen(s, start, j).value;
    assert FindFrom(s, start) == Some((start, i, j));
    Greedy(s, start, i, j);
  }

  /** Without a match in the line starting at `start`, the scan resumes after it. */
  lemma LineSkipped(s: string, start: nat)
    requires start <= |s|
    requires forall st, i, j :: 0 <= st < start ==> !MatchFrom(s, st, i, j)
    requires var lm := LastMarker(s, start, LineEnd(s, start));
      lm.None? || LastOpen(s, start, lm.value).None?
    ensures LineEnd(s, start) < |s| ==> FindFrom(s, start) == FindFrom(s, LineEnd(s, start) + 1)
    ensures LineEnd(s, start) == |s| ==> FindFrom(s, start).None?
    ensures forall st, i, j :: 0 <= st <= LineEnd(s, start) ==> !MatchFrom(s, st, i, j)
  {
    NoMatchInLine(s, start);
  }

  /** No match starts after the end of the text. */
  lemma NoMatchPastEnd(s: string)
    ensures forall st, i, j :: |s| < st ==> !MatchFrom(s, st, i, j)
  {
    forall st, i, j | |s| < st ensures !MatchFrom(s, st, i, j) {
      assert j >= st ==> !MarkerAt(s, j);
    }
  }

  /** What the scan reports is a `<` followed later by the marker. */
  lemma {:induction false} FindFromMarker(s: string, start: nat)
    requires start <= |s|
    ensures FindFrom(s, start).Some? ==>
      var r := FindFrom(s, start).value;
      r.1 < r.2 && MarkerAt(s, r.2) && s[r.1] == '<'
    decreases |s| - start
  {
    var e := LineEnd(s, start);
    var lm := LastMarker(s, start, e);
    if lm.Some? && LastOpen(s, start, lm.value).Some? {
      var i := LastOpen(s, start, lm.value).value;
      assert FindFrom(s, start) == Some((start, i, lm.value));
    } else {
      assert FindFrom(s, start) == (if e == |s| then None else FindFrom(s, e + 1));
      if e < |s| {
        FindFromMarker(s, e + 1);
      }
    }
  }

  /** `NextLink` reports group 1 of exactly the match `find()` selects, and nothing when none exists. */
  lemma NextLinkSelects(s: string)
    ensures NextLink(s).None? <==> forall st, i, j :: !MatchFrom(s, st, i, j)
    ensures NextLink(s).Some? ==>
      exists st, i, j :: Selected(s, st, i, j) && NextLink(s).value == s[i + 1..j]
  {
    FindFromSelects(s, 0);
    match FindFrom(s, 0)
    case None =>
    case Some((st, i, j)) =>
      assert Selected(s, st, i, j);
  }

  /** The `contains("rel=\"next\"")` test never rejects a header the pattern matches. */
  lemma MatchImpliesContains(s: string)
    requires NextLink(s).Some?
    ensures Contains(s, "rel=\"next\"")
  {
    FindFromMarker(s, 0);
    var j := FindFrom(s, 0).value.2;
    assert s[j..j + 13] == Marker;
    assert s[j + 3..j + 13] == s[j..j + 13][3..];
    assert OccursAt(s, "rel=\"next\"", j + 3);
  }
}
