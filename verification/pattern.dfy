/** The one regular expression the search scraper uses,
    `Updated : (.+?)View : (.+)`, under Go's `regexp` semantics for
    `FindStringSubmatch`: the match that starts leftmost wins; at that start the
    lazy first group is as short as possible; `.` matches any character but a
    newline; the greedy second group runs to the end of its line. */
module Pattern {
  import opened Wrappers

  const UpdatedLit: string := "Updated : "
  const ViewLit: string := "View : "

  predicate NoNewline(s: string, lo: nat, hi: nat)
    requires lo <= hi <= |s|
  {
    forall k :: lo <= k < hi ==> s[k] != '\n'
  }

  /** `View : (.+)` can match starting at `e`. */
  predicate ViewAt(s: string, e: nat) {
    e + |ViewLit| < |s| && s[e..e + |ViewLit|] == ViewLit && s[e + |ViewLit|] != '\n'
  }

  /** The pattern matches starting at `p` with the first group ending at `e`. */
  predicate MatchAt(s: string, p: nat, e: nat) {
    && p + |UpdatedLit| < e <= |s|
    && s[p..p + |UpdatedLit|] == UpdatedLit
    && NoNewline(s, p + |UpdatedLit|, e)
    && ViewAt(s, e)
  }

  /** The match Go's leftmost-first engine reports: no match starts earlier,
      and none at the same start has a shorter first group. */
  ghost predicate IsReported(s: string, p: nat, e: nat) {
    && MatchAt(s, p, e)
    && (forall q: nat, e': nat :: q < p ==> !MatchAt(s, q, e'))
    && (forall e': nat :: e' < e ==> !MatchAt(s, p, e'))
  }

  /** There is at most one reported match. */
  lemma ReportedUnique(s: string, p: nat, e: nat, p': nat, e': nat)
    requires IsReported(s, p, e) && IsReported(s, p', e')
    ensures p == p' && e == e'
  {
  }

  /** The shortest first group for a match starting at `p`, trying ends from `e` on. */
  function LazyEnd(s: string, p: nat, e: nat): (r: Option<nat>)
    requires p + |UpdatedLit| < e <= |s|
    requires NoNewline(s, p + |UpdatedLit|, e)
    ensures r.Some? ==> e <= r.value <= |s| && NoNewline(s, p + |UpdatedLit|, r.value) && ViewAt(s, r.value)
    ensures r.Some? ==> forall e': nat :: e <= e' < r.value ==> !ViewAt(s, e')
    ensures r.None? ==> forall e': nat :: e <= e' <= |s| && NoNewline(s, p + |UpdatedLit|, e') ==> !ViewAt(s, e')
    decreases |s| - e
  {
    if ViewAt(s, e) then Some(e)
    else if e < |s| && s[e] != '\n' then LazyEnd(s, p, e + 1)
    else None
  }

  /** The leftmost match starting at or after `p`, as (start, end of first group). */
  function FindFrom(s: string, p: nat): (r: Option<(nat, nat)>)
    ensures r.Some? ==> p <= r.value.0 && MatchAt(s, r.value.0, r.value.1)
    ensures r.Some? ==> forall q: nat, e': nat :: p <= q < r.value.0 ==> !MatchAt(s, q, e')
    ensures r.Some? ==> forall e': nat :: e' < r.value.1 ==> !MatchAt(s, r.value.0, e')
    ensures r.None? ==> forall q: nat, e': nat :: p <= q ==> !MatchAt(s, q, e')
    decreases |s| - p
  {
    if p + |UpdatedLit| >= |s| then None
    else if s[p..p + |UpdatedLit|] == UpdatedLit && s[p + |UpdatedLit|] != '\n' then
      match LazyEnd(s, p, p + |UpdatedLit| + 1)
      case Some(e) => Some((p, e))
      case None => FindFrom(s, p + 1)
    else FindFrom(s, p + 1)
  }

  /** The reported match, as (start, end of the first group), if the pattern matches at all. */
  function Reported(s: string): (r: Option<(nat, nat)>)
    ensures r.None? <==> forall p: nat, e: nat :: !MatchAt(s, p, e)
    ensures r.Some? ==> IsReported(s, r.value.0, r.value.1)
  {
    FindFrom(s, 0)
  }

  /** The text of the lazy first group of a match. */
  function Group1(s: string, p: nat, e: nat): string
    requires MatchAt(s, p, e)
  {
    s[p + |UpdatedLit|..e]
  }

  /** The text of the greedy second group of a match: to the end of its line. */
  function Group2(s: string, p: nat, e: nat): string
    requires MatchAt(s, p, e)
  {
    var g := e + |ViewLit|;
    s[g..LineEnd(s, g)]
  }

  /** `View : ` starts with a `V`. */
  lemma ViewAtStartsWithV(s: string, e: nat)
    requires ViewAt(s, e)
    ensures s[e] == 'V'
  {
  }

  /** Where `.+` starting at `q` stops: the next newline, or the end. */
  function LineEnd(s: string, q: nat): (r: nat)
    requires q <= |s|
    ensures q <= r <= |s| && NoNewline(s, q, r)
    ensures r == |s| || s[r] == '\n'
    decreases |s| - q
  {
    if q == |s| || s[q] == '\n' then q else LineEnd(s, q + 1)
  }

  /** `regexp.FindStringSubmatch` for this pattern: the two groups of the
      reported match, or None when the pattern matches nowhere in `s`. */
  function Submatch(s: string): (r: Option<(string, string)>)
    ensures r.None? <==> forall p: nat, e: nat :: !MatchAt(s, p, e)
    ensures forall p: nat, e: nat :: IsReported(s, p, e) ==> r == Some((Group1(s, p, e), Group2(s, p, e)))
  {
    match Reported(s)
    case None => None
    case Some((p, e)) =>
      forall p': nat, e': nat | IsReported(s, p', e')
        ensures p' == p && e' == e
      {
        ReportedUnique(s, p, e, p', e');
      }
      Some((Group1(s, p, e), Group2(s, p, e)))
  }

  /** `.+` over a newline-free tail runs to the end. */
  lemma LineEndOfLastLine(s: string, q: nat)
    requires q <= |s| && NoNewline(s, q, |s|)
    ensures LineEnd(s, q) == |s|
  {
  }

  /** The pieces of an `Updated : u View : v` line sit where the pattern expects them. */
  lemma LineShape(u: string, v: string)
    requires |u| > 0 && |v| > 0
    requires '\n' !in u && '\n' !in v
    ensures var s := UpdatedLit + u + ViewLit + v;
      var e := |UpdatedLit| + |u|;
      && MatchAt(s, 0, e)
      && s[|UpdatedLit|..e] == u
      && s[e + |ViewLit|..] == v
      && NoNewline(s, e + |ViewLit|, |s|)
  {
  }

  /** The leftmost match of a line whose first group can only end before `View : ` is at (0, e). */
  lemma FindFromOfLine(s: string, e: nat)
    requires MatchAt(s, 0, e)
    requires forall e': nat :: |UpdatedLit| < e' < e ==> !ViewAt(s, e')
    ensures FindFrom(s, 0) == Some((0, e))
  {
  }

  /** A well-behaved `Updated : u View : v` line: when no earlier `View : `
      could end the lazy group inside `u`, the groups are exactly `u` and `v`. */
  lemma SubmatchOfLine(u: string, v: string)
    requires |u| > 0 && |v| > 0
    requires '\n' !in u && '\n' !in v
    requires forall e: nat :: |UpdatedLit| < e < |UpdatedLit| + |u| ==> !ViewAt(UpdatedLit + u + ViewLit + v, e)
    ensures Submatch(UpdatedLit + u + ViewLit + v) == Some((u, v))
  {
    var s := UpdatedLit + u + ViewLit + v;
    var e := |UpdatedLit| + |u|;
    LineShape(u, v);
    LineEndOfLastLine(s, e + |ViewLit|);
    FindFromOfLine(s, e);
    assert s[e + |ViewLit|..|s|] == v;
    assert Submatch(s) == Some((s[|UpdatedLit|..e], s[e + |ViewLit|..|s|]));
  }
}
