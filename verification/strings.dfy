/** The parts of Go's `strings` and `unicode` packages that the scraper relies on.
    A Go string is modelled as its sequence of Unicode code points. */
module Strings {

  /** Go's `unicode.IsSpace`: the Latin-1 spaces and, above U+00FF, the
      characters with the Unicode White_Space property. */
  predicate IsSpace(c: char) {
    var n := c as int;
    || n == 0x20 || 0x09 <= n <= 0x0D || n == 0x85 || n == 0xA0
    || n == 0x1680 || 0x2000 <= n <= 0x200A || n == 0x2028 || n == 0x2029
    || n == 0x202F || n == 0x205F || n == 0x3000
  }

  predicate IsNewline(c: char) {
    c == '\n'
  }

  predicate NoSpace(s: string) {
    forall i :: 0 <= i < |s| ==> !IsSpace(s[i])
  }

  predicate HasPrefix(s: string, p: string) {
    |p| <= |s| && s[..|p|] == p
  }

  // ---------------------------------------------------------------------------
  // Searching for one character

  /** `strings.Index(s, string(c))`. */
  function IndexOf(s: string, c: char): (r: int)
    ensures -1 <= r < |s|
    ensures r == -1 ==> c !in s
    ensures 0 <= r ==> s[r] == c && c !in s[..r]
    decreases |s|
  {
    if |s| == 0 then -1
    else if s[0] == c then 0
    else
      var i := IndexOf(s[1..], c);
      assert s == [s[0]] + s[1..];
      if i == -1 then -1
      else
        assert s[..i + 1] == [s[0]] + s[1..][..i];
        i + 1
  }

  /** `strings.LastIndex(s, string(c))`. */
  function LastIndex(s: string, c: char): (r: int)
    ensures -1 <= r < |s|
    ensures r == -1 ==> c !in s
    ensures 0 <= r ==> s[r] == c && c !in s[r + 1..]
    decreases |s|
  {
    if |s| == 0 then -1
    else if s[|s| - 1] == c then |s| - 1
    else
      var i := LastIndex(s[..|s| - 1], c);
      assert s == s[..|s| - 1] + [s[|s| - 1]];
      if i == -1 then -1
      else
        assert s[i + 1..] == s[..|s| - 1][i + 1..] + [s[|s| - 1]];
        i
  }

  /** `t` is what follows the last `c` in `s`: a suffix of `s` free of `c`
      that is either all of `s` or directly preceded by `c`. */
  predicate IsLastSegment(s: string, c: char, t: string) {
    && |t| <= |s|
    && t == s[|s| - |t|..]
    && c !in t
    && (|t| == |s| || s[|s| - |t| - 1] == c)
  }

  /** `s[strings.LastIndex(s, string(c)) + 1:]`. */
  function AfterLast(s: string, c: char): (t: string)
    ensures IsLastSegment(s, c, t)
    ensures c !in s ==> t == s
  {
    s[LastIndex(s, c) + 1..]
  }

  /** A string has exactly one last segment, so any description of it
      by `IsLastSegment` pins down `AfterLast`. */
  lemma LastSegmentUnique(s: string, c: char, t: string, u: string)
    requires IsLastSegment(s, c, t)
    requires IsLastSegment(s, c, u)
    ensures t == u
  {
  }

  /** A `c`-free tail after a `c` is the last segment, whatever precedes it. */
  lemma AfterLastOfAppend(prefix: string, c: char, tail: string)
    requires c !in tail
    ensures AfterLast(prefix + [c] + tail, c) == tail
  {
    var s := prefix + [c] + tail;
    assert s[|s| - |tail|..] == tail;
    assert s[|s| - |tail| - 1] == c;
    LastSegmentUnique(s, c, AfterLast(s, c), tail);
  }

  // ---------------------------------------------------------------------------
  // Split and Join

  /** `strings.Join(parts, sep)`. */
  function Join(parts: seq<string>, sep: string): string
    decreases |parts|
  {
    if |parts| == 0 then ""
    else if |parts| == 1 then parts[0]
    else parts[0] + sep + Join(parts[1..], sep)
  }

  /** The summed lengths of a sequence of strings. */
  function TotalLength(parts: seq<string>): nat
    decreases |parts|
  {
    if |parts| == 0 then 0 else |parts[0]| + TotalLength(parts[1..])
  }

  /** A join is as long as its parts together plus one separator between each pair. */
  lemma {:induction false} JoinLength(parts: seq<string>, sep: string)
    ensures |Join(parts, sep)| == TotalLength(parts) + (if |parts| == 0 then 0 else (|parts| - 1) * |sep|)
    decreases |parts|
  {
    if |parts| > 1 {
      JoinLength(parts[1..], sep);
    }
  }

  /** `strings.Split(s, string(c))`: the pieces between the occurrences of
      `c`, of which there is always at least one. */
  function Split(s: string, c: char): (parts: seq<string>)
    ensures |parts| >= 1
    ensures forall i :: 0 <= i < |parts| ==> c !in parts[i]
    decreases |s|
  {
    var i := IndexOf(s, c);
    if i == -1 then [s]
    else [s[..i]] + Split(s[i + 1..], c)
  }

  /** Joining the pieces of a split with the separator gives the string back. */
  lemma {:induction false} JoinOfSplit(s: string, c: char)
    ensures Join(Split(s, c), [c]) == s
    decreases |s|
  {
    var i := IndexOf(s, c);
    if i != -1 {
      var a, b := s[..i], s[i + 1..];
      assert s == a + [c] + b;
      JoinOfSplit(b, c);
      JoinCons(a, Split(b, c), [c]);
    }
  }

  /** Join of a longer list: the head, the separator, then the rest joined. */
  lemma JoinCons(a: string, rest: seq<string>, sep: string)
    requires |rest| > 0
    ensures Join([a] + rest, sep) == a + sep + Join(rest, sep)
  {
  }

  /** The first occurrence of `c` in `a + [c] + b` is the one after `a`, when `a` has none. */
  lemma IndexOfAfterFree(a: string, c: char, b: string)
    requires c !in a
    ensures IndexOf(a + [c] + b, c) == |a|
  {
    var s := a + [c] + b;
    assert s[|a|] == c;
  }

  /** Splitting what Join built, from pieces free of the separator, gives the pieces back. */
  lemma {:induction false} SplitOfJoin(parts: seq<string>, c: char)
    requires |parts| >= 1
    requires forall i :: 0 <= i < |parts| ==> c !in parts[i]
    ensures Split(Join(parts, [c]), c) == parts
    decreases |parts|
  {
    if |parts| > 1 {
      var rest := Join(parts[1..], [c]);
      var s := parts[0] + [c] + rest;
      assert Join(parts, [c]) == s;
      IndexOfAfterFree(parts[0], c, rest);
      assert s[..|parts[0]|] == parts[0];
      assert s[|parts[0]| + 1..] == rest;
      SplitOfJoin(parts[1..], c);
      assert parts == [parts[0]] + parts[1..];
    }
  }

  /** The last piece of a split is the last segment of the string. */
  lemma {:induction false} SplitLastIsLastSegment(s: string, c: char)
    ensures IsLastSegment(s, c, Last(Split(s, c)))
    decreases |s|
  {
    var i := IndexOf(s, c);
    if i != -1 {
      var a, b := s[..i], s[i + 1..];
      assert s == a + [c] + b;
      SplitOfCons(a, c, b);
      SplitLastIsLastSegment(b, c);
      LastOfCons(a, Split(b, c));
      LastSegmentOfTail(s, i + 1, c, Last(Split(b, c)));
    }
  }

  /** Splitting at a first `c` peels off the piece before it. */
  lemma SplitOfCons(a: string, c: char, b: string)
    requires c !in a
    ensures Split(a + [c] + b, c) == [a] + Split(b, c)
  {
    var s := a + [c] + b;
    IndexOfAfterFree(a, c, b);
    assert s[..|a|] == a;
    assert s[|a| + 1..] == b;
  }

  lemma LastOfCons<T>(x: T, xs: seq<T>)
    requires |xs| > 0
    ensures Last([x] + xs) == Last(xs)
  {
  }

  function Last<T>(xs: seq<T>): T
    requires |xs| > 0
  {
    xs[|xs| - 1]
  }

  /** The last segment of a tail that starts right after a `c` is the last segment of the whole. */
  lemma LastSegmentOfTail(s: string, k: nat, c: char, t: string)
    requires 0 < k <= |s| && s[k - 1] == c
    requires IsLastSegment(s[k..], c, t)
    ensures IsLastSegment(s, c, t)
  {
    var tail := s[k..];
    assert s[|s| - |t|..] == tail[|tail| - |t|..];
    assert |t| < |tail| ==> s[|s| - |t| - 1] == tail[|tail| - |t| - 1];
  }

  // ---------------------------------------------------------------------------
  // Fields

  /** Length of the run of non-space characters that starts `s`. */
  function TokenLength(s: string): (n: nat)
    ensures n <= |s|
    ensures NoSpace(s[..n])
    ensures n == |s| || IsSpace(s[n])
    decreases |s|
  {
    if |s| == 0 || IsSpace(s[0]) then 0
    else
      var n := 1 + TokenLength(s[1..]);
      assert s[..n] == [s[0]] + s[1..][..n - 1];
      n
  }

  /** `strings.Fields(s)`: the maximal runs of non-space characters, in order. */
  function Fields(s: string): (tokens: seq<string>)
    ensures forall i :: 0 <= i < |tokens| ==> |tokens[i]| > 0 && NoSpace(tokens[i])
    decreases |s|
  {
    if |s| == 0 then []
    else if IsSpace(s[0]) then Fields(s[1..])
    else
      var n := TokenLength(s);
      [s[..n]] + Fields(s[n..])
  }

  /** The concatenation of a sequence of strings. */
  function Concat(parts: seq<string>): string
    decreases |parts|
  {
    if |parts| == 0 then "" else parts[0] + Concat(parts[1..])
  }

  /** The non-space characters of `s`, in order. */
  function NonSpace(s: string): string
    decreases |s|
  {
    if |s| == 0 then ""
    else (if IsSpace(s[0]) then "" else [s[0]]) + NonSpace(s[1..])
  }

  lemma {:induction false} NonSpaceAppend(a: string, b: string)
    ensures NonSpace(a + b) == NonSpace(a) + NonSpace(b)
    decreases |a|
  {
    if |a| > 0 {
      assert (a + b)[1..] == a[1..] + b;
      NonSpaceAppend(a[1..], b);
    } else {
      assert a + b == b;
    }
  }

  lemma {:induction false} NonSpaceOfToken(t: string)
    requires NoSpace(t)
    ensures NonSpace(t) == t
    decreases |t|
  {
    if |t| > 0 {
      NonSpaceOfToken(t[1..]);
      assert t == [t[0]] + t[1..];
    }
  }

  /** Fields loses exactly the white space: its tokens, laid end to end,
      are the non-space characters of the input. */
  lemma {:induction false} FieldsKeepNonSpace(s: string)
    ensures Concat(Fields(s)) == NonSpace(s)
    decreases |s|
  {
    if |s| > 0 {
      if IsSpace(s[0]) {
        FieldsKeepNonSpace(s[1..]);
      } else {
        var n := TokenLength(s);
        FieldsKeepNonSpace(s[n..]);
        assert s == s[..n] + s[n..];
        NonSpaceAppend(s[..n], s[n..]);
        NonSpaceOfToken(s[..n]);
        var tokens := [s[..n]] + Fields(s[n..]);
        assert tokens[1..] == Fields(s[n..]);
      }
    }
  }

  lemma {:induction false} TokenLengthOfToken(t: string, rest: string)
    requires NoSpace(t)
    requires |rest| == 0 || IsSpace(rest[0])
    ensures TokenLength(t + rest) == |t|
    decreases |t|
  {
    if |t| == 0 {
      assert t + rest == rest;
    } else {
      assert (t + rest)[1..] == t[1..] + rest;
      TokenLengthOfToken(t[1..], rest);
    }
  }

  /** A token that is followed by nothing or by a space is read as one field. */
  lemma FieldsOfToken(t: string, rest: string)
    requires |t| > 0 && NoSpace(t)
    requires |rest| == 0 || IsSpace(rest[0])
    ensures Fields(t + rest) == [t] + Fields(rest)
  {
    var s := t + rest;
    TokenLengthOfToken(t, rest);
    assert s[..|t|] == t;
    assert s[|t|..] == rest;
  }

  /** White space before the first token is skipped. With FieldsOfToken
      and `Fields("") == []` this fixes Fields on every input: words break
      only at white space. */
  lemma FieldsSkipsSpace(c: char, s: string)
    requires IsSpace(c)
    ensures Fields([c] + s) == Fields(s)
  {
    assert ([c] + s)[1..] == s;
  }

  /** Fields undoes a single-space Join of tokens: `Fields` and `Join(_, " ")`
      are inverse on sequences of non-empty, space-free tokens. */
  lemma {:induction false} FieldsOfJoin(tokens: seq<string>)
    requires forall i :: 0 <= i < |tokens| ==> |tokens[i]| > 0 && NoSpace(tokens[i])
    ensures Fields(Join(tokens, " ")) == tokens
    decreases |tokens|
  {
    if |tokens| == 1 {
      FieldsOfToken(tokens[0], "");
      assert tokens[0] + "" == tokens[0];
    } else if |tokens| > 1 {
      var rest := Join(tokens[1..], " ");
      assert Join(tokens, " ") == tokens[0] + (" " + rest);
      FieldsOfJoin(tokens[1..]);
      FieldsOfToken(tokens[0], " " + rest);
      assert (" " + rest)[1..] == rest;
      assert tokens[0] + " " + rest == tokens[0] + (" " + rest);
      assert tokens == [tokens[0]] + tokens[1..];
    }
  }

  // ---------------------------------------------------------------------------
  // Trimming

  /** Number of leading characters of `s` that `drop` removes. */
  function LeadCount(s: string, drop: char -> bool): (n: nat)
    ensures n <= |s|
    ensures forall k :: 0 <= k < n ==> drop(s[k])
    ensures n == |s| || !drop(s[n])
    decreases |s|
  {
    if |s| == 0 || !drop(s[0]) then 0 else 1 + LeadCount(s[1..], drop)
  }

  /** Number of trailing characters of `s` that `drop` removes. */
  function TrailCount(s: string, drop: char -> bool): (n: nat)
    ensures n <= |s|
    ensures forall k :: |s| - n <= k < |s| ==> drop(s[k])
    ensures n == |s| || !drop(s[|s| - n - 1])
    decreases |s|
  {
    if |s| == 0 || !drop(s[|s| - 1]) then 0 else 1 + TrailCount(s[..|s| - 1], drop)
  }

  /** `strings.Trim` with the characters `drop` accepts as the cut set:
      `strings.Trim(s, "\n")` is `Trim(s, IsNewline)` and
      `strings.TrimSpace(s)` is `Trim(s, IsSpace)`. */
  function Trim(s: string, drop: char -> bool): (r: string)
    ensures |r| <= |s|
    ensures |r| == 0 || (!drop(r[0]) && !drop(r[|r| - 1]))
  {
    var i := LeadCount(s, drop);
    var j := |s| - TrailCount(s[i..], drop);
    s[i..j]
  }

  /** Trim removes exactly a dropped border: whatever dropped characters
      surround a middle whose ends are kept, Trim returns that middle. */
  lemma TrimWrapped(a: string, m: string, b: string, drop: char -> bool)
    requires forall k :: 0 <= k < |a| ==> drop(a[k])
    requires forall k :: 0 <= k < |b| ==> drop(b[k])
    requires |m| == 0 || (!drop(m[0]) && !drop(m[|m| - 1]))
    ensures Trim(a + m + b, drop) == m
  {
    var s := a + m + b;
    if |m| == 0 {
      assert s == s + "";
      LeadCountOfDropped(s, "", drop);
    } else {
      assert s == a + (m + b);
      LeadCountOfDropped(a, m + b, drop);
      var rest := s[|a|..];
      assert rest == m + b;
      TrailCountOfDropped(m, b, drop);
      assert s[|a|..|s| - |b|] == m;
    }
  }

  /** A string whose ends are kept is its own trim. */
  lemma TrimKept(m: string, drop: char -> bool)
    requires |m| == 0 || (!drop(m[0]) && !drop(m[|m| - 1]))
    ensures Trim(m, drop) == m
  {
  }

  /** LeadCount stops exactly at the first kept character. */
  lemma {:induction false} LeadCountOfDropped(a: string, m: string, drop: char -> bool)
    requires forall k :: 0 <= k < |a| ==> drop(a[k])
    requires |m| == 0 || !drop(m[0])
    ensures LeadCount(a + m, drop) == |a|
    decreases |a|
  {
    if |a| == 0 {
      assert a + m == m;
    } else {
      assert (a + m)[1..] == a[1..] + m;
      LeadCountOfDropped(a[1..], m, drop);
    }
  }

  /** TrailCount stops exactly at the last kept character. */
  lemma {:induction false} TrailCountOfDropped(m: string, b: string, drop: char -> bool)
    requires forall k :: 0 <= k < |b| ==> drop(b[k])
    requires |m| == 0 || !drop(m[|m| - 1])
    ensures TrailCount(m + b, drop) == |b|
    decreases |b|
  {
    if |b| == 0 {
      assert m + b == m;
    } else {
      var s := m + b;
      assert s[..|s| - 1] == m + b[..|b| - 1];
      TrailCountOfDropped(m, b[..|b| - 1], drop);
    }
  }

  /** `strings.TrimPrefix(s, p)`: drops one leading `p` if there is one. */
  function TrimPrefix(s: string, p: string): (r: string)
    ensures HasPrefix(s, p) ==> p + r == s
    ensures !HasPrefix(s, p) ==> r == s
  {
    if HasPrefix(s, p) then s[|p|..] else s
  }
}
