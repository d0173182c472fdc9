// White space, and the places where a text may be cut for speech.
module TextBoundaries {
  import opened Wrappers

  predicate IsSpace(c: char) {
    var n := c as int;
    || 0x09 <= n <= 0x0D || 0x1C <= n <= 0x20 || n == 0x85 || n == 0xA0 || n == 0x1680
    || 0x2000 <= n <= 0x200A || n == 0x2028 || n == 0x2029 || n == 0x202F || n == 0x205F || n == 0x3000
  }

  predicate IsStop(c: char) {
    c in ".!?\U{3002}\U{FF01}\U{FF1F}\U{2026}"
  }

  predicate IsCloser(c: char) {
    c in "\"'\U{201D}\U{2019})"
  }

  predicate IsLineEnd(c: char) {
    c == '\r' || c == '\n'
  }

  predicate IsClauseMark(c: char) {
    c in ",\U{FF0C}\U{3001};\U{FF1B}:\U{FF1A}"
  }

  predicate AllSpace(s: string) {
    forall i :: 0 <= i < |s| ==> IsSpace(s[i])
  }

  // ---------- stripping ----------

  // How many characters from `i` on satisfy `p` without a break, as the end of that run.
  function RunEnd(s: string, i: nat, p: char -> bool): (end: nat)
    requires i <= |s|
    ensures i <= end <= |s|
    decreases |s| - i
  {
    if i < |s| && p(s[i]) then RunEnd(s, i + 1, p) else i
  }

  lemma {:induction false} RunEndIs(s: string, i: nat, p: char -> bool)
    requires i <= |s|
    ensures forall k :: i <= k < RunEnd(s, i, p) ==> p(s[k])
    ensures RunEnd(s, i, p) < |s| ==> !p(s[RunEnd(s, i, p)])
    decreases |s| - i
  {
    if i < |s| && p(s[i]) {
      RunEndIs(s, i + 1, p);
    }
  }

  lemma RunIsUnique(s: string, i: nat, p: char -> bool, e: nat)
    requires i <= e <= |s| && (forall k :: i <= k < e ==> p(s[k])) && (e < |s| ==> !p(s[e]))
    ensures RunEnd(s, i, p) == e
  {
    RunEndIs(s, i, p);
    var r := RunEnd(s, i, p);
    var stopsHere, goesOn := r < |s| && !p(s[r]), e < |s| && p(s[e]);
  }

  function Leading(s: string): nat {
    RunEnd(s, 0, IsSpace)
  }

  function LeftStrip(s: string): string {
    s[Leading(s)..]
  }

  // Where the trailing white space begins.
  function TrailingFrom(s: string): (end: nat)
    ensures end <= |s|
  {
    if s != [] && IsSpace(s[|s| - 1]) then TrailingFrom(s[..|s| - 1]) else |s|
  }

  lemma {:induction false} TrailingIs(s: string)
    ensures AllSpace(s[TrailingFrom(s)..])
    ensures TrailingFrom(s) > 0 ==> !IsSpace(s[TrailingFrom(s) - 1])
    decreases |s|
  {
    if s != [] && IsSpace(s[|s| - 1]) {
      TrailingIs(s[..|s| - 1]);
      var end := TrailingFrom(s);
      assert s[end..] == s[..|s| - 1][end..] + [s[|s| - 1]];
    }
  }

  function Strip(s: string): string {
    var t := s[..TrailingFrom(s)];
    t[Leading(t)..]
  }

  // A stripped text is the text without white space around it, and has none at its own ends.
  ghost predicate IsTrim(s: string, left: string, core: string, right: string) {
    && s == left + core + right && AllSpace(left) && AllSpace(right)
    && (core != [] ==> !IsSpace(core[0]) && !IsSpace(core[|core| - 1]))
  }

  lemma StripTrims(s: string) returns (left: string, right: string)
    ensures IsTrim(s, left, Strip(s), right)
    ensures Strip(s) != [] ==> left == s[..Leading(s)]
    ensures Strip(s) == [] <==> AllSpace(s)
  {
    var end := TrailingFrom(s);
    var t := s[..end];
    TrailingIs(s);
    RunEndIs(t, 0, IsSpace);
    left, right := t[..Leading(t)], s[end..];
    assert s == t + right && t == left + Strip(s);
    if Strip(s) != [] {
      SameLead(s, t);
    } else {
      assert AllSpace(s);
    }
    if AllSpace(s) && end > 0 {
      assert false;
    }
  }

  lemma SameLead(s: string, t: string)
    requires |t| <= |s| && t == s[..|t|] && Leading(t) < |t|
    ensures Leading(s) == Leading(t)
  {
    RunEndIs(t, 0, IsSpace);
    assert t[Leading(t)] == s[Leading(t)];
    assert forall k :: 0 <= k < Leading(t) ==> s[k] == t[k];
    RunIsUnique(s, 0, IsSpace, Leading(t));
  }

  // ---------- boundaries ----------

  datatype Pattern = Strong | Clause | Blank

  // Where the pattern's match beginning exactly at `i` ends.
  function MatchEnd(p: Pattern, s: string, i: nat): (r: Option<nat>)
    requires i < |s|
    ensures r.Some? ==> i < r.value <= |s|
  {
    match p
    case Strong =>
      if IsStop(s[i]) then Some(RunEnd(s, RunEnd(s, RunEnd(s, i, IsStop), IsCloser), IsSpace))
      else if IsLineEnd(s[i]) then Some(RunEnd(s, i, IsLineEnd))
      else None
    case Clause => if IsClauseMark(s[i]) then Some(RunEnd(s, i + 1, IsSpace)) else None
    case Blank => if IsSpace(s[i]) then Some(RunEnd(s, i, IsSpace)) else None
  }

  // The ends of the matches found from `i` on, left to right, none overlapping.
  function MatchEnds(p: Pattern, s: string, i: nat): seq<nat>
    requires i <= |s|
    decreases |s| - i
  {
    if i == |s| then []
    else
      match MatchEnd(p, s, i)
      case None => MatchEnds(p, s, i + 1)
      case Some(e) => [e] + MatchEnds(p, s, e)
  }

  ghost predicate LieBehind(ends: seq<nat>, i: nat, n: nat) {
    forall k :: 0 <= k < |ends| ==> i < ends[k] <= n
  }

  lemma {:induction false} EndsAscend(p: Pattern, s: string, i: nat)
    requires i <= |s|
    ensures LieBehind(MatchEnds(p, s, i), i, |s|) && Ascending(MatchEnds(p, s, i))
    decreases |s| - i
  {
    if i < |s| {
      match MatchEnd(p, s, i)
      case None => EndsAscend(p, s, i + 1);
      case Some(e) => EndsAscend(p, s, e);
    }
  }

  ghost predicate Ascending(ends: seq<nat>) {
    forall j, k :: 0 <= j < k < |ends| ==> ends[j] < ends[k]
  }

  function FirstWithin(ends: seq<nat>, minimum: nat, maximum: nat): Option<nat> {
    if ends == [] then None
    else if minimum <= ends[0] <= maximum then Some(ends[0])
    else FirstWithin(ends[1..], minimum, maximum)
  }

  // It is the least of the ends inside the window.
  lemma {:induction false} FirstWithinIsLeast(ends: seq<nat>, minimum: nat, maximum: nat)
    requires Ascending(ends)
    ensures var r := FirstWithin(ends, minimum, maximum);
            r.Some? ==> r.value in ends && minimum <= r.value <= maximum
    ensures forall e :: e in ends && minimum <= e <= maximum ==>
              FirstWithin(ends, minimum, maximum).Some? && FirstWithin(ends, minimum, maximum).value <= e
  {
    if ends != [] && !(minimum <= ends[0] <= maximum) {
      assert forall e :: e in ends ==> e == ends[0] || e in ends[1..];
      FirstWithinIsLeast(ends[1..], minimum, maximum);
    }
  }

  function LastAtLeast(ends: seq<nat>, minimum: nat): Option<nat> {
    if ends == [] then None
    else if minimum <= ends[|ends| - 1] then Some(ends[|ends| - 1])
    else LastAtLeast(ends[..|ends| - 1], minimum)
  }

  // It is the greatest of the ends past the minimum.
  lemma {:induction false} LastAtLeastIsGreatest(ends: seq<nat>, minimum: nat)
    requires Ascending(ends)
    ensures var r := LastAtLeast(ends, minimum);
            r.Some? ==> r.value in ends && minimum <= r.value
    ensures forall e :: e in ends && minimum <= e ==>
              LastAtLeast(ends, minimum).Some? && e <= LastAtLeast(ends, minimum).value
  {
    if ends != [] && ends[|ends| - 1] < minimum {
      assert forall e :: e in ends ==> e == ends[|ends| - 1] || e in ends[..|ends| - 1];
      LastAtLeastIsGreatest(ends[..|ends| - 1], minimum);
    }
  }

  function Cut(s: string, maximum: nat): string {
    if |s| <= maximum then s else s[..maximum]
  }

  function FirstBoundaryEnd(s: string, p: Pattern, minimum: nat, maximum: nat): Option<nat> {
    FirstWithin(MatchEnds(p, s, 0), minimum, maximum)
  }

  function LastBoundaryEnd(s: string, p: Pattern, minimum: nat, maximum: nat): Option<nat> {
    LastAtLeast(MatchEnds(p, Cut(s, maximum), 0), minimum)
  }

  // ---------- what the boundaries are ----------

  // White space, and with it a break, ends just before `e`.
  ghost predicate BlankEndsAt(s: string, e: nat) {
    0 < e <= |s| && IsSpace(s[e - 1]) && (e < |s| ==> !IsSpace(s[e]))
  }

  lemma {:induction false} BlankEndsExactly(s: string, i: nat, e: nat)
    requires i < e <= |s|
    ensures e in MatchEnds(Blank, s, i) <==> BlankEndsAt(s, e)
    decreases |s| - i
  {
    RunEndIs(s, i, IsSpace);
    match MatchEnd(Blank, s, i)
    case None =>
      EndsAscend(Blank, s, i + 1);
      if i + 1 < e {
        BlankEndsExactly(s, i + 1, e);
      } else {
        assert e !in MatchEnds(Blank, s, i + 1);
      }
    case Some(end) =>
      EndsAscend(Blank, s, end);
      if end < e {
        BlankEndsExactly(s, end, e);
        assert e in MatchEnds(Blank, s, i) <==> e in MatchEnds(Blank, s, end);
      } else {
        assert e !in MatchEnds(Blank, s, end);
        assert e in MatchEnds(Blank, s, i) <==> e == end;
      }
  }

  // A clause mark at `m` and the white space right behind it end just before `e`.
  ghost predicate ClauseEndsAt(s: string, m: nat, e: nat) {
    m < e <= |s| && IsClauseMark(s[m]) && AllSpace(s[m + 1..e]) && (e < |s| ==> !IsSpace(s[e]))
  }

  lemma {:induction false} ClauseEndsExactly(s: string, i: nat, e: nat)
    requires i <= |s|
    ensures e in MatchEnds(Clause, s, i) <==> exists m: nat :: i <= m && ClauseEndsAt(s, m, e)
    decreases |s| - i
  {
    if i < |s| {
      var next := if IsClauseMark(s[i]) then RunEnd(s, i + 1, IsSpace) else i + 1;
      RunEndIs(s, i + 1, IsSpace);
      ClauseEndsExactly(s, next, e);
      if m: nat :| i <= m && ClauseEndsAt(s, m, e) {
        if m == i {
          forall k | i + 1 <= k < e
            ensures IsSpace(s[k])
          {
            assert s[i + 1..e][k - (i + 1)] == s[k];
          }
          RunIsUnique(s, i + 1, IsSpace, e);
        } else {
          assert m < next ==> IsSpace(s[m]);
          assert next <= m && ClauseEndsAt(s, m, e);
        }
      }
      if IsClauseMark(s[i]) {
        assert ClauseEndsAt(s, i, next);
      }
    }
  }

  // ---------- where sentences end ----------

  predicate AllClosers(s: string) {
    forall i :: 0 <= i < |s| ==> IsCloser(s[i])
  }

  predicate AllLineEnds(s: string) {
    forall i :: 0 <= i < |s| ==> IsLineEnd(s[i])
  }

  // A stop just before `j`, closers up to `c` and white space up to `e`.
  ghost predicate Trails(s: string, j: nat, c: nat, e: nat) {
    0 < j <= c <= e <= |s| && IsStop(s[j - 1]) && AllClosers(s[j..c]) && AllSpace(s[c..e])
  }

  // Stops, closers and white space end just before `e`, and no more of them follow.
  ghost predicate SentenceEndsAt(s: string, j: nat, c: nat, e: nat) {
    && Trails(s, j, c, e)
    && (e < |s| ==> !IsSpace(s[e]))
    && (c == e < |s| ==> !IsCloser(s[e]))
    && (j == e < |s| ==> !IsStop(s[e]))
  }

  // A whole run of line ends from `m` to `e` that is not the white space behind a sentence.
  ghost predicate LinesEndAt(s: string, m: nat, e: nat) {
    && m < e <= |s| && AllLineEnds(s[m..e])
    && (e < |s| ==> !IsLineEnd(s[e])) && (m > 0 ==> !IsLineEnd(s[m - 1]))
    && forall j: nat, c: nat :: !Trails(s, j, c, m)
  }

  ghost predicate SentenceEndsFrom(s: string, i: nat, e: nat) {
    exists j: nat, c: nat :: i < j && SentenceEndsAt(s, j, c, e)
  }

  ghost predicate LinesEndFrom(s: string, i: nat, e: nat) {
    exists m: nat :: i <= m && LinesEndAt(s, m, e)
  }

  ghost predicate StrongEndsAt(s: string, e: nat) {
    SentenceEndsFrom(s, 0, e) || LinesEndFrom(s, 0, e)
  }

  // Nothing that ends a sentence or a line begins before `i` and goes on behind it.
  ghost predicate Clear(s: string, i: nat) {
    && (0 < i < |s| ==> !(IsStop(s[i - 1]) && IsStop(s[i])) && !(IsLineEnd(s[i - 1]) && IsLineEnd(s[i])))
    && forall j: nat, c: nat, e: nat :: Trails(s, j, c, e) ==> !(j <= i < e)
  }

  lemma KindsAreApart(c: char)
    ensures IsStop(c) ==> !IsCloser(c) && !IsSpace(c)
    ensures IsCloser(c) ==> !IsSpace(c)
    ensures IsLineEnd(c) ==> IsSpace(c)
  {
  }

  // The white space, the closers and the stop of a sentence's end, position by position.
  lemma TrailAt(s: string, j: nat, c: nat, e: nat, k: nat)
    requires Trails(s, j, c, e) && j <= k < e
    ensures !IsStop(s[k])
    ensures if k < c then IsCloser(s[k]) && !IsSpace(s[k]) else IsSpace(s[k]) && !IsCloser(s[k])
  {
    KindsAreApart(s[k]);
    if k < c {
      assert s[j..c][k - j] == s[k];
    } else {
      assert s[c..e][k - c] == s[k];
    }
  }

  lemma TrailGrows(s: string, j: nat, c: nat, e: nat)
    requires Trails(s, j, c, e) && e < |s| && IsSpace(s[e])
    ensures Trails(s, j, c, e + 1)
  {
    assert s[c..e + 1] == s[c..e] + [s[e]];
  }

  // The match of stops, closers and white space that begins at `i`.
  lemma SentenceMatch(s: string, i: nat) returns (j: nat, c: nat, e: nat)
    requires i < |s| && IsStop(s[i])
    ensures MatchEnd(Strong, s, i) == Some(e) && i < j && SentenceEndsAt(s, j, c, e)
    ensures forall k :: i <= k < j ==> IsStop(s[k])
  {
    j := RunEnd(s, i, IsStop);
    c := RunEnd(s, j, IsCloser);
    e := RunEnd(s, c, IsSpace);
    RunEndIs(s, i, IsStop);
    RunEndIs(s, j, IsCloser);
    RunEndIs(s, c, IsSpace);
    assert forall k :: 0 <= k < c - j ==> s[j..c][k] == s[j + k];
    assert forall k :: 0 <= k < e - c ==> s[c..e][k] == s[c + k];
  }

  // Two ends of the same stops are one.
  lemma SentenceEndIsUnique(s: string, j: nat, c: nat, e: nat, c': nat, e': nat)
    requires SentenceEndsAt(s, j, c, e) && SentenceEndsAt(s, j, c', e')
    ensures e == e'
  {
    NoLaterEnd(s, j, c, e, c', e');
    NoLaterEnd(s, j, c', e', c, e);
  }

  lemma NoLaterEnd(s: string, j: nat, c: nat, e: nat, c': nat, e': nat)
    requires SentenceEndsAt(s, j, c, e) && SentenceEndsAt(s, j, c', e')
    ensures e' <= e
  {
    if e < e' {
      TrailAt(s, j, c', e', e);
      if e > c {
        TrailAt(s, j, c, e, c);
        TrailAt(s, j, c', e', c);
      }
    }
  }

  // Inside the match no other sentence and no line ends.
  lemma NothingElseInSentence(s: string, i: nat, j: nat, c: nat, e: nat, other: nat)
    requires i < j && SentenceEndsAt(s, j, c, e) && forall k :: i <= k < j ==> IsStop(s[k])
    ensures SentenceEndsFrom(s, i, other) ==> other == e || SentenceEndsFrom(s, e, other)
    ensures LinesEndFrom(s, i, other) ==> LinesEndFrom(s, e, other)
  {
    if j': nat, c': nat :| i < j' && SentenceEndsAt(s, j', c', other) {
      if j' <= e {
        StopsEndOnce(s, i, j, c, e, j', c', other);
        SentenceEndIsUnique(s, j, c, e, c', other);
      } else {
        assert SentenceEndsFrom(s, e, other);
      }
    }
    if m: nat :| i <= m && LinesEndAt(s, m, other) {
      NoLineInSentence(s, i, j, c, e, m, other);
      assert LinesEndFrom(s, e, other);
    }
  }

  lemma StopsEndOnce(s: string, i: nat, j: nat, c: nat, e: nat, j': nat, c': nat, e': nat)
    requires i < j && SentenceEndsAt(s, j, c, e) && forall k :: i <= k < j ==> IsStop(s[k])
    requires i < j' <= e && SentenceEndsAt(s, j', c', e')
    ensures j' == j
  {
    if j < j' {
      TrailAt(s, j, c, e, j' - 1);
    }
    if j' < j {
      assert IsStop(s[j']);
      if j' < e' {
        TrailAt(s, j', c', e', j');
      }
    }
  }

  lemma NoLineInSentence(s: string, i: nat, j: nat, c: nat, e: nat, m: nat, other: nat)
    requires i < j && SentenceEndsAt(s, j, c, e) && forall k :: i <= k < j ==> IsStop(s[k])
    requires i <= m && LinesEndAt(s, m, other)
    ensures e <= m
  {
    LineAt(s, m, other, m);
    KindsAreApart(s[m]);
    if j <= m < e {
      TrailCut(s, j, c, e, m);
    }
  }

  lemma TrailCut(s: string, j: nat, c: nat, e: nat, m: nat)
    requires Trails(s, j, c, e) && j <= m < e && IsSpace(s[m])
    ensures Trails(s, j, c, m)
  {
    TrailAt(s, j, c, e, m);
    assert s[c..m] == s[c..e][..m - c];
  }

  lemma LineAt(s: string, m: nat, e: nat, k: nat)
    requires LinesEndAt(s, m, e) && m <= k < e
    ensures IsLineEnd(s[k])
  {
    assert s[m..e][k - m] == s[k];
  }

  // Behind the match the scan is clear again.
  lemma ClearBehindSentence(s: string, j: nat, c: nat, e: nat)
    requires SentenceEndsAt(s, j, c, e)
    ensures Clear(s, e)
  {
    if 0 < e < |s| {
      KindsAreApart(s[e]);
      if j < e {
        TrailAt(s, j, c, e, e - 1);
      }
    }
    forall j': nat, c': nat, e': nat | Trails(s, j', c', e')
      ensures !(j' <= e < e')
    {
      CrossingIsNone(s, j, c, e, j', c', e');
    }
  }

  lemma CrossingIsNone(s: string, j: nat, c: nat, e: nat, j': nat, c': nat, e': nat)
    requires SentenceEndsAt(s, j, c, e) && Trails(s, j', c', e')
    ensures !(j' <= e < e')
  {
    if j' <= e < e' {
      TrailAt(s, j', c', e', e);
      if c < e {
        TrailAt(s, j, c, e, e - 1);
        if j' <= e - 1 {
          TrailAt(s, j', c', e', e - 1);
        }
      }
    }
  }

  lemma LineMatch(s: string, i: nat) returns (e: nat)
    requires i < |s| && IsLineEnd(s[i]) && Clear(s, i)
    ensures MatchEnd(Strong, s, i) == Some(e) && LinesEndAt(s, i, e) && Clear(s, e)
  {
    KindsAreApart(s[i]);
    e := RunEnd(s, i, IsLineEnd);
    RunEndIs(s, i, IsLineEnd);
    assert forall k :: 0 <= k < e - i ==> s[i..e][k] == s[i + k];
    forall j: nat, c: nat
      ensures !Trails(s, j, c, i)
    {
      if Trails(s, j, c, i) {
        TrailGrows(s, j, c, i);
      }
    }
    KindsAreApart(s[e - 1]);
    forall j: nat, c: nat, e': nat | Trails(s, j, c, e')
      ensures !(j <= e < e')
    {
      assert !(j <= i < e');
      if i < j <= e {
        KindsAreApart(s[j - 1]);
      }
    }
  }

  // Inside a run of line ends nothing else ends.
  lemma NothingElseInLines(s: string, i: nat, e: nat, other: nat)
    requires LinesEndAt(s, i, e)
    ensures SentenceEndsFrom(s, i, other) ==> SentenceEndsFrom(s, e, other)
    ensures LinesEndFrom(s, i, other) ==> other == e || LinesEndFrom(s, e, other)
  {
    forall k | i <= k < e
      ensures IsLineEnd(s[k])
    {
      LineAt(s, i, e, k);
    }
    if j: nat, c: nat :| i < j && SentenceEndsAt(s, j, c, other) {
      if j <= e {
        KindsAreApart(s[j - 1]);
      }
      assert SentenceEndsFrom(s, e, other);
    }
    if m: nat :| i <= m && LinesEndAt(s, m, other) {
      if m == i {
        LineEndIsUnique(s, i, e, other);
      } else {
        assert e <= m;
        assert LinesEndFrom(s, e, other);
      }
    }
  }

  lemma LineEndIsUnique(s: string, m: nat, e: nat, e': nat)
    requires LinesEndAt(s, m, e) && LinesEndAt(s, m, e')
    ensures e == e'
  {
    if e < e' {
      LineAt(s, m, e', e);
    }
    if e' < e {
      LineAt(s, m, e, e');
    }
  }

  lemma PlainStep(s: string, i: nat, e: nat)
    requires i < |s| && !IsStop(s[i]) && !IsLineEnd(s[i]) && Clear(s, i)
    ensures Clear(s, i + 1)
    ensures SentenceEndsFrom(s, i, e) ==> SentenceEndsFrom(s, i + 1, e)
    ensures LinesEndFrom(s, i, e) ==> LinesEndFrom(s, i + 1, e)
  {
    forall j: nat, c: nat, e': nat | Trails(s, j, c, e')
      ensures !(j <= i + 1 < e')
    {
      assert !(j <= i < e');
    }
    if j: nat, c: nat :| i < j && SentenceEndsAt(s, j, c, e) {
      assert j != i + 1;
      assert SentenceEndsFrom(s, i + 1, e);
    }
    if m: nat :| i <= m && LinesEndAt(s, m, e) {
      assert s[m..e][0] == s[m];
      assert LinesEndFrom(s, i + 1, e);
    }
  }

  // What ends from a later place on ends from here on.
  lemma FromEarlier(s: string, i: nat, k: nat, e: nat)
    requires i <= k
    ensures SentenceEndsFrom(s, k, e) ==> SentenceEndsFrom(s, i, e)
    ensures LinesEndFrom(s, k, e) ==> LinesEndFrom(s, i, e)
  {
    if j: nat, c: nat :| k < j && SentenceEndsAt(s, j, c, e) {
      assert SentenceEndsFrom(s, i, e);
    }
    if m: nat :| k <= m && LinesEndAt(s, m, e) {
      assert LinesEndFrom(s, i, e);
    }
  }

  lemma {:induction false} StrongEndsFrom(s: string, i: nat, e: nat)
    requires i <= |s| && Clear(s, i)
    ensures e in MatchEnds(Strong, s, i) <==> SentenceEndsFrom(s, i, e) || LinesEndFrom(s, i, e)
    decreases |s| - i
  {
    if i < |s| {
      if IsStop(s[i]) {
        var j, c, end := SentenceMatch(s, i);
        ClearBehindSentence(s, j, c, end);
        StrongEndsFrom(s, end, e);
        NothingElseInSentence(s, i, j, c, end, e);
        FromEarlier(s, i, end, e);
        assert SentenceEndsFrom(s, i, end);
      } else if IsLineEnd(s[i]) {
        var end := LineMatch(s, i);
        StrongEndsFrom(s, end, e);
        NothingElseInLines(s, i, end, e);
        FromEarlier(s, i, end, e);
        assert LinesEndFrom(s, i, end);
      } else {
        PlainStep(s, i, e);
        StrongEndsFrom(s, i + 1, e);
        FromEarlier(s, i, i + 1, e);
      }
    }
  }

  lemma StrongEndsExactly(s: string, e: nat)
    ensures e in MatchEnds(Strong, s, 0) <==> StrongEndsAt(s, e)
  {
    StrongEndsFrom(s, 0, e);
  }
}
