// Cutting a growing text into chunks that can be spoken, as the text streams in.
module TextCommitter {
  import opened Wrappers
  import opened TextBoundaries

  datatype CommitWindow = CommitWindow(minChars: nat, targetChars: nat, maxChars: nat)

  const SLACK: nat := 40

  function LesserOf(a: nat, b: nat): nat {
    if a <= b then a else b
  }

  // Where the next chunk ends, counted from the first visible character; nothing if it is too early to cut.
  function CutPoint(visible: nat, text: string, w: CommitWindow): Option<nat> {
    if visible < w.minChars then None else CutIn(text, w)
  }

  // The same without regard to how much is visible.
  function CutIn(text: string, w: CommitWindow): Option<nat> {
    if FirstBoundaryEnd(text, Strong, w.minChars, w.maxChars).Some? then
      FirstBoundaryEnd(text, Strong, w.minChars, w.maxChars)
    else if |text| < w.targetChars then None
    else if LastBoundaryEnd(text, Clause, w.minChars, w.maxChars).Some? then
      LastBoundaryEnd(text, Clause, w.minChars, w.maxChars)
    else if LastBoundaryEnd(text, Blank, w.minChars, LesserOf(|text|, w.maxChars)).Some? then
      LastBoundaryEnd(text, Blank, w.minChars, LesserOf(|text|, w.maxChars))
    else if |text| <= w.maxChars then None
    else LastBoundaryEnd(text, Blank, w.minChars, LesserOf(|text|, w.maxChars + SLACK))
  }

  // The cut point within the whole buffer.
  function NextEnd(buffer: string, w: CommitWindow): (end: Option<nat>)
    ensures end.Some? ==> Leading(buffer) < end.value <= |buffer|
  {
    CutIsInside(LeftStrip(buffer), w);
    match CutPoint(|Strip(buffer)|, LeftStrip(buffer), w)
    case None => None
    case Some(end) => Some(Leading(buffer) + end)
  }

  lemma {:induction false} FoundIsInside(text: string, p: Pattern, minimum: nat, maximum: nat)
    ensures var r := FirstBoundaryEnd(text, p, minimum, maximum);
            r.Some? ==> 0 < r.value <= |text| && minimum <= r.value <= maximum
    ensures var r := LastBoundaryEnd(text, p, minimum, maximum);
            r.Some? ==> 0 < r.value <= |text| && minimum <= r.value <= maximum
  {
    var cut := Cut(text, maximum);
    EndsAscend(p, text, 0);
    EndsAscend(p, cut, 0);
    FirstWithinIsLeast(MatchEnds(p, text, 0), minimum, maximum);
    LastAtLeastIsGreatest(MatchEnds(p, cut, 0), minimum);
  }

  lemma {:induction false} CutIsInside(text: string, w: CommitWindow)
    ensures CutIn(text, w).Some? ==>
              && 0 < CutIn(text, w).value <= |text|
              && w.minChars <= CutIn(text, w).value <= w.maxChars + SLACK
  {
    FoundIsInside(text, Strong, w.minChars, w.maxChars);
    FoundIsInside(text, Clause, w.minChars, w.maxChars);
    FoundIsInside(text, Blank, w.minChars, LesserOf(|text|, w.maxChars));
    FoundIsInside(text, Blank, w.minChars, LesserOf(|text|, w.maxChars + SLACK));
  }

  // The window for the chunk with number `k`.
  function WindowAt(first: CommitWindow, next: CommitWindow, k: nat): CommitWindow {
    if k == 0 then first else next
  }

  // Where each next cut is made, given the number of the chunk and the buffer.
  type Placing = (nat, string) -> Option<nat>

  function Placed(first: CommitWindow, next: CommitWindow): Placing {
    (k, buffer) => NextEnd(buffer, WindowAt(first, next, k))
  }

  datatype Piece = Piece(end: nat, chunk: string)

  // The pieces cut from a buffer one after the other, each with its place in what was left then; the first of them
  // has number `k`.
  function Pieces(place: Placing, k: nat, buffer: string): seq<Piece>
    decreases |buffer|
  {
    match place(k, buffer)
    case None => []
    case Some(end) =>
      if 0 < end <= |buffer| then
        [Piece(end, Strip(buffer[..end]))] + Pieces(place, k + 1, LeftStrip(buffer[end..]))
      else []
  }

  function ChunksOf(pieces: seq<Piece>): seq<string> {
    seq(|pieces|, i requires 0 <= i < |pieces| => pieces[i].chunk)
  }

  // A cut consumes at least one visible character and at least the minimum, and at most the maximum plus the slack.
  lemma CutIsInRange(buffer: string, w: CommitWindow)
    requires NextEnd(buffer, w).Some?
    ensures var end := NextEnd(buffer, w).value;
            && Leading(buffer) < end <= |buffer|
            && w.minChars <= end - Leading(buffer) <= w.maxChars + 40
            && !IsSpace(buffer[Leading(buffer)])
  {
    CutIsInside(LeftStrip(buffer), w);
    RunEndIs(buffer, 0, IsSpace);
  }

  // The committed head is white space, the chunk and white space.
  lemma HeadSplits(buffer: string, end: nat) returns (left: string, between: string)
    requires Leading(buffer) < end <= |buffer|
    ensures var chunk := Strip(buffer[..end]);
            IsTrim(buffer[..end], left, chunk, between) && chunk != [] && |chunk| <= end - Leading(buffer)
  {
    var head := buffer[..end];
    left, between := StripTrims(head);
    RunEndIs(buffer, 0, IsSpace);
    assert !IsSpace(head[Leading(buffer)]);
    RunIsUnique(head, 0, IsSpace, Leading(buffer));
  }

  // What a commit at `end` does to the buffer: white space, the chunk, white space, and what remains.
  lemma CommitSplits(buffer: string, end: nat) returns (left: string, right: string)
    requires Leading(buffer) < end <= |buffer|
    ensures var chunk, rest := Strip(buffer[..end]), LeftStrip(buffer[end..]);
            && buffer == left + chunk + right + rest
            && AllSpace(left) && AllSpace(right) && IsChunk(chunk)
            && |chunk| <= end - Leading(buffer)
            && |rest| < |buffer|
  {
    var between: string;
    left, between := HeadSplits(buffer, end);
    var tail := buffer[end..];
    var lead := tail[..Leading(tail)];
    RunEndIs(tail, 0, IsSpace);
    right := between + lead;
    Regroup(buffer, buffer[..end], tail, left, Strip(buffer[..end]), between, lead, LeftStrip(tail));
  }

  lemma Regroup(buffer: string, head: string, tail: string, left: string, chunk: string, between: string,
                lead: string, rest: string)
    requires buffer == head + tail && head == left + chunk + between && tail == lead + rest
    ensures buffer == left + chunk + (between + lead) + rest
  {
  }

  // ---------- conservation ----------

  // Gaps and chunks in turn, beginning and ending with a gap.
  function Weave(gaps: seq<string>, chunks: seq<string>): string
    requires |gaps| == |chunks| + 1
  {
    if chunks == [] then gaps[0]
    else
      var n := |chunks| - 1;
      Weave(gaps[..n + 1], chunks[..n]) + chunks[n] + gaps[n + 1]
  }

  // `input` is the chunks in order and then the buffer, with nothing but white space between them.
  ghost predicate Accounts(input: string, gaps: seq<string>, chunks: seq<string>, buffer: string) {
    && |gaps| == |chunks| + 1
    && (forall k :: 0 <= k < |gaps| ==> AllSpace(gaps[k]))
    && (forall k :: 0 <= k < |chunks| ==> IsChunk(chunks[k]))
    && input == Weave(gaps, chunks) + buffer
  }

  // A chunk is not empty and has no white space at either end.
  ghost predicate IsChunk(c: string) {
    c != [] && !IsSpace(c[0]) && !IsSpace(c[|c| - 1])
  }

  lemma GapGrows(gaps: seq<string>, chunks: seq<string>, more: string)
    requires |gaps| == |chunks| + 1
    ensures var n := |chunks|;
            Weave(gaps[n := gaps[n] + more], chunks) == Weave(gaps, chunks) + more
  {
    var n := |chunks|;
    var grown := gaps[n := gaps[n] + more];
    if n > 0 {
      assert grown[..n] == gaps[..n];
    }
  }

  lemma InputGrows(input: string, gaps: seq<string>, chunks: seq<string>, buffer: string, fragment: string)
    requires Accounts(input, gaps, chunks, buffer)
    ensures Accounts(input + fragment, gaps, chunks, buffer + fragment)
  {
    assert Weave(gaps, chunks) + buffer + fragment == Weave(gaps, chunks) + (buffer + fragment);
  }

  lemma ChunkJoins(gaps: seq<string>, chunks: seq<string>, chunk: string, gap: string)
    requires |gaps| == |chunks| + 1
    ensures Weave(gaps + [gap], chunks + [chunk]) == Weave(gaps, chunks) + chunk + gap
  {
    var n := |chunks|;
    assert (gaps + [gap])[..n + 1] == gaps && (chunks + [chunk])[..n] == chunks;
  }

  lemma CommitAccounts(input: string, gaps: seq<string>, chunks: seq<string>, buffer: string, end: nat)
    returns (more: seq<string>)
    requires Accounts(input, gaps, chunks, buffer) && Leading(buffer) < end <= |buffer|
    ensures Accounts(input, more, chunks + [Strip(buffer[..end])], LeftStrip(buffer[end..]))
  {
    var chunk, rest := Strip(buffer[..end]), LeftStrip(buffer[end..]);
    var left, right := CommitSplits(buffer, end);
    var n := |chunks|;
    var widened := gaps[n := gaps[n] + left];
    GapGrows(gaps, chunks, left);
    ChunkJoins(widened, chunks, chunk, right);
    more := widened + [right];
    Concat4(Weave(gaps, chunks), left, chunk, right, rest);
  }

  lemma Concat4(a: string, b: string, c: string, d: string, e: string)
    ensures a + (b + c + d + e) == a + b + c + d + e
  {
  }

  lemma FlushAccounts(input: string, gaps: seq<string>, chunks: seq<string>, buffer: string) returns (more: seq<string>)
    requires Accounts(input, gaps, chunks, buffer)
    ensures Accounts(input, more, if Strip(buffer) == [] then chunks else chunks + [Strip(buffer)], "")
  {
    var left, right := StripTrims(buffer);
    var n := |chunks|;
    if Strip(buffer) == [] {
      GapGrows(gaps, chunks, buffer);
      more := gaps[n := gaps[n] + buffer];
      assert Weave(more, chunks) + "" == Weave(more, chunks);
    } else {
      more := gaps[n := gaps[n] + left] + [right];
      LastChunkAccounts(input, gaps, chunks, left, Strip(buffer), right);
    }
  }

  lemma StripNothing(s: string)
    ensures Strip(s) == [] <==> AllSpace(s)
  {
    var left, right := StripTrims(s);
  }

  lemma LastChunkAccounts(input: string, gaps: seq<string>, chunks: seq<string>, left: string, chunk: string,
                          right: string)
    requires Accounts(input, gaps, chunks, left + chunk + right) && AllSpace(left) && AllSpace(right) && IsChunk(chunk)
    ensures Accounts(input, gaps[|chunks| := gaps[|chunks|] + left] + [right], chunks + [chunk], "")
  {
    var n := |chunks|;
    var widened := gaps[n := gaps[n] + left];
    GapGrows(gaps, chunks, left);
    ChunkJoins(widened, chunks, chunk, right);
    Concat4(Weave(gaps, chunks), left, chunk, right, "");
    assert left + chunk + right + "" == left + chunk + right;
  }

  // ---------- what stays uncut ----------

  ghost predicate StrongInWindow(text: string, w: CommitWindow, e: nat) {
    StrongEndsAt(text, e) && w.minChars <= e <= w.maxChars
  }

  // A clause, or white space, ends before `e` in what is visible of the text up to `limit`.
  ghost predicate ClauseInside(text: string, minimum: nat, limit: nat, e: nat) {
    minimum <= e && exists m: nat :: ClauseEndsAt(Cut(text, limit), m, e)
  }

  ghost predicate BlankInside(text: string, minimum: nat, limit: nat, e: nat) {
    minimum <= e && BlankEndsAt(Cut(text, limit), e)
  }

  ghost predicate NoStrongEnd(text: string, w: CommitWindow) {
    forall e: nat :: !StrongInWindow(text, w, e)
  }

  ghost predicate NoClauseEnd(text: string, minimum: nat, limit: nat) {
    forall e: nat :: !ClauseInside(text, minimum, limit, e)
  }

  ghost predicate NoBlankEnd(text: string, minimum: nat, limit: nat) {
    forall e: nat :: !BlankInside(text, minimum, limit, e)
  }

  // ---------- which place is chosen ----------

  ghost predicate FirstStrong(text: string, w: CommitWindow, e: nat) {
    StrongInWindow(text, w, e) && forall x: nat :: StrongInWindow(text, w, x) ==> e <= x
  }

  ghost predicate LastClause(text: string, minimum: nat, limit: nat, e: nat) {
    ClauseInside(text, minimum, limit, e) && forall x: nat :: ClauseInside(text, minimum, limit, x) ==> x <= e
  }

  ghost predicate LastBlank(text: string, minimum: nat, limit: nat, e: nat) {
    BlankInside(text, minimum, limit, e) && forall x: nat :: BlankInside(text, minimum, limit, x) ==> x <= e
  }

  // The first sentence end in the window; with none, and enough text, the last clause end in the window; with none,
  // the last white space in the window; and with none and more text than the window, the last one within the slack.
  ghost predicate Chosen(visible: nat, text: string, w: CommitWindow, e: nat) {
    && visible >= w.minChars
    && (FirstStrong(text, w, e) || (NoStrongEnd(text, w) && |text| >= w.targetChars && ChosenInside(text, w, e)))
  }

  ghost predicate ChosenInside(text: string, w: CommitWindow, e: nat) {
    if !NoClauseEnd(text, w.minChars, w.maxChars) then LastClause(text, w.minChars, w.maxChars, e)
    else if !NoBlankEnd(text, w.minChars, w.maxChars) then LastBlank(text, w.minChars, w.maxChars, e)
    else |text| > w.maxChars && LastBlank(text, w.minChars, w.maxChars + 40, e)
  }

  lemma {:induction false} FirstChoice(ends: seq<nat>, text: string, w: CommitWindow, e: nat)
    requires Ascending(ends)
    requires forall x: nat :: StrongInWindow(text, w, x) <==> x in ends && w.minChars <= x <= w.maxChars
    ensures var found := FirstWithin(ends, w.minChars, w.maxChars);
            (found == None <==> NoStrongEnd(text, w)) && (found == Some(e) <==> FirstStrong(text, w, e))
  {
    FirstWithinIsLeast(ends, w.minChars, w.maxChars);
    var found := FirstWithin(ends, w.minChars, w.maxChars);
    assert found.Some? ==> StrongInWindow(text, w, found.value);
  }

  lemma {:induction false} StrongChoice(text: string, w: CommitWindow, e: nat)
    ensures var found := FirstBoundaryEnd(text, Strong, w.minChars, w.maxChars);
            (found == None <==> NoStrongEnd(text, w)) && (found == Some(e) <==> FirstStrong(text, w, e))
  {
    var ends := MatchEnds(Strong, text, 0);
    forall x: nat
      ensures StrongInWindow(text, w, x) <==> x in ends && w.minChars <= x <= w.maxChars
    {
      StrongEndsExactly(text, x);
    }
    EndsAscend(Strong, text, 0);
    FirstChoice(ends, text, w, e);
  }

  lemma {:induction false} ClauseChoice(text: string, minimum: nat, limit: nat, e: nat)
    ensures var found := LastBoundaryEnd(text, Clause, minimum, limit);
            (found == None <==> NoClauseEnd(text, minimum, limit))
            && (found == Some(e) <==> LastClause(text, minimum, limit, e))
  {
    var ends := MatchEnds(Clause, Cut(text, limit), 0);
    forall x: nat
      ensures ClauseInside(text, minimum, limit, x) <==> x in ends && minimum <= x
    {
      ClauseEndsExactly(Cut(text, limit), 0, x);
      assert forall m: nat :: ClauseEndsAt(Cut(text, limit), m, x) <==> 0 <= m && ClauseEndsAt(Cut(text, limit), m, x);
    }
    EndsAscend(Clause, Cut(text, limit), 0);
    LastAtLeastIsGreatest(ends, minimum);
    var found := LastAtLeast(ends, minimum);
    assert found.Some? ==> ClauseInside(text, minimum, limit, found.value);
  }

  lemma {:induction false} BlankChoice(text: string, minimum: nat, limit: nat, e: nat)
    ensures var found := LastBoundaryEnd(text, Blank, minimum, limit);
            (found == None <==> NoBlankEnd(text, minimum, limit))
            && (found == Some(e) <==> LastBlank(text, minimum, limit, e))
  {
    var ends := MatchEnds(Blank, Cut(text, limit), 0);
    EndsAscend(Blank, Cut(text, limit), 0);
    forall x: nat
      ensures BlankInside(text, minimum, limit, x) <==> x in ends && minimum <= x
    {
      if 0 < x <= |Cut(text, limit)| {
        BlankEndsExactly(Cut(text, limit), 0, x);
      }
    }
    LastAtLeastIsGreatest(ends, minimum);
    var found := LastAtLeast(ends, minimum);
    assert found.Some? ==> BlankInside(text, minimum, limit, found.value);
  }

  lemma CutTwice(text: string, limit: nat)
    ensures Cut(text, LesserOf(|text|, limit)) == Cut(text, limit)
  {
  }

  // The search cuts at the chosen place, and nowhere if there is none.
  lemma {:induction false} CutIsChosen(visible: nat, text: string, w: CommitWindow, e: nat)
    ensures CutPoint(visible, text, w) == Some(e) <==> Chosen(visible, text, w, e)
  {
    StrongChoice(text, w, e);
    ClauseChoice(text, w.minChars, w.maxChars, e);
    BlankChoice(text, w.minChars, w.maxChars, e);
    BlankChoice(text, w.minChars, w.maxChars + SLACK, e);
    CutTwice(text, w.maxChars);
    CutTwice(text, w.maxChars + SLACK);
  }

  // The last visible character of a text with white space around its core.
  ghost predicate LastVisible(s: string, k: nat) {
    k < |s| && !IsSpace(s[k]) && forall j :: k < j < |s| ==> IsSpace(s[j])
  }

  lemma CoreEnds(s: string, left: string, core: string, right: string)
    requires IsTrim(s, left, core, right) && core != []
    ensures Leading(s) == |left| && LeftStrip(s) == core + right
    ensures LastVisible(s, |left| + |core| - 1) && core == s[|left|..|left| + |core|]
  {
    assert s[|left|] == core[0];
    RunIsUnique(s, 0, IsSpace, |left|);
    assert s[|left| + |core| - 1] == core[|core| - 1];
    assert forall j :: |left| + |core| <= j < |s| ==> s[j] == right[j - |left| - |core|];
  }

  lemma TrimIsUnique(s: string, left: string, core: string, right: string)
    requires IsTrim(s, left, core, right) && core != []
    ensures Leading(s) == |left| && LeftStrip(s) == core + right && Strip(s) == core
  {
    CoreEnds(s, left, core, right);
    assert !AllSpace(s) by {
      assert !IsSpace(s[|left| + |core| - 1]);
    }
    var l, r := StripTrims(s);
    CoreEnds(s, l, Strip(s), r);
    var a, b := |left| + |core| - 1, |l| + |Strip(s)| - 1;
    assert LastVisible(s, a) && LastVisible(s, b);
  }

  lemma NextEndWhere(buffer: string, lead: nat, visible: nat, text: string, w: CommitWindow, e: nat)
    requires Leading(buffer) == lead && |Strip(buffer)| == visible && LeftStrip(buffer) == text
    ensures NextEnd(buffer, w) == Some(lead + e) <==> CutPoint(visible, text, w) == Some(e)
  {
  }

  // So the next cut of a buffer is the chosen place in it behind its leading white space, which is not searched, nor
  // is the white space at its end counted as visible.
  lemma NextEndIsChosen(buffer: string, left: string, core: string, right: string, w: CommitWindow, e: nat)
    requires IsTrim(buffer, left, core, right) && core != []
    ensures NextEnd(buffer, w) == Some(|left| + e) <==> Chosen(|core|, core + right, w, e)
  {
    TrimIsUnique(buffer, left, core, right);
    var visible, text := |core|, core + right;
    NextEndWhere(buffer, |left|, visible, text, w, e);
    CutIsChosen(visible, text, w, e);
  }

  // Text past the maximum stays uncut only while it has nowhere to be cut: no sentence or clause ends inside the
  // window, and no white space ends inside the window or the slack behind it.
  lemma {:induction false} LongTextHeldExactly(text: string, visible: nat, w: CommitWindow)
    requires visible >= w.minChars && |text| > w.maxChars && |text| >= w.targetChars
    ensures CutPoint(visible, text, w) == None <==>
            && NoStrongEnd(text, w)
            && NoClauseEnd(text, w.minChars, w.maxChars)
            && NoBlankEnd(text, w.minChars, w.maxChars)
            && NoBlankEnd(text, w.minChars, w.maxChars + 40)
  {
    StrongChoice(text, w, 0);
    ClauseChoice(text, w.minChars, w.maxChars, 0);
    BlankChoice(text, w.minChars, w.maxChars, 0);
    BlankChoice(text, w.minChars, w.maxChars + SLACK, 0);
    CutTwice(text, w.maxChars);
    CutTwice(text, w.maxChars + SLACK);
  }

  // ---------- the committer ----------

  // One commit: what is handed out and what remains of the buffer.
  ghost predicate IsCommit(before: string, w: CommitWindow, chunk: string, after: string) {
    NextEnd(before, w).Some? &&
    var end := NextEnd(before, w).value;
    && chunk == Strip(before[..end]) && after == LeftStrip(before[end..])
    && |chunk| <= end - Leading(before) <= w.maxChars + SLACK
    && |after| < |before|
  }

  // The search for the next cut, one kind of boundary after the other.
  method FindCut(visible: nat, text: string, window: CommitWindow) returns (end: Option<nat>)
    ensures end == CutPoint(visible, text, window)
  {
    if visible < window.minChars {
      return None;
    }
    end := FirstBoundaryEnd(text, Strong, window.minChars, window.maxChars);
    if end.Some? {
      return;
    }
    if |text| < window.targetChars {
      return None;
    }
    end := LastBoundaryEnd(text, Clause, window.minChars, window.maxChars);
    if end.Some? {
      return;
    }
    end := LastBoundaryEnd(text, Blank, window.minChars, LesserOf(|text|, window.maxChars));
    if end.Some? {
      return;
    }
    if |text| <= window.maxChars {
      return None;
    }
    end := LastBoundaryEnd(text, Blank, window.minChars, LesserOf(|text|, window.maxChars + SLACK));
  }

  // One step from a buffer to the next hands out a chunk.
  ghost predicate LeadsTo(place: Placing, k: nat, before: string, chunk: string, after: string) {
    place(k, before).Some? &&
    var end := place(k, before).value;
    0 < end <= |before| && chunk == Strip(before[..end]) && after == LeftStrip(before[end..])
  }

  ghost predicate LeadOn(place: Placing, k: nat, states: seq<string>, ready: seq<string>) {
    && |states| == |ready| + 1
    && forall i :: 0 <= i < |ready| ==> LeadsTo(place, k + i, states[i], ready[i], states[i + 1])
  }

  lemma LeadFurther(place: Placing, k: nat, states: seq<string>, ready: seq<string>, chunk: string, after: string)
    requires LeadOn(place, k, states, ready) && LeadsTo(place, k + |ready|, states[|ready|], chunk, after)
    ensures LeadOn(place, k, states + [after], ready + [chunk])
  {
  }

  lemma LeadOnTail(place: Placing, k: nat, states: seq<string>, ready: seq<string>)
    requires LeadOn(place, k, states, ready) && ready != []
    ensures LeadsTo(place, k, states[0], ready[0], states[1]) && LeadOn(place, k + 1, states[1..], ready[1..])
  {
    assert LeadsTo(place, k + 0, states[0], ready[0], states[0 + 1]);
    forall i | 0 <= i < |ready| - 1
      ensures LeadsTo(place, k + 1 + i, states[1..][i], ready[1..][i], states[1..][i + 1])
    {
      assert LeadsTo(place, k + (i + 1), states[i + 1], ready[i + 1], states[i + 1 + 1]);
    }
  }

  lemma JoinsBehind(before: seq<string>, ready: seq<string>, chunk: string)
    ensures before + (ready + [chunk]) == before + ready + [chunk]
  {
  }

  lemma ChunksOfMore(p: Piece, pieces: seq<Piece>)
    ensures ChunksOf([p] + pieces) == [p.chunk] + ChunksOf(pieces)
  {
  }

  // Cutting until there is no further place hands out what is due from the first buffer.
  lemma {:induction false} StepsAreDue(place: Placing, k: nat, states: seq<string>, ready: seq<string>)
    requires LeadOn(place, k, states, ready) && place(k + |ready|, states[|ready|]) == None
    ensures ready == ChunksOf(Pieces(place, k, states[0]))
    decreases |ready|
  {
    if ready != [] {
      LeadOnTail(place, k, states, ready);
      StepsAreDue(place, k + 1, states[1..], ready[1..]);
      var end := place(k, states[0]).value;
      ChunksOfMore(Piece(end, ready[0]), Pieces(place, k + 1, states[1]));
      assert ready == [ready[0]] + ready[1..];
    }
  }

  class IncrementalTextCommitter {
    var buffer: string
    var committedCount: nat
    const firstWindow: CommitWindow
    const nextWindow: CommitWindow
    // everything appended, everything handed out, and the white space dropped around it
    ghost var input: string
    ghost var emitted: seq<string>
    ghost var gaps: seq<string>

    ghost predicate Valid()
      reads this
    {
      Accounts(input, gaps, emitted, buffer) && committedCount == |emitted|
    }

    constructor (firstWindow: CommitWindow, nextWindow: CommitWindow)
      ensures Valid() && input == "" && emitted == [] && buffer == ""
      ensures this.firstWindow == firstWindow && this.nextWindow == nextWindow
    {
      this.firstWindow, this.nextWindow := firstWindow, nextWindow;
      buffer, committedCount := "", 0;
      input, emitted, gaps := "", [], [""];
    }

    function WindowFor(k: nat): CommitWindow {
      WindowAt(firstWindow, nextWindow, k)
    }

    // What the windows cut from a text, if its first chunk has number `k`.
    function Due(k: nat, text: string): seq<string> {
      ChunksOf(Pieces(Placed(firstWindow, nextWindow), k, text))
    }

    // No chunk is longer than its window's maximum and the slack; the first of them has number `from`.
    predicate WithinWindows(chunks: seq<string>, from: nat) {
      forall k :: 0 <= k < |chunks| ==> |chunks[k]| <= (if from + k == 0 then firstWindow else nextWindow).maxChars + 40
    }

    // The chunks handed out so far, and the buffers between them.
    ghost predicate HandedOut(from: nat, states: seq<string>, ready: seq<string>) {
      LeadOn(Placed(firstWindow, nextWindow), from, states, ready) && WithinWindows(ready, from)
    }

    lemma HandedOutMore(from: nat, states: seq<string>, ready: seq<string>, chunk: string, after: string)
      requires HandedOut(from, states, ready)
      requires IsCommit(states[|ready|], WindowFor(from + |ready|), chunk, after)
      ensures HandedOut(from, states + [after], ready + [chunk])
    {
      var place := Placed(firstWindow, nextWindow);
      assert LeadsTo(place, from + |ready|, states[|ready|], chunk, after);
      LeadFurther(place, from, states, ready, chunk, after);
    }

    lemma AllHandedOut(from: nat, states: seq<string>, ready: seq<string>)
      requires HandedOut(from, states, ready) && NextEnd(states[|ready|], WindowFor(from + |ready|)) == None
      ensures ready == Due(from, states[0])
    {
      StepsAreDue(Placed(firstWindow, nextWindow), from, states, ready);
    }

    // Takes in more text and hands out every chunk that can be cut from it now.
    method Append(fragment: string) returns (ready: seq<string>)
      requires Valid()
      modifies this
      ensures Valid()
      ensures input == old(input) + fragment
      ensures ready == Due(|old(emitted)|, old(buffer) + fragment) && emitted == old(emitted) + ready
      ensures WithinWindows(ready, |old(emitted)|)
      ensures NextEnd(buffer, if committedCount == 0 then firstWindow else nextWindow) == None
    {
      buffer := buffer + fragment;
      input := input + fragment;
      ready := [];
      InputGrows(old(input), gaps, emitted, old(buffer), fragment);
      ghost var states := [buffer];
      while true
        invariant Valid() && input == old(input) + fragment
        invariant emitted == old(emitted) + ready
        invariant HandedOut(|old(emitted)|, states, ready)
        invariant states[0] == old(buffer) + fragment && states[|ready|] == buffer
        decreases |buffer|
      {
        var chunk := NextChunk();
        if chunk == None {
          AllHandedOut(|old(emitted)|, states, ready);
          return;
        }
        HandedOutMore(|old(emitted)|, states, ready, chunk.value, buffer);
        JoinsBehind(old(emitted), ready, chunk.value);
        states, ready := states + [buffer], ready + [chunk.value];
      }
    }

    // Hands out what is left, however short.
    method Flush() returns (ready: seq<string>)
      requires Valid()
      modifies this
      ensures Valid() && buffer == ""
      ensures input == old(input) && emitted == old(emitted) + ready
      ensures ready == [] <==> AllSpace(old(buffer))
      ensures |ready| <= 1
    {
      var tail := Strip(buffer);
      StripNothing(buffer);
      gaps := FlushAccounts(input, gaps, emitted, buffer);
      buffer := "";
      if tail == [] {
        return [];
      }
      committedCount := committedCount + 1;
      emitted := emitted + [tail];
      return [tail];
    }

    method NextChunk() returns (chunk: Option<string>)
      requires Valid()
      modifies this
      ensures Valid() && input == old(input)
      ensures var window := if old(committedCount) == 0 then firstWindow else nextWindow;
              && (chunk == None <==> NextEnd(old(buffer), window) == None)
              && (chunk.Some? ==> IsCommit(old(buffer), window, chunk.value, buffer))
      ensures chunk == None ==> buffer == old(buffer) && emitted == old(emitted)
      ensures chunk.Some? ==> emitted == old(emitted) + [chunk.value]
    {
      var window := if committedCount == 0 then firstWindow else nextWindow;
      var end := BoundaryEnd(window);
      if end == None {
        return None;
      }
      chunk := Commit(end.value, window);
    }

    method BoundaryEnd(window: CommitWindow) returns (end: Option<nat>)
      ensures end == NextEnd(buffer, window)
    {
      var visible := Strip(buffer);
      var leading := |buffer| - |LeftStrip(buffer)|;
      assert leading == Leading(buffer);
      end := FindCut(|visible|, buffer[leading..], window);
      if end.Some? {
        end := Some(leading + end.value);
      }
    }

    // Cuts the buffer at `end`. The chunk is never empty, so the guard against that never fires.
    method Commit(end: nat, ghost window: CommitWindow) returns (chunk: Option<string>)
      requires Valid()
      requires window == WindowFor(committedCount) && NextEnd(buffer, window) == Some(end)
      modifies this
      ensures Valid() && input == old(input)
      ensures chunk.Some? && emitted == old(emitted) + [chunk.value]
      ensures IsCommit(old(buffer), window, chunk.value, buffer)
    {
      CutIsInRange(buffer, window);
      ghost var left, right := CommitSplits(buffer, end);
      gaps := CommitAccounts(input, gaps, emitted, buffer, end);
      var head := Strip(buffer[..end]);
      buffer := LeftStrip(buffer[end..]);
      assert head != [];
      committedCount := committedCount + 1;
      emitted := emitted + [head];
      return Some(head);
    }
  }
}
