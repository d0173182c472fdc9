// When the place of a cut is settled, so that no text still to come can move it.
module SettledCuts {
  import opened Wrappers
  import opened TextBoundaries
  import opened TextCommitter

  // ---------- what a longer text keeps ----------

  lemma TrailsInLonger(s: string, more: string, j: nat, c: nat, e: nat)
    requires e <= |s|
    ensures Trails(s + more, j, c, e) <==> Trails(s, j, c, e)
  {
    if j <= c <= e {
      assert (s + more)[j..c] == s[j..c] && (s + more)[c..e] == s[c..e];
    }
  }

  lemma LinesInLonger(s: string, more: string, m: nat, e: nat)
    requires e <= |s|
    ensures LinesEndAt(s + more, m, e) ==> LinesEndAt(s, m, e)
    ensures e < |s| && LinesEndAt(s, m, e) ==> LinesEndAt(s + more, m, e)
  {
    if m < e {
      assert (s + more)[m..e] == s[m..e];
      forall j: nat, c: nat
        ensures Trails(s + more, j, c, m) <==> Trails(s, j, c, m)
      {
        TrailsInLonger(s, more, j, c, m);
      }
    }
  }

  // No text behind makes an end before it, and takes one away only at the very end.
  lemma StrongInLonger(s: string, more: string, e: nat)
    requires e <= |s|
    ensures StrongEndsAt(s + more, e) ==> StrongEndsAt(s, e)
    ensures e < |s| && StrongEndsAt(s, e) ==> StrongEndsAt(s + more, e)
  {
    forall j: nat, c: nat
      ensures SentenceEndsAt(s + more, j, c, e) ==> SentenceEndsAt(s, j, c, e)
      ensures e < |s| && SentenceEndsAt(s, j, c, e) ==> SentenceEndsAt(s + more, j, c, e)
    {
      TrailsInLonger(s, more, j, c, e);
    }
    forall m: nat
      ensures LinesEndAt(s + more, m, e) ==> LinesEndAt(s, m, e)
      ensures e < |s| && LinesEndAt(s, m, e) ==> LinesEndAt(s + more, m, e)
    {
      LinesInLonger(s, more, m, e);
    }
    if j: nat, c: nat :| 0 < j && SentenceEndsAt(s + more, j, c, e) {
      assert SentenceEndsAt(s, j, c, e);
    }
    if m: nat :| LinesEndAt(s + more, m, e) {
      assert 0 <= m && LinesEndAt(s, m, e);
    }
    if e < |s| {
      if j: nat, c: nat :| 0 < j && SentenceEndsAt(s, j, c, e) {
        assert SentenceEndsAt(s + more, j, c, e);
      }
      if m: nat :| LinesEndAt(s, m, e) {
        assert 0 <= m && LinesEndAt(s + more, m, e);
      }
    }
  }

  // A line end behind the text moves an end at the very end by one.
  lemma LineEndMoves(s: string)
    requires StrongEndsAt(s, |s|)
    ensures !StrongEndsAt(s + "\n", |s|) && StrongEndsAt(s + "\n", |s| + 1)
  {
    var longer := s + "\n";
    KindsAreApart('\n');
    assert longer[|s|] == '\n';
    if j: nat, c: nat :| 0 < j && SentenceEndsAt(s, j, c, |s|) {
      TrailsInLonger(s, "\n", j, c, |s|);
      TrailGrows(longer, j, c, |s|);
      assert SentenceEndsAt(longer, j, c, |s| + 1);
      assert SentenceEndsFrom(longer, 0, |s| + 1);
    } else {
      var m: nat :| 0 <= m && LinesEndAt(s, m, |s|);
      assert longer[m..|s| + 1] == s[m..|s|] + "\n";
      forall j: nat, c: nat
        ensures !Trails(longer, j, c, m)
      {
        TrailsInLonger(s, "\n", j, c, m);
      }
      assert LinesEndAt(longer, m, |s| + 1);
      assert LinesEndFrom(longer, 0, |s| + 1);
    }
  }

  lemma StopEnds(s: string)
    ensures StrongEndsAt(s + ".", |s| + 1)
  {
    assert SentenceEndsAt(s + ".", |s| + 1, |s| + 1, |s| + 1);
    assert SentenceEndsFrom(s + ".", 0, |s| + 1);
  }

  // ---------- when a cut is settled ----------

  // A cut at a sentence end is settled once something stands behind it, or if it is the last place in the window and
  // would be the choice without the sentence end too; a cut inside the window once the text fills the window; and a
  // cut behind the window once the text fills the slack.
  ghost predicate Settled(text: string, w: CommitWindow, e: nat) {
    if !NoStrongEnd(text, w) then
      e < |text| || (e == w.maxChars && w.targetChars <= w.maxChars + 1 && ChosenInside(text, w, e))
    else if !NoClauseEnd(text, w.minChars, w.maxChars) || !NoBlankEnd(text, w.minChars, w.maxChars) then
      |text| >= w.maxChars
    else |text| >= w.maxChars + SLACK
  }

  lemma CutOfLonger(text: string, more: string, limit: nat)
    requires |text| >= limit
    ensures Cut(text + more, limit) == Cut(text, limit)
  {
  }

  // What lies within the text is settled as soon as the text fills the limit.
  lemma InsideOfLonger(text: string, more: string, minimum: nat, limit: nat)
    requires |text| >= limit
    ensures NoClauseEnd(text + more, minimum, limit) <==> NoClauseEnd(text, minimum, limit)
    ensures NoBlankEnd(text + more, minimum, limit) <==> NoBlankEnd(text, minimum, limit)
    ensures forall e: nat :: LastClause(text + more, minimum, limit, e) <==> LastClause(text, minimum, limit, e)
    ensures forall e: nat :: LastBlank(text + more, minimum, limit, e) <==> LastBlank(text, minimum, limit, e)
  {
    CutOfLonger(text, more, limit);
    assert forall e: nat :: ClauseInside(text + more, minimum, limit, e) <==> ClauseInside(text, minimum, limit, e);
    assert forall e: nat :: BlankInside(text + more, minimum, limit, e) <==> BlankInside(text, minimum, limit, e);
  }

  lemma StrongInWindowOfLonger(text: string, more: string, w: CommitWindow)
    ensures forall e: nat :: e <= |text| && StrongInWindow(text + more, w, e) ==> StrongInWindow(text, w, e)
    ensures forall e: nat :: e < |text| && StrongInWindow(text, w, e) ==> StrongInWindow(text + more, w, e)
  {
    forall e: nat | e <= |text|
      ensures StrongInWindow(text + more, w, e) ==> StrongInWindow(text, w, e)
      ensures e < |text| && StrongInWindow(text, w, e) ==> StrongInWindow(text + more, w, e)
    {
      StrongInLonger(text, more, e);
    }
  }

  lemma SettledStays(visible: nat, text: string, w: CommitWindow, e: nat, more: string)
    requires Chosen(visible, text, w, e) && e <= |text| && Settled(text, w, e)
    ensures Chosen(visible, text + more, w, e)
  {
    StrongInWindowOfLonger(text, more, w);
    if NoStrongEnd(text, w) {
      InsideOfLonger(text, more, w.minChars, w.maxChars);
      if |text| >= w.maxChars + SLACK {
        InsideOfLonger(text, more, w.minChars, w.maxChars + SLACK);
      }
    } else if e < |text| {
      assert FirstStrong(text + more, w, e);
    } else if more == "" {
      assert text + more == text;
    } else {
      InsideOfLonger(text, more, w.minChars, w.maxChars);
      if !NoStrongEnd(text + more, w) {
        assert FirstStrong(text + more, w, e);
      }
    }
  }

  // Some text that moves a cut which is not settled.
  lemma UnsettledMoves(visible: nat, text: string, w: CommitWindow, e: nat) returns (more: string)
    requires Chosen(visible, text, w, e) && e <= |text| && !Settled(text, w, e)
    ensures !Chosen(visible, text + more, w, e)
  {
    if !NoStrongEnd(text, w) {
      more := "\n";
      LineEndMovesCut(text, w, e);
    } else if !NoClauseEnd(text, w.minChars, w.maxChars) || !NoBlankEnd(text, w.minChars, w.maxChars) {
      more := ".";
      StopEnds(text);
      assert StrongInWindow(text + more, w, |text| + 1);
      StrongInWindowOfLonger(text, more, w);
    } else {
      more := " ";
      InsideOfLonger(text, more, w.minChars, w.maxChars);
      StrongInWindowOfLonger(text, more, w);
      BlankMoves(text, more, w, e);
    }
  }

  // White space behind the text is a later end than any before it.
  lemma BlankMoves(text: string, more: string, w: CommitWindow, e: nat)
    requires |more| == 1 && IsSpace(more[0]) && w.minChars <= e <= |text| < w.maxChars + SLACK
    ensures !LastBlank(text + more, w.minChars, w.maxChars + SLACK, e)
  {
    assert Cut(text + more, w.maxChars + SLACK) == text + more;
    assert BlankInside(text + more, w.minChars, w.maxChars + SLACK, |text| + 1);
  }

  lemma LineEndMovesCut(text: string, w: CommitWindow, e: nat)
    requires FirstStrong(text, w, e) && e == |text|
    requires !(e == w.maxChars && w.targetChars <= w.maxChars + 1 && ChosenInside(text, w, e))
    ensures !FirstStrong(text + "\n", w, e)
    ensures NoStrongEnd(text + "\n", w) && |text + "\n"| >= w.targetChars ==> !ChosenInside(text + "\n", w, e)
  {
    LineEndMoves(text);
    if e < w.maxChars {
      assert StrongInWindow(text + "\n", w, e + 1);
    } else {
      InsideOfLonger(text, "\n", w.minChars, w.maxChars);
      BlankMoves(text, "\n", w, e);
    }
  }

  lemma CutInIsChosen(text: string, w: CommitWindow, e: nat)
    ensures CutIn(text, w) == Some(e) <==> Chosen(w.minChars, text, w, e)
  {
    CutIsChosen(w.minChars, text, w, e);
  }

  // The exact condition: no text to come moves the cut if and only if it is settled.
  lemma SettledExactly(text: string, w: CommitWindow, e: nat)
    requires CutIn(text, w) == Some(e)
    ensures (forall more: string :: CutIn(text + more, w) == Some(e)) <==> Settled(text, w, e)
  {
    CutInIsChosen(text, w, e);
    if Settled(text, w, e) {
      forall more: string
        ensures CutIn(text + more, w) == Some(e)
      {
        SettledStays(w.minChars, text, w, e, more);
        CutInIsChosen(text + more, w, e);
      }
    } else {
      var more := UnsettledMoves(w.minChars, text, w, e);
      CutInIsChosen(text + more, w, e);
    }
  }

  // ---------- the same for the buffer ----------

  lemma {:induction false} TrailingReaches(s: string, i: nat)
    requires i < |s| && !IsSpace(s[i])
    ensures i < TrailingFrom(s)
    decreases |s|
  {
    if IsSpace(s[|s| - 1]) {
      TrailingReaches(s[..|s| - 1], i);
    }
  }

  lemma StripLength(s: string)
    requires Leading(s) < |s|
    ensures Leading(s) < TrailingFrom(s) && |Strip(s)| == TrailingFrom(s) - Leading(s)
  {
    RunEndIs(s, 0, IsSpace);
    TrailingReaches(s, Leading(s));
    var t := s[..TrailingFrom(s)];
    assert t[Leading(s)] == s[Leading(s)];
    RunIsUnique(t, 0, IsSpace, Leading(s));
  }

  // Text behind something visible leaves the white space in front and only lengthens what is visible.
  lemma VisibleStays(buffer: string, more: string)
    requires Leading(buffer) < |buffer|
    ensures Leading(buffer + more) == Leading(buffer) && LeftStrip(buffer + more) == LeftStrip(buffer) + more
    ensures |Strip(buffer)| <= |Strip(buffer + more)|
  {
    var longer := buffer + more;
    assert longer[..|buffer|] == buffer;
    SameLead(longer, buffer);
    StripLength(buffer);
    StripLength(longer);
    TrailingIs(buffer);
    TrailingReaches(longer, TrailingFrom(buffer) - 1);
  }

  // How much is visible matters only up to the minimum.
  lemma NextIs(buffer: string, w: CommitWindow, end: nat)
    requires w.minChars <= |Strip(buffer)| && Leading(buffer) <= end
    ensures NextEnd(buffer, w) == Some(end) <==> CutIn(LeftStrip(buffer), w) == Some(end - Leading(buffer))
  {
  }

  lemma NextOfLonger(buffer: string, w: CommitWindow, end: nat, more: string)
    requires Leading(buffer) < end <= |buffer| && w.minChars <= |Strip(buffer)|
    ensures NextEnd(buffer + more, w) == Some(end)
            <==> CutIn(LeftStrip(buffer) + more, w) == Some(end - Leading(buffer))
  {
    VisibleStays(buffer, more);
    NextIs(buffer + more, w, end);
  }

  // The next cut keeps its place under any text to come if and only if it is settled.
  lemma NextIsSettledExactly(buffer: string, w: CommitWindow, end: nat)
    requires NextEnd(buffer, w) == Some(end)
    ensures (forall more: string :: NextEnd(buffer + more, w) == Some(end))
            <==> Settled(LeftStrip(buffer), w, end - Leading(buffer))
  {
    var text, e := LeftStrip(buffer), end - Leading(buffer);
    NextIs(buffer, w, end);
    SettledExactly(text, w, e);
    forall more: string
      ensures NextEnd(buffer + more, w) == Some(end) <==> CutIn(text + more, w) == Some(e)
    {
      NextOfLonger(buffer, w, end, more);
    }
  }

  // ---------- when all the pieces are settled ----------

  ghost predicate Within(place: Placing) {
    forall k: nat, buffer: string :: place(k, buffer).Some? ==> 0 < place(k, buffer).value <= |buffer|
  }

  ghost predicate Lasts(place: Placing, k: nat, buffer: string) {
    forall more: string :: place(k, buffer + more) == place(k, buffer)
  }

  // What may be said of a cut: the number of its chunk and the buffer it is made of.
  type Judgement = (nat, string) -> bool

  // It is true of each of the cuts made of the buffer.
  ghost predicate AllAre(place: Placing, p: Judgement, k: nat, buffer: string)
    requires Within(place)
    decreases |buffer|
  {
    match place(k, buffer)
    case None => true
    case Some(end) => p(k, buffer) && AllAre(place, p, k + 1, LeftStrip(buffer[end..]))
  }

  lemma {:induction false} AllAreTheSame(place: Placing, p: Judgement, q: Judgement, k: nat, buffer: string)
    requires Within(place)
    requires forall j: nat, b: string :: place(j, b).Some? ==> (p(j, b) <==> q(j, b))
    ensures AllAre(place, p, k, buffer) <==> AllAre(place, q, k, buffer)
    decreases |buffer|
  {
    if place(k, buffer).Some? {
      AllAreTheSame(place, p, q, k + 1, LeftStrip(buffer[place(k, buffer).value..]));
    }
  }

  // Whatever comes, the places of the cuts made of the buffer stay.
  ghost predicate AllLast(place: Placing, k: nat, buffer: string)
    requires Within(place)
  {
    AllAre(place, (j: nat, b: string) => Lasts(place, j, b), k, buffer)
  }

  // Whatever comes, the pieces cut so far are the first ones that the longer text is cut into.
  ghost predicate AlwaysFirst(place: Placing, k: nat, buffer: string) {
    forall more: string :: Pieces(place, k, buffer) <= Pieces(place, k, buffer + more)
  }

  // What remains behind a cut is longer by the same text, unless nothing visible remains.
  lemma RestOfLonger(buffer: string, more: string, end: nat)
    requires end <= |buffer|
    ensures (buffer + more)[..end] == buffer[..end]
    ensures LeftStrip(buffer[end..]) != "" ==>
              LeftStrip((buffer + more)[end..]) == LeftStrip(buffer[end..]) + more
  {
    assert (buffer + more)[end..] == buffer[end..] + more;
    if LeftStrip(buffer[end..]) != "" {
      VisibleStays(buffer[end..], more);
    }
  }

  lemma {:induction false} LastingPiecesStay(place: Placing, k: nat, buffer: string, more: string)
    requires Within(place) && AllLast(place, k, buffer)
    ensures Pieces(place, k, buffer) <= Pieces(place, k, buffer + more)
    decreases |buffer|
  {
    if place(k, buffer).Some? {
      var end := place(k, buffer).value;
      var rest := LeftStrip(buffer[end..]);
      assert place(k, buffer + more) == Some(end);
      RestOfLonger(buffer, more, end);
      if rest == "" {
        assert Pieces(place, k + 1, rest) == [];
      } else {
        LastingPiecesStay(place, k + 1, rest, more);
      }
    }
  }

  // The first piece, and those behind it.
  lemma {:induction false} PiecesAre(place: Placing, k: nat, buffer: string, end: nat)
    requires Within(place)
    ensures place(k, buffer) == Some(end) ==>
              Pieces(place, k, buffer) ==
              [Piece(end, Strip(buffer[..end]))] + Pieces(place, k + 1, LeftStrip(buffer[end..]))
    ensures Pieces(place, k, buffer) != [] && Pieces(place, k, buffer)[0].end == end ==> place(k, buffer) == Some(end)
  {
  }

  lemma {:induction false} PrefixTail(a: seq<Piece>, b: seq<Piece>, p: Piece)
    ensures [p] + a <= [p] + b <==> a <= b
  {
    if [p] + a <= [p] + b {
      assert ([p] + a)[1..] == a && ([p] + b)[1..] == b;
    }
  }

  // A piece that moves behind the first cut moves in the whole text too.
  lemma {:induction false} LaterPieceMoves(place: Placing, k: nat, buffer: string, end: nat, more: string)
    requires Within(place) && place(k, buffer) == Some(end) && Lasts(place, k, buffer)
    requires var rest := LeftStrip(buffer[end..]);
             rest != "" && !(Pieces(place, k + 1, rest) <= Pieces(place, k + 1, rest + more))
    ensures !(Pieces(place, k, buffer) <= Pieces(place, k, buffer + more))
  {
    var rest := LeftStrip(buffer[end..]);
    RestOfLonger(buffer, more, end);
    PiecesAre(place, k, buffer, end);
    PiecesAre(place, k, buffer + more, end);
    PrefixTail(Pieces(place, k + 1, rest), Pieces(place, k + 1, rest + more), Piece(end, Strip(buffer[..end])));
  }

  lemma {:induction false} FirstPieceMoves(place: Placing, k: nat, buffer: string, end: nat, more: string)
    requires Within(place) && place(k, buffer) == Some(end) && place(k, buffer + more) != Some(end)
    ensures !(Pieces(place, k, buffer) <= Pieces(place, k, buffer + more))
  {
    PiecesAre(place, k, buffer, end);
    PiecesAre(place, k, buffer + more, end);
  }

  lemma {:induction false} SomePieceMoves(place: Placing, k: nat, buffer: string) returns (more: string)
    requires Within(place) && !AllLast(place, k, buffer)
    ensures !(Pieces(place, k, buffer) <= Pieces(place, k, buffer + more))
    decreases |buffer|
  {
    var end := place(k, buffer).value;
    var rest := LeftStrip(buffer[end..]);
    if Lasts(place, k, buffer) {
      assert !AllLast(place, k + 1, rest);
      assert place(k + 1, "") == None;
      more := SomePieceMoves(place, k + 1, rest);
      LaterPieceMoves(place, k, buffer, end, more);
    } else {
      more :| place(k, buffer + more) != Some(end);
      FirstPieceMoves(place, k, buffer, end, more);
    }
  }

  lemma FirstPiecesLast(place: Placing, k: nat, buffer: string)
    requires Within(place)
    ensures AlwaysFirst(place, k, buffer) <==> AllLast(place, k, buffer)
  {
    if AllLast(place, k, buffer) {
      forall more: string
        ensures Pieces(place, k, buffer) <= Pieces(place, k, buffer + more)
      {
        LastingPiecesStay(place, k, buffer, more);
      }
    } else {
      var more := SomePieceMoves(place, k, buffer);
    }
  }

  // Each cut that the committer makes of the buffer is settled when it is made.
  ghost predicate AllSettled(first: CommitWindow, next: CommitWindow, k: nat, buffer: string)
    requires Within(Placed(first, next))
  {
    AllAre(Placed(first, next), (j: nat, b: string) => NextIsSettled(b, WindowAt(first, next, j)), k, buffer)
  }

  ghost predicate NextIsSettled(buffer: string, w: CommitWindow) {
    NextEnd(buffer, w).Some? ==> Settled(LeftStrip(buffer), w, NextEnd(buffer, w).value - Leading(buffer))
  }

  lemma PlacedIsWithin(first: CommitWindow, next: CommitWindow)
    ensures Within(Placed(first, next))
  {
  }

  lemma SettledLasts(first: CommitWindow, next: CommitWindow, k: nat, buffer: string)
    requires Placed(first, next)(k, buffer).Some?
    ensures Lasts(Placed(first, next), k, buffer) <==> NextIsSettled(buffer, WindowAt(first, next, k))
  {
    var w := WindowAt(first, next, k);
    NextIsSettledExactly(buffer, w, NextEnd(buffer, w).value);
  }

  // How the text is split into fragments decides nothing about the pieces handed out so far if and only if every
  // one of them was settled when it was cut.
  lemma FirstPiecesExactly(first: CommitWindow, next: CommitWindow, k: nat, buffer: string)
    ensures Within(Placed(first, next))
    ensures AlwaysFirst(Placed(first, next), k, buffer) <==> AllSettled(first, next, k, buffer)
  {
    var place := Placed(first, next);
    PlacedIsWithin(first, next);
    forall j: nat, b: string | place(j, b).Some?
      ensures Lasts(place, j, b) <==> NextIsSettled(b, WindowAt(first, next, j))
    {
      SettledLasts(first, next, j, b);
    }
    AllAreTheSame(place, (j: nat, b: string) => Lasts(place, j, b),
                  (j: nat, b: string) => NextIsSettled(b, WindowAt(first, next, j)), k, buffer);
    FirstPiecesLast(place, k, buffer);
  }
}
