// The publisher's ledger of the commands it owns, as the guard reads it.
module OwnershipLedger {
  import opened Wrappers
  import opened CommandRegistry

  // `wellFormed`: the entry has the expected fields and its shapes are already in normal form.
  datatype Entry = Entry(id: string, shapes: seq<Shape>, wellFormed: bool)

  // `headerMatches`: schema, run, application and guild are the guard's own.
  datatype Ledger =
    | Missing
    | Unreadable
    | Unforeseen
    | Document(headerMatches: bool, recoveryRequired: bool, entries: seq<Entry>)

  // The shapes allowed for each command id.
  type Owned = map<string, seq<Shape>>

  datatype LedgerState = LedgerState(tracked: Owned, current: Owned, recoveryRequired: bool)

  // ---------- which ledgers are accepted ----------

  ghost predicate DistinctShapes(shapes: seq<Shape>) {
    forall i, j :: 0 <= i < j < |shapes| ==> shapes[i] != shapes[j]
  }

  // The one managed name among an entry's shapes is the name it will finally be published under.
  function ManagedShapes(shapes: seq<Shape>): seq<Shape> {
    if shapes == [] then []
    else ManagedShapes(shapes[..|shapes| - 1]) +
         (if IsManaged(shapes[|shapes| - 1]) then [shapes[|shapes| - 1]] else [])
  }

  ghost predicate EntryAccepted(e: Entry, tracked: Owned) {
    && e.wellFormed && ValidId(e.id)
    && 1 <= |e.shapes| <= 2 && DistinctShapes(e.shapes)
    && |ManagedShapes(e.shapes)| == 1
    && (e.id in tracked ==> forall s :: s in e.shapes ==> s in tracked[e.id])
  }

  function Candidate(entries: seq<Entry>): Owned {
    if entries == [] then map[]
    else
      var e := entries[|entries| - 1];
      Candidate(entries[..|entries| - 1])[e.id := e.shapes]
  }

  function FinalName(e: Entry): string {
    var managed := ManagedShapes(e.shapes);
    if managed == [] then "" else managed[0].name
  }

  function FinalNames(entries: seq<Entry>): set<string> {
    if entries == [] then {} else FinalNames(entries[..|entries| - 1]) + {FinalName(entries[|entries| - 1])}
  }

  // Every entry is in order, and no two share an id or a final name.
  ghost predicate EntriesAccepted(entries: seq<Entry>, tracked: Owned) {
    entries != [] ==>
      var init, e := entries[..|entries| - 1], entries[|entries| - 1];
      && EntriesAccepted(init, tracked)
      && EntryAccepted(e, tracked)
      && e.id !in Candidate(init) && FinalName(e) !in FinalNames(init)
  }

  ghost predicate Accepted(ledger: Ledger, tracked: Owned) {
    && ledger.Document? && ledger.headerMatches
    && |ledger.entries| <= MANAGED_COUNT
    && EntriesAccepted(ledger.entries, tracked)
  }

  // No ledger at all is in order, too.
  ghost predicate Readable(ledger: Ledger, tracked: Owned) {
    ledger.Missing? || Accepted(ledger, tracked)
  }

  ghost function AfterRead(s: LedgerState, ledger: Ledger): LedgerState {
    if ledger.Missing? then s.(current := map[])
    else if Accepted(ledger, s.tracked) then
      var candidate := Candidate(ledger.entries);
      LedgerState(s.tracked + candidate, candidate, s.recoveryRequired || ledger.recoveryRequired)
    else s
  }

  // ---------- reading a ledger ----------

  lemma AcceptStep(entries: seq<Entry>, i: nat, tracked: Owned)
    requires i < |entries|
    ensures var e := entries[i];
            EntriesAccepted(entries[..i + 1], tracked) <==>
            && EntriesAccepted(entries[..i], tracked)
            && EntryAccepted(e, tracked)
            && e.id !in Candidate(entries[..i]) && FinalName(e) !in FinalNames(entries[..i])
    ensures FinalNames(entries[..i + 1]) == FinalNames(entries[..i]) + {FinalName(entries[i])}
    ensures Candidate(entries[..i + 1]) == Candidate(entries[..i])[entries[i].id := entries[i].shapes]
  {
    assert entries[..i + 1][..i] == entries[..i];
  }

  lemma {:induction false} RejectedStaysRejected(entries: seq<Entry>, i: nat, tracked: Owned)
    requires i <= |entries| && !EntriesAccepted(entries[..i], tracked)
    ensures !EntriesAccepted(entries, tracked)
    decreases |entries| - i
  {
    if i < |entries| {
      AcceptStep(entries, i, tracked);
      RejectedStaysRejected(entries, i + 1, tracked);
    } else {
      assert entries[..i] == entries;
    }
  }

  datatype LedgerFailure = OwnershipInvalid | OwnedShapeDrift

  // Whether one entry passes, and if not which failure is reported.
  method CheckEntry(e: Entry, tracked: Owned, candidate: Owned, finalNames: set<string>)
    returns (failure: Option<LedgerFailure>)
    ensures failure == None <==>
            EntryAccepted(e, tracked) && e.id !in candidate && FinalName(e) !in finalNames
    ensures failure == Some(OwnedShapeDrift) <==>
            && EntryAccepted(e, map[]) && e.id !in candidate && FinalName(e) !in finalNames
            && e.id in tracked && exists s :: s in e.shapes && s !in tracked[e.id]
  {
    if !e.wellFormed || !ValidId(e.id) || e.id in candidate || !(1 <= |e.shapes| <= 2) {
      return Some(OwnershipInvalid);
    }
    if |e.shapes| == 2 && e.shapes[0] == e.shapes[1] {
      return Some(OwnershipInvalid);
    }
    var managed := ManagedShapes(e.shapes);
    if |managed| != 1 || managed[0].name in finalNames {
      return Some(OwnershipInvalid);
    }
    if e.id in tracked && exists s :: s in e.shapes && s !in tracked[e.id] {
      return Some(OwnedShapeDrift);
    }
    return None;
  }

  // Entry `i` is the first that does not pass: it drifted if nothing is wrong with it but shapes that were not allowed
  // for its id, and is invalid otherwise.
  ghost predicate FailsAt(entries: seq<Entry>, tracked: Owned, i: nat, f: LedgerFailure) {
    && i < |entries| && EntriesAccepted(entries[..i], tracked)
    && var e := entries[i];
       var apart := e.id !in Candidate(entries[..i]) && FinalName(e) !in FinalNames(entries[..i]);
       && !(EntryAccepted(e, tracked) && apart)
       && (f == OwnedShapeDrift <==> EntryAccepted(e, map[]) && apart)
  }

  // Checks the entries one by one; the first that does not pass decides.
  method CheckEntries(entries: seq<Entry>, tracked: Owned) returns (r: Result<Owned, LedgerFailure>)
    ensures r.Success? <==> EntriesAccepted(entries, tracked)
    ensures r.Success? ==> r.value == Candidate(entries)
    ensures r.Failure? ==> exists i: nat :: FailsAt(entries, tracked, i, r.error)
  {
    var candidate: Owned := map[];
    var finalNames: set<string> := {};
    var i := 0;
    while i < |entries|
      invariant 0 <= i <= |entries|
      invariant EntriesAccepted(entries[..i], tracked)
      invariant candidate == Candidate(entries[..i]) && finalNames == FinalNames(entries[..i])
    {
      AcceptStep(entries, i, tracked);
      var failure := CheckEntry(entries[i], tracked, candidate, finalNames);
      if failure.Some? {
        RejectedStaysRejected(entries, i + 1, tracked);
        assert FailsAt(entries, tracked, i, failure.value);
        return Failure(failure.value);
      }
      candidate := candidate[entries[i].id := entries[i].shapes];
      finalNames := finalNames + {FinalName(entries[i])};
      i := i + 1;
    }
    assert entries[..i] == entries;
    return Success(candidate);
  }

  // ---------- what reading can do over time ----------

  ghost function AfterReads(s: LedgerState, ledgers: seq<Ledger>): LedgerState {
    if ledgers == [] then s
    else AfterRead(AfterReads(s, ledgers[..|ledgers| - 1]), ledgers[|ledgers| - 1])
  }

  // Ids are only added, the shapes allowed for an id only get fewer, and a request for recovery is never forgotten.
  ghost predicate Narrows(before: LedgerState, after: LedgerState) {
    && (forall id :: id in before.tracked ==> id in after.tracked)
    && (forall id, s :: id in before.tracked && id in after.tracked && s in after.tracked[id] ==>
        s in before.tracked[id])
    && (before.recoveryRequired ==> after.recoveryRequired)
  }

  // What an accepted document says about an id is what the document's entry says, within what was allowed before.
  lemma {:induction false} CandidateIsAllowed(entries: seq<Entry>, tracked: Owned)
    requires EntriesAccepted(entries, tracked)
    ensures forall id, s :: id in Candidate(entries) && id in tracked && s in Candidate(entries)[id] ==>
            s in tracked[id]
    decreases |entries|
  {
    if entries != [] {
      CandidateIsAllowed(entries[..|entries| - 1], tracked);
    }
  }

  lemma ReadNarrows(s: LedgerState, ledger: Ledger)
    ensures Narrows(s, AfterRead(s, ledger))
  {
    if Accepted(ledger, s.tracked) {
      CandidateIsAllowed(ledger.entries, s.tracked);
    }
  }

  // Over every sequence of reads, ownership only narrows; and if no ledger was accepted on the way,
  // the tracked ownership and the recovery flag are exactly what they were.
  lemma {:induction false} ReadsOnlyNarrow(s: LedgerState, ledgers: seq<Ledger>)
    ensures Narrows(s, AfterReads(s, ledgers))
    ensures (forall i :: 0 <= i < |ledgers| ==> !Accepted(ledgers[i], AfterReads(s, ledgers[..i]).tracked)) ==>
              AfterReads(s, ledgers).tracked == s.tracked
              && AfterReads(s, ledgers).recoveryRequired == s.recoveryRequired
    decreases |ledgers|
  {
    if ledgers != [] {
      var n := |ledgers| - 1;
      var init := ledgers[..n];
      ReadsOnlyNarrow(s, init);
      ReadNarrows(AfterReads(s, init), ledgers[n]);
      assert forall i :: 0 <= i < n ==> init[i] == ledgers[i] && init[..i] == ledgers[..i];
    }
  }

  // An accepted entry allows its id exactly the shapes it names, and its one final name is taken.
  ghost predicate EntryKept(entries: seq<Entry>, e: Entry, tracked: Owned) {
    && EntryAccepted(e, tracked)
    && e.id in Candidate(entries) && Candidate(entries)[e.id] == e.shapes
    && FinalName(e) in FinalNames(entries)
  }

  lemma {:induction false} EntriesAreKept(entries: seq<Entry>, tracked: Owned)
    requires EntriesAccepted(entries, tracked)
    ensures forall i :: 0 <= i < |entries| ==> EntryKept(entries, entries[i], tracked)
    decreases |entries|
  {
    if entries != [] {
      var n := |entries| - 1;
      var init := entries[..n];
      EntriesAreKept(init, tracked);
      forall i | 0 <= i < n
        ensures EntryKept(entries, entries[i], tracked)
      {
        assert EntryKept(init, init[i], tracked);
      }
    }
  }

  lemma {:induction false} TwoAreApart(entries: seq<Entry>, tracked: Owned, i: nat, j: nat)
    requires EntriesAccepted(entries, tracked) && i < j < |entries|
    ensures entries[i].id != entries[j].id && FinalName(entries[i]) != FinalName(entries[j])
    decreases |entries|
  {
    var init := entries[..|entries| - 1];
    if j < |init| {
      TwoAreApart(init, tracked, i, j);
    } else {
      EntriesAreKept(init, tracked);
      assert EntryKept(init, init[i], tracked);
    }
  }

  lemma {:induction false} CandidateCounts(entries: seq<Entry>, tracked: Owned)
    requires EntriesAccepted(entries, tracked)
    ensures |Candidate(entries)| == |entries|
    decreases |entries|
  {
    if entries != [] {
      CandidateCounts(entries[..|entries| - 1], tracked);
    }
  }

  // The accepted ids are exactly the document's, each once, with exactly one managed shape and no shared final name.
  lemma {:induction false} AcceptedEntriesAreApart(entries: seq<Entry>, tracked: Owned)
    requires EntriesAccepted(entries, tracked)
    ensures forall i :: 0 <= i < |entries| ==> EntryKept(entries, entries[i], tracked)
    ensures forall i, j :: 0 <= i < j < |entries| ==>
              entries[i].id != entries[j].id && FinalName(entries[i]) != FinalName(entries[j])
    ensures |Candidate(entries)| == |entries|
  {
    EntriesAreKept(entries, tracked);
    CandidateCounts(entries, tracked);
    forall i, j | 0 <= i < j < |entries|
      ensures entries[i].id != entries[j].id && FinalName(entries[i]) != FinalName(entries[j])
    {
      TwoAreApart(entries, tracked, i, j);
    }
  }

  // ---------- which documents are accepted, entry by entry ----------

  // Shape `k` is the only one of the entry under a managed name.
  ghost predicate OnlyManaged(e: Entry, k: nat) {
    k < |e.shapes| && forall j :: 0 <= j < |e.shapes| ==> (e.shapes[j].name in MANAGED_NAMES <==> j == k)
  }

  // An entry by itself: one or two different shapes for a valid id, one of them final, and for an id tracked before
  // none that was not allowed.
  ghost predicate EntryInOrder(e: Entry, tracked: Owned) {
    && e.wellFormed && ValidId(e.id)
    && (|e.shapes| == 1 || (|e.shapes| == 2 && e.shapes[0] != e.shapes[1]))
    && (exists k: nat :: OnlyManaged(e, k))
    && (e.id in tracked ==> forall j :: 0 <= j < |e.shapes| ==> e.shapes[j] in tracked[e.id])
  }

  // Two entries with different ids and different final names.
  ghost predicate Apart(a: Entry, b: Entry) {
    && a.id != b.id
    && forall j: nat, k: nat :: OnlyManaged(a, j) && OnlyManaged(b, k) ==> a.shapes[j].name != b.shapes[k].name
  }

  lemma {:induction false} ManagedOfOne(a: Shape)
    ensures ManagedShapes([a]) == if IsManaged(a) then [a] else []
  {
    assert [a][..0] == [] && ManagedShapes([a][..0]) == [];
  }

  lemma {:induction false} ManagedOfTwo(a: Shape, b: Shape)
    ensures ManagedShapes([a, b]) == (if IsManaged(a) then [a] else []) + (if IsManaged(b) then [b] else [])
  {
    ManagedOfOne(a);
    assert [a, b][..1] == [a];
  }

  lemma {:induction false} OneIsManaged(e: Entry) returns (k: nat)
    requires 1 <= |e.shapes| <= 2
    ensures |ManagedShapes(e.shapes)| == 1 <==> exists j: nat :: OnlyManaged(e, j)
    ensures |ManagedShapes(e.shapes)| == 1 ==> OnlyManaged(e, k) && FinalName(e) == e.shapes[k].name
  {
    k := 0;
    if |e.shapes| == 1 {
      assert e.shapes == [e.shapes[0]];
      ManagedOfOne(e.shapes[0]);
      assert IsManaged(e.shapes[0]) ==> OnlyManaged(e, 0);
    } else {
      assert e.shapes == [e.shapes[0], e.shapes[1]];
      ManagedOfTwo(e.shapes[0], e.shapes[1]);
      k := if IsManaged(e.shapes[0]) then 0 else 1;
      assert |ManagedShapes(e.shapes)| == 1 ==> OnlyManaged(e, k);
    }
  }

  lemma {:induction false} InOrderExactly(e: Entry, tracked: Owned)
    ensures EntryAccepted(e, tracked) <==> EntryInOrder(e, tracked)
  {
    if 1 <= |e.shapes| <= 2 {
      var k := OneIsManaged(e);
      assert (forall x :: x in e.shapes ==> e.id in tracked ==> x in tracked[e.id]) <==>
             (forall j :: 0 <= j < |e.shapes| ==> e.id in tracked ==> e.shapes[j] in tracked[e.id]);
    }
  }

  lemma {:induction false} ApartExactly(a: Entry, b: Entry, tracked: Owned)
    requires EntryAccepted(a, tracked) && EntryAccepted(b, tracked)
    ensures Apart(a, b) <==> a.id != b.id && FinalName(a) != FinalName(b)
  {
    var j := OneIsManaged(a);
    var k := OneIsManaged(b);
  }

  lemma {:induction false} NamesOf(entries: seq<Entry>, name: string)
    ensures name in FinalNames(entries) <==> exists i :: 0 <= i < |entries| && FinalName(entries[i]) == name
    decreases |entries|
  {
    if entries != [] {
      var n := |entries| - 1;
      NamesOf(entries[..n], name);
      if i :| 0 <= i < |entries| && FinalName(entries[i]) == name {
        assert i < n ==> entries[..n][i] == entries[i];
      }
    }
  }

  lemma {:induction false} IdsOf(entries: seq<Entry>, id: string)
    ensures id in Candidate(entries) <==> exists i :: 0 <= i < |entries| && entries[i].id == id
    decreases |entries|
  {
    if entries != [] {
      var n := |entries| - 1;
      IdsOf(entries[..n], id);
      if i :| 0 <= i < |entries| && entries[i].id == id {
        assert i < n ==> entries[..n][i] == entries[i];
      }
    }
  }

  ghost predicate AllInOrder(entries: seq<Entry>, tracked: Owned) {
    && (forall i :: 0 <= i < |entries| ==> EntryInOrder(entries[i], tracked))
    && forall i, j :: 0 <= i < j < |entries| ==> Apart(entries[i], entries[j])
  }

  // The checks made entry by entry accept exactly the documents whose entries are each in order and pairwise apart.
  lemma {:induction false} AcceptedExactly(entries: seq<Entry>, tracked: Owned)
    ensures EntriesAccepted(entries, tracked) <==> AllInOrder(entries, tracked)
    decreases |entries|
  {
    if entries != [] {
      var n := |entries| - 1;
      AcceptedExactly(entries[..n], tracked);
      LastInOrder(entries, tracked);
      LastAccepted(entries, tracked);
    }
  }

  lemma {:induction false} LastInOrder(entries: seq<Entry>, tracked: Owned)
    requires entries != []
    ensures var n := |entries| - 1;
            AllInOrder(entries, tracked) <==>
            && AllInOrder(entries[..n], tracked) && EntryInOrder(entries[n], tracked)
            && forall i :: 0 <= i < n ==> Apart(entries[i], entries[n])
  {
    var n := |entries| - 1;
    var init := entries[..n];
    assert forall i :: 0 <= i < n ==> init[i] == entries[i];
    if AllInOrder(init, tracked) && EntryInOrder(entries[n], tracked)
       && forall i :: 0 <= i < n ==> Apart(entries[i], entries[n]) {
      forall i | 0 <= i < |entries|
        ensures EntryInOrder(entries[i], tracked)
      {
        assert i < n ==> EntryInOrder(init[i], tracked);
      }
      forall i, j | 0 <= i < j < |entries|
        ensures Apart(entries[i], entries[j])
      {
        assert j < n ==> Apart(init[i], init[j]);
      }
    }
    if AllInOrder(entries, tracked) {
      forall i | 0 <= i < n
        ensures EntryInOrder(init[i], tracked)
      {
        assert EntryInOrder(entries[i], tracked);
      }
      forall i, j | 0 <= i < j < n
        ensures Apart(init[i], init[j])
      {
        assert Apart(entries[i], entries[j]);
      }
    }
  }

  lemma {:induction false} LastAccepted(entries: seq<Entry>, tracked: Owned)
    requires entries != [] && (EntriesAccepted(entries[..|entries| - 1], tracked) <==>
                               AllInOrder(entries[..|entries| - 1], tracked))
    ensures var n := |entries| - 1;
            EntriesAccepted(entries, tracked) <==>
            && AllInOrder(entries[..n], tracked) && EntryInOrder(entries[n], tracked)
            && forall i :: 0 <= i < n ==> Apart(entries[i], entries[n])
  {
    var n := |entries| - 1;
    var init, e := entries[..n], entries[n];
    InOrderExactly(e, tracked);
    IdsOf(init, e.id);
    NamesOf(init, FinalName(e));
    if AllInOrder(init, tracked) && EntryAccepted(e, tracked) {
      forall i | 0 <= i < n
        ensures Apart(entries[i], e) <==> init[i].id != e.id && FinalName(init[i]) != FinalName(e)
      {
        assert EntryInOrder(init[i], tracked);
        InOrderExactly(init[i], tracked);
        ApartExactly(init[i], e, tracked);
      }
    }
  }

  // ---------- what a read leaves ----------

  // An accepted document decides the shapes of every id it names, and of no other; the current ownership is the
  // document's. A missing ledger leaves nothing owned at present, any other read changes nothing.
  lemma {:induction false} ReadReplaces(s: LedgerState, ledger: Ledger)
    ensures var t := AfterRead(s, ledger);
            && (Accepted(ledger, s.tracked) ==>
                  && (forall i :: 0 <= i < |ledger.entries| ==> OwnedAs(t.tracked, ledger.entries[i]))
                  && (forall i :: 0 <= i < |ledger.entries| ==> OwnedAs(t.current, ledger.entries[i]))
                  && (forall id :: !NamesId(ledger, id) ==> SameShapes(t.tracked, s.tracked, id) && id !in t.current)
                  && t.recoveryRequired == (s.recoveryRequired || ledger.recoveryRequired))
            && (ledger.Missing? ==> t.tracked == s.tracked && t.current == map[]
                                    && t.recoveryRequired == s.recoveryRequired)
            && (!ledger.Missing? && !Accepted(ledger, s.tracked) ==> t == s)
  {
    if Accepted(ledger, s.tracked) {
      EntriesAreKept(ledger.entries, s.tracked);
      forall i | 0 <= i < |ledger.entries|
        ensures OwnedAs(Candidate(ledger.entries), ledger.entries[i])
      {
        assert EntryKept(ledger.entries, ledger.entries[i], s.tracked);
      }
      forall id: string
        ensures id in Candidate(ledger.entries) <==> NamesId(ledger, id)
      {
        IdsOf(ledger.entries, id);
      }
    }
  }

  // The id of the entry is owned in exactly the entry's shapes.
  ghost predicate OwnedAs(owned: Owned, e: Entry) {
    e.id in owned && owned[e.id] == e.shapes
  }

  ghost predicate NamesId(ledger: Ledger, id: string) {
    ledger.Document? && exists i :: 0 <= i < |ledger.entries| && ledger.entries[i].id == id
  }

  ghost predicate SameShapes(a: Owned, b: Owned, id: string) {
    (id in a <==> id in b) && (id in a && id in b ==> a[id] == b[id])
  }

  // Document number `k` of these reads was accepted and names the id of `e`, and no later one that was accepted does.
  ghost predicate NewestNaming(s: LedgerState, ledgers: seq<Ledger>, k: nat, e: Entry) {
    && k < |ledgers| && AcceptedAt(s, ledgers, k) && e in ledgers[k].entries
    && forall j :: k < j < |ledgers| && AcceptedAt(s, ledgers, j) ==> !NamesId(ledgers[j], e.id)
  }

  ghost predicate AcceptedAt(s: LedgerState, ledgers: seq<Ledger>, k: nat)
    requires k < |ledgers|
  {
    Accepted(ledgers[k], AfterReads(s, ledgers[..k]).tracked)
  }

  lemma {:induction false} NewestInInit(s: LedgerState, ledgers: seq<Ledger>, k: nat, e: Entry)
    requires NewestNaming(s, ledgers, k, e) && k + 1 < |ledgers|
    ensures NewestNaming(s, ledgers[..|ledgers| - 1], k, e)
    ensures AcceptedAt(s, ledgers, |ledgers| - 1) ==> !NamesId(ledgers[|ledgers| - 1], e.id)
  {
    var init := ledgers[..|ledgers| - 1];
    forall j | k <= j < |init|
      ensures AcceptedAt(s, init, j) <==> AcceptedAt(s, ledgers, j)
    {
      assert init[j] == ledgers[j] && init[..j] == ledgers[..j];
    }
  }

  lemma {:induction false} ReadNames(s: LedgerState, ledger: Ledger, e: Entry)
    requires Accepted(ledger, s.tracked) && e in ledger.entries
    ensures OwnedAs(AfterRead(s, ledger).tracked, e)
  {
    ReadReplaces(s, ledger);
    var i :| 0 <= i < |ledger.entries| && ledger.entries[i] == e;
    assert OwnedAs(AfterRead(s, ledger).tracked, ledger.entries[i]);
  }

  lemma {:induction false} ReadKeeps(s: LedgerState, ledger: Ledger, id: string)
    requires Accepted(ledger, s.tracked) ==> !NamesId(ledger, id)
    ensures SameShapes(AfterRead(s, ledger).tracked, s.tracked, id)
  {
    ReadReplaces(s, ledger);
  }

  // Over every sequence of reads, the newest accepted document that names an id decides its shapes.
  lemma {:induction false} NewestDecides(s: LedgerState, ledgers: seq<Ledger>, k: nat, e: Entry)
    requires NewestNaming(s, ledgers, k, e)
    ensures OwnedAs(AfterReads(s, ledgers).tracked, e)
    decreases |ledgers|
  {
    var n := |ledgers| - 1;
    if k == n {
      ReadNames(AfterReads(s, ledgers[..n]), ledgers[n], e);
    } else {
      NewestInInit(s, ledgers, k, e);
      NewestDecides(s, ledgers[..n], k, e);
      ReadKeeps(AfterReads(s, ledgers[..n]), ledgers[n], e.id);
    }
  }

  // An id that no accepted document names stays as it was.
  lemma {:induction false} UnnamedStays(s: LedgerState, ledgers: seq<Ledger>, id: string)
    requires forall j :: 0 <= j < |ledgers| && AcceptedAt(s, ledgers, j) ==> !NamesId(ledgers[j], id)
    ensures SameShapes(AfterReads(s, ledgers).tracked, s.tracked, id)
    decreases |ledgers|
  {
    if ledgers != [] {
      var n := |ledgers| - 1;
      var init := ledgers[..n];
      assert forall j :: 0 <= j < n ==> init[j] == ledgers[j] && init[..j] == ledgers[..j];
      forall j | 0 <= j < |init| && AcceptedAt(s, init, j)
        ensures !NamesId(init[j], id)
      {
        assert AcceptedAt(s, ledgers, j);
      }
      UnnamedStays(s, init, id);
      assert AcceptedAt(s, ledgers, n) ==> !NamesId(ledgers[n], id);
      ReadKeeps(AfterReads(s, init), ledgers[n], id);
    }
  }
}
