// The guard around a temporary publication of commands: it records the registry
// before, watches the publication, and afterwards deletes what the ledger owns.
module RegistryGuard {
  import opened Wrappers
  import opened CommandRegistry
  import opened OwnershipLedger

  datatype Failure =
    | RequestFailed | LedgerFailed(ledger: Option<LedgerFailure>) | IdentityInvalid | ManagedShapeDrift
    | ManagedCommandsPresent | ForeignDrift | PublisherRecoveryRequired
    | DeleteAmbiguous | DeleteNotApplied | VerificationFailed | PublishTimeout | Unexpected

  // ---------- the registry service ----------

  datatype Call =
    | ListedGuild(commands: seq<Command>)
    | ListedGlobal(commands: seq<Command>)
    | Delete(id: string, accepted: bool)

  // What can happen around call number k: others change the registries first; the call may fail, or break
  // with an exception nobody expects; and a delete that does not succeed may take effect all the same.
  datatype World = World(
    others: (nat, seq<Command>) -> seq<Command>,
    othersGlobal: (nat, seq<Command>) -> seq<Command>,
    fails: nat -> bool,
    breaks: nat -> bool,
    appliedAnyway: nat -> bool)

  // Nobody else writes and no request fails.
  ghost predicate Quiet(world: World) {
    forall k: nat, cs: seq<Command> ::
      world.others(k, cs) == cs && world.othersGlobal(k, cs) == cs && !world.fails(k)
      && !world.breaks(k)
  }

  // What a look at a registry comes to besides the commands.
  function Trouble(world: World, k: nat): Option<Failure> {
    if world.breaks(k) then Some(Unexpected) else if world.fails(k) then Some(RequestFailed) else None
  }

  // What two looks in a row show, the first with number k: the guild's registry and then the global one.
  function Seen(world: World, k: nat, guild: seq<Command>, global: seq<Command>)
    : Result<(seq<Command>, seq<Command>), Failure>
  {
    if Trouble(world, k).Some? then Failure(Trouble(world, k).value)
    else if Trouble(world, k + 1).Some? then Failure(Trouble(world, k + 1).value)
    else Success((world.others(k, guild), world.othersGlobal(k + 1, world.othersGlobal(k, global))))
  }

  function Without(commands: seq<Command>, id: string): seq<Command> {
    if commands == [] then []
    else Without(commands[..|commands| - 1], id) +
         (if commands[|commands| - 1].id == id then [] else [commands[|commands| - 1]])
  }

  class DiscordApi {
    var guild: seq<Command>
    var global: seq<Command>
    var calls: nat
    ghost var log: seq<Call>
    const world: World

    method GuildCommands() returns (r: Result<seq<Command>, Failure>)
      modifies this
      ensures guild == world.others(old(calls), old(guild)) && global == world.othersGlobal(old(calls), old(global))
      ensures calls == old(calls) + 1
      ensures r == match Trouble(world, old(calls)) case None => Success(guild) case Some(f) => Failure(f)
      ensures log == if r.Success? then old(log) + [ListedGuild(guild)] else old(log)
    {
      Interfere();
      var trouble := Trouble(world, calls - 1);
      if trouble.Some? {
        return Failure(trouble.value);
      }
      log := log + [ListedGuild(guild)];
      return Success(guild);
    }

    method GlobalCommands() returns (r: Result<seq<Command>, Failure>)
      modifies this
      ensures guild == world.others(old(calls), old(guild)) && global == world.othersGlobal(old(calls), old(global))
      ensures calls == old(calls) + 1
      ensures r == match Trouble(world, old(calls)) case None => Success(global) case Some(f) => Failure(f)
      ensures log == if r.Success? then old(log) + [ListedGlobal(global)] else old(log)
    {
      Interfere();
      var trouble := Trouble(world, calls - 1);
      if trouble.Some? {
        return Failure(trouble.value);
      }
      log := log + [ListedGlobal(global)];
      return Success(global);
    }

    // The attempt counts as a delete whatever comes of it.
    method DeleteGuildCommand(id: string) returns (trouble: Option<Failure>)
      requires ValidId(id)
      modifies this
      ensures global == world.othersGlobal(old(calls), old(global))
      ensures log == old(log) + [Delete(id, trouble == None)]
      ensures trouble == Trouble(world, old(calls))
      ensures var before := world.others(old(calls), old(guild));
              guild == if trouble == None || world.appliedAnyway(old(calls)) then Without(before, id) else before
    {
      Interfere();
      trouble := Trouble(world, calls - 1);
      log := log + [Delete(id, trouble == None)];
      if trouble == None || world.appliedAnyway(calls - 1) {
        guild := Without(guild, id);
      }
    }

    method Interfere()
      modifies this
      ensures guild == world.others(old(calls), old(guild)) && global == world.othersGlobal(old(calls), old(global))
      ensures calls == old(calls) + 1 && log == old(log)
    {
      guild, global, calls := world.others(calls, guild), world.othersGlobal(calls, global), calls + 1;
    }
  }

  // ---------- partition ----------

  datatype Parts = Parts(owned: seq<Command>, unowned: seq<Command>, foreign: seq<Command>)

  function Partition(commands: seq<Command>, tracked: Owned): Parts {
    if commands == [] then Parts([], [], [])
    else
      var p, c := Partition(commands[..|commands| - 1], tracked), commands[|commands| - 1];
      if c.id in tracked then p.(owned := p.owned + [c])
      else if IsManaged(c.shape) then p.(unowned := p.unowned + [c])
      else p.(foreign := p.foreign + [c])
  }

  // Every id is valid and appears once, and what is tracked has an allowed shape.
  ghost predicate Orderly(commands: seq<Command>, tracked: Owned) {
    && (forall i :: 0 <= i < |commands| ==>
          ValidId(commands[i].id) && (commands[i].id in tracked ==> commands[i].shape in tracked[commands[i].id]))
    && DistinctIds(commands)
  }

  function Ids(commands: seq<Command>): set<string> {
    set c | c in commands :: c.id
  }

  lemma IdsSnoc(commands: seq<Command>, i: nat)
    requires i < |commands|
    ensures Ids(commands[..i + 1]) == Ids(commands[..i]) + {commands[i].id}
  {
    assert commands[..i + 1] == commands[..i] + [commands[i]];
  }

  lemma OrderlyStep(commands: seq<Command>, i: nat, tracked: Owned)
    requires i < |commands| && Orderly(commands[..i], tracked)
    ensures var c := commands[i];
            Orderly(commands[..i + 1], tracked) <==>
            ValidId(c.id) && c.id !in Ids(commands[..i]) && (c.id in tracked ==> c.shape in tracked[c.id])
  {
    var before, after, c := commands[..i], commands[..i + 1], commands[i];
    assert after == before + [c];
    if c.id in Ids(before) {
      var d :| d in before && d.id == c.id;
      var j :| 0 <= j < i && before[j] == d;
      assert after[j].id == after[i].id;
    } else {
      assert forall j :: 0 <= j < i ==> before[j] in before && after[j] == before[j];
    }
  }

  method PartitionCurrent(commands: seq<Command>, tracked: Owned) returns (r: Result<Parts, Failure>)
    ensures r.Success? <==> Orderly(commands, tracked)
    ensures r.Success? ==> r.value == Partition(commands, tracked)
    ensures r.Failure? ==> BadIdentity(commands, r.error) || BadShape(commands, tracked, r.error)
  {
    var parts := Parts([], [], []);
    var ids: set<string> := {};
    var i := 0;
    while i < |commands|
      invariant 0 <= i <= |commands|
      invariant Orderly(commands[..i], tracked)
      invariant ids == Ids(commands[..i])
      invariant parts == Partition(commands[..i], tracked)
    {
      var c := commands[i];
      OrderlyStep(commands, i, tracked);
      IdsSnoc(commands, i);
      assert commands[..i + 1][..i] == commands[..i];
      if !ValidId(c.id) || c.id in ids {
        NotOrderly(commands, i, tracked);
        IdRepeats(commands, i, ids);
        return Failure(IdentityInvalid);
      }
      ids := ids + {c.id};
      if c.id !in tracked {
        if IsManaged(c.shape) {
          parts := parts.(unowned := parts.unowned + [c]);
        } else {
          parts := parts.(foreign := parts.foreign + [c]);
        }
      } else if c.shape !in tracked[c.id] {
        NotOrderly(commands, i, tracked);
        return Failure(ManagedShapeDrift);
      } else {
        parts := parts.(owned := parts.owned + [c]);
      }
      i := i + 1;
    }
    assert commands[..i] == commands;
    return Success(parts);
  }

  lemma IdRepeats(commands: seq<Command>, i: nat, ids: set<string>)
    requires i < |commands| && ids == Ids(commands[..i])
    ensures commands[i].id in ids ==> exists j :: 0 <= j < i && commands[j].id == commands[i].id
  {
    var id := commands[i].id;
    if id in ids {
      SeenBefore(commands, i, id);
    }
  }

  lemma SeenBefore(commands: seq<Command>, i: nat, id: string)
    requires i < |commands| && id in Ids(commands[..i])
    ensures exists j :: 0 <= j < i && commands[j].id == id
  {
    var d :| d in commands[..i] && d.id == id;
    var j :| 0 <= j < i && commands[..i][j] == d;
    assert commands[j].id == id;
  }

  ghost predicate BadIdentity(commands: seq<Command>, error: Failure) {
    && error == IdentityInvalid
    && exists i :: 0 <= i < |commands| && (!ValidId(commands[i].id)
                                           || exists j :: 0 <= j < i && commands[j].id == commands[i].id)
  }

  ghost predicate BadShape(commands: seq<Command>, tracked: Owned, error: Failure) {
    && error == ManagedShapeDrift
    && exists c :: c in commands && c.id in tracked && c.shape !in tracked[c.id]
  }

  lemma NotOrderly(commands: seq<Command>, i: nat, tracked: Owned)
    requires i < |commands| && !Orderly(commands[..i + 1], tracked)
    ensures !Orderly(commands, tracked)
  {
    assert forall k :: 0 <= k < i + 1 ==> commands[..i + 1][k] == commands[k];
  }

  // ---------- what restoring may do to the registry ----------

  // A command with this id and an allowed shape is in the listing.
  ghost predicate Shown(commands: seq<Command>, id: string, tracked: Owned) {
    exists c :: c in commands && c.id == id && id in tracked && c.shape in tracked[id]
  }

  // From `base` on, every delete directly follows a listing of both registries that shows the command as owned,
  // deletes an id of `ids`, and is the only delete of that id.
  ghost predicate Clean(log: seq<Call>, base: nat, tracked: Owned, ids: set<string>) {
    && base <= |log|
    && (forall i :: base <= i < |log| && log[i].Delete? ==> SafeDelete(log, base, i, tracked) && log[i].id in ids)
    && (forall i, j :: base <= i < j < |log| && log[i].Delete? && log[j].Delete? ==> log[i].id != log[j].id)
  }

  ghost predicate SafeDelete(log: seq<Call>, base: nat, i: nat, tracked: Owned)
    requires i < |log| && log[i].Delete?
  {
    && base + 2 <= i
    && log[i - 1].ListedGlobal? && log[i - 2].ListedGuild?
    && Shown(log[i - 2].commands, log[i].id, tracked)
  }

  lemma CleanJoin(first: seq<Call>, whole: seq<Call>, base: nat, tracked: Owned, a: set<string>, b: set<string>)
    requires Clean(first, base, tracked, a) && first <= whole && Clean(whole, |first|, tracked, b) && a !! b
    ensures Clean(whole, base, tracked, a + b)
  {
    forall i | base <= i < |whole| && whole[i].Delete?
      ensures SafeDelete(whole, base, i, tracked) && whole[i].id in a + b
    {
      if i < |first| {
        assert SafeDelete(first, base, i, tracked);
      } else {
        assert SafeDelete(whole, |first|, i, tracked);
      }
    }
    forall i, j | base <= i < j < |whole| && whole[i].Delete? && whole[j].Delete?
      ensures whole[i].id != whole[j].id
    {
      if j < |first| {
        assert first[i].id != first[j].id;
      } else if i < |first| {
        assert first[i].id in a && whole[j].id in b;
      }
    }
  }

  lemma CleanTail(log: seq<Call>, base: nat, tracked: Owned, ids: set<string>, more: seq<Call>)
    requires Clean(log, base, tracked, ids)
    requires forall k :: 0 <= k < |more| ==> !more[k].Delete?
    ensures Clean(log + more, base, tracked, ids)
  {
    forall i | base <= i < |log + more| && (log + more)[i].Delete?
      ensures SafeDelete(log + more, base, i, tracked) && (log + more)[i].id in ids
    {
      assert SafeDelete(log, base, i, tracked);
    }
  }

  // ---------- removing commands by id ----------

  function Keep(commands: seq<Command>, ids: set<string>): seq<Command> {
    if commands == [] then []
    else
      var c := commands[|commands| - 1];
      Keep(commands[..|commands| - 1], ids) + (if c.id in ids then [] else [c])
  }

  lemma {:induction false} WithoutSnoc(commands: seq<Command>, c: Command, id: string)
    ensures Without(commands + [c], id) == Without(commands, id) + if c.id == id then [] else [c]
  {
    assert (commands + [c])[..|commands|] == commands;
  }

  lemma {:induction false} KeepOneLess(commands: seq<Command>, ids: set<string>, id: string)
    ensures Without(Keep(commands, ids), id) == Keep(commands, ids + {id})
    decreases |commands|
  {
    if commands != [] {
      var init, c := commands[..|commands| - 1], commands[|commands| - 1];
      KeepOneLess(init, ids, id);
      if c.id !in ids {
        WithoutSnoc(Keep(init, ids), c, id);
      } else {
        assert Keep(init, ids) + [] == Keep(init, ids);
      }
    }
  }

  lemma {:induction false} KeepNothingOut(commands: seq<Command>)
    ensures Keep(commands, {}) == commands
    decreases |commands|
  {
    if commands != [] {
      KeepNothingOut(commands[..|commands| - 1]);
      assert commands == commands[..|commands| - 1] + [commands[|commands| - 1]];
    }
  }

  lemma {:induction false} KeptCommands(commands: seq<Command>, ids: set<string>)
    ensures forall c :: c in Keep(commands, ids) <==> c in commands && c.id !in ids
    ensures DistinctIds(commands) ==> DistinctIds(Keep(commands, ids))
    decreases |commands|
  {
    if commands != [] {
      var init, c := commands[..|commands| - 1], commands[|commands| - 1];
      KeptCommands(init, ids);
      assert commands == init + [c];
      forall x
        ensures x in Keep(commands, ids) <==> x in commands && x.id !in ids
      {
        assert x in commands <==> x in init || x == c;
      }
      if DistinctIds(commands) {
        LastIsApart(init, c, Keep(init, ids));
      }
    }
  }

  lemma InitIsDistinct(init: seq<Command>, c: Command)
    requires DistinctIds(init + [c])
    ensures DistinctIds(init)
  {
    assert forall i :: 0 <= i < |init| ==> (init + [c])[i] == init[i];
  }

  lemma LastIsApart(init: seq<Command>, c: Command, kept: seq<Command>)
    requires DistinctIds(init + [c]) && DistinctIds(kept) && forall x :: x in kept ==> x in init
    ensures DistinctIds(kept + [c])
  {
    forall x | x in kept
      ensures x.id != c.id
    {
      var k :| 0 <= k < |init| && init[k] == x;
      assert (init + [c])[k] == x && (init + [c])[|init|] == c;
    }
  }

  lemma KeepIsOrderly(commands: seq<Command>, ids: set<string>, tracked: Owned)
    requires Orderly(commands, tracked)
    ensures Orderly(Keep(commands, ids), tracked)
  {
    KeptCommands(commands, ids);
    var kept := Keep(commands, ids);
    forall i | 0 <= i < |kept|
      ensures ValidId(kept[i].id) && (kept[i].id in tracked ==> kept[i].shape in tracked[kept[i].id])
    {
      assert kept[i] in kept;
      var k :| 0 <= k < |commands| && commands[k] == kept[i];
    }
  }

  // Owned is what is tracked, each id once.
  lemma {:induction false} PartitionMeaning(commands: seq<Command>, tracked: Owned)
    ensures var p := Partition(commands, tracked);
            && (forall c :: c in p.owned <==> c in commands && c.id in tracked)
            && (DistinctIds(commands) ==> DistinctIds(p.owned))
    decreases |commands|
  {
    if commands != [] {
      var init, c := commands[..|commands| - 1], commands[|commands| - 1];
      PartitionMeaning(init, tracked);
      assert commands == init + [c];
      assert forall x :: x in commands <==> x in init || x == c;
      var earlier := Partition(init, tracked).owned;
      assert Partition(commands, tracked).owned == if c.id in tracked then earlier + [c] else earlier;
      if DistinctIds(commands) {
        InitIsDistinct(init, c);
        if c.id in tracked {
          LastIsApart(init, c, earlier);
        }
      }
    }
  }

  // Of what is not tracked, the managed commands are unowned and the rest is foreign.
  lemma {:induction false} OthersMeaning(commands: seq<Command>, tracked: Owned, c: Command)
    ensures var p := Partition(commands, tracked);
            && (c in p.unowned <==> c in commands && c.id !in tracked && IsManaged(c.shape))
            && (c in p.foreign <==> c in commands && c.id !in tracked && !IsManaged(c.shape))
    decreases |commands|
  {
    if commands != [] {
      var init, last := commands[..|commands| - 1], commands[|commands| - 1];
      OthersMeaning(init, tracked, c);
      assert commands == init + [last];
    }
  }

  // With nothing unowned, what is foreign is the list without what is owned, in its order.
  lemma {:induction false} ForeignIsTheRest(commands: seq<Command>, tracked: Owned, ids: set<string>)
    requires Partition(commands, tracked).unowned == []
    requires forall c :: c in commands ==> (c.id in ids <==> c.id in tracked)
    ensures Keep(commands, ids) == Partition(commands, tracked).foreign
    decreases |commands|
  {
    if commands != [] {
      var init, c := commands[..|commands| - 1], commands[|commands| - 1];
      assert commands == init + [c];
      assert forall x :: x in init ==> x in commands;
      assert c in commands;
      ForeignIsTheRest(init, tracked, ids);
    }
  }

  // ---------- deleting in order of id ----------

  function InsertById(c: Command, sorted: seq<Command>): seq<Command> {
    if sorted == [] then [c]
    else if StringLeq(sorted[0].id, c.id) then [sorted[0]] + InsertById(c, sorted[1..])
    else [c] + sorted
  }

  function ById(commands: seq<Command>): seq<Command> {
    if commands == [] then []
    else InsertById(commands[|commands| - 1], ById(commands[..|commands| - 1]))
  }

  lemma {:induction false} InsertByIdAdds(c: Command, sorted: seq<Command>, x: Command)
    ensures x in InsertById(c, sorted) <==> x in sorted || x == c
    decreases |sorted|
  {
    if sorted != [] {
      assert sorted == [sorted[0]] + sorted[1..];
      InsertByIdAdds(c, sorted[1..], x);
    }
  }

  lemma TailIsDistinct(sorted: seq<Command>)
    requires sorted != [] && DistinctIds(sorted)
    ensures DistinctIds(sorted[1..]) && forall x :: x in sorted[1..] ==> x.id != sorted[0].id
  {
    forall x | x in sorted[1..]
      ensures x.id != sorted[0].id
    {
      var k :| 0 <= k < |sorted| - 1 && sorted[1..][k] == x;
      assert sorted[k + 1] == x;
    }
  }

  lemma {:induction false} InsertByIdStaysDistinct(c: Command, sorted: seq<Command>)
    requires DistinctIds(sorted) && forall x :: x in sorted ==> x.id != c.id
    ensures DistinctIds(InsertById(c, sorted))
    decreases |sorted|
  {
    if sorted != [] && StringLeq(sorted[0].id, c.id) {
      var rest := sorted[1..];
      assert sorted == [sorted[0]] + rest;
      TailIsDistinct(sorted);
      InsertByIdStaysDistinct(c, rest);
      forall x | x in InsertById(c, rest)
        ensures x.id != sorted[0].id
      {
        InsertByIdAdds(c, rest, x);
      }
    }
  }

  lemma {:induction false} ByIdKeeps(commands: seq<Command>)
    ensures forall x :: x in ById(commands) <==> x in commands
    ensures DistinctIds(commands) ==> DistinctIds(ById(commands))
    decreases |commands|
  {
    if commands != [] {
      var init, c := commands[..|commands| - 1], commands[|commands| - 1];
      ByIdKeeps(init);
      assert commands == init + [c];
      forall x
        ensures x in ById(commands) <==> x in commands
      {
        InsertByIdAdds(c, ById(init), x);
      }
      if DistinctIds(commands) {
        forall x | x in init
          ensures x.id != c.id
        {
          var k :| 0 <= k < |init| && init[k] == x;
          assert commands[k] == x;
        }
        InsertByIdStaysDistinct(c, ById(init));
      }
    }
  }

  ghost predicate SortedById(s: seq<Command>) {
    forall i, j :: 0 <= i < j < |s| ==> StringLeq(s[i].id, s[j].id)
  }

  lemma {:induction false} InsertByIdStaysSorted(c: Command, sorted: seq<Command>)
    requires SortedById(sorted)
    ensures SortedById(InsertById(c, sorted))
    decreases |sorted|
  {
    if sorted != [] {
      var head, rest := sorted[0], sorted[1..];
      StringOrder(head.id, c.id);
      if StringLeq(head.id, c.id) {
        InsertByIdStaysSorted(c, rest);
        forall x | x in InsertById(c, rest)
          ensures StringLeq(head.id, x.id)
        {
          InsertByIdAdds(c, rest, x);
        }
      } else {
        forall x | x in sorted
          ensures StringLeq(c.id, x.id)
        {
          StringOrder(head.id, head.id);
          assert StringLeq(head.id, x.id);
          StringTransitive(c.id, head.id, x.id);
        }
      }
    }
  }

  // Deletions go in the order of the ids.
  lemma {:induction false} ByIdSorts(commands: seq<Command>)
    ensures SortedById(ById(commands))
    decreases |commands|
  {
    if commands != [] {
      ByIdSorts(commands[..|commands| - 1]);
      InsertByIdStaysSorted(commands[|commands| - 1], ById(commands[..|commands| - 1]));
    }
  }

  // The first command listed with this id.
  function Find(commands: seq<Command>, id: string): (r: Option<Command>)
    ensures r.Some? ==> r.value in commands && r.value.id == id
    ensures r == None <==> id !in Ids(commands)
  {
    if commands == [] then None
    else if commands[0].id == id then Some(commands[0])
    else
      assert commands == [commands[0]] + commands[1..];
      Find(commands[1..], id)
  }

  lemma {:induction false} WithoutIsGone(commands: seq<Command>, id: string)
    ensures id !in Ids(Without(commands, id))
    decreases |commands|
  {
    if commands != [] {
      WithoutIsGone(commands[..|commands| - 1], id);
    }
  }

  // ---------- the guard ----------

  class Guard {
    const api: DiscordApi
    var baselineGuild: seq<Command>
    var baselineGlobal: seq<Command>
    var postManaged: seq<Command>
    var tracked: Owned
    var currentOwned: Owned
    var baselineCaptured: bool
    var recoveryRequired: bool

    constructor (api: DiscordApi)
      ensures this.api == api
      ensures State() == LedgerState(map[], map[], false) && !baselineCaptured && postManaged == []
    {
      this.api := api;
      baselineGuild, baselineGlobal, postManaged := [], [], [];
      tracked, currentOwned := map[], map[];
      baselineCaptured, recoveryRequired := false, false;
    }

    function State(): LedgerState
      reads this
    {
      LedgerState(tracked, currentOwned, recoveryRequired)
    }

    method ReadOwnership(ledger: Ledger) returns (r: Result<Owned, Failure>)
      modifies this`tracked, this`currentOwned, this`recoveryRequired
      ensures State() == AfterRead(old(State()), ledger)
      ensures r.Success? <==> Readable(ledger, old(tracked))
      ensures r.Success? ==> r.value == currentOwned
      ensures r == Failure(Unexpected) <==> ledger.Unforeseen?
      ensures r.Failure? ==> r.error == Unexpected || r.error.LedgerFailed?
      ensures r == Failure(LedgerFailed(None)) <==> ledger.Unreadable?
      ensures ledger.Document? && r.Failure? ==>
                || (r == Failure(LedgerFailed(Some(OwnershipInvalid)))
                    && (!ledger.headerMatches || |ledger.entries| > 5))
                || (ledger.headerMatches && |ledger.entries| <= 5
                    && exists i: nat :: FailsAt(ledger.entries, old(tracked), i, r.error.ledger.value))
    {
      match ledger
      case Missing =>
        currentOwned := map[];
        return Success(map[]);
      case Unreadable =>
        return Failure(LedgerFailed(None));
      case Unforeseen =>
        return Failure(Unexpected);
      case Document(headerMatches, recovery, entries) =>
        if !headerMatches || |entries| > MANAGED_COUNT {
          return Failure(LedgerFailed(Some(OwnershipInvalid)));
        }
        var candidate := CheckEntries(entries, tracked);
        if candidate.Failure? {
          return Failure(LedgerFailed(Some(candidate.error)));
        }
        tracked := tracked + candidate.value;
        currentOwned := candidate.value;
        recoveryRequired := recoveryRequired || recovery;
        return Success(candidate.value);
    }

    method Registries() returns (r: Result<(seq<Command>, seq<Command>), Failure>)
      modifies api
      ensures old(api.log) <= api.log
      ensures r.Success? ==> api.log == old(api.log) + [ListedGuild(r.value.0), ListedGlobal(r.value.1)]
      ensures r.Failure? ==> forall i :: |old(api.log)| <= i < |api.log| ==> !api.log[i].Delete?
      ensures r == Seen(api.world, old(api.calls), old(api.guild), old(api.global))
      ensures Quiet(api.world) ==> r == Success((old(api.guild), old(api.global)))
                                   && api.guild == old(api.guild) && api.global == old(api.global)
    {
      var guild := api.GuildCommands();
      if guild.Failure? {
        return Failure(guild.error);
      }
      var global := api.GlobalCommands();
      if global.Failure? {
        return Failure(global.error);
      }
      return Success((guild.value, global.value));
    }

    method CaptureBaseline(ledger: Ledger) returns (r: Result<(), Failure>)
      modifies this, api
      ensures old(api.log) <= api.log
      ensures forall i :: |old(api.log)| <= i < |api.log| ==> !api.log[i].Delete?
      ensures baselineCaptured <==> old(baselineCaptured) || r.Success?
      ensures r.Success? ==> Captures(api.log, tracked, baselineGuild, baselineGlobal)
      ensures BaselineTells(r, Seen(api.world, old(api.calls), old(api.guild), old(api.global)),
                            Readable(ledger, old(tracked)))
      ensures r.Failure? ==> baselineGuild == old(baselineGuild) && baselineGlobal == old(baselineGlobal)
      ensures postManaged == old(postManaged)
      ensures State() == old(State()) || State() == AfterRead(old(State()), ledger)
    {
      var listed := Registries();
      if listed.Failure? {
        return Failure(listed.error);
      }
      var read := ReadOwnership(ledger);
      if read.Failure? {
        return Failure(read.error);
      }
      var parts := PartitionCurrent(listed.value.0, tracked);
      if parts.Failure? {
        return Failure(parts.error);
      }
      if parts.value.unowned != [] {
        return Failure(ManagedCommandsPresent);
      }
      baselineGuild := parts.value.foreign;
      baselineGlobal := listed.value.1;
      baselineCaptured := true;
      return Success(());
    }

    // A baseline is taken exactly if the looks succeed, the ledger is in order and the listing is orderly with nothing
    // managed left over; and what is left over is named exactly if it alone stands in the way.
    ghost predicate BaselineTells(r: Result<(), Failure>, seen: Result<(seq<Command>, seq<Command>), Failure>,
                                  readable: bool)
      reads this`tracked
    {
      && (r.Success? <==>
            && seen.Success? && readable
            && Orderly(seen.value.0, tracked) && Partition(seen.value.0, tracked).unowned == [])
      && (r == Failure(ManagedCommandsPresent) <==>
            && seen.Success? && readable
            && Orderly(seen.value.0, tracked) && Partition(seen.value.0, tracked).unowned != [])
    }

    method CapturePublished(ledger: Ledger) returns (r: Result<bool, Failure>)
      modifies this`tracked, this`currentOwned, this`recoveryRequired, this`postManaged, api
      ensures old(api.log) <= api.log
      ensures forall i :: |old(api.log)| <= i < |api.log| ==> !api.log[i].Delete?
      ensures State() == AfterRead(old(State()), ledger)
      ensures r != Success(true) ==> postManaged == old(postManaged)
      ensures Readable(ledger, old(tracked)) ==>
                Tells(r, Seen(api.world, old(api.calls), old(api.guild), old(api.global)), old(api.log))
      ensures !Readable(ledger, old(tracked)) ==> r.Failure?
      ensures r == Success(true) ==> LooksPublished()
    {
      var read := ReadOwnership(ledger);
      if read.Failure? {
        return Failure(read.error);
      }
      r := CaptureListed();
    }

    // The part of it that follows the ledger.
    method CaptureListed() returns (r: Result<bool, Failure>)
      modifies this`postManaged, api
      ensures old(api.log) <= api.log
      ensures forall i :: |old(api.log)| <= i < |api.log| ==> !api.log[i].Delete?
      ensures r != Success(true) ==> postManaged == old(postManaged)
      ensures r == Success(true) ==> LooksPublished()
      ensures Tells(r, Seen(api.world, old(api.calls), old(api.guild), old(api.global)), old(api.log))
    {
      var listed := Registries();
      if listed.Failure? {
        return Failure(listed.error);
      }
      var managed := CheckPublished(listed.value.0, listed.value.1);
      if managed.Failure? {
        return Failure(managed.error);
      }
      if managed.value.Some? {
        postManaged := managed.value.value;
      }
      return Success(managed.value.Some?);
    }

    // A failure is reported exactly if the looks fail or show a drift, and completion exactly if they show it; the
    // managed commands are then the owned ones of that look.
    ghost predicate Tells(r: Result<bool, Failure>, seen: Result<(seq<Command>, seq<Command>), Failure>,
                          before: seq<Call>)
      reads this`tracked, this`currentOwned, this`recoveryRequired, this`baselineGuild, this`baselineGlobal,
            this`postManaged, api`log
    {
      && (r.Failure? <==> seen.Failure? || Drifted(seen.value.0, seen.value.1))
      && (r == Success(true) <==> seen.Success? && Complete(seen.value.0, seen.value.1))
      && (seen.Success? ==> api.log == before + [ListedGuild(seen.value.0), ListedGlobal(seen.value.1)])
      && (r == Success(true) ==> postManaged == Partition(seen.value.0, tracked).owned)
    }

    // A listing that no publication by the ledger's owner explains.
    ghost predicate Drifted(guild: seq<Command>, global: seq<Command>)
      reads this`tracked, this`recoveryRequired, this`baselineGuild, this`baselineGlobal
    {
      || !Orderly(guild, tracked) || recoveryRequired
      || Canonical(Partition(guild, tracked).foreign) != Canonical(baselineGuild)
      || Canonical(global) != Canonical(baselineGlobal)
    }

    // What belongs to others has changed.
    ghost predicate ForeignDrifted(guild: seq<Command>, global: seq<Command>)
      reads this`tracked, this`baselineGuild, this`baselineGlobal
    {
      || Canonical(Partition(guild, tracked).foreign) != Canonical(baselineGuild)
      || Canonical(global) != Canonical(baselineGlobal)
    }

    // The last look at the registries shows the publication complete, and its commands are remembered.
    ghost predicate LooksPublished()
      reads this, api
    {
      && EndsWithListing(api.log) && Complete(api.log[|api.log| - 2].commands, api.log[|api.log| - 1].commands)
      && postManaged == Partition(api.log[|api.log| - 2].commands, tracked).owned != []
    }

    // A listing that shows the publication complete.
    ghost predicate Complete(guild: seq<Command>, global: seq<Command>)
      reads this`tracked, this`currentOwned, this`recoveryRequired, this`baselineGuild, this`baselineGlobal
    {
      && !recoveryRequired
      && ShowsPublished(guild, global, tracked, currentOwned, baselineGuild, baselineGlobal,
                        Partition(guild, tracked).owned)
    }

    // The managed commands of a listing that shows the publication complete; nothing while it is not.
    method CheckPublished(guild: seq<Command>, global: seq<Command>) returns (r: Result<Option<seq<Command>>, Failure>)
      ensures r.Success? && r.value.Some? ==>
                ShowsPublished(guild, global, tracked, currentOwned, baselineGuild, baselineGlobal, r.value.value)
      ensures r.Success? && r.value.Some? <==> Complete(guild, global)
      ensures r.Failure? <==> Drifted(guild, global)
      ensures r == Failure(ForeignDrift) <==> Orderly(guild, tracked) && ForeignDrifted(guild, global)
      ensures r == Failure(PublisherRecoveryRequired) <==>
              Orderly(guild, tracked) && !ForeignDrifted(guild, global) && recoveryRequired
    {
      var parts := PartitionCurrent(guild, tracked);
      if parts.Failure? {
        return Failure(parts.error);
      }
      var owned := parts.value.owned;
      if Canonical(parts.value.foreign) != Canonical(baselineGuild) || Canonical(global) != Canonical(baselineGlobal) {
        return Failure(ForeignDrift);
      }
      if recoveryRequired {
        return Failure(PublisherRecoveryRequired);
      }
      var final := Final(owned);
      if parts.value.unowned != [] || |final| != MANAGED_COUNT || |owned| != |final|
         || Names(final) != MANAGED_NAMES || Ids(owned) != currentOwned.Keys {
        return Success(None);
      }
      return Success(Some(owned));
    }

    // One turn of the deletion loop: look again, and delete only what still looks owned.
    method RemoveOwned(id: string) returns (r: Result<(), Failure>)
      requires id in tracked && ValidId(id)
      modifies api
      ensures old(api.log) <= api.log && Clean(api.log, |old(api.log)|, tracked, {id})
      ensures TurnShows(r, id, api.log, tracked) && (r.Success? ==> |api.log| >= |old(api.log)| + 2)
      ensures Quiet(api.world) && Orderly(old(api.guild), tracked) && id in Ids(old(api.guild)) ==>
                r.Success? && api.guild == Without(old(api.guild), id) && api.global == old(api.global)
    {
      var listed := Registries();
      if listed.Failure? {
        return Failure(listed.error);
      }
      var found := Find(listed.value.0, id);
      if found == None {
        return Success(());
      }
      if found.value.shape !in tracked[id] {
        return Failure(ManagedShapeDrift);
      }
      var trouble := api.DeleteGuildCommand(id);
      assert Shown(listed.value.0, id, tracked);
      DeleteIsSafe(old(api.log), api.log, listed.value.0, listed.value.1, id, trouble == None, tracked);
      WithoutIsGone(old(api.guild), id);
      r := CheckDeleted(id, trouble, |old(api.log)|);
    }

    // The look that follows a delete, unless that broke.
    method CheckDeleted(id: string, trouble: Option<Failure>, ghost base: nat) returns (r: Result<(), Failure>)
      requires id in tracked && Clean(api.log, base, tracked, {id})
      modifies api
      requires |api.log| > 0 && api.log[|api.log| - 1] == Delete(id, trouble == None)
      ensures old(api.log) <= api.log && Clean(api.log, base, tracked, {id})
      ensures TurnShows(r, id, api.log, tracked)
      ensures Quiet(api.world) && trouble == None && id !in Ids(old(api.guild)) ==>
                r.Success? && api.guild == old(api.guild) && api.global == old(api.global)
    {
      if trouble == Some(Unexpected) {
        return Failure(Unexpected);
      }
      var listed := Registries();
      CleanLater(old(api.log), api.log, base, tracked, {id});
      if listed.Failure? {
        return Failure(listed.error);
      }
      if Find(listed.value.0, id).Some? {
        return Failure(if trouble == None then DeleteNotApplied else DeleteAmbiguous);
      }
      return Success(());
    }

    // Deletes the owned commands listed, one after the other.
    method RemoveAll(owned: seq<Command>, ghost guild: seq<Command>) returns (r: Result<(), Failure>)
      requires DistinctIds(owned) && forall c :: c in owned ==> c.id in tracked && ValidId(c.id) && c in guild
      modifies api
      ensures old(api.log) <= api.log && Clean(api.log, |old(api.log)|, tracked, Ids(owned))
      // either every one has been seen gone, or the first turn that fails is the last
      ensures r.Success? ==> AllSeenGone(api.log, |old(api.log)|, owned)
      ensures r.Failure? ==> exists c :: c in owned && TurnShows(r, c.id, api.log, tracked)
      ensures Quiet(api.world) && old(api.guild) == guild && Orderly(guild, tracked) ==>
                r.Success? && api.guild == Keep(guild, Ids(owned)) && api.global == old(api.global)
    {
      ghost var base := |api.log|;
      var k := 0;
      KeepNothingOut(guild);
      assert Ids(owned[..0]) == {};
      while k < |owned|
        invariant 0 <= k <= |owned|
        invariant old(api.log) <= api.log && Clean(api.log, base, tracked, Ids(owned[..k]))
        invariant AllSeenGone(api.log, base, owned[..k])
        invariant Quiet(api.world) && old(api.guild) == guild && Orderly(guild, tracked) ==>
                    api.guild == Keep(guild, Ids(owned[..k])) && api.global == old(api.global)
      {
        ghost var before := api.log;
        r := RemoveTurn(owned, k, guild, base);
        if r.Success? {
          GoneOnceMore(before, api.log, base, owned[..k], owned[k]);
          assert owned[..k] + [owned[k]] == owned[..k + 1];
        } else {
          assert owned[k] in owned && TurnShows(r, owned[k].id, api.log, tracked);
        }
        k := k + 1;
        if r.Failure? {
          CleanMore(api.log, base, tracked, Ids(owned[..k]), Ids(owned));
          return;
        }
      }
      assert owned[..k] == owned;
      return Success(());
    }

    // The turn of the loop for the command at `k`.
    method RemoveTurn(owned: seq<Command>, k: nat, ghost guild: seq<Command>, ghost base: nat)
      returns (r: Result<(), Failure>)
      requires k < |owned| && DistinctIds(owned) && owned[k].id in tracked && ValidId(owned[k].id) && owned[k] in guild
      requires base <= |api.log| && Clean(api.log, base, tracked, Ids(owned[..k]))
      modifies api
      ensures old(api.log) <= api.log && Clean(api.log, base, tracked, Ids(owned[..k + 1]))
      ensures TurnShows(r, owned[k].id, api.log, tracked) && (r.Success? ==> |api.log| >= |old(api.log)| + 2)
      ensures Quiet(api.world) && old(api.guild) == Keep(guild, Ids(owned[..k])) && Orderly(guild, tracked) ==>
                r.Success? && api.guild == Keep(guild, Ids(owned[..k + 1])) && api.global == old(api.global)
    {
      ghost var before := api.log;
      TurnOfLoop(guild, owned, k, tracked);
      r := RemoveOwned(owned[k].id);
      CleanJoin(before, api.log, base, tracked, Ids(owned[..k]), {owned[k].id});
    }

    // Deletes what the ledger owns and checks that what remains is the baseline.
    method Restore(ledger: Ledger) returns (r: Result<(), Failure>)
      modifies this`tracked, this`currentOwned, this`recoveryRequired, api
      ensures State() == AfterRead(old(State()), ledger)
      // whatever others do and whatever the service answers
      ensures old(api.log) <= api.log && Clean(api.log, |old(api.log)|, tracked, tracked.Keys)
      ensures Accepted(ledger, old(tracked)) ==> DeletesWithin(api.log, |old(api.log)|, ledger.entries)
      ensures r.Success? ==> Readable(ledger, old(tracked))
                             && EndsAtBaseline(api.log, baselineGuild, baselineGlobal)
                             && FirstListedAreGone(api.log, |old(api.log)|, tracked)
      ensures ledger.Unforeseen? ==> r == Failure(Unexpected) && api.log == old(api.log)
      // when nobody else writes and nothing fails
      ensures Quiet(api.world) && Orderly(old(api.guild), tracked) && !ledger.Unforeseen? ==>
                var p := Partition(old(api.guild), tracked);
                && api.guild == Keep(old(api.guild), Ids(p.owned)) && api.global == old(api.global)
                && (r.Success? <==>
                    && Readable(ledger, old(tracked))
                    && p.unowned == [] && Canonical(p.foreign) == Canonical(baselineGuild)
                    && Canonical(old(api.global)) == Canonical(baselineGlobal))
    {
      var read := ReadOwnership(ledger);
      if read == Failure(Unexpected) {
        return Failure(Unexpected);
      }
      var listed := Registries();
      if listed.Failure? {
        return Failure(listed.error);
      }
      ghost var listedLog := api.log;
      r := RestoreListed(listed.value.0, listed.value.1, read.Success?);
      if r.Success? {
        TrackedGoneEarlier(api.log, |listedLog|, |old(api.log)|, listed.value.0, tracked);
      }
      CleanFrom(listedLog, api.log, |old(api.log)|, tracked, tracked.Keys, tracked.Keys);
      DeletesFollowTheDocument(old(State()), ledger, api.log, |old(api.log)|, tracked.Keys);
    }

    // The part of a restore that follows the first listing.
    method RestoreListed(guild: seq<Command>, global: seq<Command>, ledgerOk: bool) returns (r: Result<(), Failure>)
      modifies api
      ensures old(api.log) <= api.log && Clean(api.log, |old(api.log)|, tracked, tracked.Keys)
      ensures r.Success? ==> ledgerOk && EndsAtBaseline(api.log, baselineGuild, baselineGlobal)
                             && TrackedSeenGone(api.log, |old(api.log)|, guild, tracked)
      ensures Quiet(api.world) && old(api.guild) == guild && old(api.global) == global && Orderly(guild, tracked) ==>
                var p := Partition(guild, tracked);
                && api.guild == Keep(guild, Ids(p.owned)) && api.global == global
                && (r.Success? <==>
                    && ledgerOk && p.unowned == [] && Canonical(p.foreign) == Canonical(baselineGuild)
                    && Canonical(global) == Canonical(baselineGlobal))
    {
      var parts := PartitionCurrent(guild, tracked);
      if parts.Failure? {
        return Failure(parts.error);
      }
      var foreignDrift := Canonical(parts.value.foreign) != Canonical(baselineGuild)
                          || Canonical(global) != Canonical(baselineGlobal);
      var order := ById(parts.value.owned);
      OwnedInOrder(guild, tracked);
      r := RemoveAll(order, guild);
      CleanMore(api.log, |old(api.log)|, tracked, Ids(order), tracked.Keys);
      if r.Failure? {
        return;
      }
      ghost var removed := api.log;
      r := CheckRestored(!ledgerOk || parts.value.unowned != [] || foreignDrift, |old(api.log)|);
      OrderHasTracked(guild, tracked);
      OwnedSeenGone(removed, api.log, |old(api.log)|, guild, order, tracked);
    }

    // The look at the registries that ends a restore.
    method CheckRestored(flawed: bool, ghost base: nat) returns (r: Result<(), Failure>)
      requires Clean(api.log, base, tracked, tracked.Keys)
      modifies api
      ensures old(api.log) <= api.log && Clean(api.log, base, tracked, tracked.Keys)
      ensures r.Success? ==> !flawed && EndsAtBaseline(api.log, baselineGuild, baselineGlobal)
      ensures r == Failure(VerificationFailed) ==>
                EndsWithListing(api.log)
                && (flawed || Canonical(api.log[|api.log| - 2].commands) != Canonical(baselineGuild)
                    || Canonical(api.log[|api.log| - 1].commands) != Canonical(baselineGlobal))
      ensures Quiet(api.world) ==>
                && api.guild == old(api.guild) && api.global == old(api.global)
                && (r.Success? <==> !flawed && Canonical(api.guild) == Canonical(baselineGuild)
                                    && Canonical(api.global) == Canonical(baselineGlobal))
    {
      var final := Registries();
      CleanLater(old(api.log), api.log, base, tracked, tracked.Keys);
      if final.Failure? {
        return Failure(final.error);
      }
      if flawed || Canonical(final.value.0) != Canonical(baselineGuild)
         || Canonical(final.value.1) != Canonical(baselineGlobal) {
        return Failure(VerificationFailed);
      }
      return Success(());
    }
  }

  // Every delete of an id that an entry names follows a listing that shows the id in one of the entry's shapes.
  ghost predicate DeletesWithin(log: seq<Call>, base: nat, entries: seq<Entry>) {
    forall i, e :: base <= i < |log| && log[i].Delete? && e in entries && e.id == log[i].id ==> InShapeOf(log, i, e)
  }

  ghost predicate InShapeOf(log: seq<Call>, i: nat, e: Entry)
    requires i < |log|
  {
    i >= 2 && log[i - 2].ListedGuild? && exists c :: c in log[i - 2].commands && c.id == e.id && c.shape in e.shapes
  }

  lemma SafeInShape(log: seq<Call>, base: nat, tracked: Owned, ids: set<string>, i: nat, e: Entry)
    requires Clean(log, base, tracked, ids) && base <= i < |log| && log[i].Delete? && log[i].id == e.id
    requires OwnedAs(tracked, e)
    ensures InShapeOf(log, i, e)
  {
    assert SafeDelete(log, base, i, tracked);
    var c :| c in log[i - 2].commands && c.id == e.id && c.shape in tracked[e.id];
  }

  lemma DeletesFollowTheDocument(s: LedgerState, ledger: Ledger, log: seq<Call>, base: nat, ids: set<string>)
    requires Clean(log, base, AfterRead(s, ledger).tracked, ids)
    ensures Accepted(ledger, s.tracked) ==> DeletesWithin(log, base, ledger.entries)
  {
    if Accepted(ledger, s.tracked) {
      forall i, e | base <= i < |log| && log[i].Delete? && e in ledger.entries && e.id == log[i].id
        ensures InShapeOf(log, i, e)
      {
        ReadNames(s, ledger, e);
        SafeInShape(log, base, AfterRead(s, ledger).tracked, ids, i, e);
      }
    }
  }

  // After any reads, a restore deletes no command in a shape that the newest accepted document naming it leaves out.
  lemma DeletesFollowTheNewest(s: LedgerState, ledgers: seq<Ledger>, k: nat, e: Entry, log: seq<Call>, base: nat,
                               ids: set<string>, i: nat)
    requires NewestNaming(s, ledgers, k, e)
    requires Clean(log, base, AfterReads(s, ledgers).tracked, ids)
    requires base <= i < |log| && log[i].Delete? && log[i].id == e.id
    ensures InShapeOf(log, i, e)
  {
    NewestDecides(s, ledgers, k, e);
    SafeInShape(log, base, AfterReads(s, ledgers).tracked, ids, i, e);
  }

  ghost predicate NoneOwned(commands: seq<Command>, tracked: Owned) {
    forall c :: c in commands ==> c.id !in tracked
  }

  // What is kept of an orderly listing without its owned part has nothing of what is tracked.
  lemma OwnedAreGone(guild: seq<Command>, tracked: Owned)
    requires Orderly(guild, tracked)
    ensures NoneOwned(Keep(guild, Ids(Partition(guild, tracked).owned)), tracked)
  {
    var owned := Partition(guild, tracked).owned;
    PartitionMeaning(guild, tracked);
    KeptCommands(guild, Ids(owned));
    forall c | c in Keep(guild, Ids(owned))
      ensures c.id !in tracked
    {
      assert c in owned ==> c.id in Ids(owned);
    }
  }

  // The baseline is what the listing shows apart from what the ledger owns; nothing managed is left unowned.
  ghost predicate Captures(log: seq<Call>, tracked: Owned, baselineGuild: seq<Command>, baselineGlobal: seq<Command>) {
    exists guild :: && |log| >= 2 && log[|log| - 2..] == [ListedGuild(guild), ListedGlobal(baselineGlobal)]
                    && Orderly(guild, tracked)
                    && Partition(guild, tracked).unowned == [] && Partition(guild, tracked).foreign == baselineGuild
  }

  function Final(owned: seq<Command>): seq<Command> {
    if owned == [] then []
    else
      var c := owned[|owned| - 1];
      Final(owned[..|owned| - 1]) + (if IsManaged(c.shape) then [c] else [])
  }

  function Names(commands: seq<Command>): set<string> {
    set c | c in commands :: c.shape.name
  }

  // Publication is complete: every managed command is there under its final name and in the ledger, and
  // nothing else in either registry has changed.
  ghost predicate ShowsPublished(guild: seq<Command>, global: seq<Command>, tracked: Owned, current: Owned,
                           baselineGuild: seq<Command>, baselineGlobal: seq<Command>, managed: seq<Command>)
  {
    && Orderly(guild, tracked)
    && Partition(guild, tracked) == Parts(managed, [], Partition(guild, tracked).foreign)
    && Canonical(Partition(guild, tracked).foreign) == Canonical(baselineGuild)
    && Canonical(global) == Canonical(baselineGlobal)
    && Ids(managed) == current.Keys && |managed| == |Final(managed)| == MANAGED_COUNT
    && Names(Final(managed)) == MANAGED_NAMES
  }

  // The registry shows exactly the managed commands as owned: each tracked command has a managed name and no other has,
  // each managed name is there, and the ids are those of the ledger.
  ghost predicate ManagedAreOwned(guild: seq<Command>, tracked: Owned, current: Owned) {
    OnlyManagedTracked(guild, tracked) && NamesAreThere(guild) && ShowsCurrent(guild, tracked, current)
  }

  ghost predicate OnlyManagedTracked(guild: seq<Command>, tracked: Owned) {
    forall c :: c in guild ==> (c.id in tracked <==> c.shape.name in MANAGED_NAMES)
  }

  ghost predicate NamesAreThere(guild: seq<Command>) {
    forall name :: name in MANAGED_NAMES ==> exists c :: c in guild && c.shape.name == name
  }

  ghost predicate ShowsCurrent(guild: seq<Command>, tracked: Owned, current: Owned) {
    && (forall c :: c in guild && c.id in tracked ==> c.id in current)
    && (forall id :: id in current ==> exists c :: c in guild && c.id in tracked && c.id == id)
  }

  lemma {:induction false} FinalIsAll(owned: seq<Command>)
    ensures |Final(owned)| <= |owned|
    ensures |Final(owned)| == |owned| <==> forall i :: 0 <= i < |owned| ==> IsManaged(owned[i].shape)
    ensures |Final(owned)| == |owned| ==> Final(owned) == owned
    decreases |owned|
  {
    if owned != [] {
      var init, c := owned[..|owned| - 1], owned[|owned| - 1];
      FinalIsAll(init);
      assert owned == init + [c];
    }
  }

  lemma {:induction false} NothingUnowned(guild: seq<Command>, tracked: Owned)
    ensures Partition(guild, tracked).unowned == [] <==>
            forall c :: c in guild && c.shape.name in MANAGED_NAMES ==> c.id in tracked
  {
    var unowned := Partition(guild, tracked).unowned;
    forall c
      ensures c in unowned <==> c in guild && c.id !in tracked && IsManaged(c.shape)
    {
      OthersMeaning(guild, tracked, c);
    }
    assert unowned != [] ==> unowned[0] in unowned;
  }

  lemma {:induction false} OnlyManagedExactly(guild: seq<Command>, tracked: Owned)
    ensures var p := Partition(guild, tracked);
            p.unowned == [] && |Final(p.owned)| == |p.owned| <==> OnlyManagedTracked(guild, tracked)
    ensures var owned := Partition(guild, tracked).owned;
            OnlyManagedTracked(guild, tracked) ==> Final(owned) == owned
  {
    var owned := Partition(guild, tracked).owned;
    PartitionMeaning(guild, tracked);
    NothingUnowned(guild, tracked);
    FinalIsAll(owned);
    assert (forall i :: 0 <= i < |owned| ==> IsManaged(owned[i].shape)) <==>
           forall c :: c in owned ==> c.shape.name in MANAGED_NAMES;
  }

  lemma {:induction false} OwnedNames(guild: seq<Command>, tracked: Owned)
    requires OnlyManagedTracked(guild, tracked)
    ensures Names(Partition(guild, tracked).owned) == MANAGED_NAMES <==> NamesAreThere(guild)
  {
    var owned := Partition(guild, tracked).owned;
    PartitionMeaning(guild, tracked);
    assert forall c :: c in owned ==> c.shape.name in Names(owned);
    assert Names(owned) <= MANAGED_NAMES;
    if Names(owned) == MANAGED_NAMES {
      forall name | name in MANAGED_NAMES
        ensures exists c :: c in guild && c.shape.name == name
      {
        assert name in Names(owned);
        var c :| c in owned && c.shape.name == name;
      }
    }
    if NamesAreThere(guild) {
      forall name | name in MANAGED_NAMES
        ensures name in Names(owned)
      {
        var c :| c in guild && c.shape.name == name;
        assert c in owned;
      }
    }
  }

  lemma {:induction false} CurrentExactly(guild: seq<Command>, tracked: Owned, current: Owned)
    ensures Ids(Partition(guild, tracked).owned) == current.Keys <==> ShowsCurrent(guild, tracked, current)
  {
    var owned := Partition(guild, tracked).owned;
    PartitionMeaning(guild, tracked);
    assert forall c :: c in owned ==> c.id in Ids(owned);
    if Ids(owned) == current.Keys {
      forall id | id in current
        ensures exists c :: c in guild && c.id in tracked && c.id == id
      {
        assert id in Ids(owned);
        var c :| c in owned && c.id == id;
      }
    }
    if ShowsCurrent(guild, tracked, current) {
      forall id: string
        ensures id in Ids(owned) <==> id in current.Keys
      {
        if id in current {
          var c :| c in guild && c.id in tracked && c.id == id;
          assert c in owned;
        }
      }
    }
  }

  // The complete publication in terms of the listing alone; five commands cover five names only once each.
  lemma {:induction false} CompleteExactly(guild: seq<Command>, global: seq<Command>, tracked: Owned, current: Owned,
                                           baselineGuild: seq<Command>, baselineGlobal: seq<Command>)
    ensures var p := Partition(guild, tracked);
            ShowsPublished(guild, global, tracked, current, baselineGuild, baselineGlobal, p.owned) <==>
            && Orderly(guild, tracked) && ManagedAreOwned(guild, tracked, current) && |p.owned| == MANAGED_COUNT
            && Canonical(p.foreign) == Canonical(baselineGuild) && Canonical(global) == Canonical(baselineGlobal)
  {
    OnlyManagedExactly(guild, tracked);
    CurrentExactly(guild, tracked, current);
    if OnlyManagedTracked(guild, tracked) {
      OwnedNames(guild, tracked);
    }
  }

  ghost predicate EndsAtBaseline(log: seq<Call>, baselineGuild: seq<Command>, baselineGlobal: seq<Command>) {
    exists guild, global :: && |log| >= 2 && log[|log| - 2..] == [ListedGuild(guild), ListedGlobal(global)]
                            && Canonical(guild) == Canonical(baselineGuild)
                            && Canonical(global) == Canonical(baselineGlobal)
  }

  lemma NotYetListed(owned: seq<Command>, k: nat)
    requires DistinctIds(owned) && k < |owned|
    ensures owned[k].id !in Ids(owned[..k])
  {
  }

  // Some listing from place `base` on lacks the id.
  ghost predicate SeenGone(log: seq<Call>, base: nat, id: string) {
    exists i: nat :: base <= i < |log| && log[i].ListedGuild? && id !in Ids(log[i].commands)
  }

  ghost predicate AllSeenGone(log: seq<Call>, base: nat, owned: seq<Command>) {
    forall c :: c in owned ==> SeenGone(log, base, c.id)
  }

  // Each command of a listing that is tracked has been seen gone from place `base` on.
  ghost predicate TrackedSeenGone(log: seq<Call>, base: nat, guild: seq<Command>, tracked: Owned) {
    forall c :: c in guild && c.id in tracked ==> SeenGone(log, base, c.id)
  }

  // Each tracked command that the first listing shows has been seen gone later.
  ghost predicate FirstListedAreGone(log: seq<Call>, base: nat, tracked: Owned) {
    base < |log| && log[base].ListedGuild? && TrackedSeenGone(log, base, log[base].commands, tracked)
  }

  lemma GoneOnceMore(before: seq<Call>, log: seq<Call>, base: nat, owned: seq<Command>, c: Command)
    requires before <= log && base <= |before| && AllSeenGone(before, base, owned)
    requires |log| >= |before| + 2 && EndsWithListing(log) && c.id !in Ids(log[|log| - 2].commands)
    ensures AllSeenGone(log, base, owned + [c])
  {
    forall x | x in owned + [c]
      ensures SeenGone(log, base, x.id)
    {
      if x in owned {
        var i: nat :| base <= i < |before| && before[i].ListedGuild? && x.id !in Ids(before[i].commands);
        assert log[i].ListedGuild? && x.id !in Ids(log[i].commands);
      } else {
        assert log[|log| - 2].ListedGuild? && x.id !in Ids(log[|log| - 2].commands);
      }
    }
  }

  lemma SeenGoneLater(before: seq<Call>, log: seq<Call>, late: nat, base: nat, id: string)
    requires before <= log && base <= late && SeenGone(before, late, id)
    ensures SeenGone(log, base, id)
  {
    var i: nat :| late <= i < |before| && before[i].ListedGuild? && id !in Ids(before[i].commands);
    assert log[i].ListedGuild? && id !in Ids(log[i].commands);
  }

  lemma OwnedSeenGone(before: seq<Call>, log: seq<Call>, base: nat, guild: seq<Command>, owned: seq<Command>,
                      tracked: Owned)
    requires before <= log && AllSeenGone(before, base, owned)
    requires forall c :: c in guild && c.id in tracked ==> c.id in Ids(owned)
    ensures TrackedSeenGone(log, base, guild, tracked)
  {
    forall c | c in guild && c.id in tracked
      ensures SeenGone(log, base, c.id)
    {
      var x :| x in owned && x.id == c.id;
      SeenGoneLater(before, log, base, base, x.id);
    }
  }

  lemma TrackedGoneEarlier(log: seq<Call>, late: nat, base: nat, guild: seq<Command>, tracked: Owned)
    requires base <= late && TrackedSeenGone(log, late, guild, tracked)
    ensures TrackedSeenGone(log, base, guild, tracked)
  {
    forall c | c in guild && c.id in tracked
      ensures SeenGone(log, base, c.id)
    {
      SeenGoneLater(log, log, late, base, c.id);
    }
  }

  lemma OrderHasTracked(guild: seq<Command>, tracked: Owned)
    requires Orderly(guild, tracked)
    ensures forall c :: c in guild && c.id in tracked ==> c.id in Ids(ById(Partition(guild, tracked).owned))
  {
    PartitionMeaning(guild, tracked);
    OwnedInOrder(guild, tracked);
  }

  // What a turn of the deletion loop ends with: the last listing lacks the id, or shows it in a shape that is not
  // allowed, or shows it still, right behind a delete that the service confirmed or did not.
  ghost predicate TurnShows(r: Result<(), Failure>, id: string, log: seq<Call>, tracked: Owned) {
    match r
    case Success(_) => EndsWithListing(log) && id !in Ids(log[|log| - 2].commands)
    case Failure(ManagedShapeDrift) =>
      EndsWithListing(log) && id in Ids(log[|log| - 2].commands)
      && id in tracked && exists c :: c in log[|log| - 2].commands && c.id == id && c.shape !in tracked[id]
    case Failure(DeleteNotApplied) =>
      EndsWithListing(log) && id in Ids(log[|log| - 2].commands) && |log| >= 3 && log[|log| - 3] == Delete(id, true)
    case Failure(DeleteAmbiguous) =>
      EndsWithListing(log) && id in Ids(log[|log| - 2].commands) && |log| >= 3 && log[|log| - 3] == Delete(id, false)
    case Failure(other) => other == RequestFailed || other == Unexpected
  }

  ghost predicate EndsWithListing(log: seq<Call>) {
    |log| >= 2 && log[|log| - 2].ListedGuild? && log[|log| - 1].ListedGlobal?
  }

  // A delete right behind a listing that shows the command as owned.
  lemma DeleteIsSafe(before: seq<Call>, log: seq<Call>, guild: seq<Command>, global: seq<Command>, id: string,
                     accepted: bool, tracked: Owned)
    requires log == before + [ListedGuild(guild), ListedGlobal(global)] + [Delete(id, accepted)]
    requires Shown(guild, id, tracked)
    ensures Clean(log, |before|, tracked, {id})
  {
  }

  // What one turn of the deletion loop finds and leaves, if nobody interferes.
  lemma TurnOfLoop(guild: seq<Command>, owned: seq<Command>, k: nat, tracked: Owned)
    requires k < |owned| && DistinctIds(owned) && owned[k] in guild
    ensures Ids(owned[..k + 1]) == Ids(owned[..k]) + {owned[k].id}
    ensures owned[k].id !in Ids(owned[..k])
    ensures var kept := Keep(guild, Ids(owned[..k]));
            && owned[k].id in Ids(kept)
            && Without(kept, owned[k].id) == Keep(guild, Ids(owned[..k + 1]))
            && (Orderly(guild, tracked) ==> Orderly(kept, tracked))
  {
    var kept := Keep(guild, Ids(owned[..k]));
    IdsSnoc(owned, k);
    NotYetListed(owned, k);
    KeepOneLess(guild, Ids(owned[..k]), owned[k].id);
    KeptCommands(guild, Ids(owned[..k]));
    assert owned[k] in kept;
    if Orderly(guild, tracked) {
      KeepIsOrderly(guild, Ids(owned[..k]), tracked);
    }
  }

  lemma CleanLater(log: seq<Call>, later: seq<Call>, base: nat, tracked: Owned, ids: set<string>)
    requires Clean(log, base, tracked, ids) && log <= later
    requires forall k :: |log| <= k < |later| ==> !later[k].Delete?
    ensures Clean(later, base, tracked, ids)
  {
    CleanTail(log, base, tracked, ids, later[|log|..]);
    assert later == log + later[|log|..];
  }

  lemma CleanMore(log: seq<Call>, base: nat, tracked: Owned, a: set<string>, b: set<string>)
    requires Clean(log, base, tracked, a) && a <= b
    ensures Clean(log, base, tracked, b)
  {
  }

  // A clean stretch after calls that delete nothing.
  lemma CleanFrom(first: seq<Call>, whole: seq<Call>, base: nat, tracked: Owned, a: set<string>, b: set<string>)
    requires base <= |first| && first <= whole && Clean(whole, |first|, tracked, a) && a <= b
    requires forall i :: base <= i < |first| ==> !first[i].Delete?
    ensures Clean(whole, base, tracked, b)
  {
    assert Clean(first, base, tracked, {});
    CleanJoin(first, whole, base, tracked, {}, a);
    CleanMore(whole, base, tracked, {} + a, b);
  }

  lemma OwnedInOrder(guild: seq<Command>, tracked: Owned)
    requires Orderly(guild, tracked)
    ensures var p, order := Partition(guild, tracked), ById(Partition(guild, tracked).owned);
            && DistinctIds(order) && Ids(order) == Ids(p.owned) && Ids(order) <= tracked.Keys
            && (forall c :: c in order ==> c.id in tracked && ValidId(c.id) && c in guild)
            && (p.unowned == [] ==> Keep(guild, Ids(p.owned)) == p.foreign)
  {
    var p := Partition(guild, tracked);
    PartitionMeaning(guild, tracked);
    ByIdKeeps(p.owned);
    forall c | c in p.owned
      ensures ValidId(c.id)
    {
      var k :| 0 <= k < |guild| && guild[k] == c;
    }
    forall c | c in guild
      ensures c.id in Ids(p.owned) <==> c.id in tracked
    {
      if c.id in Ids(p.owned) {
        var d :| d in p.owned && d.id == c.id;
      }
    }
    if p.unowned == [] {
      ForeignIsTheRest(guild, tracked, Ids(p.owned));
    }
  }

  // What an undisturbed restore leaves is what is foreign. Comparing canonical forms shows whether that is the
  // baseline up to order exactly when the key tells the foreign commands apart, as it does in any accepted listing.
  lemma RestoredIsTheBaseline(guild: seq<Command>, tracked: Owned)
    requires Partition(guild, tracked).unowned == []
    ensures var p := Partition(guild, tracked);
            && Keep(guild, Ids(p.owned)) == p.foreign
            && ((forall baseline :: Canonical(p.foreign) == Canonical(baseline) <==>
                 multiset(p.foreign) == multiset(baseline))
                <==> KeysDecide(p.foreign))
            && (Orderly(guild, tracked) ==> KeysDecide(p.foreign))
  {
    var p := Partition(guild, tracked);
    OwnedIdsAreTracked(guild, tracked);
    ForeignIsTheRest(guild, tracked, Ids(p.owned));
    KeptCommands(guild, Ids(p.owned));
    CanonicalExactlyPermutation(p.foreign);
    if Orderly(guild, tracked) {
      DistinctIdsDecide(p.foreign);
    }
  }

  lemma OwnedIdsAreTracked(guild: seq<Command>, tracked: Owned)
    ensures forall c :: c in guild ==> (c.id in Ids(Partition(guild, tracked).owned) <==> c.id in tracked)
  {
    PartitionMeaning(guild, tracked);
  }
}
