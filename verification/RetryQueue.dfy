// Packets whose end-to-end layer could not be decrypted yet wait in a bounded
// queue and are tried again, a limited number of times and for a limited age.
module RetryQueue {
  import opened Wrappers
  import opened PacketOrder

  datatype Reason =
    | Ok | Remap | Silence | Passthrough
    | NotReady | NoSession | NoValidCryptor | RetryCandidateFailed | CryptorPending | PassthroughNotReady
    | Empty | PassthroughDisabled | DecryptError
  {
    predicate Recovers() {
      Ok? || Remap? || Silence? || Passthrough?
    }

    predicate Retryable() {
      NotReady? || NoSession? || NoValidCryptor? || RetryCandidateFailed? || CryptorPending? || PassthroughNotReady?
    }
  }

  // What the decryptor says of one packet.
  datatype Answer = Answer(plain: Option<seq<Byte>>, userId: Option<nat>, reason: Reason)

  datatype Item = Item(
    packet: Packet, payload: seq<Byte>, userId: nat, queuedAt: real,
    lastAttemptAt: Option<real>, attempts: nat, lastReason: Reason)

  datatype Limits = Limits(capacity: nat, maxAttempts: nat, maxAge: real) {
    predicate Valid() {
      capacity >= 1 && maxAttempts >= 1
    }
  }

  // A packet that came through, with its decrypted payload.
  datatype Recovered = Recovered(packet: Packet, opus: seq<Byte>)

  datatype Verdict = Recover | Keep | Drop

  function Judge(item: Item, answer: Answer, now: real, limits: Limits): Verdict {
    if now - item.queuedAt > limits.maxAge then Drop
    else if answer.plain.Some? && answer.reason.Recovers() then Recover
    else if answer.reason.Retryable() && item.attempts + 1 < limits.maxAttempts then Keep
    else Drop
  }

  function Retried(item: Item, answer: Answer, now: real): Item {
    item.(attempts := item.attempts + 1, lastAttemptAt := Some(now), lastReason := answer.reason)
  }

  // ---------- one drain ----------

  function RecoveredOf(items: seq<Item>, answers: seq<Answer>, now: real, limits: Limits): seq<Recovered>
    requires |answers| == |items|
  {
    if items == [] then []
    else
      var n := |items| - 1;
      RecoveredOf(items[..n], answers[..n], now, limits) +
      (if Judge(items[n], answers[n], now, limits) == Recover then [Recovered(items[n].packet, answers[n].plain.value)]
       else [])
  }

  function KeptOf(items: seq<Item>, answers: seq<Answer>, now: real, limits: Limits): seq<Item>
    requires |answers| == |items|
  {
    if items == [] then []
    else
      var n := |items| - 1;
      KeptOf(items[..n], answers[..n], now, limits) +
      (if Judge(items[n], answers[n], now, limits) == Keep then [Retried(items[n], answers[n], now)] else [])
  }

  // An item that is not too old is recovered if it was decrypted for one of four reasons; else it is kept for one of
  // six others, unless this was its last attempt; and it is dropped otherwise.
  predicate Gets(item: Item, answer: Answer, now: real, limits: Limits, v: Verdict) {
    var young := now <= item.queuedAt + limits.maxAge;
    var through := answer.plain.Some? && answer.reason in [Ok, Remap, Silence, Passthrough];
    var again := answer.reason in [NotReady, NoSession, NoValidCryptor, RetryCandidateFailed, CryptorPending,
                                   PassthroughNotReady];
    match v
    case Recover => young && through
    case Keep => young && !through && again && item.attempts <= limits.maxAttempts - 2
    case Drop => !young || (!through && (!again || item.attempts >= limits.maxAttempts - 1))
  }

  lemma JudgedExactly(item: Item, answer: Answer, now: real, limits: Limits, v: Verdict)
    ensures Judge(item, answer, now, limits) == v <==> Gets(item, answer, now, limits, v)
  {
    assert answer.reason.Recovers() <==> answer.reason in [Ok, Remap, Silence, Passthrough];
  }

  // How many of the first `i` items get the verdict `v`.
  function Rank(items: seq<Item>, answers: seq<Answer>, now: real, limits: Limits, v: Verdict, i: nat): nat
    requires |answers| == |items| && i <= |items|
  {
    if i == 0 then 0
    else
      Rank(items, answers, now, limits, v, i - 1) +
      (if Gets(items[i - 1], answers[i - 1], now, limits, v) then 1 else 0)
  }

  lemma {:induction false} RankOfPrefix(items: seq<Item>, answers: seq<Answer>, now: real, limits: Limits, v: Verdict,
                                        i: nat, n: nat)
    requires |answers| == |items| && i <= n <= |items|
    ensures Rank(items[..n], answers[..n], now, limits, v, i) == Rank(items, answers, now, limits, v, i)
    decreases i
  {
    if i > 0 {
      RankOfPrefix(items, answers, now, limits, v, i - 1, n);
    }
  }

  // The split is exact and keeps the order: item `i` lands, with what the drain added to it, right behind the
  // earlier items of its own verdict, and the three verdicts account for every item once.
  lemma {:induction false} SplitIsExact(items: seq<Item>, answers: seq<Answer>, now: real, limits: Limits)
    requires |answers| == |items|
    ensures var r, k := RecoveredOf(items, answers, now, limits), KeptOf(items, answers, now, limits);
            && |r| == Rank(items, answers, now, limits, Recover, |items|)
            && |k| == Rank(items, answers, now, limits, Keep, |items|)
            && |r| + |k| + Rank(items, answers, now, limits, Drop, |items|) == |items|
    ensures forall i :: 0 <= i < |items| ==> Lands(items, answers, now, limits, i)
    decreases |items|
  {
    if items == [] {
    } else {
      var n := |items| - 1;
      SplitIsExact(items[..n], answers[..n], now, limits);
      JudgedExactly(items[n], answers[n], now, limits, Recover);
      JudgedExactly(items[n], answers[n], now, limits, Keep);
      JudgedExactly(items[n], answers[n], now, limits, Drop);
      RankOfPrefix(items, answers, now, limits, Recover, n, n);
      RankOfPrefix(items, answers, now, limits, Keep, n, n);
      RankOfPrefix(items, answers, now, limits, Drop, n, n);
      forall i | 0 <= i < |items|
        ensures Lands(items, answers, now, limits, i)
      {
        if i < n {
          assert Lands(items[..n], answers[..n], now, limits, i);
          RankOfPrefix(items, answers, now, limits, Recover, i, n);
          RankOfPrefix(items, answers, now, limits, Keep, i, n);
        }
      }
    }
  }

  ghost predicate Lands(items: seq<Item>, answers: seq<Answer>, now: real, limits: Limits, i: nat)
    requires |answers| == |items| && i < |items|
  {
    var r, k := RecoveredOf(items, answers, now, limits), KeptOf(items, answers, now, limits);
    var item, answer := items[i], answers[i];
    && (Gets(item, answer, now, limits, Recover) ==>
          var at := Rank(items, answers, now, limits, Recover, i);
          at < |r| && answer.plain.Some? && r[at] == Recovered(item.packet, answer.plain.value))
    && (Gets(item, answer, now, limits, Keep) ==>
          var at := Rank(items, answers, now, limits, Keep, i);
          at < |k| && k[at] == Item(item.packet, item.payload, item.userId, item.queuedAt, Some(now),
                                    item.attempts + 1, answer.reason))
  }

  // ---------- the queue over any run of arrivals and drains ----------

  datatype Op = Arrive(item: Item) | DrainAt(now: real, answers: seq<Answer>)

  // One answer per item queued; the decryptor may say anything.
  ghost predicate Fits(queue: seq<Item>, op: Op) {
    match op
    case Arrive(item) => item.attempts == 0
    case DrainAt(_, answers) => |answers| == |queue|
  }

  function Apply(queue: seq<Item>, op: Op, limits: Limits): seq<Item>
    requires Fits(queue, op)
  {
    match op
    case Arrive(item) => TakeLast(queue + [item], limits.capacity)
    case DrainAt(now, answers) => KeptOf(queue, answers, now, limits)
  }

  // `queue` is what the operations make of `start`.
  ghost predicate Runs(start: seq<Item>, ops: seq<Op>, limits: Limits, queue: seq<Item>)
    decreases |ops|
  {
    if ops == [] then queue == start
    else
      exists before :: Runs(start, Init(ops), limits, before) && Steps(before, Final(ops), limits, queue)
  }

  function Init<T>(ops: seq<T>): seq<T>
    requires ops != []
  {
    ops[..|ops| - 1]
  }

  function Final<T>(ops: seq<T>): T
    requires ops != []
  {
    ops[|ops| - 1]
  }

  ghost predicate Steps(before: seq<Item>, op: Op, limits: Limits, queue: seq<Item>) {
    Fits(before, op) && queue == Apply(before, op, limits)
  }

  function Arrivals(ops: seq<Op>): nat {
    if ops == [] then 0 else Arrivals(ops[..|ops| - 1]) + (if ops[|ops| - 1].Arrive? then 1 else 0)
  }

  function Drains(ops: seq<Op>): nat {
    if ops == [] then 0 else Drains(ops[..|ops| - 1]) + (if ops[|ops| - 1].DrainAt? then 1 else 0)
  }

  lemma {:induction false} KeptAttempts(items: seq<Item>, answers: seq<Answer>, now: real, limits: Limits, least: nat)
    requires |answers| == |items|
    requires forall i :: 0 <= i < |items| ==> items[i].attempts >= least
    ensures var k := KeptOf(items, answers, now, limits);
            |k| <= |items| && forall i :: 0 <= i < |k| ==> least + 1 <= k[i].attempts < limits.maxAttempts
    decreases |items|
  {
    if items != [] {
      var n := |items| - 1;
      KeptAttempts(items[..n], answers[..n], now, limits, least);
    }
  }

  lemma {:induction false} KeptOfConcat(a: seq<Item>, b: seq<Item>, answers: seq<Answer>, now: real, limits: Limits)
    requires |answers| == |a| + |b|
    ensures KeptOf(a + b, answers, now, limits) ==
            KeptOf(a, answers[..|a|], now, limits) + KeptOf(b, answers[|a|..], now, limits)
    decreases |b|
  {
    if b == [] {
      assert a + b == a && answers[..|a|] == answers;
    } else {
      var n := |b| - 1;
      var m := |a| + n;
      assert (a + b)[..m] == a + b[..n] && (a + b)[m] == b[n];
      assert answers[..m][..|a|] == answers[..|a|] && answers[..m][|a|..] == answers[|a|..][..n];
      KeptOfConcat(a, b[..n], answers[..m], now, limits);
    }
  }

  // `older` items survive from the start, with an attempt counted for every drain since; the rest arrived later.
  ghost predicate Split(queue: seq<Item>, older: seq<Item>, newer: seq<Item>, ops: seq<Op>, limits: Limits) {
    && queue == older + newer
    && |newer| <= Arrivals(ops)
    && (forall i :: 0 <= i < |older| ==> Drains(ops) <= older[i].attempts)
    && forall i :: 0 <= i < |queue| ==> queue[i].attempts < limits.maxAttempts
  }

  lemma DrainSplit(before: seq<Item>, older: seq<Item>, newer: seq<Item>, init: seq<Op>, op: Op, limits: Limits)
    requires limits.Valid() && op.DrainAt? && Fits(before, op)
    requires Split(before, older, newer, init, limits)
    ensures Split(Apply(before, op, limits),
                  KeptOf(older, op.answers[..|older|], op.now, limits),
                  KeptOf(newer, op.answers[|older|..], op.now, limits), init + [op], limits)
  {
    KeptOfConcat(older, newer, op.answers, op.now, limits);
    KeptAttempts(older, op.answers[..|older|], op.now, limits, Drains(init));
    KeptAttempts(newer, op.answers[|older|..], op.now, limits, 0);
    assert (init + [op])[..|init|] == init;
  }

  lemma ArriveSplit(before: seq<Item>, older: seq<Item>, newer: seq<Item>, init: seq<Op>, op: Op, limits: Limits)
    returns (o: seq<Item>, n: seq<Item>)
    requires limits.Valid() && op.Arrive? && Fits(before, op)
    requires Split(before, older, newer, init, limits)
    ensures Split(Apply(before, op, limits), o, n, init + [op], limits)
  {
    var all := before + [op.item];
    var lost := |all| - |TakeLast(all, limits.capacity)|;
    if lost <= |older| {
      o, n := older[lost..], newer + [op.item];
    } else {
      o, n := [], (newer + [op.item])[lost - |older|..];
    }
    assert all == older + (newer + [op.item]);
    assert TakeLast(all, limits.capacity) == all[lost..] == o + n;
    assert (init + [op])[..|init|] == init;
  }

  lemma SplitStep(before: seq<Item>, older: seq<Item>, newer: seq<Item>, init: seq<Op>, op: Op, limits: Limits)
    returns (o: seq<Item>, n: seq<Item>)
    requires limits.Valid() && Fits(before, op) && Split(before, older, newer, init, limits)
    ensures Split(Apply(before, op, limits), o, n, init + [op], limits)
  {
    if op.DrainAt? {
      DrainSplit(before, older, newer, init, op, limits);
      o := KeptOf(older, op.answers[..|older|], op.now, limits);
      n := KeptOf(newer, op.answers[|older|..], op.now, limits);
    } else {
      o, n := ArriveSplit(before, older, newer, init, op, limits);
    }
  }

  lemma {:induction false} RunSplits(start: seq<Item>, ops: seq<Op>, limits: Limits, queue: seq<Item>)
    returns (older: seq<Item>, newer: seq<Item>)
    requires limits.Valid() && Runs(start, ops, limits, queue)
    requires forall i :: 0 <= i < |start| ==> start[i].attempts < limits.maxAttempts
    ensures Split(queue, older, newer, ops, limits)
    ensures older != [] ==> Drains(ops) < limits.maxAttempts
    decreases |ops|
  {
    if ops == [] {
      older, newer := start, [];
    } else {
      var before :| Runs(start, Init(ops), limits, before) && Steps(before, Final(ops), limits, queue);
      older, newer := RunSplits(start, Init(ops), limits, before);
      assert Init(ops) + [Final(ops)] == ops;
      older, newer := SplitStep(before, older, newer, Init(ops), Final(ops), limits);
    }
    if older != [] {
      assert queue[0] == older[0];
    }
  }

  // Whatever the decryptor answers, after `maxAttempts` drains nothing of the old queue is left:
  // at most the later arrivals are, and with none of those the queue is empty.
  lemma OldItemsLeave(start: seq<Item>, ops: seq<Op>, limits: Limits, queue: seq<Item>)
    requires limits.Valid() && Runs(start, ops, limits, queue)
    requires forall i :: 0 <= i < |start| ==> start[i].attempts < limits.maxAttempts
    requires Drains(ops) >= limits.maxAttempts
    ensures |queue| <= Arrivals(ops)
    ensures Arrivals(ops) == 0 ==> queue == []
  {
    var older, newer := RunSplits(start, ops, limits, queue);
  }

  lemma {:induction false} NeverAboveCapacity(start: seq<Item>, ops: seq<Op>, limits: Limits, queue: seq<Item>)
    requires Runs(start, ops, limits, queue) && |start| <= limits.capacity
    ensures |queue| <= limits.capacity
    decreases |ops|
  {
    if ops != [] {
      var n := |ops| - 1;
      var before :| Runs(start, Init(ops), limits, before) && Steps(before, Final(ops), limits, queue);
      NeverAboveCapacity(start, ops[..n], limits, before);
      if ops[n].DrainAt? {
        KeptAttempts(before, ops[n].answers, ops[n].now, limits, 0);
      }
    }
  }

  // The bound is reached: while the decryptor keeps saying "not yet" and the packet is young,
  // it stays through every drain but the last one allowed.
  lemma {:induction false} TheBoundIsReached(item: Item, limits: Limits, rounds: nat)
    returns (ops: seq<Op>, queue: seq<Item>)
    requires limits.Valid() && item.attempts == 0 && limits.maxAge >= 0.0
    requires rounds < limits.maxAttempts
    ensures Runs([item], ops, limits, queue) && Drains(ops) == rounds && Arrivals(ops) == 0
    ensures |queue| == 1 && queue[0].attempts == rounds && queue[0].queuedAt == item.queuedAt
    decreases rounds
  {
    if rounds == 0 {
      ops, queue := [], [item];
    } else {
      var init, before := TheBoundIsReached(item, limits, rounds - 1);
      var answer := Answer(None, None, CryptorPending);
      var op := DrainAt(item.queuedAt, [answer]);
      ops := init + [op];
      queue := Apply(before, op, limits);
      assert Init(ops) == init && Final(ops) == op;
      assert Steps(before, op, limits, queue);
      assert before == [before[0]] && before[..0] == [];
      assert KeptOf(before[..0], [answer][..0], op.now, limits) == [];
      assert queue == [Retried(before[0], answer, op.now)];
    }
  }

  // ---------- the queues of all sources ----------

  class PendingPackets {
    var pending: map<nat, seq<Item>>
    const limits: Limits

    constructor (limits: Limits)
      ensures pending == map[] && this.limits == limits
    {
      this.limits := limits;
      pending := map[];
    }

    function Of(ssrc: nat): seq<Item>
      reads this
    {
      if ssrc in pending then pending[ssrc] else []
    }

    method QueuePacket(ssrc: nat, packet: Packet, payload: seq<Byte>, userId: nat, reason: Reason, now: real)
      requires limits.Valid()
      modifies this
      ensures var all := old(Of(ssrc)) + [Item(packet, payload, userId, now, None, 0, reason)];
              Of(ssrc) == if |all| > limits.capacity then all[|all| - limits.capacity..] else all
      ensures Of(ssrc) == Apply(old(Of(ssrc)), Arrive(Item(packet, payload, userId, now, None, 0, reason)), limits)
      ensures pending - {ssrc} == old(pending) - {ssrc}
    {
      var queue := if ssrc in pending then pending[ssrc] else [];
      queue := queue + [Item(packet, payload, userId, now, None, 0, reason)];
      if |queue| > limits.capacity {
        queue := queue[|queue| - limits.capacity..];
      }
      pending := pending[ssrc := queue];
    }

    // `answers` holds what the decryptor would say of each queued item; items past their age are not asked.
    method DrainPending(ssrc: nat, now: real, answers: seq<Answer>) returns (recovered: seq<Recovered>, dropped: nat)
      requires |answers| == |Of(ssrc)|
      modifies this
      ensures recovered == RecoveredOf(old(Of(ssrc)), answers, now, limits)
      ensures Of(ssrc) == Apply(old(Of(ssrc)), DrainAt(now, answers), limits)
      ensures ssrc in pending ==> Of(ssrc) != [] || old(ssrc in pending && pending[ssrc] == [])
      ensures dropped + |recovered| + |Of(ssrc)| == |old(Of(ssrc))|
      ensures pending - {ssrc} == old(pending) - {ssrc}
    {
      var items := Of(ssrc);
      recovered, dropped := [], 0;
      if items == [] {
        return;
      }
      var kept: seq<Item> := [];
      var i := 0;
      while i < |items|
        invariant 0 <= i <= |items|
        invariant recovered == RecoveredOf(items[..i], answers[..i], now, limits)
        invariant kept == KeptOf(items[..i], answers[..i], now, limits)
        invariant dropped + |recovered| + |kept| == i
      {
        assert items[..i + 1][..i] == items[..i] && answers[..i + 1][..i] == answers[..i];
        var item := items[i];
        if now - item.queuedAt > limits.maxAge {
          dropped := dropped + 1;
        } else {
          var answer := answers[i];
          if answer.plain.Some? && answer.reason.Recovers() {
            recovered := recovered + [Recovered(item.packet, answer.plain.value)];
          } else {
            item := item.(attempts := item.attempts + 1, lastAttemptAt := Some(now), lastReason := answer.reason);
            if answer.reason.Retryable() && item.attempts < limits.maxAttempts {
              kept := kept + [item];
            } else {
              dropped := dropped + 1;
            }
          }
        }
        i := i + 1;
      }
      assert items[..i] == items && answers[..i] == answers;
      if kept != [] {
        pending := pending[ssrc := kept];
      } else {
        pending := pending - {ssrc};
      }
    }

    // Each item has been tried at least `least` times and may still be tried.
    ghost predicate TriedAtLeast(ssrc: nat, least: nat)
      reads this
    {
      forall i :: 0 <= i < |Of(ssrc)| ==> least <= Of(ssrc)[i].attempts < limits.maxAttempts
    }

    // One drain, with the answers of the decryptor to each item.
    method DrainWith(ssrc: nat, now: real, decrypt: Item -> Answer, ghost least: nat)
      returns (recovered: seq<Recovered>)
      requires TriedAtLeast(ssrc, least)
      modifies this
      ensures TriedAtLeast(ssrc, least + 1)
      ensures |recovered| + |Of(ssrc)| <= |old(Of(ssrc))|
      ensures pending - {ssrc} == old(pending) - {ssrc}
    {
      var items := Of(ssrc);
      var answers := seq(|items|, i requires 0 <= i < |items| => decrypt(items[i]));
      KeptAttempts(items, answers, now, limits, least);
      var dropped;
      recovered, dropped := DrainPending(ssrc, now, answers);
    }

    // What passes over other utterances of the source do to its queue.
    method Meanwhile(ssrc: nat, asides: seq<Aside>, now: real, decrypt: Item -> Answer, ghost least: nat)
      returns (arrived: nat)
      requires limits.Valid() && TriedAtLeast(ssrc, least)
      requires least == 0 || forall i :: 0 <= i < |asides| ==> asides[i].OtherDrains?
      modifies this
      ensures TriedAtLeast(ssrc, least)
      ensures |Of(ssrc)| <= |old(Of(ssrc))| + arrived
      ensures pending - {ssrc} == old(pending) - {ssrc}
    {
      arrived := 0;
      for i := 0 to |asides|
        invariant TriedAtLeast(ssrc, least)
        invariant |Of(ssrc)| <= |old(Of(ssrc))| + arrived
        invariant pending - {ssrc} == old(pending) - {ssrc}
      {
        match asides[i]
        case OtherQueues(packet, payload, userId, reason) =>
          QueuePacket(ssrc, packet, payload, userId, reason, now);
          arrived := arrived + 1;
        case OtherDrains =>
          var taken := DrainWith(ssrc, now, decrypt, least);
      }
    }

    // An utterance is put back and passed again until a pass leaves nothing queued for its source. Between its
    // passes other utterances may queue and drain as well; once they queue nothing more, at most `maxAttempts`
    // passes follow.
    method RequeueUntilDrained(ssrc: nat, clock: nat -> real, decrypt: (nat, Item) -> Answer,
                               meanwhile: nat -> seq<Aside>, ghost quietFrom: nat)
      returns (recovered: seq<Recovered>, passes: nat, arrived: nat)
      requires limits.Valid() && TriedAtLeast(ssrc, 0)
      requires forall p: nat :: p >= quietFrom ==>
                 forall i :: 0 <= i < |meanwhile(p)| ==> meanwhile(p)[i].OtherDrains?
      modifies this
      ensures Of(ssrc) == []
      ensures 1 <= passes <= quietFrom + limits.maxAttempts
      ensures |recovered| <= |old(Of(ssrc))| + arrived
      ensures pending - {ssrc} == old(pending) - {ssrc}
    {
      recovered := DrainWith(ssrc, clock(0), item => decrypt(0, item), 0);
      passes, arrived := 1, 0;
      while Of(ssrc) != []
        invariant pending - {ssrc} == old(pending) - {ssrc}
        invariant TriedAtLeast(ssrc, Since(passes, quietFrom))
        invariant 1 <= passes <= quietFrom + limits.maxAttempts
        invariant |recovered| + |Of(ssrc)| <= |old(Of(ssrc))| + arrived
        decreases quietFrom + limits.maxAttempts - passes
      {
        assert Since(passes, quietFrom) <= Of(ssrc)[0].attempts;
        var more := Meanwhile(ssrc, meanwhile(passes), clock(passes), item => decrypt(passes, item),
                              Since(passes, quietFrom));
        arrived := arrived + more;
        var taken := DrainWith(ssrc, clock(passes), item => decrypt(passes, item), Since(passes, quietFrom));
        recovered := recovered + taken;
        passes := passes + 1;
      }
    }
  }

  // What the pass over another utterance does to the queue of its source.
  datatype Aside = OtherQueues(packet: Packet, payload: seq<Byte>, userId: nat, reason: Reason) | OtherDrains

  function Since(passes: nat, quietFrom: nat): nat {
    if passes > quietFrom then passes - quietFrom else 0
  }
}
