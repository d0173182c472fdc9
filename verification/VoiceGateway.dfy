// Which user speaks on which media source, as the gateway learns it.
module VoiceGateway {
  import opened Wrappers

  // `ssrcToUser` and `userToSsrc` follow every accepted binding; `daveSsrcToUser` only those proved by decryption.
  datatype Speakers = Speakers(
    ssrcToUser: map<nat, nat>, userToSsrc: map<nat, nat>, daveSsrcToUser: map<nat, nat>,
    currentUser: Option<nat>, currentSsrc: Option<nat>, pendingUserIds: seq<nat>)

  const NOBODY := Speakers(map[], map[], map[], None, None, [])

  function Get(m: map<nat, nat>, k: nat): Option<nat> {
    if k in m then Some(m[k]) else None
  }

  function Bind(s: Speakers, user: nat, ssrc: nat): Speakers {
    s.(ssrcToUser := s.ssrcToUser[ssrc := user], userToSsrc := s.userToSsrc[user := ssrc])
  }

  function BindDave(s: Speakers, user: nat, ssrc: nat): Speakers {
    Bind(s.(daveSsrcToUser := s.daveSsrcToUser[ssrc := user]), user, ssrc)
  }

  function Preferred(s: Speakers, ssrc: nat): Option<nat> {
    if ssrc in s.daveSsrcToUser then Some(s.daveSsrcToUser[ssrc]) else Get(s.ssrcToUser, ssrc)
  }

  // A binding announced by the gateway gives way to a different one proved by decryption.
  function Announce(s: Speakers, user: nat, ssrc: nat): Speakers {
    if ssrc in s.daveSsrcToUser && s.daveSsrcToUser[ssrc] != user then s else Bind(s, user, ssrc)
  }

  // Messages with what could be read of their numbers.
  datatype Event =
    | Speaking(user: Option<nat>, ssrc: Option<nat>)
    | ClientsConnect(ids: seq<nat>)
    | ClientConnect(connected: Option<nat>, audioSsrc: Option<nat>)
    | ClientDisconnect(gone: Option<nat>)
    | DecryptedAs(provedUser: nat, provedSsrc: nat)
    | MappingsCleared

  function Step(s: Speakers, e: Event): Speakers {
    match e
    case Speaking(u, x) =>
      if u == None || x == None then s
      else Announce(s, u.value, x.value).(
             currentUser := Some(if x.value in s.daveSsrcToUser then s.daveSsrcToUser[x.value] else u.value),
             currentSsrc := x)
    case ClientsConnect(ids) => s.(pendingUserIds := ids)
    case ClientConnect(u, x) => if u == None || x == None then s else Announce(s, u.value, x.value)
    case ClientDisconnect(u) =>
      if u.Some? && s.currentUser == u then s.(currentUser := None, currentSsrc := None) else s
    case DecryptedAs(u, x) => BindDave(s, u, x)
    case MappingsCleared => NOBODY
  }

  function After(events: seq<Event>): Speakers {
    if events == [] then NOBODY else Step(After(events[..|events| - 1]), events[|events| - 1])
  }

  // ---------- the preferred user ----------

  // The last user proved for the source since the maps were cleared.
  function LastProved(events: seq<Event>, ssrc: nat): Option<nat> {
    if events == [] then None
    else
      match events[|events| - 1]
      case MappingsCleared => None
      case DecryptedAs(u, x) => if x == ssrc then Some(u) else LastProved(events[..|events| - 1], ssrc)
      case _ => LastProved(events[..|events| - 1], ssrc)
  }

  // The last user announced for the source since then.
  function LastAnnounced(events: seq<Event>, ssrc: nat): Option<nat> {
    if events == [] then None
    else
      var init := events[..|events| - 1];
      match events[|events| - 1]
      case MappingsCleared => None
      case Speaking(u, x) => if u.Some? && x == Some(ssrc) then u else LastAnnounced(init, ssrc)
      case ClientConnect(u, x) => if u.Some? && x == Some(ssrc) then u else LastAnnounced(init, ssrc)
      case _ => LastAnnounced(init, ssrc)
  }

  // Whatever the order of messages, the preferred user of a source is the last one proved by decryption,
  // and only if there is none the last one announced; and the plain map never disagrees with the proof.
  lemma {:induction false} ProofBeatsAnnouncement(events: seq<Event>, ssrc: nat)
    ensures var s := After(events);
            && Get(s.daveSsrcToUser, ssrc) == LastProved(events, ssrc)
            && Preferred(s, ssrc) == Get(s.ssrcToUser, ssrc)
            && Preferred(s, ssrc) ==
               if LastProved(events, ssrc).Some? then LastProved(events, ssrc) else LastAnnounced(events, ssrc)
    decreases |events|
  {
    if events != [] {
      ProofBeatsAnnouncement(events[..|events| - 1], ssrc);
    }
  }

  // ---------- the current speaker ----------

  predicate IsSpeech(e: Event) {
    e.Speaking? && e.user.Some? && e.ssrc.Some?
  }

  // Message `k` is the last one of somebody speaking, and the maps were not cleared since.
  ghost predicate SpokeLast(events: seq<Event>, k: nat) {
    && k < |events| && IsSpeech(events[k])
    && forall j :: k < j < |events| ==> !IsSpeech(events[j]) && !events[j].MappingsCleared?
  }

  // Who that was: the user proved for the source by then, or else the one the message names.
  function SpeakerAt(events: seq<Event>, k: nat): nat
    requires k < |events| && IsSpeech(events[k])
  {
    var proved := LastProved(events[..k], events[k].ssrc.value);
    if proved.Some? then proved.value else events[k].user.value
  }

  ghost predicate GoneSince(events: seq<Event>, k: nat, user: nat) {
    exists j :: k < j < |events| && events[j] == ClientDisconnect(Some(user))
  }

  // Over every run the current speaker is who spoke last, unless that user has left since.
  lemma {:induction false} SpeakerIsLastToSpeak(events: seq<Event>, k: nat)
    requires SpokeLast(events, k)
    ensures var s, user := After(events), SpeakerAt(events, k);
            if GoneSince(events, k, user) then s.currentUser == None && s.currentSsrc == None
            else s.currentUser == Some(user) && s.currentSsrc == events[k].ssrc
    decreases |events|
  {
    var n := |events| - 1;
    var init := events[..n];
    if k == n {
      ProofBeatsAnnouncement(init, events[k].ssrc.value);
    } else {
      SpeakerIsLastToSpeak(init, k);
      assert init[..k] == events[..k];
      GoneStep(events, k, SpeakerAt(events, k));
    }
  }

  lemma GoneStep(events: seq<Event>, k: nat, user: nat)
    requires k < |events| - 1
    ensures GoneSince(events, k, user) <==>
            GoneSince(events[..|events| - 1], k, user) || events[|events| - 1] == ClientDisconnect(Some(user))
  {
    var init := events[..|events| - 1];
    if GoneSince(init, k, user) {
      var j :| k < j < |init| && init[j] == ClientDisconnect(Some(user));
      assert events[j] == ClientDisconnect(Some(user));
    }
    if j :| k < j < |events| && events[j] == ClientDisconnect(Some(user)) {
      assert j < |init| ==> init[j] == ClientDisconnect(Some(user));
    }
  }

  // And there is none while nobody has spoken since the maps were cleared.
  lemma {:induction false} NobodyUnlessSpoken(events: seq<Event>)
    requires forall k :: !SpokeLast(events, k)
    ensures After(events).currentUser == None && After(events).currentSsrc == None
    decreases |events|
  {
    if events != [] {
      var n := |events| - 1;
      var init := events[..n];
      if !events[n].MappingsCleared? {
        assert !SpokeLast(events, n);
        forall k
          ensures !SpokeLast(init, k)
        {
          assert !SpokeLast(events, k);
          assert SpokeLast(init, k) ==> SpokeLast(events, k);
        }
        NobodyUnlessSpoken(init);
      }
    }
  }

  // ---------- the two directions ----------

  ghost predicate MutuallyInverse(s: Speakers) {
    && (forall x :: x in s.ssrcToUser ==> s.ssrcToUser[x] in s.userToSsrc && s.userToSsrc[s.ssrcToUser[x]] == x)
    && (forall u :: u in s.userToSsrc ==> s.userToSsrc[u] in s.ssrcToUser && s.ssrcToUser[s.userToSsrc[u]] == u)
  }

  // A binding keeps the two maps inverse to each other exactly when neither side was bound elsewhere.
  lemma InverseExactly(s: Speakers, user: nat, ssrc: nat)
    requires MutuallyInverse(s)
    ensures MutuallyInverse(Bind(s, user, ssrc)) <==>
            && (user in s.userToSsrc ==> s.userToSsrc[user] == ssrc)
            && (ssrc in s.ssrcToUser ==> s.ssrcToUser[ssrc] == user)
  {
    var t := Bind(s, user, ssrc);
    if user in s.userToSsrc && s.userToSsrc[user] != ssrc {
      assert t.ssrcToUser[s.userToSsrc[user]] == user && t.userToSsrc[user] == ssrc;
    }
    if ssrc in s.ssrcToUser && s.ssrcToUser[ssrc] != user {
      assert t.userToSsrc[s.ssrcToUser[ssrc]] == ssrc && t.ssrcToUser[ssrc] == user;
    }
  }

  // The bindings that took effect since the maps were cleared, as users and their sources.
  function Bindings(events: seq<Event>): seq<(nat, nat)> {
    if events == [] then []
    else
      var init := events[..|events| - 1];
      var bs := Bindings(init);
      match events[|events| - 1]
      case MappingsCleared => []
      case DecryptedAs(u, x) => bs + [(u, x)]
      case Speaking(u, x) =>
        if u.Some? && x.Some? && Yields(init, u.value, x.value) then bs + [(u.value, x.value)] else bs
      case ClientConnect(u, x) =>
        if u.Some? && x.Some? && Yields(init, u.value, x.value) then bs + [(u.value, x.value)] else bs
      case _ => bs
  }

  // An announcement takes effect unless another user was proved for the source.
  predicate Yields(events: seq<Event>, user: nat, ssrc: nat) {
    LastProved(events, ssrc) in {None, Some(user)}
  }

  ghost predicate LastOfSource(bs: seq<(nat, nat)>, i: nat) {
    i < |bs| && forall j :: i < j < |bs| ==> bs[j].1 != bs[i].1
  }

  ghost predicate LastOfUser(bs: seq<(nat, nat)>, i: nat) {
    i < |bs| && forall j :: i < j < |bs| ==> bs[j].0 != bs[i].0
  }

  // The two maps hold for each source its last user and for each user its last source.
  ghost predicate HoldsLast(s: Speakers, bs: seq<(nat, nat)>) {
    HoldsLastUsers(s.ssrcToUser, bs) && HoldsLastSources(s.userToSsrc, bs)
  }

  ghost predicate HoldsLastUsers(m: map<nat, nat>, bs: seq<(nat, nat)>) {
    && (forall i: nat :: LastOfSource(bs, i) ==> Get(m, bs[i].1) == Some(bs[i].0))
    && (forall x :: x in m ==> exists i: nat :: LastOfSource(bs, i) && bs[i].1 == x)
  }

  ghost predicate HoldsLastSources(m: map<nat, nat>, bs: seq<(nat, nat)>) {
    && (forall i: nat :: LastOfUser(bs, i) ==> Get(m, bs[i].0) == Some(bs[i].1))
    && (forall u :: u in m ==> exists i: nat :: LastOfUser(bs, i) && bs[i].0 == u)
  }

  lemma BindHoldsLastUsers(m: map<nat, nat>, bs: seq<(nat, nat)>, user: nat, ssrc: nat)
    requires HoldsLastUsers(m, bs)
    ensures HoldsLastUsers(m[ssrc := user], bs + [(user, ssrc)])
  {
    var more := bs + [(user, ssrc)];
    assert more[|bs|] == (user, ssrc) && LastOfSource(more, |bs|);
    forall i: nat | i < |bs|
      ensures LastOfSource(more, i) <==> LastOfSource(bs, i) && bs[i].1 != ssrc
    {
      assert forall j :: i < j < |bs| ==> more[j] == bs[j];
    }
    forall x | x in m && x != ssrc
      ensures exists i: nat :: LastOfSource(more, i) && more[i].1 == x
    {
      var i: nat :| LastOfSource(bs, i) && bs[i].1 == x;
      assert LastOfSource(more, i);
    }
  }

  lemma BindHoldsLastSources(m: map<nat, nat>, bs: seq<(nat, nat)>, user: nat, ssrc: nat)
    requires HoldsLastSources(m, bs)
    ensures HoldsLastSources(m[user := ssrc], bs + [(user, ssrc)])
  {
    var more := bs + [(user, ssrc)];
    assert more[|bs|] == (user, ssrc) && LastOfUser(more, |bs|);
    forall i: nat | i < |bs|
      ensures LastOfUser(more, i) <==> LastOfUser(bs, i) && bs[i].0 != user
    {
      assert forall j :: i < j < |bs| ==> more[j] == bs[j];
    }
    forall u | u in m && u != user
      ensures exists i: nat :: LastOfUser(more, i) && more[i].0 == u
    {
      var i: nat :| LastOfUser(bs, i) && bs[i].0 == u;
      assert LastOfUser(more, i);
    }
  }

  lemma BindHoldsLast(s: Speakers, bs: seq<(nat, nat)>, user: nat, ssrc: nat)
    requires HoldsLast(s, bs)
    ensures HoldsLast(Bind(s, user, ssrc), bs + [(user, ssrc)])
  {
    BindHoldsLastUsers(s.ssrcToUser, bs, user, ssrc);
    BindHoldsLastSources(s.userToSsrc, bs, user, ssrc);
  }

  lemma {:induction false} RunHoldsLast(events: seq<Event>)
    ensures HoldsLast(After(events), Bindings(events))
    decreases |events|
  {
    if events != [] {
      var init := events[..|events| - 1];
      RunHoldsLast(init);
      var s, bs := After(init), Bindings(init);
      match events[|events| - 1]
      case Speaking(u, x) =>
        if u.Some? && x.Some? {
          AnnouncedHoldsLast(init, u.value, x.value);
        }
      case ClientConnect(u, x) =>
        if u.Some? && x.Some? {
          AnnouncedHoldsLast(init, u.value, x.value);
        }
      case DecryptedAs(u, x) =>
        BindHoldsLast(s.(daveSsrcToUser := s.daveSsrcToUser[x := u]), bs, u, x);
      case _ =>
    }
  }

  lemma AnnouncedHoldsLast(init: seq<Event>, user: nat, ssrc: nat)
    requires HoldsLast(After(init), Bindings(init))
    ensures HoldsLast(Announce(After(init), user, ssrc),
                      if Yields(init, user, ssrc) then Bindings(init) + [(user, ssrc)] else Bindings(init))
  {
    ProofBeatsAnnouncement(init, ssrc);
    BindHoldsLast(After(init), Bindings(init), user, ssrc);
  }

  // Each binding that is still the last of its source is still the last of its user, and the other way round.
  ghost predicate LastsAgree(bs: seq<(nat, nat)>) {
    forall i: nat :: LastOfSource(bs, i) <==> LastOfUser(bs, i)
  }

  lemma LastOfSourceIsOfUser(s: Speakers, bs: seq<(nat, nat)>, i: nat)
    requires HoldsLast(s, bs) && MutuallyInverse(s) && LastOfSource(bs, i)
    ensures LastOfUser(bs, i)
  {
    var (u, x) := bs[i];
    assert Get(s.ssrcToUser, x) == Some(u) && s.userToSsrc[u] == x;
    var j: nat :| LastOfUser(bs, j) && bs[j].0 == u;
    assert bs[j].1 == x;
  }

  lemma LastOfUserIsOfSource(s: Speakers, bs: seq<(nat, nat)>, i: nat)
    requires HoldsLast(s, bs) && MutuallyInverse(s) && LastOfUser(bs, i)
    ensures LastOfSource(bs, i)
  {
    var (u, x) := bs[i];
    assert Get(s.userToSsrc, u) == Some(x) && s.ssrcToUser[x] == u;
    var j: nat :| LastOfSource(bs, j) && bs[j].1 == x;
    assert bs[j].0 == u;
  }

  lemma AgreeingLastsAreInverse(s: Speakers, bs: seq<(nat, nat)>)
    requires HoldsLast(s, bs) && LastsAgree(bs)
    ensures MutuallyInverse(s)
  {
    forall x | x in s.ssrcToUser
      ensures Get(s.userToSsrc, s.ssrcToUser[x]) == Some(x)
    {
      var i: nat :| LastOfSource(bs, i) && bs[i].1 == x;
      assert LastOfUser(bs, i);
    }
    forall u | u in s.userToSsrc
      ensures Get(s.ssrcToUser, s.userToSsrc[u]) == Some(u)
    {
      var i: nat :| LastOfUser(bs, i) && bs[i].0 == u;
      assert LastOfSource(bs, i);
    }
  }

  // Over every run the two maps are inverse to each other if, and only if, the last bindings agree.
  lemma InverseOverRuns(events: seq<Event>)
    ensures MutuallyInverse(After(events)) <==> LastsAgree(Bindings(events))
  {
    RunHoldsLast(events);
    var s, bs := After(events), Bindings(events);
    if MutuallyInverse(s) {
      forall i: nat
        ensures LastOfSource(bs, i) <==> LastOfUser(bs, i)
      {
        if LastOfSource(bs, i) {
          LastOfSourceIsOfUser(s, bs, i);
        }
        if LastOfUser(bs, i) {
          LastOfUserIsOfSource(s, bs, i);
        }
      }
    }
    if LastsAgree(bs) {
      AgreeingLastsAreInverse(s, bs);
    }
  }

  // A user who changes the source leaves a stale entry; another user taking over that source mends it.
  lemma ChangingSourcesBreaksInverse()
    ensures var moved := [DecryptedAs(1, 10), DecryptedAs(1, 11)];
            && !MutuallyInverse(After(moved))
            && MutuallyInverse(After(moved + [DecryptedAs(2, 10)]))
  {
    var moved := [DecryptedAs(1, 10), DecryptedAs(1, 11)];
    var mended := moved + [DecryptedAs(2, 10)];
    assert [DecryptedAs(1, 10)][..0] == [] && moved[..1] == [DecryptedAs(1, 10)] && mended[..2] == moved;
    assert After([DecryptedAs(1, 10)]) == BindDave(NOBODY, 1, 10);
    assert After(moved) == BindDave(After([DecryptedAs(1, 10)]), 1, 11);
    assert After(mended) == BindDave(After(moved), 2, 10);
    assert 10 in After(moved).ssrcToUser && After(moved).userToSsrc[1] == 11;
  }

  // ---------- the runtime state and the handlers ----------

  class VoiceRuntimeState {
    var ssrcToUser: map<nat, nat>
    var userToSsrc: map<nat, nat>
    var daveSsrcToUser: map<nat, nat>
    var currentUser: Option<nat>
    var currentSsrc: Option<nat>
    var pendingUserIds: seq<nat>

    constructor ()
      ensures Value() == NOBODY
    {
      ssrcToUser, userToSsrc, daveSsrcToUser := map[], map[], map[];
      currentUser, currentSsrc, pendingUserIds := None, None, [];
    }

    function Value(): Speakers
      reads this
    {
      Speakers(ssrcToUser, userToSsrc, daveSsrcToUser, currentUser, currentSsrc, pendingUserIds)
    }

    method BindSsrc(user: nat, ssrc: nat)
      modifies this
      ensures Value() == Bind(old(Value()), user, ssrc)
    {
      ssrcToUser := ssrcToUser[ssrc := user];
      userToSsrc := userToSsrc[user := ssrc];
    }

    method BindDaveSsrc(user: nat, ssrc: nat)
      modifies this
      ensures Value() == Step(old(Value()), DecryptedAs(user, ssrc))
    {
      daveSsrcToUser := daveSsrcToUser[ssrc := user];
      BindSsrc(user, ssrc);
    }

    function GetPreferredUserId(ssrc: nat): (r: Option<nat>)
      reads this
      ensures r == Preferred(Value(), ssrc)
    {
      if ssrc in daveSsrcToUser then Some(daveSsrcToUser[ssrc]) else Get(ssrcToUser, ssrc)
    }

    method ClearMappings()
      modifies this
      ensures Value() == NOBODY
    {
      ssrcToUser, userToSsrc, daveSsrcToUser := map[], map[], map[];
      currentUser, currentSsrc, pendingUserIds := None, None, [];
    }

    method HandleSpeaking(user: Option<nat>, ssrc: Option<nat>)
      modifies this
      ensures Value() == Step(old(Value()), Speaking(user, ssrc))
    {
      if user == None || ssrc == None {
        return;
      }
      var speaker := user.value;
      if ssrc.value in daveSsrcToUser && daveSsrcToUser[ssrc.value] != speaker {
        speaker := daveSsrcToUser[ssrc.value];
      } else {
        BindSsrc(speaker, ssrc.value);
      }
      currentUser, currentSsrc := Some(speaker), ssrc;
    }

    method HandleClientConnect(user: Option<nat>, ssrc: Option<nat>)
      modifies this
      ensures Value() == Step(old(Value()), ClientConnect(user, ssrc))
    {
      if user.Some? && ssrc.Some? {
        if !(ssrc.value in daveSsrcToUser && daveSsrcToUser[ssrc.value] != user.value) {
          BindSsrc(user.value, ssrc.value);
        }
      }
    }

    method HandleClientDisconnect(user: Option<nat>)
      modifies this
      ensures Value() == Step(old(Value()), ClientDisconnect(user))
    {
      if user.Some? && currentUser == user {
        currentUser, currentSsrc := None, None;
      }
    }
  }
}
