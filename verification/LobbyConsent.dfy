/**
 * Who may change what about a member and a lobby, when a member's own requests are granted, and what
 * being ready means: a statement about one particular fleet, made by its owner and not taken back
 * (packages/server/src/lobby/service.ts:391-443).
 */
module LobbyConsent {
  import opened Options
  import opened LobbyTypes
  import opened LobbyRules
  import opened LobbyInvariants
  import opened LobbyTheorems

  // ── Who may change what ───────────────────────────────────────────────────────────

  /** Someone who was not there before, in a seat but with nothing chosen. */
  predicate Newcomer(a: AccountId, l: Lobby, m': Member) {
    m'.account == a && !Holds(l.members, a) && m'.fleet.None? && !m'.ready
  }

  /** Entry `j` of the new roster is a newcomer, or entry `was` of the old one rightfully changed. */
  ghost predicate Accounted(a: AccountId, c: Command, l: Lobby, l': Lobby, j: int, was: int)
    requires 0 <= j < |l'.members|
  {
    || (was == -1 && Newcomer(a, l, l'.members[j]))
    || (0 <= was < |l.members| && Rightful(a, c, l'.settings.fleetPoints, l.members[was], l'.members[j]))
  }

  lemma UntouchedIsRightful(a: AccountId, c: Command, l: Lobby, j: int)
    requires 0 <= j < |l.members|
    ensures Accounted(a, c, l, l, j, j)
  {
  }

  /** Replacing one entry by a rightful successor accounts for every entry. */
  lemma ReseatIsRightful(r: Registry, a: AccountId, c: Command, l: Lobby, i: int, m': Member, id: LobbyId, j: int)
    requires id in r.lobbies && l.id in r.lobbies && r.lobbies[l.id] == l && 0 <= i < |l.members|
    requires Rightful(a, c, l.settings.fleetPoints, l.members[i], m')
    requires 0 <= j < |Reseat(r, l, i, m').reg.lobbies[id].members|
    ensures Accounted(a, c, r.lobbies[id], Reseat(r, l, i, m').reg.lobbies[id], j, j)
  {
  }

  lemma EditIsRightful(r: Registry, a: AccountId, c: Command, now: Millis, id: LobbyId, j: int)
    requires Inv(r) && id in r.lobbies
    requires c.SetPosition? || c.SelectFleet? || c.SetReady? || c.ResyncFleet?
    requires id in Apply(r, a, c, now).reg.lobbies && 0 <= j < |Apply(r, a, c, now).reg.lobbies[id].members|
    ensures Accounted(a, c, r.lobbies[id], Apply(r, a, c, now).reg.lobbies[id], j, j)
  {
    Registered(r, a);
    var found := RequireLobby(r, a);
    if Apply(r, a, c, now).reg == r {
      UntouchedIsRightful(a, c, r.lobbies[id], j);
    } else {
      var i, m' := EditReseats(r, found.value, a, c, now);
      ReseatIsRightful(r, a, c, found.value, i, m', id, j);
    }
  }

  lemma ModifyIsRightful(r: Registry, a: AccountId, p: Patch, id: LobbyId, j: int)
    requires Inv(r) && id in r.lobbies
    requires id in ModifyStep(r, a, p).reg.lobbies && 0 <= j < |ModifyStep(r, a, p).reg.lobbies[id].members|
    ensures Accounted(a, Modify(p), r.lobbies[id], ModifyStep(r, a, p).reg.lobbies[id], j, j)
  {
    Registered(r, a);
  }

  lemma OpeningIsRightful(r: Registry, a: AccountId, c: Command, now: Millis, id: LobbyId, j: int)
    requires Inv(r) && id in r.lobbies && c.Create?
    requires id in Apply(r, a, c, now).reg.lobbies && 0 <= j < |Apply(r, a, c, now).reg.lobbies[id].members|
    ensures Accounted(a, c, r.lobbies[id], Apply(r, a, c, now).reg.lobbies[id], j, j)
  {
    assert EntryOk(r, id);
  }

  lemma JoinIsRightful(r: Registry, a: AccountId, c: Command, username: string, target: LobbyId, now: Millis,
                       id: LobbyId, j: int) returns (was: int)
    requires Inv(r) && id in r.lobbies
    requires id in JoinStep(r, a, username, target, now).reg.lobbies
    requires 0 <= j < |JoinStep(r, a, username, target, now).reg.lobbies[id].members|
    ensures Accounted(a, c, r.lobbies[id], JoinStep(r, a, username, target, now).reg.lobbies[id], j, was)
  {
    var l := r.lobbies[id];
    was := if j < |l.members| then j else -1;
    if was == -1 {
      assert EntryOk(r, id);
      assert !Holds(l.members, a);
    }
  }

  lemma {:induction false} WithoutComesFrom(ms: seq<Member>, a: AccountId, j: int) returns (was: int)
    requires 0 <= j < |Without(ms, a)|
    ensures 0 <= was < |ms| && ms[was] == Without(ms, a)[j]
  {
    if ms[0].account == a {
      was := WithoutComesFrom(ms[1..], a, j);
      was := was + 1;
    } else if j == 0 {
      was := 0;
    } else {
      was := WithoutComesFrom(ms[1..], a, j - 1);
      was := was + 1;
    }
  }

  lemma RemovalIsRightful(r: Registry, a: AccountId, c: Command, l: Lobby, gone: AccountId, id: LobbyId, j: int)
    returns (was: int)
    requires Inv(r) && id in r.lobbies && l.id in r.lobbies && r.lobbies[l.id] == l
    requires id in RemoveStep(r, l, gone).reg.lobbies && 0 <= j < |RemoveStep(r, l, gone).reg.lobbies[id].members|
    ensures Accounted(a, c, r.lobbies[id], RemoveStep(r, l, gone).reg.lobbies[id], j, was)
  {
    if id == l.id {
      was := WithoutComesFrom(l.members, gone, j);
    } else {
      was := j;
    }
  }

  lemma DepartureIsRightful(r: Registry, a: AccountId, c: Command, now: Millis, id: LobbyId, j: int) returns (was: int)
    requires Inv(r) && id in r.lobbies && IsRemoval(c)
    requires id in Apply(r, a, c, now).reg.lobbies && 0 <= j < |Apply(r, a, c, now).reg.lobbies[id].members|
    ensures Accounted(a, c, r.lobbies[id], Apply(r, a, c, now).reg.lobbies[id], j, was)
  {
    was := j;
    Registered(r, a);
    if Apply(r, a, c, now).out.Departed? {
      was := RemovalIsRightful(r, a, c, RequireLobby(r, a).value, if c.Kick? then c.target else a, id, j);
    }
  }

  /**
   * Whatever anyone does, every entry of a roster is a newcomer or an entry that was there, with its seat
   * changed only by its owner, its fleet only by its owner or by a budget below it, and its readiness
   * granted only by its owner and withdrawn only by its owner or with its fleet.
   */
  lemma NobodyElseChangesYou(r: Registry, a: AccountId, c: Command, now: Millis, id: LobbyId, j: int)
    returns (was: int)
    requires Inv(r) && id in r.lobbies
    requires id in Apply(r, a, c, now).reg.lobbies && 0 <= j < |Apply(r, a, c, now).reg.lobbies[id].members|
    ensures Accounted(a, c, r.lobbies[id], Apply(r, a, c, now).reg.lobbies[id], j, was)
  {
    was := j;
    Registered(r, a);
    match c
    case Create(_, _, _) => OpeningIsRightful(r, a, c, now, id, j);
    case JoinByCode(username, code) =>
      if code in r.byCode {
        was := JoinIsRightful(r, a, c, username, r.byCode[code], now, id, j);
      }
    case JoinById(username, target) =>
      was := JoinIsRightful(r, a, c, username, target, now, id, j);
    case SetPosition(_) => EditIsRightful(r, a, c, now, id, j);
    case SelectFleet(_) => EditIsRightful(r, a, c, now, id, j);
    case SetReady(_) => EditIsRightful(r, a, c, now, id, j);
    case ResyncFleet(_, _) => EditIsRightful(r, a, c, now, id, j);
    case Start =>
    case Modify(p) => ModifyIsRightful(r, a, p, id, j);
    case Leave => was := DepartureIsRightful(r, a, c, now, id, j);
    case Disconnect => was := DepartureIsRightful(r, a, c, now, id, j);
    case Kick(target) => was := DepartureIsRightful(r, a, c, now, id, j);
  }

  // ── Settings are the host's ───────────────────────────────────────────────────────

  predicate Patched<T(==)>(wanted: Option<T>, was: T, now: T) {
    if wanted.Some? then now == wanted.value else now == was
  }

  /** What was asked for is set, and what was not asked for stays. */
  predicate PatchedBy(p: Patch, s: Settings, s': Settings) {
    && Patched(p.name, s.name, s'.name)
    && Patched(p.maxPlayers, s.maxPlayers as real, s'.maxPlayers as real)
    && Patched(p.mode, s.mode, s'.mode)
    && Patched(p.fleetPoints, s.fleetPoints as real, s'.fleetPoints as real)
    && Patched(p.visibility, s.visibility, s'.visibility)
    && Patched(p.mapType, s.mapType, s'.mapType)
    && Patched(p.mapSize, s.mapSize, s'.mapSize)
    && Patched(p.debugMode, s.debugMode, s'.debugMode)
  }

  /** A lobby keeps its id, code and age for life, and its settings change only as its host asked. */
  lemma OnlyTheHostChangesSettings(r: Registry, a: AccountId, c: Command, now: Millis, id: LobbyId)
    requires Inv(r) && id in r.lobbies && id in Apply(r, a, c, now).reg.lobbies
    ensures var l, l' := r.lobbies[id], Apply(r, a, c, now).reg.lobbies[id];
      && SameIdentity(l, l')
      && (l'.settings == l.settings || (c.Modify? && l.host == a && PatchedBy(c.patch, l.settings, l'.settings)))
  {
    if IsRemoval(c) {
      DepartureKeepsSettings(r, a, c, now, id);
    } else {
      forall k | k in r.lobbies ensures r.lobbies[k].id == k && k < r.nextId {
        assert EntryOk(r, k);
      }
      Extended(r, a, c, now, id);
    }
  }

  ghost predicate SameIdentity(l: Lobby, l': Lobby) {
    l'.id == l.id && l'.code == l.code && l'.createdAt == l.createdAt
  }

  lemma DepartureKeepsSettings(r: Registry, a: AccountId, c: Command, now: Millis, id: LobbyId)
    requires Inv(r) && id in r.lobbies && id in Apply(r, a, c, now).reg.lobbies && IsRemoval(c)
    ensures SameIdentity(r.lobbies[id], Apply(r, a, c, now).reg.lobbies[id])
    ensures Apply(r, a, c, now).reg.lobbies[id].settings == r.lobbies[id].settings
  {
    Registered(r, a);
  }

  // ── When a member's own requests are granted, and that they take effect ───────────

  function Entry(r: Registry, a: AccountId): Option<Member> {
    var l := RequireLobby(r, a);
    if l.None? then None
    else var i := Find(l.value.members, a); if i < 0 then None else Some(l.value.members[i])
  }

  function Room(l: Lobby, p: Position): int {
    if p == Spectator then SPECTATOR_CAP else TeamCapacity(l.settings.maxPlayers)
  }

  /** A member gets the seat it asks for exactly when it has it or there is room; and then it has it. */
  lemma SeatIsGivenExactlyWhenThereIsRoom(r: Registry, l: Lobby, a: AccountId, p: Position)
    requires Inv(r) && RequireLobby(r, a) == Some(l)
    ensures var s := SetPositionStep(r, a, p);
      && Entry(r, a).Some?
      && (s.out.Settled? <==> Entry(r, a).value.position == p || PositionCount(l.members, p) < Room(l, p))
      && (s.out.Settled? ==> Entry(s.reg, a).Some? && Entry(s.reg, a).value.position == p)
  {
    Registered(r, a);
    assert Holds(l.members, a);
    CountWithout(l.members, a, p);
    EntryAfterReseat(r, l, a, l.members[Find(l.members, a)].(position := p,
      ready := l.members[Find(l.members, a)].ready && p != Spectator));
  }

  lemma EntryAfterReseat(r: Registry, l: Lobby, a: AccountId, m: Member)
    requires RequireLobby(r, a) == Some(l) && l.id == r.membership[a] && Find(l.members, a) >= 0 && m.account == a
    ensures Entry(Reseat(r, l, Find(l.members, a), m).reg, a) == Some(m)
  {
    var i := Find(l.members, a);
    var ms := l.members[i := m];
    assert ms[i].account == a;
    assert forall j :: 0 <= j < i ==> ms[j] == l.members[j];
    assert Find(ms, a) == i;
  }

  /** A member gets the fleet it chooses exactly when the budget allows it; then it has it and must ready up again. */
  lemma FleetIsTakenExactlyWithinBudget(r: Registry, l: Lobby, a: AccountId, fleet: Option<Fleet>)
    requires Inv(r) && RequireLobby(r, a) == Some(l)
    ensures var s := SelectFleetStep(r, a, fleet);
      && (s.out.Settled? <==>
            (fleet.Some? ==> fleet.value.points <= l.settings.fleetPoints))
      && (s.out.Settled? ==> Entry(s.reg, a).Some? && Entry(s.reg, a).value.fleet == fleet && !Entry(s.reg, a).value.ready)
  {
    Registered(r, a);
    EntryAfterReseat(r, l, a, l.members[Find(l.members, a)].(fleet := fleet, ready := false));
  }

  /** Anyone may say it is not ready; only a seated member with a fleet may say it is. */
  lemma ReadyIsGrantedExactlyToTheSeated(r: Registry, l: Lobby, a: AccountId, ready: bool)
    requires Inv(r) && RequireLobby(r, a) == Some(l)
    ensures var s := SetReadyStep(r, a, ready);
      && Entry(r, a).Some?
      && (s.out.Settled? <==> (ready ==> Entry(r, a).value.position != Spectator && Entry(r, a).value.fleet.Some?))
      && (s.out.Settled? ==> Entry(s.reg, a).Some? && Entry(s.reg, a).value.ready == ready)
  {
    Registered(r, a);
    EntryAfterReseat(r, l, a, l.members[Find(l.members, a)].(ready := ready));
  }

  // ── What being ready means ────────────────────────────────────────────────────────

  /**
   * The fleet an account last said it was ready with; nothing if it never did, or has since said it is not.
   * Only what the service accepted counts.
   */
  function Agreed(calls: seq<Call>, b: AccountId): Option<Option<Fleet>> {
    if calls == [] then None
    else
      var before, last := calls[..|calls| - 1], calls[|calls| - 1];
      var r := RunAll(before);
      if last.account == b && last.command.SetReady? && Apply(r, b, last.command, last.now).out.Settled?
      then (if last.command.ready then Some(ViewFor(r, b)) else None)
      else Agreed(before, b)
  }

  function RunAll(calls: seq<Call>): Registry {
    Run(EMPTY_REGISTRY, calls)
  }

  lemma {:induction false} RunSplits(r: Registry, calls: seq<Call>)
    requires calls != []
    ensures var last := calls[|calls| - 1];
      Run(r, calls)
        == Apply(Run(r, calls[..|calls| - 1]), last.account, last.command, last.now).reg
    decreases |calls|
  {
    if |calls| > 1 {
      assert calls[1..][..|calls| - 2] == calls[..|calls| - 1][1..];
      RunSplits(Apply(r, calls[0].account, calls[0].command, calls[0].now).reg, calls[1..]);
    }
  }

  /** A lobby that was not there before has just been created, and nobody in it is ready. */
  lemma NobodyStartsReady(r: Registry, a: AccountId, c: Command, now: Millis, id: LobbyId, j: int)
    requires Inv(r) && id !in r.lobbies
    ensures !ReadyAt(Apply(r, a, c, now).reg, id, j)
  {
    Registered(r, a);
  }

  ghost predicate ReadyAt(r: Registry, id: LobbyId, j: int) {
    id in r.lobbies && 0 <= j < |r.lobbies[id].members| && r.lobbies[id].members[j].ready
  }

  /** The account behind a roster entry, found from the account. */
  lemma EntryIsFound(r: Registry, id: LobbyId, j: int)
    requires Inv(r) && id in r.lobbies && 0 <= j < |r.lobbies[id].members|
    ensures var b := r.lobbies[id].members[j].account;
      RequireLobby(r, b) == Some(r.lobbies[id]) && Find(r.lobbies[id].members, b) == j
  {
    assert EntryOk(r, id);
  }

  /** Once an account has said it is not ready, no entry of its own is. */
  lemma TakingItBackWorks(r: Registry, a: AccountId, id: LobbyId, j: int)
    requires Inv(r) && ReadyAt(SetReadyStep(r, a, false).reg, id, j)
    ensures SetReadyStep(r, a, false).reg.lobbies[id].members[j].account != a
  {
    var r' := SetReadyStep(r, a, false).reg;
    Registered(r, a);
    SetReadyKeeps(r, a, false);
    EntryIsFound(r', id, j);
  }

  /** Where a member who is ready came from, when it did not just say so. */
  lemma ReadinessIsCarried(r: Registry, a: AccountId, c: Command, now: Millis, id: LobbyId, j: int) returns (was: int)
    requires Inv(r) && ReadyAt(Apply(r, a, c, now).reg, id, j)
    requires var b := Apply(r, a, c, now).reg.lobbies[id].members[j].account;
      !(a == b && c == SetReady(true) && Apply(r, a, c, now).out.Settled?)
    ensures ReadyAt(r, id, was)
    ensures var m, m' := r.lobbies[id].members[was], Apply(r, a, c, now).reg.lobbies[id].members[j];
      m.account == m'.account && m.fleet == m'.fleet && !(a == m.account && c == SetReady(false))
  {
    var s := Apply(r, a, c, now);
    ApplyKeeps(r, a, c, now);
    if !s.out.Settled? && !s.out.Departed? {
      was := j;
    } else {
      if id !in r.lobbies {
        NobodyStartsReady(r, a, c, now, id, j);
      }
      was := NobodyElseChangesYou(r, a, c, now, id, j);
    }
    if c == SetReady(false) {
      TakingItBackWorks(r, a, id, j);
    }
  }

  /**
   * After any run, a member shown as ready is ready with exactly the fleet it had when it last said so,
   * and has not taken it back since.
   */
  lemma {:induction false} ReadyMeansAgreed(calls: seq<Call>, id: LobbyId, j: int)
    requires ReadyAt(RunAll(calls), id, j)
    ensures var m := RunAll(calls).lobbies[id].members[j]; Agreed(calls, m.account) == Some(m.fleet)
  {
    var before, last := calls[..|calls| - 1], calls[|calls| - 1];
    var r := RunAll(before);
    RunSplits(EMPTY_REGISTRY, calls);
    var b := RunAll(calls).lobbies[id].members[j].account;
    ReachableIsConsistent(EMPTY_REGISTRY, before);
    if last.account == b && last.command == SetReady(true) && Apply(r, b, last.command, last.now).out.Settled? {
      Registered(r, b);
      ReachableIsConsistent(EMPTY_REGISTRY, calls);
      EntryIsFound(RunAll(calls), id, j);
    } else {
      var was := ReadinessIsCarried(r, last.account, last.command, last.now, id, j);
      ReadyMeansAgreed(before, id, was);
    }
  }
}
