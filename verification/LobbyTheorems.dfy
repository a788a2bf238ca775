/**
 * The promises of the lobby registry, over every reachable registry and every input.
 */
module LobbyTheorems {
  import opened Options
  import opened LobbyTypes
  import opened LobbyRules
  import opened LobbyInvariants
  import opened StableSort
  import opened Measures

  // ── Safety over whole runs ────────────────────────────────────────────────────────

  /** Every command keeps the registry consistent, and one that is refused changes nothing at all. */
  lemma ApplyKeeps(r: Registry, a: AccountId, c: Command, now: Millis)
    requires Inv(r)
    ensures Inv(Apply(r, a, c, now).reg)
    ensures var s := Apply(r, a, c, now);
      s.out.Rejected? || s.out.Unchanged? || s.out.Thrown? ==> s.reg == r
  {
    match c {
      case Create(username, name, draws) => CreateKeeps(r, a, username, name, draws, now);
      case JoinByCode(username, code) => if code in r.byCode { JoinKeeps(r, a, username, r.byCode[code], now); }
      case JoinById(username, id) => JoinKeeps(r, a, username, id, now);
      case SetPosition(p) => SetPositionKeeps(r, a, p);
      case SelectFleet(fleet) => SelectFleetKeeps(r, a, fleet);
      case SetReady(ready) => SetReadyKeeps(r, a, ready);
      case Start =>
      case ResyncFleet(saved, fleetId) => ResyncFleetKeeps(r, a, saved, fleetId);
      case Leave => DepartureKeeps(r, a);
      case Kick(target) => KickKeeps(r, a, target);
      case Modify(p) => ModifyKeeps(r, a, p);
      case Disconnect => DepartureKeeps(r, a);
    }
  }

  datatype Call = Call(account: AccountId, command: Command, now: Millis)

  function Run(r: Registry, calls: seq<Call>): Registry
    decreases |calls|
  {
    if calls == [] then r
    else Run(Apply(r, calls[0].account, calls[0].command, calls[0].now).reg, calls[1..])
  }

  /** So every registry a server can reach, by any calls whatever, is consistent. */
  lemma {:induction false} ReachableIsConsistent(r: Registry, calls: seq<Call>)
    requires Inv(r)
    ensures Inv(Run(r, calls))
    decreases |calls|
  {
    if calls != [] {
      ApplyKeeps(r, calls[0].account, calls[0].command, calls[0].now);
      ReachableIsConsistent(Apply(r, calls[0].account, calls[0].command, calls[0].now).reg, calls[1..]);
    }
  }

  predicate ListedOnceAt(ms: seq<Member>, a: AccountId, i: int) {
    0 <= i < |ms| && forall j :: 0 <= j < |ms| ==> (ms[j].account == a <==> j == i)
  }

  /**
   * Membership and rosters say the same thing: from an empty server, after any calls, an account maps
   * to a lobby exactly when that lobby lives and lists it, once; a code opens a lobby exactly when that
   * lobby lives and carries it; and no lobby is empty or led by someone who is not in it.
   */
  lemma DirectoryIsExact(calls: seq<Call>, a: AccountId, id: LobbyId, code: JoinCode)
    ensures var r := Run(EMPTY_REGISTRY, calls);
      && ((a in r.membership && r.membership[a] == id)
           <==> (id in r.lobbies && exists i :: ListedOnceAt(r.lobbies[id].members, a, i)))
      && ((code in r.byCode && r.byCode[code] == id)
           <==> (id in r.lobbies && r.lobbies[id].code == code))
      && (id in r.lobbies ==> r.lobbies[id].members != [] && Holds(r.lobbies[id].members, r.lobbies[id].host))
  {
    ReachableIsConsistent(EMPTY_REGISTRY, calls);
    ConsistentDirectory(Run(EMPTY_REGISTRY, calls), a, id);
    var r := Run(EMPTY_REGISTRY, calls);
    if id in r.lobbies {
      assert EntryOk(r, id);
    }
    if code in r.byCode {
      assert CodeOk(r, code);
    }
  }

  lemma ConsistentDirectory(r: Registry, a: AccountId, id: LobbyId)
    requires Inv(r)
    ensures (a in r.membership && r.membership[a] == id)
      <==> (id in r.lobbies && exists i :: ListedOnceAt(r.lobbies[id].members, a, i))
  {
    if a in r.membership && r.membership[a] == id {
      assert AccountOk(r, a) && EntryOk(r, id);
      var ms := r.lobbies[id].members;
      var i :| 0 <= i < |ms| && ms[i].account == a;
      forall j | 0 <= j < |ms| && ms[j].account == a ensures j == i {
        assert !(j < i) && !(i < j);
      }
      assert ListedOnceAt(ms, a, i);
    }
    if id in r.lobbies && exists i :: ListedOnceAt(r.lobbies[id].members, a, i) {
      assert EntryOk(r, id);
      var i :| ListedOnceAt(r.lobbies[id].members, a, i);
      assert r.lobbies[id].members[i].account == a;
    }
  }

  // ── A fair start ──────────────────────────────────────────────────────────────────

  /**
   * A start is authorized exactly when the caller hosts a lobby with someone on a team and every
   * seated player ready; and however the cap, the budget and the fleets were edited before, that
   * means each of them brings a fleet within the budget and no team is over its half of the cap.
   */
  lemma StartIsFair(calls: seq<Call>, a: AccountId)
    ensures var r := Run(EMPTY_REGISTRY, calls);
      StartStep(r, a).out.Settled? <==>
             RequireLobby(r, a).Some? && RequireLobby(r, a).value.host == a
             && EveryoneReady(RequireLobby(r, a).value.members)
    ensures var r := Run(EMPTY_REGISTRY, calls);
      StartStep(r, a).out.Settled? ==>
        var l := RequireLobby(r, a).value;
        && (exists i :: 0 <= i < |l.members| && l.members[i].position != Spectator)
        && (forall i :: 0 <= i < |l.members| && l.members[i].position != Spectator ==>
              l.members[i].fleet.Some? && l.members[i].fleet.value.points <= l.settings.fleetPoints
              && RosterOf(l.members)[i].fleetId == Some(l.members[i].fleet.value.id))
        && 2 * PositionCount(l.members, Team1) <= l.settings.maxPlayers
        && 2 * PositionCount(l.members, Team2) <= l.settings.maxPlayers
  {
    ReachableIsConsistent(EMPTY_REGISTRY, calls);
    var r := Run(EMPTY_REGISTRY, calls);
    Registered(r, a);
    if StartStep(r, a).out.Settled? {
      var l := RequireLobby(r, a).value;
      assert EntryOk(r, l.id);
      SomeoneSeated(l.members);
      forall i | 0 <= i < |l.members| ensures HonestMember(l.members[i], l.settings.fleetPoints) {
      }
    }
  }

  lemma {:induction false} SomeoneSeated(ms: seq<Member>)
    ensures PlayerCount(ms) > 0 <==> exists i :: 0 <= i < |ms| && ms[i].position != Spectator
  {
    if ms != [] {
      SomeoneSeated(ms[1..]);
      if ms[0].position != Spectator {
        assert ms[0].position != Spectator;
      } else if PlayerCount(ms[1..]) > 0 {
        var i :| 0 <= i < |ms[1..]| && ms[1..][i].position != Spectator;
        assert ms[i + 1].position != Spectator;
      } else {
        forall i | 0 <= i < |ms| ensures ms[i].position == Spectator {
          if i > 0 { assert ms[1..][i - 1].position == Spectator; }
        }
      }
    }
  }

  // ── Succession ────────────────────────────────────────────────────────────────────

  /** The longest-seated player, or the longest-seated spectator if nobody is playing; ties to the first listed. */
  ghost predicate IsHeir(ms: seq<Member>, i: int) {
    && 0 <= i < |ms|
    && (ms[i].position == Spectator ==> forall j :: 0 <= j < |ms| ==> ms[j].position == Spectator)
    && (forall j :: 0 <= j < |ms| && (ms[j].position == Spectator) == (ms[i].position == Spectator) ==>
          ms[i].joinedAt < ms[j].joinedAt || (ms[i].joinedAt == ms[j].joinedAt && i <= j))
  }

  lemma HeirIsLongestSeated(ms: seq<Member>)
    requires ms != []
    ensures exists i :: IsHeir(ms, i) && Heir(ms) == ms[i]
  {
    OutranksIsAnOrder();
    var i := SortHead(ms, Outranks);
    forall j | 0 <= j < |ms| ensures !Outranks(ms[j], ms[i]) && (j < i ==> Outranks(ms[i], ms[j])) {
    }
    assert IsHeir(ms, i);
  }

  /**
   * A lobby that outlives a command keeps its host, unless the command took that host out; then the
   * heir among those left inherits.
   */
  lemma HostSuccession(r: Registry, a: AccountId, c: Command, now: Millis, id: LobbyId)
    requires Inv(r) && id in r.lobbies && id in Apply(r, a, c, now).reg.lobbies
    ensures Succeeds(r.lobbies[id], Apply(r, a, c, now).reg.lobbies[id])
    ensures !Holds(Apply(r, a, c, now).reg.lobbies[id].members, r.lobbies[id].host) ==>
      (c.Leave? || c.Disconnect?) && a == r.lobbies[id].host
  {
    assert EntryOk(r, id);
    Registered(r, a);
    var l, l' := r.lobbies[id], Apply(r, a, c, now).reg.lobbies[id];
    if IsRemoval(c) {
      if l' != l {
        assert EntryOk(r, r.membership[a]);
        RemovalSuccession(r, l, if c.Kick? then c.target else a);
      }
    } else {
      RosterOnlyGrows(r, a, c, now, id);
    }
  }

  predicate IsRemoval(c: Command) {
    c.Kick? || c.Leave? || c.Disconnect?
  }

  /** Short of a removal, a lobby keeps its host and everyone listed in it. */
  lemma RosterOnlyGrows(r: Registry, a: AccountId, c: Command, now: Millis, id: LobbyId)
    requires Inv(r) && id in r.lobbies && !IsRemoval(c)
    ensures id in Apply(r, a, c, now).reg.lobbies
    ensures var l, l' := r.lobbies[id], Apply(r, a, c, now).reg.lobbies[id];
      l'.host == l.host && Holds(l'.members, l.host)
  {
    assert EntryOk(r, id);
    forall k | k in r.lobbies ensures r.lobbies[k].id == k && k < r.nextId {
      assert EntryOk(r, k);
    }
    Extended(r, a, c, now, id);
    var l, l' := r.lobbies[id], Apply(r, a, c, now).reg.lobbies[id];
    var i :| 0 <= i < |l.members| && l.members[i].account == l.host;
    assert l'.members[i].account == l.host;
  }

  ghost predicate KeepsPlaces(l: Lobby, l': Lobby) {
    && l'.id == l.id && l'.code == l.code && l'.createdAt == l.createdAt
    && l'.host == l.host && |l.members| <= |l'.members|
    && forall i :: 0 <= i < |l.members| ==> l'.members[i].account == l.members[i].account
  }

  lemma Extended(r: Registry, a: AccountId, c: Command, now: Millis, id: LobbyId)
    requires forall k :: k in r.lobbies ==> r.lobbies[k].id == k && k < r.nextId
    requires id in r.lobbies && !IsRemoval(c)
    ensures id in Apply(r, a, c, now).reg.lobbies
    ensures KeepsPlaces(r.lobbies[id], Apply(r, a, c, now).reg.lobbies[id])
    ensures !c.Modify? ==> Apply(r, a, c, now).reg.lobbies[id].settings == r.lobbies[id].settings
  {
    match c {
      case Create(_, _, _) =>
      case JoinByCode(username, code) => if code in r.byCode { ExtendedByJoin(r, a, username, r.byCode[code], now, id); }
      case JoinById(username, target) => ExtendedByJoin(r, a, username, target, now, id);
      case SetPosition(_) => ExtendedByEdit(r, a, c, now, id);
      case SelectFleet(_) => ExtendedByEdit(r, a, c, now, id);
      case SetReady(_) => ExtendedByEdit(r, a, c, now, id);
      case Start =>
      case ResyncFleet(_, _) => ExtendedByEdit(r, a, c, now, id);
      case Modify(_) => ExtendedByModify(r, a, c.patch, id);
    }
  }

  lemma ExtendedByJoin(r: Registry, a: AccountId, username: string, target: LobbyId, now: Millis, id: LobbyId)
    requires id in r.lobbies
    ensures id in JoinStep(r, a, username, target, now).reg.lobbies
    ensures KeepsPlaces(r.lobbies[id], JoinStep(r, a, username, target, now).reg.lobbies[id])
    ensures JoinStep(r, a, username, target, now).reg.lobbies[id].settings == r.lobbies[id].settings
  {
  }

  /** The fleet stays, or its owner chose another, or re-read it, or the host cut the budget below it. */
  predicate RightfulFleet(a: AccountId, c: Command, budget: int, m: Member, m': Member) {
    || m'.fleet == m.fleet
    || (a == m.account && c == SelectFleet(m'.fleet))
    || (a == m.account && c.ResyncFleet? && m.fleet.Some? && m.fleet.value.id == c.fleetId
        && (m'.fleet == c.saved || m'.fleet.None?))
    || (c.Modify? && m'.fleet.None? && m.fleet.Some? && m.fleet.value.points > budget)
  }

  /** `m'` is `m` after a command of `a`, with nothing changed that `a` had no right to change. */
  predicate Rightful(a: AccountId, c: Command, budget: int, m: Member, m': Member) {
    && m'.account == m.account && m'.username == m.username && m'.joinedAt == m.joinedAt
    && (m'.position == m.position || (a == m.account && c == SetPosition(m'.position)))
    && RightfulFleet(a, c, budget, m, m')
    && (m'.ready ==> (m.ready && m'.fleet == m.fleet) || (a == m.account && c == SetReady(true)))
    && (m.ready && !m'.ready ==> a == m.account || m'.fleet != m.fleet)
  }

  /** A member's own edit changes nothing, or replaces its entry by a rightful successor. */
  lemma EditReseats(r: Registry, l: Lobby, a: AccountId, c: Command, now: Millis) returns (i: int, m': Member)
    requires RequireLobby(r, a) == Some(l) && Find(l.members, a) >= 0
    requires c.SetPosition? || c.SelectFleet? || c.SetReady? || c.ResyncFleet?
    ensures 0 <= i < |l.members| && Rightful(a, c, l.settings.fleetPoints, l.members[i], m')
    ensures Apply(r, a, c, now).reg == r || Apply(r, a, c, now).reg == Reseat(r, l, i, m').reg
  {
    i := Find(l.members, a);
    var m := l.members[i];
    m' := m;
    match c {
      case SetPosition(p) => m' := m.(position := p, ready := m.ready && p != Spectator);
      case SelectFleet(fleet) => m' := m.(fleet := fleet, ready := false);
      case SetReady(ready) => m' := if ready && (m.position == Spectator || m.fleet.None?) then m else m.(ready := ready);
      case ResyncFleet(saved, fleetId) =>
        if m.fleet.Some? && m.fleet.value.id == fleetId {
          var kept := saved.Some? && saved.value.points <= l.settings.fleetPoints;
          m' := m.(fleet := if kept then saved else None, ready := false);
        }
    }
  }

  lemma ExtendedByEdit(r: Registry, a: AccountId, c: Command, now: Millis, id: LobbyId)
    requires forall k :: k in r.lobbies ==> r.lobbies[k].id == k
    requires id in r.lobbies && (c.SetPosition? || c.SelectFleet? || c.SetReady? || c.ResyncFleet?)
    ensures id in Apply(r, a, c, now).reg.lobbies
    ensures KeepsPlaces(r.lobbies[id], Apply(r, a, c, now).reg.lobbies[id])
    ensures Apply(r, a, c, now).reg.lobbies[id].settings == r.lobbies[id].settings
  {
    var found := RequireLobby(r, a);
    if found.Some? && Find(found.value.members, a) >= 0 {
      var i, m' := EditReseats(r, found.value, a, c, now);
      assert r.lobbies[r.membership[a]].id == r.membership[a];
    }
  }

  lemma ExtendedByModify(r: Registry, a: AccountId, p: Patch, id: LobbyId)
    requires forall k :: k in r.lobbies ==> r.lobbies[k].id == k
    requires id in r.lobbies
    ensures id in ModifyStep(r, a, p).reg.lobbies
    ensures KeepsPlaces(r.lobbies[id], ModifyStep(r, a, p).reg.lobbies[id])
  {
    if a in r.membership && r.membership[a] in r.lobbies {
      assert r.lobbies[r.membership[a]].id == r.membership[a];
    }
  }

  ghost predicate Succeeds(l: Lobby, l': Lobby) {
    if Holds(l'.members, l.host) then l'.host == l.host
    else exists i :: IsHeir(l'.members, i) && l'.host == l'.members[i].account
  }

  lemma RemovalSuccession(r: Registry, l: Lobby, gone: AccountId)
    requires LobbyOk(l) && Holds(l.members, gone)
    requires Without(l.members, gone) != []
    ensures Succeeds(l, RemoveStep(r, l, gone).reg.lobbies[l.id])
    ensures Holds(Without(l.members, gone), l.host) <==> gone != l.host
  {
    RemainingMembers(l, gone);
    HeirIsLongestSeated(Without(l.members, gone));
  }

  // ── Seating a joiner ──────────────────────────────────────────────────────────────

  function Imbalance(l: Lobby): int {
    var d := PositionCount(l.members, Team1) - PositionCount(l.members, Team2);
    if d < 0 then -d else d
  }

  /**
   * A joiner spectates only when both teams are full, lands on a team no larger than the other, and
   * leaves the teams no further apart than they were, or one apart. The third test the service makes
   * never decides anything.
   */
  lemma JoinSelfBalances(l: Lobby, m: Member)
    requires FirstOpenPosition(l) == Some(m.position)
    ensures var perTeam := TeamCapacity(l.settings.maxPlayers);
      && (m.position == Spectator <==>
            PositionCount(l.members, Team1) >= perTeam && PositionCount(l.members, Team2) >= perTeam)
      && (m.position == Team1 ==> PositionCount(l.members, Team1) <= PositionCount(l.members, Team2))
      && (m.position == Team2 ==> PositionCount(l.members, Team2) <= PositionCount(l.members, Team1))
    ensures Imbalance(l.(members := l.members + [m])) <= Max(1, Imbalance(l))
  {
    CountAppend(l.members, [m], Team1);
    CountAppend(l.members, [m], Team2);
    CountOne(m, Team1);
    CountOne(m, Team2);
  }

  /** In the third branch the first two have already settled that team 1 is full. */
  lemma ThirdTestIsDead(l: Lobby)
    requires var perTeam := TeamCapacity(l.settings.maxPlayers);
      && !(PositionCount(l.members, Team1) <= PositionCount(l.members, Team2)
           && PositionCount(l.members, Team1) < perTeam)
      && !(PositionCount(l.members, Team2) < perTeam)
    ensures PositionCount(l.members, Team1) >= TeamCapacity(l.settings.maxPlayers)
  {
  }

  /** A lobby turns a joiner away exactly when every seat it has is taken. */
  lemma FullExactlyWhenNoSeatIsFree(r: Registry, a: AccountId, username: string, id: LobbyId, now: Millis)
    requires Inv(r) && a !in r.membership && id in r.lobbies
    ensures JoinStep(r, a, username, id, now).out == Rejected(LobbyFull)
      <==> |r.lobbies[id].members| == r.lobbies[id].settings.maxPlayers + SPECTATOR_CAP
  {
    assert EntryOk(r, id);
    PlayersAreTheTeams(r.lobbies[id].members);
  }

  // ── What one call undoes, and what it does not touch ──────────────────────────────

  /** Leaving straight after joining puts the whole registry back as it was. */
  lemma LeaveUndoesJoin(r: Registry, a: AccountId, username: string, id: LobbyId, now: Millis)
    requires Inv(r) && JoinStep(r, a, username, id, now).out.Settled?
    ensures LeaveStep(JoinStep(r, a, username, id, now).reg, a).reg == r
  {
    assert EntryOk(r, id);
    var l := r.lobbies[id];
    var joined := JoinStep(r, a, username, id, now).reg;
    var l' := joined.lobbies[id];
    assert !Holds(l.members, a);
    WithoutAt(l'.members, |l.members|, a);
    assert l'.members[..|l.members|] + l'.members[|l.members| + 1..] == l.members;
    var left := LeaveStep(joined, a).reg;
    assert left.lobbies[id] == l;
    assert left.lobbies == r.lobbies;
    assert left.membership == r.membership;
  }

  /** No command reaches past its caller's lobby: every other lobby is exactly as it was. */
  lemma OtherLobbiesUntouched(r: Registry, a: AccountId, c: Command, now: Millis, id: LobbyId)
    requires Inv(r) && id in r.lobbies
    requires a !in r.membership || r.membership[a] != id
    requires c.JoinByCode? ==> c.code != r.lobbies[id].code
    requires c.JoinById? ==> c.id != id
    ensures id in Apply(r, a, c, now).reg.lobbies
    ensures Apply(r, a, c, now).reg.lobbies[id] == r.lobbies[id]
  {
    assert EntryOk(r, id);
    Registered(r, a);
    match c
    case Create(_, _, _) =>
    case JoinByCode(username, code) =>
      if code in r.byCode {
        assert CodeOk(r, code);
        JoinTouchesOnlyItsTarget(r, a, username, r.byCode[code], now, id);
      }
    case JoinById(username, target) => JoinTouchesOnlyItsTarget(r, a, username, target, now, id);
    case _ => OwnLobbyIsAllThatChanges(r, a, c, now, id);
  }

  lemma JoinTouchesOnlyItsTarget(r: Registry, a: AccountId, username: string, target: LobbyId, now: Millis, id: LobbyId)
    requires Inv(r) && id in r.lobbies && target != id
    ensures var r' := JoinStep(r, a, username, target, now).reg; id in r'.lobbies && r'.lobbies[id] == r.lobbies[id]
  {
    if target in r.lobbies {
      assert EntryOk(r, target);
    }
  }

  lemma OwnLobbyIsAllThatChanges(r: Registry, a: AccountId, c: Command, now: Millis, id: LobbyId)
    requires id in r.lobbies && (a !in r.membership || r.membership[a] != id)
    requires a in r.membership && r.membership[a] in r.lobbies ==> r.lobbies[r.membership[a]].id == r.membership[a]
    requires !c.Create? && !c.JoinByCode? && !c.JoinById?
    ensures var r' := Apply(r, a, c, now).reg; id in r'.lobbies && r'.lobbies[id] == r.lobbies[id]
  {
  }
}
