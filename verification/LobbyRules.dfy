/**
 * The lobby registry as a state machine over values: what each command of `LobbyService`
 * (packages/server/src/lobby/service.ts) does to the three maps, and what it answers.
 *
 * The class in `LobbyServer.dfy` is proved to take exactly these steps; `LobbyInvariants.dfy`
 * proves what every step keeps.
 */
module LobbyRules {
  import opened Options
  import opened LobbyTypes
  import opened StableSort

  /**
   * The registry. `nextId` stands for `randomUUID`: a supply of ids that are never handed out twice.
   */
  datatype Registry = Registry(
    lobbies: map<LobbyId, Lobby>,
    byCode: map<JoinCode, LobbyId>,
    membership: map<AccountId, LobbyId>,
    lastCreatedAt: map<AccountId, Millis>,
    nextId: LobbyId)

  const EMPTY_REGISTRY := Registry(map[], map[], map[], map[], 0)

  datatype Command =
    | Create(username: string, name: string, draws: seq<JoinCode>)
    | JoinByCode(username: string, code: JoinCode)
    | JoinById(username: string, id: LobbyId)
    | SetPosition(position: Position)
    | SelectFleet(fleet: Option<Fleet>)
    | SetReady(ready: bool)
    | Start
    | ResyncFleet(saved: Option<Fleet>, fleetId: FleetId)
    | Leave
    | Kick(target: AccountId)
    | Modify(patch: Patch)
    | Disconnect

  datatype Step = Step(reg: Registry, out: Outcome)

  // ── Looking members up ────────────────────────────────────────────────────────────

  /** The index of an account's first entry, or -1. */
  function Find(ms: seq<Member>, a: AccountId): (i: int)
    ensures -1 <= i < |ms|
    ensures 0 <= i ==> ms[i].account == a
    ensures forall j :: 0 <= j < (if i < 0 then |ms| else i) ==> ms[j].account != a
  {
    if ms == [] then -1
    else if ms[0].account == a then 0
    else var i := Find(ms[1..], a); if i < 0 then -1 else i + 1
  }

  function Without(ms: seq<Member>, a: AccountId): seq<Member> {
    if ms == [] then []
    else if ms[0].account == a then Without(ms[1..], a)
    else [ms[0]] + Without(ms[1..], a)
  }

  function RequireLobby(r: Registry, a: AccountId): Option<Lobby> {
    if a in r.membership && r.membership[a] in r.lobbies
    then Some(r.lobbies[r.membership[a]]) else None
  }

  function LobbyFor(r: Registry, a: AccountId): Option<LobbyState> {
    var l := RequireLobby(r, a);
    if l.Some? then Some(Snapshot(l.value)) else None
  }

  /** The fleet an account has chosen, which only its owner is shown. */
  function ViewFor(r: Registry, a: AccountId): Option<Fleet> {
    var l := RequireLobby(r, a);
    if l.None? then None
    else var i := Find(l.value.members, a); if i < 0 then None else l.value.members[i].fleet
  }

  // ── Seats ─────────────────────────────────────────────────────────────────────────

  /** Where a joiner lands, or nowhere. The branches are in the service's own order. */
  function FirstOpenPosition(l: Lobby): Option<Position> {
    var perTeam := TeamCapacity(l.settings.maxPlayers);
    var team1 := PositionCount(l.members, Team1);
    var team2 := PositionCount(l.members, Team2);
    if team1 <= team2 && team1 < perTeam then Some(Team1)
    else if team2 < perTeam then Some(Team2)
    else if team1 < perTeam then Some(Team1)
    else if PositionCount(l.members, Spectator) < SPECTATOR_CAP then Some(Spectator)
    else None
  }

  /** Why `p` has no room for `a`, if it has none. */
  function CapacityFor(l: Lobby, p: Position, a: AccountId): Option<ErrorCode> {
    var others := Without(l.members, a);
    if p == Spectator then
      if PositionCount(others, Spectator) >= SPECTATOR_CAP then Some(SpectatorsFull) else None
    else if PositionCount(others, p) >= TeamCapacity(l.settings.maxPlayers) then Some(TeamFull)
    else None
  }

  /** Host succession: players before spectators, then whoever has been here longest. */
  predicate Outranks(x: Member, y: Member) {
    var xSpec := x.position == Spectator;
    var ySpec := y.position == Spectator;
    if xSpec != ySpec then ySpec else x.joinedAt < y.joinedAt
  }

  function Heir(ms: seq<Member>): Member
    requires ms != []
  {
    SortKeepsLength(ms, Outranks);
    Sort(ms, Outranks)[0]
  }

  /** The first of the generator's draws that no live lobby holds, within the attempt limit. */
  function Mint(draws: seq<JoinCode>, taken: set<JoinCode>, attempts: nat): Option<JoinCode>
  {
    if attempts == 0 || draws == [] then None
    else if draws[0] !in taken then Some(draws[0])
    else Mint(draws[1..], taken, attempts - 1)
  }

  // ── Commands ──────────────────────────────────────────────────────────────────────

  function Put(r: Registry, l: Lobby): Registry {
    r.(lobbies := r.lobbies[l.id := l])
  }

  function DefaultSettings(name: string): Settings {
    Settings(name, MAX_PLAYERS_DEFAULT, ObjectiveCapture, FLEET_POINTS_DEFAULT, Public, DenseMap, Medium, false)
  }

  function CreateStep(r: Registry, a: AccountId, username: string, name: string,
                      draws: seq<JoinCode>, now: Millis): Step
  {
    if a in r.membership then Step(r, Rejected(AlreadyInLobby))
    else if a in r.lastCreatedAt && now - r.lastCreatedAt[a] < CREATE_COOLDOWN_MS then Step(r, Rejected(RateLimited))
    else if !ValidName(name) then Step(r, Rejected(ValidationFailed))
    else
      var code := Mint(draws, r.byCode.Keys, MINT_ATTEMPTS);
      if code.None? then Step(r, Thrown)
      else
        var l := Lobby(r.nextId, code.value, a, DefaultSettings(name),
                       [Member(a, username, Team1, now, None, false)], now);
        Step(Registry(r.lobbies[l.id := l], r.byCode[l.code := l.id], r.membership[a := l.id],
                      r.lastCreatedAt[a := now], r.nextId + 1),
             Settled(Snapshot(l)))
  }

  function JoinStep(r: Registry, a: AccountId, username: string, id: LobbyId, now: Millis): Step {
    if a in r.membership then Step(r, Rejected(AlreadyInLobby))
    else if id !in r.lobbies then Step(r, Rejected(NotFound))
    else
      var p := FirstOpenPosition(r.lobbies[id]);
      if p.None? then Step(r, Rejected(LobbyFull))
      else
        var l := r.lobbies[id];
        var l' := l.(members := l.members + [Member(a, username, p.value, now, None, false)]);
        Step(r.(lobbies := r.lobbies[id := l'], membership := r.membership[a := id]), Settled(Snapshot(l')))
  }

  function JoinByCodeStep(r: Registry, a: AccountId, username: string, code: JoinCode, now: Millis): Step {
    if code !in r.byCode then Step(r, Rejected(NotFound))
    else JoinStep(r, a, username, r.byCode[code], now)
  }

  function JoinByIdStep(r: Registry, a: AccountId, username: string, id: LobbyId, now: Millis): Step {
    if id !in r.lobbies || r.lobbies[id].settings.visibility != Public then Step(r, Rejected(NotFound))
    else JoinStep(r, a, username, id, now)
  }

  /** Replace one member's entry and answer with the new lobby. */
  function Reseat(r: Registry, l: Lobby, i: int, m: Member): Step
    requires 0 <= i < |l.members|
  {
    var l' := l.(members := l.members[i := m]);
    Step(Put(r, l'), Settled(Snapshot(l')))
  }

  function SetPositionStep(r: Registry, a: AccountId, p: Position): Step {
    var found := RequireLobby(r, a);
    if found.None? then Step(r, Rejected(NotInLobby))
    else
      var l := found.value;
      var i := Find(l.members, a);
      if i < 0 then Step(r, Rejected(NotInLobby))
      else if l.members[i].position == p then Step(r, Settled(Snapshot(l)))
      else
        var refusal := CapacityFor(l, p, a);
        if refusal.Some? then Step(r, Rejected(refusal.value))
        else
          var m := l.members[i];
          Reseat(r, l, i, m.(position := p, ready := m.ready && p != Spectator))
  }

  function SelectFleetStep(r: Registry, a: AccountId, fleet: Option<Fleet>): Step {
    var found := RequireLobby(r, a);
    if found.None? then Step(r, Rejected(NotInLobby))
    else
      var l := found.value;
      var i := Find(l.members, a);
      if i < 0 then Step(r, Rejected(NotInLobby))
      else if fleet.Some? && fleet.value.points > l.settings.fleetPoints then Step(r, Rejected(FleetOverBudget))
      else Reseat(r, l, i, l.members[i].(fleet := fleet, ready := false))
  }

  function SetReadyStep(r: Registry, a: AccountId, ready: bool): Step {
    var found := RequireLobby(r, a);
    if found.None? then Step(r, Rejected(NotInLobby))
    else
      var l := found.value;
      var i := Find(l.members, a);
      if i < 0 then Step(r, Rejected(NotInLobby))
      else if ready && l.members[i].position == Spectator then Step(r, Rejected(SpectatorCannotReady))
      else if ready && l.members[i].fleet.None? then Step(r, Rejected(NoFleetSelected))
      else Reseat(r, l, i, l.members[i].(ready := ready))
  }

  function StartStep(r: Registry, a: AccountId): Step {
    var found := RequireLobby(r, a);
    if found.None? then Step(r, Rejected(NotInLobby))
    else if found.value.host != a then Step(r, Rejected(NotHost))
    else if PlayerCount(found.value.members) == 0 then Step(r, Rejected(NotAllReady))
    else if !EveryoneReady(found.value.members) then Step(r, Rejected(NotAllReady))
    else Step(r, Settled(Snapshot(found.value)))
  }

  function ResyncFleetStep(r: Registry, a: AccountId, saved: Option<Fleet>, fleetId: FleetId): Step {
    var found := RequireLobby(r, a);
    if found.None? then Step(r, Unchanged)
    else
      var l := found.value;
      var i := Find(l.members, a);
      if i < 0 || l.members[i].fleet.None? || l.members[i].fleet.value.id != fleetId then Step(r, Unchanged)
      else if saved.None? || saved.value.points > l.settings.fleetPoints then
        Reseat(r, l, i, l.members[i].(fleet := None, ready := false))
      else if saved == l.members[i].fleet then Step(r, Unchanged)
      else Reseat(r, l, i, l.members[i].(fleet := saved, ready := false))
  }

  /** Take an account out of a lobby: close an empty lobby, hand on an orphaned one. */
  function RemoveStep(r: Registry, l: Lobby, a: AccountId): Step {
    var ms := Without(l.members, a);
    var r' := r.(membership := r.membership - {a});
    if ms == [] then
      Step(r'.(lobbies := r.lobbies - {l.id}, byCode := r.byCode - {l.code}), Departed(None, a))
    else
      var l' := l.(members := ms, host := if l.host == a then Heir(ms).account else l.host);
      Step(Put(r', l'), Departed(Some(Snapshot(l')), a))
  }

  function LeaveStep(r: Registry, a: AccountId): Step {
    var found := RequireLobby(r, a);
    if found.None? then Step(r, Rejected(NotInLobby)) else RemoveStep(r, found.value, a)
  }

  function KickStep(r: Registry, a: AccountId, target: AccountId): Step {
    var found := RequireLobby(r, a);
    if found.None? then Step(r, Rejected(NotInLobby))
    else if found.value.host != a then Step(r, Rejected(NotHost))
    else if target == a then Step(r, Rejected(CannotKickHost))
    else if Find(found.value.members, target) < 0 then Step(r, Rejected(NotFound))
    else RemoveStep(r, found.value, target)
  }

  datatype SettingsResult = NewSettings(settings: Settings) | BadSettings(code: ErrorCode)

  /** The patched settings, or the first objection in the service's order of checking. */
  function PatchedSettings(l: Lobby, p: Patch): SettingsResult {
    if p.name.Some? && !ValidName(p.name.value) then BadSettings(ValidationFailed)
    else if p.maxPlayers.Some? && !ValidMaxPlayers(p.maxPlayers.value) then BadSettings(ValidationFailed)
    else if p.maxPlayers.Some? && p.maxPlayers.value.Floor < PlayerCount(l.members) then
      BadSettings(BelowCurrentOccupancy)
    else if p.maxPlayers.Some?
            && (PositionCount(l.members, Team1) > TeamCapacity(p.maxPlayers.value.Floor)
                || PositionCount(l.members, Team2) > TeamCapacity(p.maxPlayers.value.Floor)) then
      BadSettings(BelowCurrentOccupancy)
    else if p.fleetPoints.Some? && !ValidFleetPoints(p.fleetPoints.value) then BadSettings(ValidationFailed)
    else
      var s := l.settings;
      NewSettings(Settings(
        p.name.GetOr(s.name),
        if p.maxPlayers.Some? then p.maxPlayers.value.Floor else s.maxPlayers,
        p.mode.GetOr(s.mode),
        if p.fleetPoints.Some? then p.fleetPoints.value.Floor else s.fleetPoints,
        p.visibility.GetOr(s.visibility),
        p.mapType.GetOr(s.mapType),
        p.mapSize.GetOr(s.mapSize),
        p.debugMode.GetOr(s.debugMode)))
  }

  /** A member whose fleet the budget still allows is untouched; any other loses fleet and readiness. */
  function Affordable(m: Member, budget: int): Member {
    if m.fleet.Some? && m.fleet.value.points > budget then m.(fleet := None, ready := false) else m
  }

  function DropStranded(ms: seq<Member>, budget: int): seq<Member> {
    seq(|ms|, i requires 0 <= i < |ms| => Affordable(ms[i], budget))
  }

  function ModifyStep(r: Registry, a: AccountId, p: Patch): Step {
    var found := RequireLobby(r, a);
    if found.None? then Step(r, Rejected(NotInLobby))
    else if found.value.host != a then Step(r, Rejected(NotHost))
    else
      var l := found.value;
      match PatchedSettings(l, p)
      case BadSettings(code) => Step(r, Rejected(code))
      case NewSettings(s) =>
        var l' := l.(settings := s, members := DropStranded(l.members, s.fleetPoints));
        Step(Put(r, l'), Settled(Snapshot(l')))
  }

  function DisconnectStep(r: Registry, a: AccountId): Step {
    var found := RequireLobby(r, a);
    if found.None? then Step(r, Unchanged) else RemoveStep(r, found.value, a)
  }

  /** One command of one account, at one reading of the clock. */
  function Apply(r: Registry, a: AccountId, c: Command, now: Millis): Step {
    match c
    case Create(username, name, draws) => CreateStep(r, a, username, name, draws, now)
    case JoinByCode(username, code) => JoinByCodeStep(r, a, username, code, now)
    case JoinById(username, id) => JoinByIdStep(r, a, username, id, now)
    case SetPosition(p) => SetPositionStep(r, a, p)
    case SelectFleet(fleet) => SelectFleetStep(r, a, fleet)
    case SetReady(ready) => SetReadyStep(r, a, ready)
    case Start => StartStep(r, a)
    case ResyncFleet(saved, fleetId) => ResyncFleetStep(r, a, saved, fleetId)
    case Leave => LeaveStep(r, a)
    case Kick(target) => KickStep(r, a, target)
    case Modify(p) => ModifyStep(r, a, p)
    case Disconnect => DisconnectStep(r, a)
  }
}
