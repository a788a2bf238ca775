/**
 * The lobby vocabulary shared by the service and the handler
 * (packages/shared/src/lobby/settings.ts, packages/shared/src/lobby/state.ts).
 *
 * Account, lobby and fleet ids and join codes are only ever compared, so integers stand for them.
 */
module LobbyTypes {
  import opened Options

  type AccountId = int
  type LobbyId = int
  type JoinCode = int
  type FleetId = int
  type Millis = int

  datatype Position = Team1 | Team2 | Spectator
  datatype GameMode = ObjectiveCapture | Deathmatch
  datatype Visibility = Public | Unlisted
  datatype MapType = EmptyMap | SparseMap | DenseMap
  datatype MapSize = Small | Medium | Large

  const MAX_PLAYERS_MIN := 2
  const MAX_PLAYERS_MAX := 16
  const MAX_PLAYERS_DEFAULT := 6
  const FLEET_POINTS_MIN := 200
  const FLEET_POINTS_MAX := 1500
  const FLEET_POINTS_DEFAULT := 500
  const SPECTATOR_CAP := 16
  const LOBBY_NAME_MIN_LENGTH := 3
  const LOBBY_NAME_MAX_LENGTH := 32
  const CREATE_COOLDOWN_MS := 10_000
  const MINT_ATTEMPTS := 100

  datatype Fleet = Fleet(id: FleetId, name: string, boatCount: int, points: int)

  datatype Member = Member(
    account: AccountId,
    username: string,
    position: Position,
    joinedAt: Millis,
    fleet: Option<Fleet>,
    ready: bool)

  datatype Settings = Settings(
    name: string,
    maxPlayers: int,
    mode: GameMode,
    fleetPoints: int,
    visibility: Visibility,
    mapType: MapType,
    mapSize: MapSize,
    debugMode: bool)

  /** A settings change. The two numbers come off the wire and need not be whole. */
  datatype Patch = Patch(
    name: Option<string>,
    maxPlayers: Option<real>,
    mode: Option<GameMode>,
    fleetPoints: Option<real>,
    visibility: Option<Visibility>,
    mapType: Option<MapType>,
    mapSize: Option<MapSize>,
    debugMode: Option<bool>)

  datatype Lobby = Lobby(
    id: LobbyId,
    code: JoinCode,
    host: AccountId,
    settings: Settings,
    members: seq<Member>,
    createdAt: Millis)

  /** What a member of a lobby is shown of another member: never the fleet, only that there is one. */
  datatype PublicMember = PublicMember(
    account: AccountId,
    username: string,
    position: Position,
    joinedAt: Millis,
    hasFleet: bool,
    ready: bool)

  datatype LobbyState = LobbyState(
    id: LobbyId,
    code: JoinCode,
    host: AccountId,
    settings: Settings,
    members: seq<PublicMember>,
    createdAt: Millis)

  datatype RosterEntry = RosterEntry(
    account: AccountId,
    username: string,
    position: Position,
    fleetId: Option<FleetId>)

  datatype ErrorCode =
    | AlreadyInLobby
    | RateLimited
    | ValidationFailed
    | NotFound
    | LobbyFull
    | NotInLobby
    | TeamFull
    | SpectatorsFull
    | FleetOverBudget
    | SpectatorCannotReady
    | NoFleetSelected
    | NotHost
    | NotAllReady
    | CannotKickHost
    | BelowCurrentOccupancy
    | BadRequest

  /** How a service command ended. */
  datatype Outcome =
    | Rejected(code: ErrorCode)
    | Settled(state: LobbyState)
    | Departed(remaining: Option<LobbyState>, gone: AccountId)
    | Unchanged
    | Thrown

  function TeamCapacity(maxPlayers: int): int {
    maxPlayers / 2
  }

  predicate ValidName(name: string) {
    && LOBBY_NAME_MIN_LENGTH <= |name| <= LOBBY_NAME_MAX_LENGTH
    && forall i :: 0 <= i < |name| ==> NameChar(name[i])
  }

  predicate NameChar(c: char) {
    'A' <= c <= 'Z' || 'a' <= c <= 'z' || '0' <= c <= '9' || c in " '-_.!?"
  }

  predicate IsWhole(x: real) {
    x == x.Floor as real
  }

  predicate ValidMaxPlayers(x: real) {
    IsWhole(x) && MAX_PLAYERS_MIN <= x.Floor <= MAX_PLAYERS_MAX && x.Floor % 2 == 0
  }

  predicate ValidFleetPoints(x: real) {
    IsWhole(x) && FLEET_POINTS_MIN <= x.Floor <= FLEET_POINTS_MAX
  }

  // ── Seating queries ───────────────────────────────────────────────────────────────

  function PositionCount(ms: seq<Member>, p: Position): nat {
    if ms == [] then 0 else (if ms[0].position == p then 1 else 0) + PositionCount(ms[1..], p)
  }

  function PlayerCount(ms: seq<Member>): nat {
    if ms == [] then 0 else (if ms[0].position != Spectator then 1 else 0) + PlayerCount(ms[1..])
  }

  predicate EveryoneReady(ms: seq<Member>) {
    && PlayerCount(ms) > 0
    && forall i :: 0 <= i < |ms| && ms[i].position != Spectator ==> ms[i].ready
  }

  // ── Copies handed to callers ──────────────────────────────────────────────────────

  function PublicView(m: Member): PublicMember {
    PublicMember(m.account, m.username, m.position, m.joinedAt, m.fleet.Some?, m.ready)
  }

  function Snapshot(l: Lobby): LobbyState {
    LobbyState(l.id, l.code, l.host, l.settings,
               seq(|l.members|, i requires 0 <= i < |l.members| => PublicView(l.members[i])), l.createdAt)
  }

  function RosterOf(ms: seq<Member>): seq<RosterEntry> {
    seq(|ms|, i requires 0 <= i < |ms| =>
      RosterEntry(ms[i].account, ms[i].username, ms[i].position,
                  if ms[i].fleet.Some? then Some(ms[i].fleet.value.id) else None))
  }
}
