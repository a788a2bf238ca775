/**
 * When each command of the lobby service is granted, which refusal it gets when it is not, and what it then
 * changes, told from the registry alone (packages/server/src/lobby/service.ts:244-678).
 */
module LobbyAnswers {
  import opened Options
  import opened LobbyTypes
  import opened LobbyRules
  import opened LobbyInvariants
  import opened LobbyTheorems

  /** The account is in this lobby, and the entry at `i` is its own. */
  predicate SeatedAt(r: Registry, a: AccountId, l: Lobby, i: int) {
    && a in r.membership && r.membership[a] in r.lobbies && r.lobbies[r.membership[a]] == l
    && 0 <= i < |l.members| && l.members[i].account == a
  }

  /** Nothing of the registry has changed but that entry. */
  ghost predicate OnlyEntryChanged(r: Registry, r': Registry, l: Lobby, i: int, m: Member)
    requires 0 <= i < |l.members|
  {
    r' == r.(lobbies := r.lobbies[l.id := l.(members := l.members[i := m])])
  }

  lemma SeatedIsFound(r: Registry, a: AccountId, l: Lobby, i: int)
    requires Inv(r) && SeatedAt(r, a, l, i)
    ensures RequireLobby(r, a) == Some(l) && Find(l.members, a) == i && l.id == r.membership[a]
  {
    Registered(r, a);
    assert EntryOk(r, r.membership[a]);
    var k := Find(l.members, a);
    assert l.members[k].account == l.members[i].account;
    assert !(k < i) && !(i < k);
  }

  // ── Outsiders ─────────────────────────────────────────────────────────────────────

  /** Whoever is in no lobby can only create one or join one. */
  lemma OutsidersAreRefused(r: Registry, a: AccountId, c: Command, now: Millis)
    requires Inv(r) && a !in r.membership && !c.Create? && !c.JoinByCode? && !c.JoinById?
    ensures var s := Apply(r, a, c, now);
      s.reg == r && s.out == if c.ResyncFleet? || c.Disconnect? then Unchanged else Rejected(NotInLobby)
  {
  }

  /** Between 3 and 32 letters, digits, spaces and the marks ' - _ . ! ? */
  predicate PlainName(name: string) {
    3 <= |name| <= 32
    && forall i :: 0 <= i < |name| ==>
         || 'a' <= name[i] <= 'z' || 'A' <= name[i] <= 'Z' || '0' <= name[i] <= '9'
         || name[i] in [' ', '\'', '-', '_', '.', '!', '?']
  }

  lemma ValidIsPlain(name: string)
    ensures ValidName(name) <==> PlainName(name)
  {
    forall c: char ensures c in " '-_.!?" <==> c in [' ', '\'', '-', '_', '.', '!', '?'] {
    }
  }

  predicate TooSoon(r: Registry, a: AccountId, now: Millis) {
    a in r.lastCreatedAt && now < r.lastCreatedAt[a] + 10_000
  }

  /** None of the first hundred draws is free. */
  predicate NoneFree(r: Registry, draws: seq<JoinCode>) {
    forall i :: 0 <= i < |draws| && i < 100 ==> draws[i] in r.byCode
  }

  lemma {:induction false} MintsUnlessNoneFree(draws: seq<JoinCode>, taken: set<JoinCode>, attempts: nat)
    ensures var code := Mint(draws, taken, attempts);
      && (code == None <==> forall i :: 0 <= i < |draws| && i < attempts ==> draws[i] in taken)
      && (code.Some? ==> code.value in draws && code.value !in taken)
  {
    if attempts > 0 && draws != [] && draws[0] in taken {
      MintsUnlessNoneFree(draws[1..], taken, attempts - 1);
      assert forall i :: 0 <= i < |draws| - 1 ==> draws[1..][i] == draws[i + 1];
      if forall i :: 0 <= i < |draws[1..]| && i < attempts - 1 ==> draws[1..][i] in taken {
        forall i | 0 <= i < |draws| && i < attempts ensures draws[i] in taken {
          assert i > 0 ==> draws[1..][i - 1] == draws[i];
        }
      }
    }
  }

  /** A lobby opens for someone in none, not too soon after its last, under a plain name, if a code is free. */
  lemma CreateIsAnswered(r: Registry, a: AccountId, username: string, name: string, draws: seq<JoinCode>, now: Millis)
    requires Inv(r)
    ensures var out := Apply(r, a, Create(username, name, draws), now).out;
      && (out == Rejected(AlreadyInLobby) <==> a in r.membership)
      && (out == Rejected(RateLimited) <==> a !in r.membership && TooSoon(r, a, now))
      && (out == Rejected(ValidationFailed) <==> a !in r.membership && !TooSoon(r, a, now) && !PlainName(name))
      && (out == Thrown <==> a !in r.membership && !TooSoon(r, a, now) && PlainName(name) && NoneFree(r, draws))
      && (out.Settled? <==> a !in r.membership && !TooSoon(r, a, now) && PlainName(name) && !NoneFree(r, draws))
  {
    ValidIsPlain(name);
    MintsUnlessNoneFree(draws, r.byCode.Keys, MINT_ATTEMPTS);
  }

  /** And then it is a fresh public lobby with its opener in it as host, and nothing else has changed. */
  lemma CreatedAsAsked(r: Registry, a: AccountId, username: string, name: string, draws: seq<JoinCode>, now: Millis)
    requires Inv(r) && Apply(r, a, Create(username, name, draws), now).out.Settled?
    ensures var r' := Apply(r, a, Create(username, name, draws), now).reg;
      && a in r'.membership && r'.membership[a] in r'.lobbies && r'.membership[a] !in r.lobbies
      && var id := r'.membership[a];
      && var l := r'.lobbies[id];
      && l.id == id && l.host == a && l.createdAt == now && l.code in draws && l.code !in r.byCode
      && l.settings == Settings(name, 6, ObjectiveCapture, 500, Public, DenseMap, Medium, false)
      && l.members == [Member(a, username, Team1, now, None, false)]
      && r'.lobbies == r.lobbies[id := l] && r'.byCode == r.byCode[l.code := id]
      && r'.membership == r.membership[a := id] && r'.lastCreatedAt == r.lastCreatedAt[a := now]
  {
    MintsUnlessNoneFree(draws, r.byCode.Keys, MINT_ATTEMPTS);
    assert r.nextId in r.lobbies ==> EntryOk(r, r.nextId);
  }

  /** Whoever sits in this position, as a set of places on the roster. */
  function Sitting(ms: seq<Member>, p: Position): set<int> {
    set i | 0 <= i < |ms| && ms[i].position == p
  }

  lemma OneMoreSits(ms: seq<Member>, m: Member, p: Position)
    ensures |Sitting(ms + [m], p)| == |Sitting(ms, p)| + (if m.position == p then 1 else 0)
  {
    var n := |ms|;
    var more := if m.position == p then Sitting(ms, p) + {n} else Sitting(ms, p);
    forall i ensures i in Sitting(ms + [m], p) <==> i in more {
      assert 0 <= i < n ==> (ms + [m])[i] == ms[i];
    }
    assert Sitting(ms + [m], p) == more;
  }

  lemma {:induction false} CountIsOfThoseSitting(ms: seq<Member>, p: Position)
    ensures PositionCount(ms, p) == |Sitting(ms, p)|
  {
    if ms == [] {
      assert Sitting(ms, p) == {};
    } else {
      var front, last := ms[..|ms| - 1], ms[|ms| - 1];
      assert ms == front + [last];
      CountIsOfThoseSitting(front, p);
      CountAppend(front, [last], p);
      CountOne(last, p);
      OneMoreSits(front, last, p);
    }
  }

  // ── Joining ───────────────────────────────────────────────────────────────────────

  /**
   * Where a joiner sits: on the smaller team that is not full, on team 1 if they are level, and among the
   * spectators only when both are full.
   */
  predicate GivesSeat(l: Lobby, p: Position) {
    var one, two := |Sitting(l.members, Team1)|, |Sitting(l.members, Team2)|;
    var full1, full2 := 2 * one >= l.settings.maxPlayers, 2 * two >= l.settings.maxPlayers;
    && (p == Spectator <==> full1 && full2)
    && (p == Team1 <==> !full1 && (one <= two || full2))
  }

  lemma SeatIsGiven(l: Lobby)
    requires l.settings.maxPlayers % 2 == 0 && FirstOpenPosition(l).Some?
    ensures GivesSeat(l, FirstOpenPosition(l).value)
  {
    CountIsOfThoseSitting(l.members, Team1);
    CountIsOfThoseSitting(l.members, Team2);
  }

  /** Added at the end of this lobby's roster, under its name and in the seat there is, with nothing chosen. */
  ghost predicate Added(r: Registry, r': Registry, a: AccountId, username: string, id: LobbyId, now: Millis)
    requires id in r.lobbies
  {
    exists seat ::
      && GivesSeat(r.lobbies[id], seat)
      && r' == r.(lobbies := r.lobbies[id := WithJoiner(r.lobbies[id], Member(a, username, seat, now, None, false))],
                  membership := r.membership[a := id])
  }

  function WithJoiner(l: Lobby, m: Member): Lobby {
    l.(members := l.members + [m])
  }

  lemma JoinTarget(r: Registry, a: AccountId, username: string, id: LobbyId, now: Millis)
    requires Inv(r) && id in r.lobbies
    ensures var l, s := r.lobbies[id], JoinStep(r, a, username, id, now);
      && (s.out == Rejected(AlreadyInLobby) <==> a in r.membership)
      && (s.out == Rejected(LobbyFull) <==> a !in r.membership && |l.members| == l.settings.maxPlayers + 16)
      && (s.out.Settled? <==> a !in r.membership && |l.members| != l.settings.maxPlayers + 16)
      && (s.out.Settled? ==> Added(r, s.reg, a, username, id, now))
  {
    if a !in r.membership {
      FullExactlyWhenNoSeatIsFree(r, a, username, id, now);
      assert EntryOk(r, id);
      if FirstOpenPosition(r.lobbies[id]).Some? {
        SeatIsGiven(r.lobbies[id]);
      }
    }
  }

  /** By code: the lobby that carries it, public or not. */
  lemma JoinByCodeIsAnswered(r: Registry, a: AccountId, username: string, code: JoinCode, now: Millis)
    requires Inv(r)
    ensures var s := Apply(r, a, JoinByCode(username, code), now);
      && (s.out == Rejected(NotFound) <==> code !in r.byCode)
      && (code in r.byCode ==>
            && r.byCode[code] in r.lobbies
            && var id, l := r.byCode[code], r.lobbies[r.byCode[code]];
            && l.code == code
            && (s.out == Rejected(AlreadyInLobby) <==> a in r.membership)
            && (s.out == Rejected(LobbyFull) <==> a !in r.membership && |l.members| == l.settings.maxPlayers + 16)
            && (s.out.Settled? <==> a !in r.membership && |l.members| != l.settings.maxPlayers + 16)
            && (s.out.Settled? ==> Added(r, s.reg, a, username, id, now)))
  {
    if code in r.byCode {
      assert CodeOk(r, code);
      JoinTarget(r, a, username, r.byCode[code], now);
    }
  }

  /** By id: only a public lobby, and an unlisted one is refused as though there were none. */
  lemma JoinByIdIsAnswered(r: Registry, a: AccountId, username: string, id: LobbyId, now: Millis)
    requires Inv(r)
    ensures var s := Apply(r, a, JoinById(username, id), now);
      var listed := id in r.lobbies && r.lobbies[id].settings.visibility == Public;
      && (s.out == Rejected(NotFound) <==> !listed)
      && (listed ==>
            var l := r.lobbies[id];
            && (s.out == Rejected(AlreadyInLobby) <==> a in r.membership)
            && (s.out == Rejected(LobbyFull) <==> a !in r.membership && |l.members| == l.settings.maxPlayers + 16)
            && (s.out.Settled? <==> a !in r.membership && |l.members| != l.settings.maxPlayers + 16)
            && (s.out.Settled? ==> Added(r, s.reg, a, username, id, now)))
  {
    if id in r.lobbies {
      JoinTarget(r, a, username, id, now);
    }
  }

  // ── A member's own entry ──────────────────────────────────────────────────────────

  /** A seat is refused exactly when it is another than the member's own and all taken. */
  lemma SetPositionIsAnswered(r: Registry, a: AccountId, l: Lobby, i: int, p: Position, now: Millis)
    requires Inv(r) && SeatedAt(r, a, l, i)
    ensures var s, m, taken := Apply(r, a, SetPosition(p), now), l.members[i], |Sitting(l.members, p)|;
      && (s.out == Rejected(TeamFull) <==> m.position != p && p != Spectator && 2 * taken >= l.settings.maxPlayers)
      && (s.out == Rejected(SpectatorsFull) <==> m.position != p && p == Spectator && taken >= 16)
      && (s.out.Settled? <==>
            m.position == p || (if p == Spectator then taken < 16 else 2 * taken < l.settings.maxPlayers))
      && (s.out.Settled? ==> OnlyEntryChanged(r, s.reg, l, i, m.(position := p, ready := m.ready && p != Spectator)))
      && (!s.out.Settled? ==> s.reg == r)
  {
    SeatedIsFound(r, a, l, i);
    assert EntryOk(r, l.id);
    CountWithout(l.members, a, p);
    CountIsOfThoseSitting(l.members, p);
    assert HonestMember(l.members[i], l.settings.fleetPoints);
    if l.members[i].position == p {
      assert l.members[i := l.members[i].(position := p, ready := l.members[i].ready && p != Spectator)] == l.members;
      assert r.lobbies[l.id := l] == r.lobbies;
    }
  }

  /** A fleet is refused exactly when it is over the budget; taking one takes readiness with it. */
  lemma SelectFleetIsAnswered(r: Registry, a: AccountId, l: Lobby, i: int, fleet: Option<Fleet>, now: Millis)
    requires Inv(r) && SeatedAt(r, a, l, i)
    ensures var s := Apply(r, a, SelectFleet(fleet), now);
      && (s.out == Rejected(FleetOverBudget) <==> fleet.Some? && l.settings.fleetPoints < fleet.value.points)
      && (s.out.Settled? <==> fleet == None || fleet.value.points <= l.settings.fleetPoints)
      && (s.out.Settled? ==> OnlyEntryChanged(r, s.reg, l, i, l.members[i].(fleet := fleet, ready := false)))
      && (!s.out.Settled? ==> s.reg == r)
  {
    SeatedIsFound(r, a, l, i);
  }

  /** Readying is refused exactly to a spectator and to someone without a fleet. */
  lemma SetReadyIsAnswered(r: Registry, a: AccountId, l: Lobby, i: int, ready: bool, now: Millis)
    requires Inv(r) && SeatedAt(r, a, l, i)
    ensures var s, m := Apply(r, a, SetReady(ready), now), l.members[i];
      && (s.out == Rejected(SpectatorCannotReady) <==> ready && m.position == Spectator)
      && (s.out == Rejected(NoFleetSelected) <==> ready && m.position != Spectator && m.fleet == None)
      && (s.out.Settled? <==> !ready || (m.position != Spectator && m.fleet != None))
      && (s.out.Settled? ==> OnlyEntryChanged(r, s.reg, l, i, m.(ready := ready)))
      && (!s.out.Settled? ==> s.reg == r)
  {
    SeatedIsFound(r, a, l, i);
  }

  /** A fleet read again that is not the one chosen, or is the one chosen as it was, changes nothing. */
  lemma ResyncIsAnswered(r: Registry, a: AccountId, l: Lobby, i: int, saved: Option<Fleet>, fleetId: FleetId, now: Millis)
    requires Inv(r) && SeatedAt(r, a, l, i)
    ensures var s, m := Apply(r, a, ResyncFleet(saved, fleetId), now), l.members[i];
      var chosen := m.fleet.Some? && m.fleet.value.id == fleetId;
      var kept := if saved.Some? && saved.value.points <= l.settings.fleetPoints then saved else None;
      && (s.out == Unchanged <==> !chosen || m.fleet == saved)
      && (s.out.Settled? <==> chosen && m.fleet != saved)
      && (s.out.Settled? ==> OnlyEntryChanged(r, s.reg, l, i, m.(fleet := kept, ready := false)))
      && (!s.out.Settled? ==> s.reg == r)
  {
    SeatedIsFound(r, a, l, i);
    assert EntryOk(r, l.id);
    assert HonestMember(l.members[i], l.settings.fleetPoints);
  }

  /** A start is refused to all but the host, and to the host while nobody is on a team or someone on one is not ready. */
  lemma StartIsAnswered(r: Registry, a: AccountId, l: Lobby, i: int, now: Millis)
    requires Inv(r) && SeatedAt(r, a, l, i)
    ensures var s := Apply(r, a, Start, now);
      var ready := |Sitting(l.members, Team1)| + |Sitting(l.members, Team2)| > 0
        && forall k :: 0 <= k < |l.members| ==> l.members[k].position == Spectator || l.members[k].ready;
      && (s.out == Rejected(NotHost) <==> l.host != a)
      && (s.out == Rejected(NotAllReady) <==> l.host == a && !ready)
      && (s.out.Settled? <==> l.host == a && ready)
      && s.reg == r
  {
    SeatedIsFound(r, a, l, i);
    CountIsOfThoseSitting(l.members, Team1);
    CountIsOfThoseSitting(l.members, Team2);
    PlayersSit(l.members);
  }

  lemma {:induction false} PlayersSit(ms: seq<Member>)
    ensures PlayerCount(ms) == PositionCount(ms, Team1) + PositionCount(ms, Team2)
  {
    if ms != [] {
      PlayersSit(ms[1..]);
    }
  }

  // ── Settings ──────────────────────────────────────────────────────────────────────

  /** An even number of players from 2 to 16. */
  predicate GoodCap(x: real) {
    x == 2.0 || x == 4.0 || x == 6.0 || x == 8.0 || x == 10.0 || x == 12.0 || x == 14.0 || x == 16.0
  }

  /** A whole number of points from 200 to 1500. */
  predicate GoodBudget(x: real) {
    200.0 <= x <= 1500.0 && x == x.Floor as real
  }

  lemma CapIsGood(x: real)
    ensures ValidMaxPlayers(x) <==> GoodCap(x)
    ensures GoodCap(x) ==> x.Floor as real == x
  {
  }

  lemma BudgetIsGood(x: real)
    ensures ValidFleetPoints(x) <==> GoodBudget(x)
    ensures GoodBudget(x) ==> x.Floor as real == x
  {
  }

  /** Everyone on a team still fits under this cap. */
  ghost predicate Fits(l: Lobby, cap: real) {
    && (|Sitting(l.members, Team1)| + |Sitting(l.members, Team2)|) as real <= cap
    && 2.0 * |Sitting(l.members, Team1)| as real <= cap && 2.0 * |Sitting(l.members, Team2)| as real <= cap
  }

  lemma FitsExactlyUnderTheHalves(l: Lobby, cap: real)
    requires GoodCap(cap)
    ensures Fits(l, cap) <==>
            PlayerCount(l.members) <= cap.Floor && PositionCount(l.members, Team1) <= TeamCapacity(cap.Floor)
            && PositionCount(l.members, Team2) <= TeamCapacity(cap.Floor)
  {
    var half := cap.Floor / 2;
    assert cap == (2 * half) as real && TeamCapacity(cap.Floor) == half;
    CountIsOfThoseSitting(l.members, Team1);
    CountIsOfThoseSitting(l.members, Team2);
    PlayersSit(l.members);
  }

  /** What is asked for is set, and what is not asked for stays. */
  predicate Becomes<T(==)>(wanted: Option<T>, was: T, now: T) {
    now == if wanted.Some? then wanted.value else was
  }

  predicate SetAsAsked(p: Patch, s: Settings, s': Settings) {
    && Becomes(p.name, s.name, s'.name)
    && Becomes(p.maxPlayers, s.maxPlayers as real, s'.maxPlayers as real)
    && Becomes(p.mode, s.mode, s'.mode)
    && Becomes(p.fleetPoints, s.fleetPoints as real, s'.fleetPoints as real)
    && Becomes(p.visibility, s.visibility, s'.visibility)
    && Becomes(p.mapType, s.mapType, s'.mapType)
    && Becomes(p.mapSize, s.mapSize, s'.mapSize)
    && Becomes(p.debugMode, s.debugMode, s'.debugMode)
  }

  /** The members under a new budget: whoever's fleet is over it has neither fleet nor readiness, and the rest are as they were. */
  ghost predicate Struck(ms: seq<Member>, ms': seq<Member>, budget: int) {
    && |ms'| == |ms|
    && forall i :: 0 <= i < |ms| ==>
         ms'[i] == if ms[i].fleet.Some? && budget < ms[i].fleet.value.points
                   then ms[i].(fleet := None, ready := false) else ms[i]
  }

  lemma PatchIsRead(l: Lobby, p: Patch)
    ensures var read := PatchedSettings(l, p);
      var badName := p.name.Some? && !PlainName(p.name.value);
      var badCap := p.maxPlayers.Some? && !GoodCap(p.maxPlayers.value);
      var tight := p.maxPlayers.Some? && !Fits(l, p.maxPlayers.value);
      var badBudget := p.fleetPoints.Some? && !GoodBudget(p.fleetPoints.value);
      && (read == BadSettings(BelowCurrentOccupancy) <==> !badName && !badCap && tight)
      && (read == BadSettings(ValidationFailed) <==> badName || badCap || (!tight && badBudget))
      && (read.NewSettings? <==> !badName && !badCap && !tight && !badBudget)
      && (read.NewSettings? ==> SetAsAsked(p, l.settings, read.settings))
  {
    if p.name.Some? {
      ValidIsPlain(p.name.value);
    }
    if p.maxPlayers.Some? {
      CapIsGood(p.maxPlayers.value);
      if GoodCap(p.maxPlayers.value) {
        FitsExactlyUnderTheHalves(l, p.maxPlayers.value);
      }
    }
    if p.fleetPoints.Some? {
      BudgetIsGood(p.fleetPoints.value);
    }
  }

  /**
   * Settings are changed exactly as the host asks, if the name is plain, the cap even and large enough for
   * everyone on a team, and the budget whole and in range; and a new budget strikes the fleets above it.
   */
  lemma ModifyIsAnswered(r: Registry, a: AccountId, l: Lobby, i: int, p: Patch, now: Millis)
    requires Inv(r) && SeatedAt(r, a, l, i)
    ensures var s := Apply(r, a, Modify(p), now);
      var badName := p.name.Some? && !PlainName(p.name.value);
      var badCap := p.maxPlayers.Some? && !GoodCap(p.maxPlayers.value);
      var tight := p.maxPlayers.Some? && !Fits(l, p.maxPlayers.value);
      var badBudget := p.fleetPoints.Some? && !GoodBudget(p.fleetPoints.value);
      && (s.out == Rejected(NotHost) <==> l.host != a)
      && (s.out == Rejected(BelowCurrentOccupancy) <==> l.host == a && !badName && !badCap && tight)
      && (s.out == Rejected(ValidationFailed) <==> l.host == a && (badName || badCap || (!tight && badBudget)))
      && (s.out.Settled? <==> l.host == a && !badName && !badCap && !tight && !badBudget)
      && (!s.out.Settled? ==> s.reg == r)
      && (s.out.Settled? ==>
            && l.id in s.reg.lobbies
            && var l' := s.reg.lobbies[l.id];
            && SetAsAsked(p, l.settings, l'.settings) && Struck(l.members, l'.members, l'.settings.fleetPoints)
            && l' == l.(settings := l'.settings, members := l'.members)
            && s.reg == r.(lobbies := r.lobbies[l.id := l']))
  {
    SeatedIsFound(r, a, l, i);
    PatchIsRead(l, p);
  }

  // ── Departures ────────────────────────────────────────────────────────────────────

  /** Exactly this account is gone, and its lobby is closed exactly when nobody else was in it. */
  ghost predicate TakesOut(r: Registry, s: LobbyRules.Step, l: Lobby, gone: AccountId) {
    && s.out.Departed? && s.out.gone == gone
    && s.reg.membership == r.membership - {gone}
    && (s.out.remaining == None <==> |l.members| == 1)
    && (l.id in s.reg.lobbies <==> |l.members| > 1)
    && (l.code in s.reg.byCode <==> |l.members| > 1)
  }

  lemma RemovalTakesOut(r: Registry, l: Lobby, gone: AccountId, i: int)
    requires Inv(r) && SeatedAt(r, gone, l, i)
    ensures TakesOut(r, RemoveStep(r, l, gone), l, gone)
  {
    SeatedIsFound(r, gone, l, i);
    assert EntryOk(r, l.id);
    WithoutPresent(l.members, gone);
  }

  /** Leaving and dropping out take out the one who does. */
  lemma DepartureIsAnswered(r: Registry, a: AccountId, l: Lobby, i: int, c: Command, now: Millis)
    requires Inv(r) && SeatedAt(r, a, l, i) && (c.Leave? || c.Disconnect?)
    ensures TakesOut(r, Apply(r, a, c, now), l, a)
  {
    SeatedIsFound(r, a, l, i);
    RemovalTakesOut(r, l, a, i);
  }

  /** A kick is the host's alone, takes out the one it names, and only another member of the same lobby. */
  lemma KickIsAnswered(r: Registry, a: AccountId, l: Lobby, i: int, target: AccountId, now: Millis)
    requires Inv(r) && SeatedAt(r, a, l, i)
    ensures var s, there := Apply(r, a, Kick(target), now), target in r.membership && r.membership[target] == l.id;
      && (s.out == Rejected(NotHost) <==> l.host != a)
      && (s.out == Rejected(CannotKickHost) <==> l.host == a == target)
      && (s.out == Rejected(NotFound) <==> l.host == a != target && !there)
      && (s.out.Departed? <==> l.host == a != target && there)
      && (s.out.Departed? ==> TakesOut(r, s, l, target))
      && (!s.out.Departed? ==> s.reg == r)
  {
    SeatedIsFound(r, a, l, i);
    assert EntryOk(r, l.id);
    if target in r.membership && r.membership[target] == l.id {
      assert AccountOk(r, target);
    }
    var k := Find(l.members, target);
    if k >= 0 {
      assert l.members[k].account == target;
      RemovalTakesOut(r, l, target, k);
    }
  }

  /** Nobody is taken out of a lobby but by leaving it, by dropping out, or by its host's kick. */
  lemma OnlyTheHostTakesOthersOut(r: Registry, a: AccountId, c: Command, now: Millis, b: AccountId)
    requires Inv(r) && b in r.membership && b !in Apply(r, a, c, now).reg.membership
    ensures || (a == b && (c.Leave? || c.Disconnect?))
      || (c == Kick(b) && a != b && a in r.membership && r.membership[a] == r.membership[b]
          && r.membership[b] in r.lobbies && r.lobbies[r.membership[b]].host == a)
  {
    if !IsRemoval(c) {
      NobodyElseIsTakenOut(r, a, c, now, b);
    } else if a !in r.membership {
      OutsidersAreRefused(r, a, c, now);
    } else {
      Registered(r, a);
      Registered(r, b);
      var l := r.lobbies[r.membership[a]];
      var i := Find(l.members, a);
      if c.Kick? {
        KickIsAnswered(r, a, l, i, c.target, now);
      } else {
        DepartureIsAnswered(r, a, l, i, c, now);
      }
    }
  }

  lemma NobodyElseIsTakenOut(r: Registry, a: AccountId, c: Command, now: Millis, b: AccountId)
    requires b in r.membership && !IsRemoval(c)
    ensures b in Apply(r, a, c, now).reg.membership
  {
  }

  /** And the host's kick of another listed member takes out that member and nobody else. */
  lemma HostsKickTakesOutExactlyOne(r: Registry, a: AccountId, b: AccountId, now: Millis)
    requires Inv(r) && a != b && a in r.membership && b in r.membership && r.membership[a] == r.membership[b]
    requires r.membership[a] in r.lobbies && r.lobbies[r.membership[a]].host == a
    ensures Apply(r, a, Kick(b), now).reg.membership == r.membership - {b}
  {
    Registered(r, a);
    var l := r.lobbies[r.membership[a]];
    KickIsAnswered(r, a, l, Find(l.members, a), b, now);
  }
}
