/**
 * The lobby service in its own form (packages/server/src/lobby/service.ts): three maps and a set of
 * lobby records, updated in place. Every method is proved to take the step `LobbyRules` gives it.
 */
module LobbyServer {
  import opened Options
  import opened LobbyTypes
  import opened LobbyRules
  import opened LobbyInvariants

  /** A lobby as the server holds it. */
  class MutableLobby {
    const id: LobbyId
    const code: JoinCode
    const createdAt: Millis
    var host: AccountId
    var settings: Settings
    var members: seq<Member>

    constructor (id: LobbyId, code: JoinCode, host: AccountId, settings: Settings, members: seq<Member>, createdAt: Millis)
      ensures Value() == Lobby(id, code, host, settings, members, createdAt)
    {
      this.id, this.code, this.createdAt := id, code, createdAt;
      this.host, this.settings, this.members := host, settings, members;
    }

    function Value(): Lobby
      reads this
    {
      Lobby(id, code, host, settings, members, createdAt)
    }
  }

  class LobbyService {
    var lobbies: map<LobbyId, MutableLobby>
    var byCode: map<JoinCode, LobbyId>
    var membership: map<AccountId, LobbyId>
    var lastCreatedAt: map<AccountId, Millis>
    var nextId: LobbyId

    ghost function Repr(): set<object>
      reads this
    {
      {this} + lobbies.Values
    }

    ghost function Records(): map<LobbyId, Lobby>
      reads this, lobbies.Values
    {
      map id | id in lobbies :: lobbies[id].Value()
    }

    /** The registry these maps and records stand for. */
    ghost function State(): Registry
      reads this, lobbies.Values
    {
      Registry(Records(), byCode, membership, lastCreatedAt, nextId)
    }

    ghost predicate Valid()
      reads this, lobbies.Values
    {
      Inv(State())
    }

    constructor ()
      ensures Valid() && State() == EMPTY_REGISTRY && Repr() == {this}
    {
      lobbies, byCode, membership, lastCreatedAt, nextId := map[], map[], map[], map[], 0;
    }

    // ── Queries ─────────────────────────────────────────────────────────────────────

    /** The record of the lobby an account is in, if any. */
    method Locate(a: AccountId) returns (l: MutableLobby?)
      requires Valid()
      ensures l == null <==> LobbyRules.RequireLobby(State(), a).None?
      ensures l != null ==>
        && l.id in lobbies && lobbies[l.id] == l
        && LobbyRules.RequireLobby(State(), a) == Some(l.Value())
        && Find(l.members, a) >= 0
    {
      Registered(State(), a);
      l := null;
      if a in membership && membership[a] in lobbies {
        l := lobbies[membership[a]];
      }
    }

    method LobbyFor(a: AccountId) returns (state: Option<LobbyState>)
      requires Valid()
      ensures state == LobbyRules.LobbyFor(State(), a)
    {
      var l := Locate(a);
      state := if l == null then None else Some(Snapshot(l.Value()));
    }

    method ViewFor(a: AccountId) returns (fleet: Option<Fleet>)
      requires Valid()
      ensures fleet == LobbyRules.ViewFor(State(), a)
    {
      var l := Locate(a);
      fleet := if l == null then None else l.members[Find(l.members, a)].fleet;
    }

    /** One entry per member in roster order, or none at all when there is no such lobby. */
    method Roster(id: LobbyId) returns (entries: seq<RosterEntry>)
      ensures entries == if id in State().lobbies then RosterOf(State().lobbies[id].members) else []
    {
      entries := if id in lobbies then RosterOf(lobbies[id].members) else [];
    }

    // ── Commands ────────────────────────────────────────────────────────────────────

    /** Try the generator at most `MINT_ATTEMPTS` times; `draws` is what it would return, in order. */
    method MintCode(draws: seq<JoinCode>) returns (code: Option<JoinCode>)
      ensures code == Mint(draws, byCode.Keys, MINT_ATTEMPTS)
    {
      var attempt := 0;
      while attempt < MINT_ATTEMPTS && attempt < |draws|
        invariant 0 <= attempt <= MINT_ATTEMPTS && attempt <= |draws|
        invariant Mint(draws[attempt..], byCode.Keys, MINT_ATTEMPTS - attempt) == Mint(draws, byCode.Keys, MINT_ATTEMPTS)
      {
        if draws[attempt] !in byCode {
          return Some(draws[attempt]);
        }
        assert draws[attempt..][1..] == draws[attempt + 1..];
        attempt := attempt + 1;
      }
      return None;
    }

    method Create(a: AccountId, username: string, name: string, draws: seq<JoinCode>, now: Millis) returns (out: Outcome)
      requires Valid()
      modifies this
      ensures Valid() && fresh(Repr() - old(Repr()))
      ensures Step(State(), out) == CreateStep(old(State()), a, username, name, draws, now)
    {
      if a in membership {
        return Rejected(AlreadyInLobby);
      }
      if a in lastCreatedAt && now - lastCreatedAt[a] < CREATE_COOLDOWN_MS {
        return Rejected(RateLimited);
      }
      if !ValidName(name) {
        return Rejected(ValidationFailed);
      }
      var code := MintCode(draws);
      if code.None? {
        return Thrown;
      }
      assert nextId in lobbies ==> EntryOk(State(), nextId);
      var id := nextId;
      nextId := nextId + 1;
      var l := new MutableLobby(id, code.value, a, DefaultSettings(name),
                                [Member(a, username, Team1, now, None, false)], now);
      lobbies := lobbies[id := l];
      byCode := byCode[code.value := id];
      membership := membership[a := id];
      lastCreatedAt := lastCreatedAt[a := now];
      Added(l);
      out := Settled(Snapshot(l.Value()));
      assert Step(State(), out) == CreateStep(old(State()), a, username, name, draws, now);
      CreateKeeps(old(State()), a, username, name, draws, now);
    }

    method JoinByCode(a: AccountId, username: string, code: JoinCode, now: Millis) returns (out: Outcome)
      requires Valid()
      modifies Repr()
      ensures Valid() && Repr() == old(Repr())
      ensures Step(State(), out) == JoinByCodeStep(old(State()), a, username, code, now)
    {
      if code !in byCode {
        return Rejected(NotFound);
      }
      out := Join(a, username, byCode[code], now);
    }

    method JoinById(a: AccountId, username: string, id: LobbyId, now: Millis) returns (out: Outcome)
      requires Valid()
      modifies Repr()
      ensures Valid() && Repr() == old(Repr())
      ensures Step(State(), out) == JoinByIdStep(old(State()), a, username, id, now)
    {
      if id !in lobbies || lobbies[id].settings.visibility != Public {
        return Rejected(NotFound);
      }
      out := Join(a, username, id, now);
    }

    method Join(a: AccountId, username: string, id: LobbyId, now: Millis) returns (out: Outcome)
      requires Valid()
      modifies Repr()
      ensures Valid() && Repr() == old(Repr())
      ensures Step(State(), out) == JoinStep(old(State()), a, username, id, now)
    {
      JoinKeeps(State(), a, username, id, now);
      if a in membership {
        return Rejected(AlreadyInLobby);
      }
      if id !in lobbies {
        return Rejected(NotFound);
      }
      var l := lobbies[id];
      assert EntryOk(State(), id);
      var position := FirstOpenPosition(l.Value());
      if position.None? {
        return Rejected(LobbyFull);
      }
      Distinguish(l);
      l.members := l.members + [Member(a, username, position.value, now, None, false)];
      membership := membership[a := id];
      Rewritten(l);
      out := Settled(Snapshot(l.Value()));
    }

    /** Distinct lobbies are distinct records, so writing to one leaves the rest alone. */
    lemma Distinguish(l: MutableLobby)
      requires Valid() && l.id in lobbies && lobbies[l.id] == l
      ensures forall id :: id in lobbies && id != l.id ==> lobbies[id] != l
    {
      forall id | id in lobbies && id != l.id ensures lobbies[id] != l {
        assert EntryOk(State(), id);
        assert State().lobbies[id] == lobbies[id].Value();
      }
    }

    /** Writing to one lobby's record rewrites its entry and no other. */
    twostate lemma Rewritten(l: MutableLobby)
      requires lobbies == old(lobbies) && l.id in lobbies && lobbies[l.id] == l
      requires forall id :: id in lobbies && id != l.id ==> unchanged(lobbies[id])
      ensures Records() == old(Records())[l.id := l.Value()]
    {
      var x, y := Records(), old(Records())[l.id := l.Value()];
      assert forall id :: id in x <==> id in y;
      forall id | id in x ensures x[id] == y[id] {
        if id == l.id {
        } else {
          assert lobbies[id].Value() == old(lobbies[id].Value());
          assert x[id] == lobbies[id].Value();
          assert y[id] == old(Records())[id];
          assert y[id] == old(lobbies[id].Value());
        }
      }
    }

    twostate lemma Added(new l: MutableLobby)
      requires l.id !in old(lobbies) && lobbies == old(lobbies)[l.id := l]
      requires forall id :: id in old(lobbies) ==> unchanged(lobbies[id])
      ensures Records() == old(Records())[l.id := l.Value()]
    {
      var x, y := Records(), old(Records())[l.id := l.Value()];
      assert forall id :: id in x <==> id in y;
      forall id | id in x ensures x[id] == y[id] {
        if id == l.id {
        } else {
          assert lobbies[id].Value() == old(lobbies[id].Value());
          assert x[id] == lobbies[id].Value();
          assert y[id] == old(Records())[id];
        }
      }
    }

    twostate lemma Dropped(l: MutableLobby)
      requires l.id in old(lobbies) && lobbies == old(lobbies) - {l.id}
      requires forall id :: id in lobbies ==> unchanged(lobbies[id])
      ensures Records() == old(Records()) - {l.id}
    {
      var x, y := Records(), old(Records()) - {l.id};
      assert forall id :: id in x <==> id in y;
      forall id | id in x ensures x[id] == y[id] {
        assert lobbies[id].Value() == old(lobbies[id].Value());
        assert x[id] == lobbies[id].Value();
        assert y[id] == old(Records())[id];
      }
    }

    method SetPosition(a: AccountId, p: Position) returns (out: Outcome)
      requires Valid()
      modifies Repr()
      ensures Valid() && Repr() == old(Repr())
      ensures Step(State(), out) == SetPositionStep(old(State()), a, p)
    {
      SetPositionKeeps(State(), a, p);
      var l := Locate(a);
      if l == null {
        return Rejected(NotInLobby);
      }
      var i := Find(l.members, a);
      if l.members[i].position == p {
        return Settled(Snapshot(l.Value()));
      }
      var refusal := CapacityFor(l.Value(), p, a);
      if refusal.Some? {
        return Rejected(refusal.value);
      }
      Distinguish(l);
      ghost var was := l.members;
      l.members := l.members[i := l.members[i].(position := p)];
      if p == Spectator {
        l.members := l.members[i := l.members[i].(ready := false)];
      }
      assert l.members == was[i := was[i].(position := p, ready := was[i].ready && p != Spectator)];
      Rewritten(l);
      out := Settled(Snapshot(l.Value()));
    }

    method SelectFleet(a: AccountId, fleet: Option<Fleet>) returns (out: Outcome)
      requires Valid()
      modifies Repr()
      ensures Valid() && Repr() == old(Repr())
      ensures Step(State(), out) == SelectFleetStep(old(State()), a, fleet)
    {
      SelectFleetKeeps(State(), a, fleet);
      var l := Locate(a);
      if l == null {
        return Rejected(NotInLobby);
      }
      var i := Find(l.members, a);
      if fleet.Some? && fleet.value.points > l.settings.fleetPoints {
        return Rejected(FleetOverBudget);
      }
      Distinguish(l);
      l.members := l.members[i := l.members[i].(fleet := fleet, ready := false)];
      Rewritten(l);
      out := Settled(Snapshot(l.Value()));
    }

    method SetReady(a: AccountId, ready: bool) returns (out: Outcome)
      requires Valid()
      modifies Repr()
      ensures Valid() && Repr() == old(Repr())
      ensures Step(State(), out) == SetReadyStep(old(State()), a, ready)
    {
      SetReadyKeeps(State(), a, ready);
      var l := Locate(a);
      if l == null {
        return Rejected(NotInLobby);
      }
      var i := Find(l.members, a);
      if ready {
        if l.members[i].position == Spectator {
          return Rejected(SpectatorCannotReady);
        }
        if l.members[i].fleet.None? {
          return Rejected(NoFleetSelected);
        }
      }
      Distinguish(l);
      l.members := l.members[i := l.members[i].(ready := ready)];
      Rewritten(l);
      out := Settled(Snapshot(l.Value()));
    }

    method Start(a: AccountId) returns (out: Outcome)
      requires Valid()
      ensures Step(State(), out) == StartStep(State(), a)
    {
      var l := Locate(a);
      if l == null {
        return Rejected(NotInLobby);
      }
      if l.host != a {
        return Rejected(NotHost);
      }
      if PlayerCount(l.members) == 0 {
        return Rejected(NotAllReady);
      }
      if !EveryoneReady(l.members) {
        return Rejected(NotAllReady);
      }
      out := Settled(Snapshot(l.Value()));
    }

    /** A fleet read again: `saved` is what is stored under `fleetId` now, and `None` when nothing is. */
    method ResyncFleet(a: AccountId, saved: Option<Fleet>, fleetId: FleetId) returns (out: Outcome)
      requires Valid()
      modifies Repr()
      ensures Valid() && Repr() == old(Repr())
      ensures Step(State(), out) == ResyncFleetStep(old(State()), a, saved, fleetId)
    {
      ResyncFleetKeeps(State(), a, saved, fleetId);
      var l := Locate(a);
      if l == null {
        return Unchanged;
      }
      var i := Find(l.members, a);
      if l.members[i].fleet.None? || l.members[i].fleet.value.id != fleetId {
        return Unchanged;
      }
      Distinguish(l);
      if saved.None? || saved.value.points > l.settings.fleetPoints {
        l.members := l.members[i := l.members[i].(fleet := None, ready := false)];
        Rewritten(l);
        return Settled(Snapshot(l.Value()));
      }
      if l.members[i].fleet == saved {
        return Unchanged;
      }
      l.members := l.members[i := l.members[i].(fleet := saved, ready := false)];
      Rewritten(l);
      out := Settled(Snapshot(l.Value()));
    }

    method Leave(a: AccountId) returns (out: Outcome)
      requires Valid()
      modifies Repr()
      ensures Valid() && Repr() <= old(Repr())
      ensures Step(State(), out) == LeaveStep(old(State()), a)
      ensures out.Rejected? || out.Departed?
    {
      var l := Locate(a);
      if l == null {
        return Rejected(NotInLobby);
      }
      out := Remove(l, a);
    }

    method Kick(a: AccountId, target: AccountId) returns (out: Outcome)
      requires Valid()
      modifies Repr()
      ensures Valid() && Repr() <= old(Repr())
      ensures Step(State(), out) == KickStep(old(State()), a, target)
      ensures out.Rejected? || out.Departed?
    {
      var l := Locate(a);
      if l == null {
        return Rejected(NotInLobby);
      }
      if l.host != a {
        return Rejected(NotHost);
      }
      if target == a {
        return Rejected(CannotKickHost);
      }
      if Find(l.members, target) < 0 {
        return Rejected(NotFound);
      }
      out := Remove(l, target);
    }

    method Modify(a: AccountId, p: Patch) returns (out: Outcome)
      requires Valid()
      modifies Repr()
      ensures Valid() && Repr() == old(Repr())
      ensures Step(State(), out) == ModifyStep(old(State()), a, p)
    {
      ModifyKeeps(State(), a, p);
      var l := Locate(a);
      if l == null {
        return Rejected(NotInLobby);
      }
      if l.host != a {
        return Rejected(NotHost);
      }
      var patched := ReadPatch(l, p);
      if patched.BadSettings? {
        return Rejected(patched.code);
      }
      Distinguish(l);
      l.settings := patched.settings;
      StrikeStranded(l, patched.settings.fleetPoints);
      Rewritten(l);
      out := Settled(Snapshot(l.Value()));
    }

    /** Check a patch field by field against the lobby as it stands, building the settings it asks for. */
    method ReadPatch(l: MutableLobby, p: Patch) returns (r: SettingsResult)
      ensures r == PatchedSettings(l.Value(), p)
    {
      var next := l.settings;
      if p.name.Some? {
        if !ValidName(p.name.value) {
          return BadSettings(ValidationFailed);
        }
        next := next.(name := p.name.value);
      }
      if p.maxPlayers.Some? {
        if !ValidMaxPlayers(p.maxPlayers.value) {
          return BadSettings(ValidationFailed);
        }
        var cap := p.maxPlayers.value.Floor;
        if cap < PlayerCount(l.members) {
          return BadSettings(BelowCurrentOccupancy);
        }
        if PositionCount(l.members, Team1) > TeamCapacity(cap) || PositionCount(l.members, Team2) > TeamCapacity(cap) {
          return BadSettings(BelowCurrentOccupancy);
        }
        next := next.(maxPlayers := cap);
      }
      if p.mode.Some? {
        next := next.(mode := p.mode.value);
      }
      if p.fleetPoints.Some? {
        if !ValidFleetPoints(p.fleetPoints.value) {
          return BadSettings(ValidationFailed);
        }
        next := next.(fleetPoints := p.fleetPoints.value.Floor);
      }
      next := ReadWorld(next, p);
      r := NewSettings(next);
    }

    /** The settings that are taken as they come. */
    method ReadWorld(s: Settings, p: Patch) returns (next: Settings)
      ensures next == s.(visibility := p.visibility.GetOr(s.visibility), mapType := p.mapType.GetOr(s.mapType),
                         mapSize := p.mapSize.GetOr(s.mapSize), debugMode := p.debugMode.GetOr(s.debugMode))
    {
      next := s;
      if p.visibility.Some? {
        next := next.(visibility := p.visibility.value);
      }
      if p.mapType.Some? {
        next := next.(mapType := p.mapType.value);
      }
      if p.mapSize.Some? {
        next := next.(mapSize := p.mapSize.value);
      }
      if p.debugMode.Some? {
        next := next.(debugMode := p.debugMode.value);
      }
    }

    /** Take the fleet, and the readiness that rested on it, from everyone the budget strands. */
    method StrikeStranded(l: MutableLobby, budget: int)
      modifies l`members
      ensures l.members == DropStranded(old(l.members), budget)
    {
      var i := 0;
      while i < |l.members|
        invariant 0 <= i <= |l.members| == |old(l.members)|
        invariant forall j :: 0 <= j < i ==> l.members[j] == Affordable(old(l.members)[j], budget)
        invariant forall j :: i <= j < |l.members| ==> l.members[j] == old(l.members)[j]
      {
        var m := l.members[i];
        if m.fleet.Some? && m.fleet.value.points > budget {
          l.members := l.members[i := m.(fleet := None, ready := false)];
        }
        i := i + 1;
      }
    }

    method Disconnect(a: AccountId) returns (out: Outcome)
      requires Valid()
      modifies Repr()
      ensures Valid() && Repr() <= old(Repr())
      ensures Step(State(), out) == DisconnectStep(old(State()), a)
    {
      var l := Locate(a);
      if l == null {
        return Unchanged;
      }
      out := Remove(l, a);
    }

    method Remove(l: MutableLobby, a: AccountId) returns (out: Outcome)
      requires Valid() && l.id in lobbies && lobbies[l.id] == l && Find(l.members, a) >= 0
      modifies this, l
      ensures Valid() && Repr() <= old(Repr())
      ensures Step(State(), out) == RemoveStep(old(State()), old(l.Value()), a)
    {
      ghost var r, was := State(), l.Value();
      Vacate(l, a);
      if |l.members| == 0 {
        Close(l);
        assert r.lobbies[l.id := l.Value()] - {l.id} == r.lobbies - {l.id};
        out := Departed(None, a);
      } else {
        if l.host == a {
          l.host := Heir(l.members).account;
        }
        Rewritten(l);
        out := Departed(Some(Snapshot(l.Value())), a);
      }
      assert Step(State(), out) == RemoveStep(r, was, a);
      RemoveKeeps(r, was, a);
    }

    /** The account is off the roster and out of the membership map; no other record or entry has changed. */
    method Vacate(l: MutableLobby, a: AccountId)
      requires Valid() && l.id in lobbies && lobbies[l.id] == l
      modifies this`membership, l`members
      ensures l.members == Without(old(l.members), a) && membership == old(membership) - {a}
      ensures Records() == old(Records())[l.id := l.Value()]
      ensures forall id :: id in lobbies && id != l.id ==> lobbies[id] != l
    {
      Distinguish(l);
      l.members := Without(l.members, a);
      membership := membership - {a};
      Rewritten(l);
    }

    /** The lobby and its code are gone from the maps, and every other entry stays as it was. */
    method Close(l: MutableLobby)
      requires l.id in lobbies
      modifies `lobbies, `byCode
      ensures lobbies == old(lobbies) - {l.id} && byCode == old(byCode) - {l.code}
      ensures Records() == old(Records()) - {l.id}
    {
      lobbies := lobbies - {l.id};
      byCode := byCode - {l.code};
      Dropped(l);
    }
  }
}
