/**
 * What each message off the wire does to the registry, told from the message and the registry alone
 * (packages/server/src/lobby/handler.ts:203-400).
 */
module LobbyRequests {
  import opened Options
  import opened LobbyTypes
  import opened LobbyRules
  import opened LobbyInvariants
  import opened LobbyTheorems
  import opened LobbyProtocol
  import opened LobbyAnswers

  /** The registry once the request has been handled. */
  function Handled(p: Protocol, a: AccountId, username: string, x: Request, current: bool, now: Millis): Registry {
    Next(p, Handle(a, username, x, current, now)).reg
  }

  /** A member who asks to be ready is, if it is on a team with a fleet; one who asks not to be is not. */
  lemma ReadyRequest(p: Protocol, a: AccountId, u: string, ready: bool, current: bool, now: Millis, l: Lobby, i: int)
    requires Inv(p.reg) && SeatedAt(p.reg, a, l, i)
    ensures var r', m := Handled(p, a, u, SetReadyRequest(ready), current, now), l.members[i];
      if !ready || (m.position != Spectator && m.fleet != None)
      then OnlyEntryChanged(p.reg, r', l, i, m.(ready := ready)) else r' == p.reg
  {
    SetReadyIsAnswered(p.reg, a, l, i, ready, now);
  }

  /** A member is in the seat it asks for, if it had it or one was free, and is otherwise where it was. */
  lemma SeatRequest(p: Protocol, a: AccountId, u: string, seat: Position, current: bool, now: Millis, l: Lobby, i: int)
    requires Inv(p.reg) && SeatedAt(p.reg, a, l, i)
    ensures var r', m := Handled(p, a, u, SetPositionRequest(seat), current, now), l.members[i];
      var taken := |Sitting(l.members, seat)|;
      if m.position == seat || (if seat == Spectator then taken < 16 else 2 * taken < l.settings.maxPlayers)
      then OnlyEntryChanged(p.reg, r', l, i, m.(position := seat, ready := m.ready && seat != Spectator)) else r' == p.reg
  {
    SetPositionIsAnswered(p.reg, a, l, i, seat, now);
  }

  /** Naming no fleet clears the choice at once; naming one changes nothing yet, and asks for that fleet. */
  lemma FleetRequest(p: Protocol, a: AccountId, u: string, fleetId: Option<FleetId>, current: bool, now: Millis, l: Lobby, i: int)
    requires Inv(p.reg) && SeatedAt(p.reg, a, l, i)
    ensures var p', m := Next(p, Handle(a, u, SelectFleetRequest(fleetId), current, now)), l.members[i];
      if fleetId == None
      then p'.inFlight == p.inFlight && OnlyEntryChanged(p.reg, p'.reg, l, i, m.(fleet := None, ready := false))
      else p' == p.(inFlight := p.inFlight + [SelectLookup(a, fleetId.value)])
  {
    SelectFleetIsAnswered(p.reg, a, l, i, None, now);
  }

  /** When the fleet asked for comes back it is the one chosen, if it is within the budget. */
  lemma FleetFound(p: Protocol, index: nat, fleet: Fleet, l: Lobby, i: int)
    requires Inv(p.reg) && index < |p.inFlight| && p.inFlight[index].SelectLookup?
    requires SeatedAt(p.reg, p.inFlight[index].account, l, i)
    ensures var r', m := Next(p, LookupDone(index, Found(fleet))).reg, l.members[i];
      if fleet.points <= l.settings.fleetPoints
      then OnlyEntryChanged(p.reg, r', l, i, m.(fleet := Some(fleet), ready := false)) else r' == p.reg
  {
    SelectFleetIsAnswered(p.reg, p.inFlight[index].account, l, i, Some(fleet), 0);
  }

  /** One that is missing, or could not be read, changes nothing. */
  lemma FleetNotFound(p: Protocol, index: nat, reply: Reply)
    requires index < |p.inFlight| && p.inFlight[index].SelectLookup? && !reply.Found?
    ensures Next(p, LookupDone(index, reply)).reg == p.reg
  {
  }

  /** A chosen fleet that was saved again is taken as it now is, and dropped if it is gone or no longer fits. */
  lemma FleetReadAgain(p: Protocol, index: nat, reply: Reply, l: Lobby, i: int)
    requires Inv(p.reg) && index < |p.inFlight| && p.inFlight[index].ResyncLookup?
    requires SeatedAt(p.reg, p.inFlight[index].account, l, i)
    ensures var r', m := Next(p, LookupDone(index, reply)).reg, l.members[i];
      var saved := if reply.Found? then Some(reply.fleet) else None;
      var kept := if reply.Found? && reply.fleet.points <= l.settings.fleetPoints then saved else None;
      if !reply.Failed? && m.fleet.Some? && m.fleet.value.id == p.inFlight[index].fleetId && m.fleet != saved
      then OnlyEntryChanged(p.reg, r', l, i, m.(fleet := kept, ready := false)) else r' == p.reg
  {
    var saved := if reply.Found? then Some(reply.fleet) else None;
    ResyncIsAnswered(p.reg, p.inFlight[index].account, l, i, saved, p.inFlight[index].fleetId, 0);
  }

  /** A saved fleet is read again exactly when its owner is in a lobby. */
  lemma FleetSaved(p: Protocol, a: AccountId, fleetId: FleetId)
    requires Inv(p.reg)
    ensures Next(p, FleetChanged(a, fleetId)) ==
      if a in p.reg.membership then p.(inFlight := p.inFlight + [ResyncLookup(a, fleetId)]) else p
  {
    Registered(p.reg, a);
  }

  /** The settings asked for are set, where the host asks and they are good. */
  lemma SettingsRequest(p: Protocol, a: AccountId, u: string, patch: Patch, current: bool, now: Millis, l: Lobby, i: int)
    requires Inv(p.reg) && SeatedAt(p.reg, a, l, i)
    ensures var r' := Handled(p, a, u, ModifyRequest(patch), current, now);
      if l.host == a && (patch.name.Some? ==> PlainName(patch.name.value))
         && (patch.maxPlayers.Some? ==> GoodCap(patch.maxPlayers.value) && Fits(l, patch.maxPlayers.value))
         && (patch.fleetPoints.Some? ==> GoodBudget(patch.fleetPoints.value))
      then
        && l.id in r'.lobbies
        && var l' := r'.lobbies[l.id];
        && SetAsAsked(patch, l.settings, l'.settings) && Struck(l.members, l'.members, l'.settings.fleetPoints)
        && l' == l.(settings := l'.settings, members := l'.members)
        && r' == p.reg.(lobbies := p.reg.lobbies[l.id := l'])
      else r' == p.reg
  {
    ModifyIsAnswered(p.reg, a, l, i, patch, now);
  }

  /** A request to create opens a lobby of that name, led by who asked, under its own name. */
  lemma CreateRequestOpens(p: Protocol, a: AccountId, u: string, name: string, draws: seq<JoinCode>, current: bool, now: Millis)
    requires Inv(p.reg)
    ensures var r, r' := p.reg, Handled(p, a, u, CreateRequest(name, draws), current, now);
      if a !in r.membership && !TooSoon(r, a, now) && PlainName(name) && !NoneFree(r, draws)
      then
        && a in r'.membership && r'.membership[a] in r'.lobbies && r'.membership[a] !in r.lobbies
        && var l := r'.lobbies[r'.membership[a]];
        && l.host == a && l.settings.name == name && l.members == [Member(a, u, Team1, now, None, false)]
      else r' == r
  {
    CreateIsAnswered(p.reg, a, u, name, draws, now);
    ApplyKeeps(p.reg, a, Create(u, name, draws), now);
    if Apply(p.reg, a, Create(u, name, draws), now).out.Settled? {
      CreatedAsAsked(p.reg, a, u, name, draws, now);
    }
  }

  /** A request to join by code adds whoever asks, being in no lobby, to the lobby of that code, if it has a place. */
  lemma JoinCodeRequestAdds(p: Protocol, a: AccountId, u: string, code: JoinCode, current: bool, now: Millis)
    requires Inv(p.reg)
    ensures var r, r' := p.reg, Handled(p, a, u, JoinCodeRequest(code), current, now);
      if code in r.byCode && a !in r.membership then
        && r.byCode[code] in r.lobbies
        && var l := r.lobbies[r.byCode[code]];
        && if |l.members| == l.settings.maxPlayers + 16 then r' == r else Added(r, r', a, u, r.byCode[code], now)
      else r' == r
  {
    JoinByCodeIsAnswered(p.reg, a, u, code, now);
    ApplyKeeps(p.reg, a, JoinByCode(u, code), now);
  }

  /** And by id, to the lobby of that id, if it is public as well. */
  lemma JoinIdRequestAdds(p: Protocol, a: AccountId, u: string, id: LobbyId, current: bool, now: Millis)
    requires Inv(p.reg)
    ensures var r, r' := p.reg, Handled(p, a, u, JoinIdRequest(id), current, now);
      if id in r.lobbies && r.lobbies[id].settings.visibility == Public && a !in r.membership
         && |r.lobbies[id].members| != r.lobbies[id].settings.maxPlayers + 16
      then Added(r, r', a, u, id, now) else r' == r
  {
    JoinByIdIsAnswered(p.reg, a, u, id, now);
    ApplyKeeps(p.reg, a, JoinById(u, id), now);
  }

  /** A leave or a dropped socket takes out its own account. */
  lemma LeaveRequestTakesOut(p: Protocol, a: AccountId, u: string, current: bool, now: Millis, l: Lobby, i: int)
    requires Inv(p.reg) && SeatedAt(p.reg, a, l, i)
    ensures Handled(p, a, u, LeaveRequest, current, now).membership == p.reg.membership - {a}
    ensures Next(p, Event.Detach(a)).reg.membership == p.reg.membership - {a}
  {
    DepartureIsAnswered(p.reg, a, l, i, Command.Leave, now);
    DepartureIsAnswered(p.reg, a, l, i, Command.Disconnect, now);
  }

  /** A kick by the host takes out the one it names; anyone else's, like a start, takes out nobody. */
  lemma KickRequestTakesOut(p: Protocol, a: AccountId, u: string, target: AccountId, current: bool, now: Millis, l: Lobby, i: int)
    requires Inv(p.reg) && SeatedAt(p.reg, a, l, i)
    ensures Handled(p, a, u, KickRequest(target), current, now).membership ==
      if l.host == a && a != target && target in p.reg.membership && p.reg.membership[target] == l.id
      then p.reg.membership - {target} else p.reg.membership
    ensures Next(p, Handle(a, u, StartRequest, current, now)) == p
  {
    KickIsAnswered(p.reg, a, l, i, target, now);
  }

  /** Whoever was taken out is told so, and how; one who left, on the connection it left from, if that is the current one. */
  lemma WhoeverGoesIsTold(p: Protocol, a: AccountId, u: string, target: AccountId, now: Millis, l: Lobby, i: int)
    requires Replicated(p) && SeatedAt(p.reg, a, l, i)
    ensures Next(p, Handle(a, u, LeaveRequest, true, now)).told[a] == Some(LobbyExit(ExitReason.Left))
    ensures a !in Next(p, Event.Detach(a)).told
    ensures l.host == a && a != target && target in p.reg.membership && p.reg.membership[target] == l.id ==>
      Next(p, Handle(a, u, KickRequest(target), true, now)).told[target] == Some(LobbyExit(Kicked))
  {
    SeatedIsFound(p.reg, a, l, i);
    RemovalIsLocal(p.reg, l, a);
    if l.host == a && a != target && target in p.reg.membership && p.reg.membership[target] == l.id {
      KickIsAnswered(p.reg, a, l, i, target, now);
      Registered(p.reg, target);
      RemovalIsLocal(p.reg, l, target);
    }
  }
}
