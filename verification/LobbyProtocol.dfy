/**
 * What every client has been told (packages/server/src/lobby/handler.ts), as a state machine over values:
 * the registry, the last lobby message each connected account was sent, and the fleet lookups that
 * have been asked for and not yet answered. Lookups are answered in any order, at any time.
 *
 * The theorem is replication: what every client was last told is what the server holds.
 */
module LobbyProtocol {
  import opened Options
  import opened LobbyTypes
  import opened LobbyRules
  import opened LobbyInvariants
  import opened LobbyTheorems

  datatype ExitReason = Left | Kicked

  datatype ServerMessage =
    | LobbyUpdate(state: LobbyState, you: Option<Fleet>)
    | LobbyExit(reason: ExitReason)
    | LobbyRejected(code: ErrorCode)

  datatype Request =
    | CreateRequest(name: string, draws: seq<JoinCode>)
    | JoinCodeRequest(code: JoinCode)
    | JoinIdRequest(id: LobbyId)
    | SetPositionRequest(position: Position)
    | LeaveRequest
    | KickRequest(target: AccountId)
    | ModifyRequest(patch: Patch)
    | SelectFleetRequest(fleetId: Option<FleetId>)
    | SetReadyRequest(ready: bool)
    | StartRequest

  datatype Lookup = SelectLookup(account: AccountId, fleetId: FleetId) | ResyncLookup(account: AccountId, fleetId: FleetId)

  /** How a lookup came back: a fleet, no such fleet, or an error. */
  datatype Reply = Found(fleet: Fleet) | Missing | Failed

  /** `told` maps each connected account to the last lobby message its current connection was sent. */
  datatype Protocol = Protocol(
    reg: Registry,
    told: map<AccountId, Option<ServerMessage>>,
    inFlight: seq<Lookup>)

  const IDLE := Protocol(EMPTY_REGISTRY, map[], [])

  /** `current` says the request came in on the connection the account is registered under. */
  datatype Event =
    | Attach(account: AccountId)
    | Detach(account: AccountId)
    | Handle(account: AccountId, username: string, request: Request, current: bool, now: Millis)
    | FleetChanged(account: AccountId, fleetId: FleetId)
    | LookupDone(index: nat, reply: Reply)

  // ── Sending ───────────────────────────────────────────────────────────────────────

  predicate Listed(state: LobbyState, a: AccountId) {
    exists i :: 0 <= i < |state.members| && state.members[i].account == a
  }

  function Update(r: Registry, state: LobbyState, a: AccountId): ServerMessage {
    LobbyUpdate(state, ViewFor(r, a))
  }

  function Tell(told: map<AccountId, Option<ServerMessage>>, a: AccountId, m: ServerMessage)
    : map<AccountId, Option<ServerMessage>>
  {
    if a in told then told[a := Some(m)] else told
  }

  /** Everyone listed in the state hears it, each with its own private view. */
  function Broadcast(r: Registry, told: map<AccountId, Option<ServerMessage>>, state: Option<LobbyState>)
    : map<AccountId, Option<ServerMessage>>
  {
    if state.None? then told
    else map a | a in told :: if Listed(state.value, a) then Some(Update(r, state.value, a)) else told[a]
  }

  /** A command that leaves its caller in the lobby. */
  function Settle(p: Protocol, s: LobbyRules.Step): Protocol {
    p.(reg := s.reg,
       told := if s.out.Settled? then Broadcast(s.reg, p.told, Some(s.out.state)) else p.told)
  }

  // ── Events ────────────────────────────────────────────────────────────────────────

  function AttachStep(p: Protocol, a: AccountId): Protocol {
    var existing := LobbyFor(p.reg, a);
    p.(told := p.told[a := if existing.Some? then Some(Update(p.reg, existing.value, a)) else None])
  }

  function DetachStep(p: Protocol, a: AccountId): Protocol {
    var s := DisconnectStep(p.reg, a);
    p.(reg := s.reg,
       told := Broadcast(s.reg, p.told - {a}, if s.out.Departed? then s.out.remaining else None))
  }

  /** Whoever was removed is told in their own way; those who remain hear the new state. */
  function Part(p: Protocol, s: LobbyRules.Step, told: map<AccountId, Option<ServerMessage>>): Protocol {
    p.(reg := s.reg, told := if s.out.Departed? then Broadcast(s.reg, told, s.out.remaining) else p.told)
  }

  /** The exit goes out on the connection that asked; the others hear from the registry. */
  function LeaveEvent(p: Protocol, a: AccountId, current: bool): Protocol {
    Part(p, LeaveStep(p.reg, a), if current then Tell(p.told, a, LobbyExit(Left)) else p.told)
  }

  function KickEvent(p: Protocol, a: AccountId, target: AccountId): Protocol {
    Part(p, KickStep(p.reg, a, target), Tell(p.told, target, LobbyExit(Kicked)))
  }

  /** A request that is one service call and nothing more. */
  predicate Simple(rq: Request) {
    !rq.LeaveRequest? && !rq.KickRequest? && !rq.StartRequest? && !(rq.SelectFleetRequest? && rq.fleetId.Some?)
  }

  predicate Settles(command: Command) {
    !command.Start? && !command.ResyncFleet? && !command.Leave? && !command.Kick? && !command.Disconnect?
  }

  function CommandOf(username: string, rq: Request): (command: Command)
    requires Simple(rq)
    ensures Settles(command)
  {
    match rq
    case CreateRequest(name, draws) => Create(username, name, draws)
    case JoinCodeRequest(code) => JoinByCode(username, code)
    case JoinIdRequest(id) => JoinById(username, id)
    case SetPositionRequest(position) => SetPosition(position)
    case ModifyRequest(patch) => Modify(patch)
    case SelectFleetRequest(_) => SelectFleet(None)
    case SetReadyRequest(ready) => SetReady(ready)
  }

  function HandleStep(p: Protocol, a: AccountId, username: string, rq: Request, current: bool, now: Millis): Protocol {
    if Simple(rq) then Settle(p, Apply(p.reg, a, CommandOf(username, rq), now))
    else
      match rq
      case LeaveRequest => LeaveEvent(p, a, current)
      case KickRequest(target) => KickEvent(p, a, target)
      case StartRequest => p
      case SelectFleetRequest(fleetId) => p.(inFlight := p.inFlight + [SelectLookup(a, fleetId.value)])
  }

  /** The refusal a request is answered with, if it is. */
  function RefusalOf(p: Protocol, a: AccountId, username: string, rq: Request, now: Millis): Option<ErrorCode> {
    var out := if Simple(rq) then Apply(p.reg, a, CommandOf(username, rq), now).out
               else if rq.LeaveRequest? then LeaveStep(p.reg, a).out
               else if rq.KickRequest? then KickStep(p.reg, a, rq.target).out
               else if rq.StartRequest? then StartStep(p.reg, a).out
               else Unchanged;
    Refusal(out)
  }

  function Refusal(out: Outcome): Option<ErrorCode> {
    if out.Rejected? then Some(out.code) else None
  }

  /** The refusal a lookup is answered with: the fleet is missing, cannot be read, or is refused. */
  function LookupRefusal(p: Protocol, lookup: Lookup, reply: Reply): Option<ErrorCode> {
    match lookup
    case SelectLookup(a, _) =>
      (match reply
       case Found(fleet) => Refusal(Apply(p.reg, a, SelectFleet(Some(fleet)), 0).out)
       case Missing => Some(NotFound)
       case Failed => Some(BadRequest))
    case ResyncLookup(_, _) => None
  }

  function FleetChangedStep(p: Protocol, a: AccountId, fleetId: FleetId): Protocol {
    if LobbyFor(p.reg, a).None? then p else p.(inFlight := p.inFlight + [ResyncLookup(a, fleetId)])
  }

  function LookupDoneStep(p: Protocol, index: nat, reply: Reply): Protocol {
    if index >= |p.inFlight| then p
    else
      var q := p.(inFlight := p.inFlight[..index] + p.inFlight[index + 1..]);
      match p.inFlight[index]
      case SelectLookup(a, _) =>
        if reply.Found? then Settle(q, Apply(q.reg, a, SelectFleet(Some(reply.fleet)), 0)) else q
      case ResyncLookup(a, fleetId) =>
        if reply.Failed? then q
        else Settle(q, Apply(q.reg, a, ResyncFleet(if reply.Found? then Some(reply.fleet) else None, fleetId), 0))
  }

  function Next(p: Protocol, e: Event): Protocol {
    match e
    case Attach(a) => AttachStep(p, a)
    case Detach(a) => DetachStep(p, a)
    case Handle(a, username, rq, current, now) => HandleStep(p, a, username, rq, current, now)
    case FleetChanged(a, fleetId) => FleetChangedStep(p, a, fleetId)
    case LookupDone(index, reply) => LookupDoneStep(p, index, reply)
  }

  // ── Replication ───────────────────────────────────────────────────────────────────

  /** The account's client holds its lobby as the server does, or knows it is in none. */
  ghost predicate InStep(p: Protocol, a: AccountId)
    requires a in p.told
  {
    match LobbyFor(p.reg, a)
    case Some(state) => p.told[a] == Some(Update(p.reg, state, a))
    case None => p.told[a].None? || p.told[a].value.LobbyExit?
  }

  ghost predicate Replicated(p: Protocol) {
    && Inv(p.reg)
    && (forall a :: a in p.reg.membership ==> a in p.told)
    && (forall a {:trigger InStep(p, a)} :: a in p.told ==> InStep(p, a))
  }

  /**
   * Requests come from connected accounts, and a leave that would be granted on the connection the
   * account is registered under. Anything else may arrive on a connection already replaced.
   */
  predicate Deliverable(p: Protocol, e: Event) {
    e.Handle? ==> e.account in p.told && (e.request.LeaveRequest? && e.account in p.reg.membership ==> e.current)
  }

  // ── Who a change reaches ──────────────────────────────────────────────────────────

  lemma ListedIsHeld(l: Lobby, a: AccountId)
    ensures Listed(Snapshot(l), a) <==> Holds(l.members, a)
  {
    if Listed(Snapshot(l), a) {
      var i :| 0 <= i < |Snapshot(l).members| && Snapshot(l).members[i].account == a;
      assert l.members[i].account == a;
    }
    if Holds(l.members, a) {
      var i :| 0 <= i < |l.members| && l.members[i].account == a;
      assert Snapshot(l).members[i].account == a;
    }
  }

  /** From one registry to the next only lobby `id` changed, and only `a` changed lobbies. */
  ghost predicate Localized(r: Registry, r': Registry, id: LobbyId, a: AccountId) {
    && (forall k :: k != id ==> (k in r.lobbies <==> k in r'.lobbies))
    && (forall k :: k != id && k in r.lobbies ==> r'.lobbies[k] == r.lobbies[k])
    && (forall b :: b != a ==> (b in r.membership <==> b in r'.membership))
    && (forall b :: b != a && b in r.membership ==> r'.membership[b] == r.membership[b])
  }

  /** Then everyone the lobby lists afterwards is in it, and everyone else but `a` sees what they saw. */
  lemma Audience(r: Registry, r': Registry, id: LobbyId, a: AccountId, b: AccountId)
    requires Inv(r) && Inv(r') && Localized(r, r', id, a)
    ensures id in r'.lobbies && Listed(Snapshot(r'.lobbies[id]), b) ==>
      LobbyFor(r', b) == Some(Snapshot(r'.lobbies[id]))
    ensures b != a && (id !in r'.lobbies || !Listed(Snapshot(r'.lobbies[id]), b)) && b in r'.membership ==>
      LobbyFor(r', b) == LobbyFor(r, b) && ViewFor(r', b) == ViewFor(r, b)
    ensures b !in r'.membership ==> LobbyFor(r', b).None?
  {
    if id in r'.lobbies {
      ListedIsHeld(r'.lobbies[id], b);
      assert EntryOk(r', id);
    }
    if b in r'.membership {
      assert AccountOk(r', b);
      assert EntryOk(r', r'.membership[b]);
    }
  }

  /** What a settled command's answer says about where it landed. */
  ghost predicate LandsAt(r: Registry, a: AccountId, s: LobbyRules.Step) {
    && s.out.Settled?
    && s.out.state.id in s.reg.lobbies && Snapshot(s.reg.lobbies[s.out.state.id]) == s.out.state
    && Localized(r, s.reg, s.out.state.id, a)
    && a in s.reg.membership && s.reg.membership[a] == s.out.state.id
  }

  lemma SettledIsLocal(r: Registry, a: AccountId, c: Command, now: Millis)
    requires Inv(r) && Apply(r, a, c, now).out.Settled?
    ensures LandsAt(r, a, Apply(r, a, c, now))
  {
    Registered(r, a);
    match c {
      case Create(_, _, _) => assert r.nextId in r.lobbies ==> EntryOk(r, r.nextId);
      case JoinByCode(username, code) =>
        assert CodeOk(r, code);
        assert EntryOk(r, r.byCode[code]);
      case JoinById(username, id) =>
        assert EntryOk(r, id);
      case SetPosition(_) => EditIsLocal(r, a, c, now);
      case SelectFleet(_) => EditIsLocal(r, a, c, now);
      case SetReady(_) => EditIsLocal(r, a, c, now);
      case ResyncFleet(_, _) => EditIsLocal(r, a, c, now);
      case Start =>
      case Modify(p) => ModifyIsLocal(r, a, p);
    }
  }

  lemma EditIsLocal(r: Registry, a: AccountId, c: Command, now: Millis)
    requires a in r.membership && r.membership[a] in r.lobbies && r.lobbies[r.membership[a]].id == r.membership[a]
    requires c.SetPosition? || c.SelectFleet? || c.SetReady? || c.ResyncFleet?
    requires Apply(r, a, c, now).out.Settled?
    ensures LandsAt(r, a, Apply(r, a, c, now))
  {
  }

  lemma ModifyIsLocal(r: Registry, a: AccountId, p: Patch)
    requires a in r.membership && r.membership[a] in r.lobbies && r.lobbies[r.membership[a]].id == r.membership[a]
    requires ModifyStep(r, a, p).out.Settled?
    ensures LandsAt(r, a, ModifyStep(r, a, p))
  {
  }

  lemma SettleReplicates(p: Protocol, a: AccountId, c: Command, now: Millis)
    requires Replicated(p) && (a in p.told || c.SelectFleet? || c.ResyncFleet?)
    requires !c.Leave? && !c.Kick? && !c.Disconnect?
    ensures Replicated(Settle(p, Apply(p.reg, a, c, now)))
  {
    var s := Apply(p.reg, a, c, now);
    var q := Settle(p, s);
    ApplyKeeps(p.reg, a, c, now);
    if s.out.Settled? {
      SettledIsLocal(p.reg, a, c, now);
      assert AccountOk(s.reg, a);
      ListedIsHeld(s.reg.lobbies[s.out.state.id], a);
      forall b | b in q.told ensures InStep(q, b) {
        Audience(p.reg, s.reg, s.out.state.id, a, b);
        assert InStep(p, b);
        if b !in s.reg.membership {
          Registered(p.reg, b);
        }
      }
      Registered(p.reg, a);
    }
  }

  lemma RemovalIsLocal(r: Registry, l: Lobby, gone: AccountId)
    requires Inv(r) && l.id in r.lobbies && r.lobbies[l.id] == l && Holds(l.members, gone)
    ensures var s := RemoveStep(r, l, gone);
      && Inv(s.reg) && Localized(r, s.reg, l.id, gone)
      && gone !in s.reg.membership && (forall b :: b in s.reg.membership ==> b in r.membership)
      && (s.out.remaining.Some? <==> l.id in s.reg.lobbies)
      && (s.out.remaining.Some? ==>
            s.out.remaining.value == Snapshot(s.reg.lobbies[l.id]) && !Listed(s.out.remaining.value, gone))
  {
    assert EntryOk(r, l.id);
    RemoveKeeps(r, l, gone);
    RemainingMembers(l, gone);
    var s := RemoveStep(r, l, gone);
    if s.out.remaining.Some? {
      ListedIsHeld(s.reg.lobbies[l.id], gone);
    }
  }

  /**
   * After a removal: everyone left in the lobby hears of it, and the account that went has to have
   * been sent an exit, or be gone from the connections.
   */
  lemma RemovalReplicates(p: Protocol, l: Lobby, gone: AccountId, told: map<AccountId, Option<ServerMessage>>)
    requires Replicated(p) && l.id in p.reg.lobbies && p.reg.lobbies[l.id] == l && Holds(l.members, gone)
    requires told.Keys == p.told.Keys || told.Keys == p.told.Keys - {gone}
    requires forall b :: b in told && b != gone ==> told[b] == p.told[b]
    ensures var s := RemoveStep(p.reg, l, gone);
      Replicated(Protocol(s.reg, Broadcast(s.reg, told, s.out.remaining), p.inFlight)) <==>
        (gone in told ==> told[gone].None? || told[gone].value.LobbyExit?)
  {
    var s := RemoveStep(p.reg, l, gone);
    var q := Protocol(s.reg, Broadcast(s.reg, told, s.out.remaining), p.inFlight);
    RemovalIsLocal(p.reg, l, gone);
    forall b | b in q.told && b != gone ensures InStep(q, b) {
      Audience(p.reg, s.reg, l.id, gone, b);
      assert InStep(p, b);
      Registered(p.reg, b);
    }
    if gone in q.told {
      Audience(p.reg, s.reg, l.id, gone, gone);
      assert InStep(q, gone) <==> told[gone].None? || told[gone].value.LobbyExit?;
    }
  }

  lemma DepartureReplicates(p: Protocol, a: AccountId, current: bool)
    requires Replicated(p) && a in p.told
    ensures Replicated(LeaveEvent(p, a, current)) <==> (current || a !in p.reg.membership)
    ensures Replicated(DetachStep(p, a))
  {
    Registered(p.reg, a);
    assert InStep(p, a);
    if a in p.reg.membership {
      assert AccountOk(p.reg, a);
      var l := p.reg.lobbies[p.reg.membership[a]];
      RemovalReplicates(p, l, a, if current then Tell(p.told, a, LobbyExit(Left)) else p.told);
      RemovalReplicates(p, l, a, p.told - {a});
    } else {
      var q := DetachStep(p, a);
      forall b | b in q.told ensures InStep(q, b) {
        assert InStep(p, b);
      }
    }
  }

  /**
   * A leave is replicated exactly when it came in on the account's registered connection, or changed
   * nothing: sent from a connection that has been replaced, the exit goes to the old tab and the new
   * one is left showing the lobby.
   */
  lemma LeaveReplicatesExactlyWhenCurrent(p: Protocol, a: AccountId, username: string, current: bool, now: Millis)
    requires Replicated(p) && a in p.told
    ensures Replicated(Next(p, Handle(a, username, LeaveRequest, current, now)))
      <==> (current || a !in p.reg.membership)
  {
    DepartureReplicates(p, a, current);
  }

  lemma KickReplicates(p: Protocol, a: AccountId, target: AccountId)
    requires Replicated(p)
    ensures Replicated(KickEvent(p, a, target))
  {
    Registered(p.reg, a);
    if KickStep(p.reg, a, target).out.Departed? {
      var l := p.reg.lobbies[p.reg.membership[a]];
      assert l.members[Find(l.members, target)].account == target;
      RemovalReplicates(p, l, target, Tell(p.told, target, LobbyExit(Kicked)));
    }
  }

  lemma AttachReplicates(p: Protocol, a: AccountId)
    requires Replicated(p)
    ensures Replicated(AttachStep(p, a))
  {
    var q := AttachStep(p, a);
    forall b | b in q.told ensures InStep(q, b) {
      assert b != a ==> InStep(p, b);
    }
  }

  lemma InFlightIsIrrelevant(p: Protocol, lookups: seq<Lookup>)
    requires Replicated(p)
    ensures Replicated(p.(inFlight := lookups))
  {
    var q := p.(inFlight := lookups);
    forall b | b in q.told ensures InStep(q, b) {
      assert InStep(p, b);
    }
  }

  lemma HandleReplicates(p: Protocol, a: AccountId, username: string, rq: Request, current: bool, now: Millis)
    requires Replicated(p) && Deliverable(p, Handle(a, username, rq, current, now))
    ensures Replicated(HandleStep(p, a, username, rq, current, now))
  {
    if Simple(rq) {
      SettleReplicates(p, a, CommandOf(username, rq), now);
    } else {
      match rq
      case LeaveRequest => DepartureReplicates(p, a, current);
      case KickRequest(target) => KickReplicates(p, a, target);
      case StartRequest =>
      case SelectFleetRequest(fleetId) =>
        InFlightIsIrrelevant(p, p.inFlight + [SelectLookup(a, fleetId.value)]);
    }
  }

  lemma LookupReplicates(p: Protocol, index: nat, reply: Reply)
    requires Replicated(p)
    ensures Replicated(LookupDoneStep(p, index, reply))
  {
    if index < |p.inFlight| {
      var q := p.(inFlight := p.inFlight[..index] + p.inFlight[index + 1..]);
      InFlightIsIrrelevant(p, q.inFlight);
      match p.inFlight[index]
      case SelectLookup(a, _) =>
        if reply.Found? {
          SettleReplicates(q, a, SelectFleet(Some(reply.fleet)), 0);
        }
      case ResyncLookup(a, fleetId) =>
        SettleReplicates(q, a, ResyncFleet(if reply.Found? then Some(reply.fleet) else None, fleetId), 0);
    }
  }

  /** Every deliverable event, whatever lookups are in the air, keeps every client in step. */
  lemma NextReplicates(p: Protocol, e: Event)
    requires Replicated(p) && Deliverable(p, e)
    ensures Replicated(Next(p, e))
  {
    match e {
      case Attach(a) => AttachReplicates(p, a);
      case Detach(a) =>
        if a in p.told {
          DepartureReplicates(p, a, true);
        } else {
          UnknownDetachReplicates(p, a);
        }
      case Handle(a, username, rq, current, now) => HandleReplicates(p, a, username, rq, current, now);
      case FleetChanged(a, fleetId) => InFlightIsIrrelevant(p, p.inFlight + [ResyncLookup(a, fleetId)]);
      case LookupDone(index, reply) => LookupReplicates(p, index, reply);
    }
  }

  lemma UnknownDetachReplicates(p: Protocol, a: AccountId)
    requires Replicated(p) && a !in p.told
    ensures Replicated(DetachStep(p, a))
  {
    Registered(p.reg, a);
    var q := DetachStep(p, a);
    assert q.told == p.told;
    assert q == p;
  }

  function Play(p: Protocol, events: seq<Event>): Protocol
    decreases |events|
  {
    if events == [] then p else Play(Next(p, events[0]), events[1..])
  }

  predicate DeliverableRun(p: Protocol, events: seq<Event>)
    decreases |events|
  {
    events != [] ==> Deliverable(p, events[0]) && DeliverableRun(Next(p, events[0]), events[1..])
  }

  lemma {:induction false} PlayReplicates(p: Protocol, events: seq<Event>)
    requires Replicated(p) && DeliverableRun(p, events)
    ensures Replicated(Play(p, events))
    decreases |events|
  {
    if events != [] {
      NextReplicates(p, events[0]);
      PlayReplicates(Next(p, events[0]), events[1..]);
    }
  }

  /**
   * From an idle server, after any run of connections, disconnections, commands, fleet edits and lookup
   * answers: every member of a lobby is connected, and every connected account was last sent exactly
   * the server's present snapshot of its lobby with its own fleet, or an exit or nothing if it is in none.
   */
  lemma EveryClientIsInStep(events: seq<Event>, a: AccountId)
    requires DeliverableRun(IDLE, events)
    ensures var p := Play(IDLE, events);
      && (a in p.reg.membership ==> a in p.told)
      && (a in p.told ==>
            if LobbyFor(p.reg, a).Some?
            then p.told[a] == Some(LobbyUpdate(LobbyFor(p.reg, a).value, ViewFor(p.reg, a)))
            else p.told[a].None? || p.told[a].value.LobbyExit?)
  {
    PlayReplicates(IDLE, events);
    var p := Play(IDLE, events);
    if a in p.told {
      assert InStep(p, a);
    }
  }
}
