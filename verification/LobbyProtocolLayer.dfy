/**
 * The lobby's protocol layer in its own form (packages/server/src/lobby/handler.ts and
 * packages/server/src/realtime/connections.ts): a registry of live connections, each with the
 * messages it has been sent, and a handler that turns requests into service calls and sends.
 * Every method is proved to be the event `LobbyProtocol` gives it.
 */
module LobbyProtocolLayer {
  import opened Options
  import opened LobbyTypes
  import opened LobbyRules
  import opened LobbyInvariants
  import opened LobbyServer
  import opened LobbyProtocol

  /** The last message other than a refusal: what a client knows of its lobby. */
  function LastLobby(sent: seq<ServerMessage>): Option<ServerMessage> {
    if sent == [] then None
    else if sent[|sent| - 1].LobbyRejected? then LastLobby(sent[..|sent| - 1])
    else Some(sent[|sent| - 1])
  }

  lemma LastLobbyAfter(sent: seq<ServerMessage>, m: ServerMessage)
    ensures LastLobby(sent + [m]) == if m.LobbyRejected? then LastLobby(sent) else Some(m)
  {
    assert (sent + [m])[..|sent|] == sent;
  }

  /** The refusals among these messages, in order. */
  function Refusals(sent: seq<ServerMessage>): seq<ErrorCode> {
    if sent == [] then []
    else Refusals(sent[..|sent| - 1]) + Refusing(sent[|sent| - 1])
  }

  function Refusing(m: ServerMessage): seq<ErrorCode> {
    if m.LobbyRejected? then [m.code] else []
  }

  /** A list of refusals with one more, if there is one. */
  function And(refusals: seq<ErrorCode>, refusal: Option<ErrorCode>): seq<ErrorCode> {
    if refusal.Some? then refusals + [refusal.value] else refusals
  }

  lemma RefusalsAfter(sent: seq<ServerMessage>, m: ServerMessage)
    ensures Refusals(sent + [m]) == And(Refusals(sent), if m.LobbyRejected? then Some(m.code) else None)
  {
    assert (sent + [m])[..|sent|] == sent;
    assert Refusals(sent) + [] == Refusals(sent);
  }

  class PlayerConnection {
    const account: AccountId
    const username: string
    var sent: seq<ServerMessage>

    constructor (account: AccountId, username: string)
      ensures this.account == account && this.username == username && sent == []
    {
      this.account, this.username, sent := account, username, [];
    }

    method Send(m: ServerMessage)
      modifies this
      ensures sent == old(sent) + [m]
    {
      sent := sent + [m];
    }
  }

  class ConnectionRegistry {
    var byAccount: map<AccountId, PlayerConnection>

    ghost predicate Valid()
      reads this
    {
      forall a :: a in byAccount ==> byAccount[a].account == a
    }

    constructor ()
      ensures Valid() && byAccount == map[]
    {
      byAccount := map[];
    }

    /** The newest connection of an account takes the place of any other. */
    method Add(c: PlayerConnection)
      requires Valid()
      modifies this
      ensures Valid() && byAccount == old(byAccount)[c.account := c]
    {
      byAccount := byAccount[c.account := c];
    }

    /** Forget a connection, unless another has taken its place. */
    method Remove(c: PlayerConnection)
      requires Valid()
      modifies this
      ensures Valid()
      ensures byAccount == if c.account in old(byAccount) && old(byAccount)[c.account] == c
                           then old(byAccount) - {c.account} else old(byAccount)
    {
      if c.account in byAccount && byAccount[c.account] == c {
        byAccount := byAccount - {c.account};
      }
    }

    method RemoveById(a: AccountId)
      requires Valid()
      modifies this
      ensures Valid() && byAccount == old(byAccount) - {a}
    {
      byAccount := byAccount - {a};
    }

    /** Exactly the registered connection of `a` has one message more, and no connection has if there is none. */
    method Tell(a: AccountId, m: ServerMessage)
      requires Valid()
      modifies if a in byAccount then {byAccount[a]} else {}
      ensures a in byAccount ==> byAccount[a].sent == old(byAccount[a].sent) + [m]
    {
      if a in byAccount {
        byAccount[a].Send(m);
      }
    }
  }

  /** A fleet read the handler is waiting on. */
  datatype Pending =
    | SelectPending(connection: PlayerConnection, fleetId: FleetId)
    | ResyncPending(account: AccountId, fleetId: FleetId)

  function Awaited(p: Pending): Lookup {
    match p
    case SelectPending(c, fleetId) => SelectLookup(c.account, fleetId)
    case ResyncPending(a, fleetId) => ResyncLookup(a, fleetId)
  }

  function AwaitedAll(ps: seq<Pending>): seq<Lookup> {
    seq(|ps|, i requires 0 <= i < |ps| => Awaited(ps[i]))
  }

  class LobbyHandler {
    const service: LobbyService
    const connections: ConnectionRegistry
    var inFlight: seq<Pending>

    constructor (service: LobbyService, connections: ConnectionRegistry)
      ensures this.service == service && this.connections == connections && inFlight == []
    {
      this.service, this.connections, inFlight := service, connections, [];
    }

    ghost predicate Valid()
      reads this, service, service.lobbies.Values, connections
    {
      service.Valid() && connections.Valid()
    }

    ghost function Told(): map<AccountId, Option<ServerMessage>>
      reads connections, connections.byAccount.Values
    {
      map a | a in connections.byAccount :: LastLobby(connections.byAccount[a].sent)
    }

    /** The protocol state these objects stand for. */
    ghost function State(): Protocol
      reads this, service, service.lobbies.Values, connections, connections.byAccount.Values
    {
      Protocol(service.State(), Told(), AwaitedAll(inFlight))
    }

    predicate Current(c: PlayerConnection)
      reads connections
    {
      c.account in connections.byAccount && connections.byAccount[c.account] == c
    }

    // ── Outcomes ────────────────────────────────────────────────────────────────────

    ghost predicate DistinctlyListed(state: LobbyState) {
      forall i, j :: 0 <= i < j < |state.members| ==> state.members[i].account != state.members[j].account
    }

    function Copies(r: Registry, state: Option<LobbyState>, a: AccountId): seq<ServerMessage> {
      if state.Some? && Listed(state.value, a) then [Update(r, state.value, a)] else []
    }

    /** Everyone listed gets exactly one message, with their own fleet in it; nobody else gets any. */
    method Broadcast(state: Option<LobbyState>)
      requires Valid() && (state.Some? ==> DistinctlyListed(state.value))
      modifies connections.byAccount.Values
      ensures Valid() && service.State() == old(service.State())
      ensures forall a :: a in connections.byAccount ==>
        connections.byAccount[a].sent == old(connections.byAccount[a].sent) + Copies(service.State(), state, a)
      ensures Told() == LobbyProtocol.Broadcast(service.State(), old(Told()), state)
      ensures forall a :: a in connections.byAccount ==>
        Refusals(connections.byAccount[a].sent) == old(Refusals(connections.byAccount[a].sent))
    {
      if state.Some? {
        SendCopies(state.value);
      }
      BroadcastIsTold(state);
      BroadcastRefusesNobody(state);
    }

    /** The loop over the members. */
    method SendCopies(state: LobbyState)
      requires Valid() && DistinctlyListed(state)
      modifies connections.byAccount.Values
      ensures Valid() && service.State() == old(service.State())
      ensures forall a :: a in connections.byAccount ==>
        connections.byAccount[a].sent == old(connections.byAccount[a].sent) + Copies(service.State(), Some(state), a)
    {
      var ms := state.members;
      ghost var r := service.State();
      var i := 0;
      while i < |ms|
        invariant 0 <= i <= |ms|
        invariant forall a :: a in connections.byAccount ==>
          connections.byAccount[a].sent == old(connections.byAccount[a].sent)
            + (if ListedBefore(state, i, a) then [Update(r, state, a)] else [])
      {
        var a := ms[i].account;
        var fleet := service.ViewFor(a);
        assert !ListedBefore(state, i, a);
        assert forall b :: ListedBefore(state, i + 1, b) <==> ListedBefore(state, i, b) || b == a;
        connections.Tell(a, LobbyUpdate(state, fleet));
        i := i + 1;
      }
      assert forall a :: ListedBefore(state, |ms|, a) == Listed(state, a);
    }

    twostate lemma BroadcastRefusesNobody(state: Option<LobbyState>)
      requires connections.byAccount == old(connections.byAccount)
      requires forall a :: a in connections.byAccount ==>
        connections.byAccount[a].sent == old(connections.byAccount[a].sent) + Copies(service.State(), state, a)
      ensures forall a :: a in connections.byAccount ==>
        Refusals(connections.byAccount[a].sent) == old(Refusals(connections.byAccount[a].sent))
    {
      forall a | a in connections.byAccount
        ensures Refusals(connections.byAccount[a].sent) == old(Refusals(connections.byAccount[a].sent))
      {
        var was := old(connections.byAccount[a].sent);
        if state.Some? && Listed(state.value, a) {
          RefusalsAfter(was, Update(service.State(), state.value, a));
        } else {
          assert was + [] == was;
        }
      }
    }

    ghost predicate ListedBefore(state: LobbyState, n: int, a: AccountId) {
      exists i :: 0 <= i < n && i < |state.members| && state.members[i].account == a
    }

    twostate lemma BroadcastIsTold(state: Option<LobbyState>)
      requires connections.byAccount == old(connections.byAccount)
      requires forall a :: a in connections.byAccount ==>
        connections.byAccount[a].sent == old(connections.byAccount[a].sent) + Copies(service.State(), state, a)
      ensures Told() == LobbyProtocol.Broadcast(service.State(), old(Told()), state)
    {
      var x, y := Told(), LobbyProtocol.Broadcast(service.State(), old(Told()), state);
      assert forall a :: a in x <==> a in y;
      forall a | a in x ensures x[a] == y[a] {
        var was := old(connections.byAccount[a].sent);
        assert old(Told())[a] == LastLobby(was);
        if state.Some? && Listed(state.value, a) {
          LastLobbyAfter(was, Update(service.State(), state.value, a));
        } else {
          assert was + [] == was;
        }
      }
    }

    /** Sending to one connection changes what its account was last told, if it is the registered one. */
    twostate lemma SendIsTold(c: PlayerConnection)
      requires connections.byAccount == old(connections.byAccount)
      requires forall a :: a in connections.byAccount ==> connections.byAccount[a].account == a
      requires |c.sent| == |old(c.sent)| + 1 && c.sent[..|c.sent| - 1] == old(c.sent)
      requires forall a :: a in connections.byAccount && connections.byAccount[a] != c ==>
        connections.byAccount[a].sent == old(connections.byAccount[a].sent)
      ensures var m := c.sent[|c.sent| - 1];
        Told() == if Current(c) && !m.LobbyRejected? then old(Told())[c.account := Some(m)] else old(Told())
    {
      var m := c.sent[|c.sent| - 1];
      var y := if Current(c) && !m.LobbyRejected? then old(Told())[c.account := Some(m)] else old(Told());
      assert forall a :: a in Told() <==> a in y;
      forall a | a in Told() ensures Told()[a] == y[a] {
        assert old(Told())[a] == old(LastLobby(connections.byAccount[a].sent));
        if connections.byAccount[a] == c {
          assert a == c.account;
        }
      }
    }

    /** A connection that is not the one registered for its account is not registered at all. */
    lemma UnregisteredIsElsewhere(c: PlayerConnection)
      requires connections.Valid() && !Current(c)
      ensures c !in connections.byAccount.Values
    {
      assert forall a :: a in connections.byAccount ==> connections.byAccount[a] != c;
    }

    method Reject(c: PlayerConnection, code: ErrorCode)
      requires Valid()
      modifies c
      ensures Valid() && service.State() == old(service.State())
      ensures c.sent == old(c.sent) + [LobbyRejected(code)]
      ensures Refusals(c.sent) == And(old(Refusals(c.sent)), Some(code))
      ensures Told() == old(Told())
    {
      RefusalsAfter(c.sent, LobbyRejected(code));
      c.Send(LobbyRejected(code));
      SendIsTold(c);
    }

    /** Acceptance reaches exactly those the outcome lists, and a refusal reaches only the connection that asked. */
    method Settle(c: PlayerConnection, out: Outcome)
      requires Valid() && (out.Settled? ==> DistinctlyListed(out.state))
      modifies c, connections.byAccount.Values
      ensures Valid() && service.State() == old(service.State())
      ensures out.Settled? ==> Told() == LobbyProtocol.Broadcast(service.State(), old(Told()), Some(out.state))
      ensures !out.Settled? ==> Told() == old(Told())
      ensures out.Rejected? ==> c.sent == old(c.sent) + [LobbyRejected(out.code)]
      ensures Refusals(c.sent) == And(old(Refusals(c.sent)), Refusal(out))
    {
      if !Current(c) {
        UnregisteredIsElsewhere(c);
      }
      match out {
        case Rejected(code) => Reject(c, code);
        case Settled(state) => Broadcast(Some(state));
        case Departed(_, _) =>
        case Unchanged =>
        case Thrown =>
      }
    }

    // ── Connection lifecycle ────────────────────────────────────────────────────────

    /** The account of a fresh connection is now heard on it, and has been sent its lobby if it is in one. */
    method Attach(c: PlayerConnection)
      requires Valid() && c.sent == []
      modifies connections, c
      ensures Valid() && State() == Next(old(State()), LobbyProtocol.Attach(c.account))
      ensures Current(c)
    {
      connections.Add(c);
      Greet(c);
      AttachIsTold(c);
    }

    method Greet(c: PlayerConnection)
      requires Valid() && c.sent == []
      modifies c
      ensures Valid() && service.State() == old(service.State())
      ensures var existing := LobbyFor(service.State(), c.account);
        LastLobby(c.sent) == if existing.Some? then Some(Update(service.State(), existing.value, c.account)) else None
    {
      var existing := service.LobbyFor(c.account);
      if existing.Some? {
        var fleet := service.ViewFor(c.account);
        c.Send(LobbyUpdate(existing.value, fleet));
        LastLobbyAfter([], LobbyUpdate(existing.value, fleet));
      }
    }

    /** A fresh connection brings its own history in place of its predecessor's. */
    twostate lemma AttachIsTold(c: PlayerConnection)
      requires connections.byAccount == old(connections.byAccount)[c.account := c]
      requires forall a :: a in old(connections.byAccount) && a != c.account ==>
        connections.byAccount[a].sent == old(connections.byAccount[a].sent)
      ensures Told() == old(Told())[c.account := LastLobby(c.sent)]
    {
      var x, y := Told(), old(Told())[c.account := LastLobby(c.sent)];
      assert forall a :: a in x <==> a in y;
      forall a | a in x ensures x[a] == y[a] {
        assert a != c.account ==> old(Told())[a] == old(LastLobby(connections.byAccount[a].sent));
      }
    }

    /** A socket dropped: forget it, and take its player out of any lobby. */
    method Detach(a: AccountId)
      requires Valid()
      modifies service.Repr(), connections, connections.byAccount.Values
      ensures Valid() && State() == Next(old(State()), LobbyProtocol.Detach(a))
    {
      connections.RemoveById(a);
      assert Told() == old(Told()) - {a};
      Withdraw(a);
    }

    method Withdraw(a: AccountId)
      requires Valid()
      modifies service.Repr(), connections.byAccount.Values
      ensures Valid() && inFlight == old(inFlight)
      ensures var s := DisconnectStep(old(service.State()), a);
        && service.State() == s.reg
        && Told() == LobbyProtocol.Broadcast(s.reg, old(Told()), if s.out.Departed? then s.out.remaining else None)
    {
      var out := Perform(a, Disconnect, 0);
      if out.Departed? {
        Broadcast(out.remaining);
      }
    }

    twostate lemma SameTold()
      requires connections.byAccount == old(connections.byAccount)
      requires forall a :: a in connections.byAccount ==> unchanged(connections.byAccount[a])
      ensures Told() == old(Told())
    {
      var x, y := Told(), old(Told());
      assert forall a :: a in x <==> a in y;
      forall a | a in x ensures x[a] == y[a] {
        assert y[a] == old(LastLobby(connections.byAccount[a].sent));
      }
    }

    // ── Requests ────────────────────────────────────────────────────────────────────

    /** A settling command reaches the service, and its outcome reaches everyone it concerns. */
    method HandleSettling(c: PlayerConnection, command: Command, now: Millis)
      requires Valid() && Settles(command)
      modifies service.Repr(), c, connections.byAccount.Values
      ensures Valid()
      ensures State() == LobbyProtocol.Settle(old(State()), Apply(old(service.State()), c.account, command, now))
      ensures var out := Apply(old(service.State()), c.account, command, now).out;
        out.Rejected? ==> c.sent == old(c.sent) + [LobbyRejected(out.code)]
      ensures Refusals(c.sent)
        == And(old(Refusals(c.sent)), Refusal(Apply(old(service.State()), c.account, command, now).out))
    {
      var out := Perform(c.account, command, now);
      Settle(c, out);
    }

    /** The service takes the step of a command, and nobody has been told anything yet. */
    method Perform(a: AccountId, command: Command, now: Millis) returns (out: Outcome)
      requires Valid()
      modifies service.Repr()
      ensures Valid() && Told() == old(Told())
      ensures Step(service.State(), out) == Apply(old(service.State()), a, command, now)
      ensures DistinctOutcome(out) && (command.Leave? || command.Kick? ==> out.Rejected? || out.Departed?)
    {
      OutcomeIsDistinct(service.State(), a, command, now);
      out := Call(a, command, now);
      SameTold();
    }

    /** The service method behind a command. */
    method Call(a: AccountId, command: Command, now: Millis) returns (out: Outcome)
      requires service.Valid()
      modifies service.Repr()
      ensures service.Valid()
      ensures Step(service.State(), out) == Apply(old(service.State()), a, command, now)
      ensures command.Leave? || command.Kick? ==> out.Rejected? || out.Departed?
    {
      match command {
        case Create(username, name, draws) => out := service.Create(a, username, name, draws, now);
        case JoinByCode(username, code) => out := service.JoinByCode(a, username, code, now);
        case JoinById(username, id) => out := service.JoinById(a, username, id, now);
        case SetPosition(position) => out := service.SetPosition(a, position);
        case SelectFleet(fleet) => out := service.SelectFleet(a, fleet);
        case SetReady(ready) => out := service.SetReady(a, ready);
        case Start => out := service.Start(a);
        case ResyncFleet(saved, fleetId) => out := service.ResyncFleet(a, saved, fleetId);
        case Leave => out := service.Leave(a);
        case Kick(target) => out := service.Kick(a, target);
        case Modify(patch) => out := service.Modify(a, patch);
        case Disconnect => out := service.Disconnect(a);
      }
    }

    /** The lobby an outcome shows lists nobody twice. */
    ghost predicate DistinctOutcome(out: Outcome) {
      && (out.Settled? ==> DistinctlyListed(out.state))
      && (out.Departed? && out.remaining.Some? ==> DistinctlyListed(out.remaining.value))
    }

    lemma OutcomeIsDistinct(r: Registry, a: AccountId, command: Command, now: Millis)
      requires Inv(r)
      ensures DistinctOutcome(Apply(r, a, command, now).out)
    {
      Registered(r, a);
      if Apply(r, a, command, now).out.Settled? {
        SettledIsDistinct(r, a, command, now);
      } else if Apply(r, a, command, now).out.Departed? {
        var l := r.lobbies[r.membership[a]];
        RemainderIsDistinct(r, l, if command.Kick? then command.target else a);
      }
    }

    lemma SettledIsDistinct(r: Registry, a: AccountId, command: Command, now: Millis)
      requires Inv(r) && Apply(r, a, command, now).out.Settled?
      ensures DistinctlyListed(Apply(r, a, command, now).out.state)
    {
      LobbyTheorems.ApplyKeeps(r, a, command, now);
      SettledIsLocal(r, a, command, now);
      var s := Apply(r, a, command, now);
      assert EntryOk(s.reg, s.out.state.id);
    }

    lemma RemainderIsDistinct(r: Registry, l: Lobby, gone: AccountId)
      requires Inv(r) && l.id in r.lobbies && r.lobbies[l.id] == l && Holds(l.members, gone)
      ensures DistinctOutcome(RemoveStep(r, l, gone).out)
    {
      RemovalIsLocal(r, l, gone);
      var s := RemoveStep(r, l, gone);
      if s.out.remaining.Some? {
        assert EntryOk(s.reg, l.id);
      }
    }

    method HandleLeave(c: PlayerConnection)
      requires Valid()
      modifies service.Repr(), c, connections.byAccount.Values
      ensures Valid() && State() == LeaveEvent(old(State()), c.account, Current(c))
      ensures var out := LeaveStep(old(service.State()), c.account).out;
        out.Rejected? ==> c.sent == old(c.sent) + [LobbyRejected(out.code)]
      ensures Refusals(c.sent) == And(old(Refusals(c.sent)), Refusal(LeaveStep(old(service.State()), c.account).out))
    {
      var out := Perform(c.account, Leave, 0);
      Exit(c, out);
    }

    /** The exit goes down the connection that asked, current or not; those still listed are sent the remainder. */
    method Exit(c: PlayerConnection, out: Outcome)
      requires Valid() && (out.Rejected? || out.Departed?)
      requires out.Departed? && out.remaining.Some? ==> DistinctlyListed(out.remaining.value)
      modifies c, connections.byAccount.Values
      ensures Valid() && service.State() == old(service.State())
      ensures out.Rejected? ==> Told() == old(Told()) && c.sent == old(c.sent) + [LobbyRejected(out.code)]
      ensures out.Departed? ==>
        Told() == LobbyProtocol.Broadcast(service.State(),
                    if Current(c) then LobbyProtocol.Tell(old(Told()), c.account, LobbyExit(ExitReason.Left)) else old(Told()),
                    out.remaining)
      ensures Refusals(c.sent) == And(old(Refusals(c.sent)), Refusal(out))
    {
      if out.Rejected? {
        Reject(c, out.code);
      } else {
        RefusalsAfter(c.sent, LobbyExit(ExitReason.Left));
        c.Send(LobbyExit(ExitReason.Left));
        SendIsTold(c);
        Broadcast(out.remaining);
      }
    }

    method HandleKick(c: PlayerConnection, target: AccountId)
      requires Valid()
      modifies service.Repr(), c, connections.byAccount.Values
      ensures Valid() && State() == KickEvent(old(State()), c.account, target)
      ensures var out := KickStep(old(service.State()), c.account, target).out;
        out.Rejected? ==> c.sent == old(c.sent) + [LobbyRejected(out.code)]
      ensures Refusals(c.sent) == And(old(Refusals(c.sent)), Refusal(KickStep(old(service.State()), c.account, target).out))
    {
      var out := Perform(c.account, Kick(target), 0);
      Expel(c, target, out);
    }

    /** The exit goes to the target's registered connection, and those still listed are sent the remainder. */
    method Expel(c: PlayerConnection, target: AccountId, out: Outcome)
      requires Valid() && (out.Rejected? || out.Departed?)
      requires out.Departed? && out.remaining.Some? ==> DistinctlyListed(out.remaining.value)
      modifies c, connections.byAccount.Values
      ensures Valid() && service.State() == old(service.State())
      ensures out.Rejected? ==> Told() == old(Told()) && c.sent == old(c.sent) + [LobbyRejected(out.code)]
      ensures out.Departed? ==>
        Told() == LobbyProtocol.Broadcast(service.State(),
                    LobbyProtocol.Tell(old(Told()), target, LobbyExit(Kicked)), out.remaining)
      ensures Refusals(c.sent) == And(old(Refusals(c.sent)), Refusal(out))
    {
      if out.Rejected? {
        Reject(c, out.code);
      } else {
        if !Current(c) {
          UnregisteredIsElsewhere(c);
        }
        TellExit(target);
        Broadcast(out.remaining);
      }
    }

    method TellExit(target: AccountId)
      requires Valid()
      modifies connections.byAccount.Values
      ensures Valid() && service.State() == old(service.State())
      ensures Told() == LobbyProtocol.Tell(old(Told()), target, LobbyExit(Kicked))
      ensures forall a :: a in connections.byAccount ==>
        Refusals(connections.byAccount[a].sent) == old(Refusals(connections.byAccount[a].sent))
    {
      if target in connections.byAccount {
        RefusalsAfter(connections.byAccount[target].sent, LobbyExit(Kicked));
      }
      connections.Tell(target, LobbyExit(Kicked));
      if target in connections.byAccount {
        SendIsTold(connections.byAccount[target]);
      } else {
        SameTold();
      }
    }

    /** One more fleet lookup in the air, and nothing else changes. */
    method Await(p: Pending)
      requires Valid()
      modifies this
      ensures Valid() && inFlight == old(inFlight) + [p]
      ensures State() == old(State()).(inFlight := old(State()).inFlight + [Awaited(p)])
    {
      inFlight := inFlight + [p];
      SameTold();
      assert AwaitedAll(inFlight) == AwaitedAll(old(inFlight)) + [Awaited(p)];
    }

    /** Naming a fleet starts a lookup, answered by `LookupAnswered` whenever it may be; naming none settles at once. */
    method HandleSelectFleet(c: PlayerConnection, fleetId: Option<FleetId>, now: Millis)
      requires Valid()
      modifies this, service.Repr(), c, connections.byAccount.Values
      ensures Valid()
      ensures State() == HandleStep(old(State()), c.account, c.username, SelectFleetRequest(fleetId), Current(c), now)
      ensures Refusals(c.sent)
        == And(old(Refusals(c.sent)), RefusalOf(old(State()), c.account, c.username, SelectFleetRequest(fleetId), now))
    {
      if fleetId.None? {
        HandleSettling(c, CommandOf(c.username, SelectFleetRequest(None)), now);
      } else {
        Await(SelectPending(c, fleetId.value));
      }
    }

    /**
     * Authorize a start. What goes to the match starter is the roster as it stands now: everyone on a
     * team comes with the fleet they were ready with.
     */
    method HandleStart(c: PlayerConnection) returns (began: Option<seq<RosterEntry>>)
      requires Valid()
      modifies c
      ensures Valid() && State() == old(State())
      ensures began.Some? <==> StartStep(service.State(), c.account).out.Settled?
      ensures began.Some? ==>
        began.value == RosterOf(RequireLobby(service.State(), c.account).value.members)
      ensures began.None? ==> c.sent == old(c.sent) + [LobbyRejected(StartStep(service.State(), c.account).out.code)]
      ensures Refusals(c.sent) == And(old(Refusals(c.sent)), Refusal(StartStep(service.State(), c.account).out))
    {
      var out := service.Start(c.account);
      match out {
        case Rejected(code) =>
          Reject(c, code);
          began := None;
        case Settled(state) =>
          Registered(service.State(), c.account);
          var roster := service.Roster(state.id);
          began := Some(roster);
        case Departed(_, _) =>
          began := None;
        case Unchanged =>
          began := None;
        case Thrown =>
          began := None;
      }
    }

    /** Every request off the wire takes the protocol's step for it. */
    method Handle(c: PlayerConnection, rq: Request, now: Millis)
      requires Valid()
      modifies this, service.Repr(), c, connections.byAccount.Values
      ensures Valid()
      ensures State() == Next(old(State()), LobbyProtocol.Handle(c.account, c.username, rq, Current(c), now))
      ensures Refusals(c.sent) == And(old(Refusals(c.sent)), RefusalOf(old(State()), c.account, c.username, rq, now))
    {
      if rq.SelectFleetRequest? {
        HandleSelectFleet(c, rq.fleetId, now);
      } else if Simple(rq) {
        HandleSimple(c, rq, now);
      } else {
        HandleSpecial(c, rq, now);
      }
    }

    /** The requests that are one service call. */
    method HandleSimple(c: PlayerConnection, rq: Request, now: Millis)
      requires Valid() && Simple(rq)
      modifies service.Repr(), c, connections.byAccount.Values
      ensures Valid()
      ensures State() == HandleStep(old(State()), c.account, c.username, rq, Current(c), now)
      ensures Refusals(c.sent) == And(old(Refusals(c.sent)), RefusalOf(old(State()), c.account, c.username, rq, now))
    {
      HandleSettling(c, CommandOf(c.username, rq), now);
    }

    /** The requests that do more, or less, than call the service and broadcast. */
    method HandleSpecial(c: PlayerConnection, rq: Request, now: Millis)
      requires Valid() && !Simple(rq) && !rq.SelectFleetRequest?
      modifies service.Repr(), c, connections.byAccount.Values
      ensures Valid()
      ensures State() == HandleStep(old(State()), c.account, c.username, rq, Current(c), now)
      ensures Refusals(c.sent) == And(old(Refusals(c.sent)), RefusalOf(old(State()), c.account, c.username, rq, now))
    {
      match rq {
        case LeaveRequest => HandleLeave(c);
        case KickRequest(target) => HandleKick(c, target);
        case StartRequest => var _ := HandleStart(c);
      }
    }

    // ── Saved fleets ────────────────────────────────────────────────────────────────

    /** A lookup is started exactly when the owner of the fleet is in a lobby. */
    method FleetChanged(a: AccountId, fleetId: FleetId)
      requires Valid()
      modifies this
      ensures Valid() && State() == Next(old(State()), LobbyProtocol.FleetChanged(a, fleetId))
    {
      var state := service.LobbyFor(a);
      if state.Some? {
        Await(ResyncPending(a, fleetId));
      } else {
        SameTold();
      }
    }

    /** One of the reads in flight comes back: any one of them, whenever it likes. */
    method LookupAnswered(index: nat, reply: Reply)
      requires Valid() && index < |inFlight|
      modifies this, service.Repr(), connections.byAccount.Values
      modifies if inFlight[index].SelectPending? then {inFlight[index].connection} else {}
      ensures Valid()
      ensures State() == Next(old(State()), LookupDone(index, reply))
      ensures var pending := old(inFlight[index]);
        pending.SelectPending? ==>
          Refusals(pending.connection.sent) == And(old(Refusals(pending.connection.sent)),
                                                   LookupRefusal(old(State()), Awaited(pending), reply))
    {
      var pending := inFlight[index];
      inFlight := inFlight[..index] + inFlight[index + 1..];
      assert AwaitedAll(inFlight) == old(State()).inFlight[..index] + old(State()).inFlight[index + 1..];
      SameTold();
      label Taken:
      match pending {
        case SelectPending(c, _) =>
          if reply.Found? {
            HandleSettling(c, SelectFleet(Some(reply.fleet)), 0);
          } else {
            Reject(c, if reply.Missing? then NotFound else BadRequest);
          }
        case ResyncPending(a, fleetId) =>
          if !reply.Failed? {
            Resync(a, if reply.Found? then Some(reply.fleet) else None, fleetId);
          }
      }
    }

    /** Fold a re-read fleet into the selection that names it, and tell the lobby if anything moved. */
    method Resync(a: AccountId, saved: Option<Fleet>, fleetId: FleetId)
      requires Valid()
      modifies service.Repr(), connections.byAccount.Values
      ensures Valid()
      ensures State() == LobbyProtocol.Settle(old(State()),
                           Apply(old(service.State()), a, ResyncFleet(saved, fleetId), 0))
    {
      var out := Perform(a, ResyncFleet(saved, fleetId), 0);
      if out.Settled? {
        Broadcast(Some(out.state));
      }
    }
  }
}
