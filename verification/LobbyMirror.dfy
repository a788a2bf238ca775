/**
 * What a member's screen shows, against the lobby itself, entry by entry
 * (packages/server/src/lobby/handler.ts:480-497, packages/server/src/lobby/service.ts:197-209 and 733-749).
 */
module LobbyMirror {
  import opened Options
  import opened LobbyTypes
  import opened LobbyRules
  import opened LobbyInvariants
  import opened LobbyTheorems
  import opened LobbyProtocol

  /** An entry as shown to everyone, and the member it is of. */
  predicate ShowsMember(e: PublicMember, m: Member) {
    && e.account == m.account && e.username == m.username
    && e.position == m.position && e.joinedAt == m.joinedAt
    && (e.hasFleet <==> m.fleet.Some?) && (e.ready <==> m.ready)
  }

  ghost predicate ShowsLobby(state: LobbyState, l: Lobby) {
    && state.id == l.id && state.code == l.code && state.host == l.host
    && state.settings == l.settings && state.createdAt == l.createdAt
    && |state.members| == |l.members|
    && forall i :: 0 <= i < |l.members| ==> ShowsMember(state.members[i], l.members[i])
  }

  /** The last message told this account is the lobby as it is, with its own fleet beside it. */
  ghost predicate Mirrors(m: ServerMessage, l: Lobby, a: AccountId) {
    && m.LobbyUpdate? && ShowsLobby(m.state, l)
    && exists i :: 0 <= i < |l.members| && l.members[i].account == a && m.you == l.members[i].fleet
  }

  lemma SnapshotShowsTheLobby(l: Lobby)
    ensures ShowsLobby(Snapshot(l), l)
  {
  }

  /**
   * After any deliverable run: a member was last told its lobby's host, code and settings and every entry's
   * account, name, seat, age, whether it has a fleet and whether it is ready, as they are, with the fleet it
   * has chosen itself; and whoever is in no lobby was last told nothing or an exit.
   */
  lemma MembersSeeTheirLobby(events: seq<Event>, a: AccountId)
    requires DeliverableRun(IDLE, events)
    ensures var p := Play(IDLE, events);
      if a in p.reg.membership then
        && p.reg.membership[a] in p.reg.lobbies
        && a in p.told && p.told[a].Some? && Mirrors(p.told[a].value, p.reg.lobbies[p.reg.membership[a]], a)
      else
        a in p.told ==> p.told[a].None? || p.told[a].value.LobbyExit?
  {
    PlayReplicates(IDLE, events);
    EveryClientIsInStep(events, a);
    var p := Play(IDLE, events);
    Registered(p.reg, a);
    if a in p.reg.membership {
      var l := p.reg.lobbies[p.reg.membership[a]];
      SnapshotShowsTheLobby(l);
      assert l.members[Find(l.members, a)].account == a;
    }
  }

  // ── Starting on what is shown ─────────────────────────────────────────────────────

  /** By what is shown, this account hosts, someone is on a team, and everyone on a team is ready. */
  ghost predicate ShowsAStart(state: LobbyState, a: AccountId) {
    && state.host == a
    && (exists i :: 0 <= i < |state.members| && state.members[i].position != Spectator)
    && forall i :: 0 <= i < |state.members| && state.members[i].position != Spectator ==> state.members[i].ready
  }

  lemma {:induction false} SomeonePlays(ms: seq<Member>)
    ensures PlayerCount(ms) > 0 <==> exists i :: 0 <= i < |ms| && ms[i].position != Spectator
  {
    if ms != [] {
      SomeonePlays(ms[1..]);
      if exists i :: 0 <= i < |ms| && ms[i].position != Spectator {
        var i :| 0 <= i < |ms| && ms[i].position != Spectator;
        assert i > 0 ==> ms[1..][i - 1] == ms[i];
      }
      if PlayerCount(ms[1..]) > 0 {
        var i :| 0 <= i < |ms[1..]| && ms[1..][i].position != Spectator;
        assert ms[i + 1] == ms[1..][i];
      }
    }
  }

  lemma StartsExactlyWhenShown(r: Registry, a: AccountId, state: LobbyState, now: Millis)
    requires Inv(r) && a in r.membership && r.membership[a] in r.lobbies && ShowsLobby(state, r.lobbies[r.membership[a]])
    ensures Apply(r, a, Command.Start, now).out.Settled? <==> ShowsAStart(state, a)
  {
    Registered(r, a);
    var ms := r.lobbies[r.membership[a]].members;
    SomeonePlays(ms);
    forall i | 0 <= i < |ms| ensures ShowsMember(state.members[i], ms[i]) {
    }
    if exists i :: 0 <= i < |ms| && ms[i].position != Spectator {
      var i :| 0 <= i < |ms| && ms[i].position != Spectator;
      assert state.members[i].position != Spectator;
    }
  }

  /**
   * After any deliverable run a start is authorized exactly when the state last told the one who asks names it
   * host and shows someone on a team and everyone on a team ready.
   */
  lemma StartIsAuthorizedExactlyAsShown(events: seq<Event>, a: AccountId, now: Millis)
    requires DeliverableRun(IDLE, events) && a in Play(IDLE, events).told
    ensures var p := Play(IDLE, events);
      Apply(p.reg, a, Command.Start, now).out.Settled? <==>
        p.told[a].Some? && p.told[a].value.LobbyUpdate? && ShowsAStart(p.told[a].value.state, a)
  {
    MembersSeeTheirLobby(events, a);
    PlayReplicates(IDLE, events);
    var p := Play(IDLE, events);
    Registered(p.reg, a);
    if a in p.reg.membership {
      StartsExactlyWhenShown(p.reg, a, p.told[a].value.state, now);
    }
  }

  /**
   * And the roster then handed on seats everyone where the host was shown them, each with the fleet that
   * member was itself last told it has.
   */
  lemma RosterIsAsShown(events: seq<Event>, a: AccountId, i: int)
    requires DeliverableRun(IDLE, events) && a in Play(IDLE, events).reg.membership
    requires var p := Play(IDLE, events);
      p.reg.membership[a] in p.reg.lobbies && 0 <= i < |p.reg.lobbies[p.reg.membership[a]].members|
    ensures var p := Play(IDLE, events);
      var roster := RosterOf(p.reg.lobbies[p.reg.membership[a]].members);
      && a in p.told && p.told[a].Some? && p.told[a].value.LobbyUpdate?
      && |roster| == |p.told[a].value.state.members|
      && var shown, b := p.told[a].value.state.members[i], roster[i].account;
      && roster[i].account == shown.account && roster[i].username == shown.username && roster[i].position == shown.position
      && b in p.told && p.told[b].Some? && p.told[b].value.LobbyUpdate?
      && roster[i].fleetId == if p.told[b].value.you.Some? then Some(p.told[b].value.you.value.id) else None
  {
    MembersSeeTheirLobby(events, a);
    PlayReplicates(IDLE, events);
    var p := Play(IDLE, events);
    var id := p.reg.membership[a];
    var l := p.reg.lobbies[id];
    assert EntryOk(p.reg, id);
    assert ShowsMember(p.told[a].value.state.members[i], l.members[i]);
    var b := l.members[i].account;
    MembersSeeTheirLobby(events, b);
    var k :| 0 <= k < |l.members| && l.members[k].account == b && p.told[b].value.you == l.members[k].fleet;
    assert k == i || k < i || i < k;
  }
}
