/**
 * A chosen fleet is its owner's business (`broadcast` in packages/server/src/lobby/handler.ts): two runs
 * of the server in which everything is the same but the fleets one player chose tell every other player
 * the same, as long as the budget judges the fleets alike.
 */
module LobbyPrivacy {
  import opened Options
  import opened LobbyTypes
  import opened LobbyRules
  import opened LobbyInvariants
  import opened LobbyTheorems
  import opened LobbyProtocol

  // ── Alike but for one player's fleets ─────────────────────────────────────────────

  predicate MemberAlike(m: Member, n: Member, v: AccountId) {
    && m == n.(fleet := m.fleet)
    && (m.fleet.Some? <==> n.fleet.Some?)
    && (m.account != v ==> m.fleet == n.fleet)
  }

  ghost predicate RosterAlike(ms: seq<Member>, ns: seq<Member>, v: AccountId) {
    |ms| == |ns| && forall i :: 0 <= i < |ms| ==> MemberAlike(ms[i], ns[i], v)
  }

  ghost predicate LobbyAlike(k: Lobby, l: Lobby, v: AccountId) {
    k == l.(members := k.members) && RosterAlike(k.members, l.members, v)
  }

  /** The same registry, but for what fleet `v` has chosen where it has chosen one. */
  ghost predicate RegistryAlike(q: Registry, r: Registry, v: AccountId) {
    && q == r.(lobbies := q.lobbies)
    && q.lobbies.Keys == r.lobbies.Keys
    && forall id :: id in q.lobbies ==> LobbyAlike(q.lobbies[id], r.lobbies[id], v)
  }

  ghost predicate StepAlike(s: LobbyRules.Step, t: LobbyRules.Step, v: AccountId) {
    s.out == t.out && RegistryAlike(s.reg, t.reg, v)
  }

  predicate Over(fleet: Option<Fleet>, budget: int) {
    fleet.Some? && fleet.value.points > budget
  }

  /** The budget judges two fleets alike. */
  predicate JudgedAlike(f: Option<Fleet>, g: Option<Fleet>, budget: int) {
    Over(f, budget) <==> Over(g, budget)
  }

  /** The budget of the lobby an account is in. */
  function BudgetOf(r: Registry, a: AccountId): int {
    var l := RequireLobby(r, a);
    if l.Some? then l.value.settings.fleetPoints else 0
  }

  predicate Names(fleet: Option<Fleet>, id: FleetId) {
    fleet.Some? && fleet.value.id == id
  }

  /** A fleet of `v` read again in both: it is chosen in both or in neither, and changes in both or in neither. */
  predicate ReadAlike(q: Registry, r: Registry, v: AccountId, c: Command, d: Command)
    requires c.ResyncFleet? && d.ResyncFleet?
  {
    var f, g := ViewFor(q, v), ViewFor(r, v);
    && (Names(f, c.fleetId) <==> Names(g, d.fleetId))
    && (c.saved.Some? <==> d.saved.Some?) && JudgedAlike(c.saved, d.saved, BudgetOf(r, v))
    && (c.saved == f <==> d.saved == g)
  }

  /**
   * The same command of the same account; or two choices of `v`, or two readings of its fleet, that the
   * budget judges alike. A new budget must judge the fleets `v` has chosen alike too.
   */
  predicate CommandAlike(q: Registry, r: Registry, v: AccountId, a: AccountId, c: Command, d: Command) {
    if c.SelectFleet? && d.SelectFleet? && a == v then
      (c.fleet.Some? <==> d.fleet.Some?) && JudgedAlike(c.fleet, d.fleet, BudgetOf(r, v))
    else if c.ResyncFleet? && d.ResyncFleet? && a == v then
      ReadAlike(q, r, v, c, d)
    else
      && c == d
      && (c.Modify? && c.patch.fleetPoints.Some? ==>
            JudgedAlike(ViewFor(q, v), ViewFor(r, v), c.patch.fleetPoints.value.Floor))
  }

  // ── What is alike looks alike ─────────────────────────────────────────────────────

  lemma AlikeShowsTheSame(k: Lobby, l: Lobby, v: AccountId)
    requires LobbyAlike(k, l, v)
    ensures Snapshot(k) == Snapshot(l)
  {
    forall i | 0 <= i < |k.members| ensures PublicView(k.members[i]) == PublicView(l.members[i]) {
      assert MemberAlike(k.members[i], l.members[i], v);
    }
    assert Snapshot(k).members == Snapshot(l).members;
  }

  lemma TailsAlike(ms: seq<Member>, ns: seq<Member>, v: AccountId)
    requires RosterAlike(ms, ns, v) && ms != []
    ensures RosterAlike(ms[1..], ns[1..], v) && MemberAlike(ms[0], ns[0], v)
  {
    forall i | 0 <= i < |ms| - 1 ensures MemberAlike(ms[1..][i], ns[1..][i], v) {
      assert MemberAlike(ms[i + 1], ns[i + 1], v);
    }
  }

  lemma {:induction false} FoundAlike(ms: seq<Member>, ns: seq<Member>, v: AccountId, a: AccountId)
    requires RosterAlike(ms, ns, v)
    ensures Find(ms, a) == Find(ns, a)
  {
    if ms != [] {
      TailsAlike(ms, ns, v);
      FoundAlike(ms[1..], ns[1..], v, a);
    }
  }

  lemma {:induction false} WithoutAlike(ms: seq<Member>, ns: seq<Member>, v: AccountId, a: AccountId)
    requires RosterAlike(ms, ns, v)
    ensures RosterAlike(Without(ms, a), Without(ns, a), v)
  {
    if ms != [] {
      TailsAlike(ms, ns, v);
      WithoutAlike(ms[1..], ns[1..], v, a);
    }
  }

  lemma CountedAlike(ms: seq<Member>, ns: seq<Member>, v: AccountId)
    requires RosterAlike(ms, ns, v)
    ensures forall p :: PositionCount(ms, p) == PositionCount(ns, p)
    ensures PlayerCount(ms) == PlayerCount(ns) && (EveryoneReady(ms) <==> EveryoneReady(ns))
  {
    forall i | 0 <= i < |ms| ensures ms[i].position == ns[i].position && ms[i].ready == ns[i].ready {
      assert MemberAlike(ms[i], ns[i], v);
    }
    forall p ensures PositionCount(ms, p) == PositionCount(ns, p) {
      SamePositionsSameCount(ms, ns, p);
    }
    PlayersAreTheTeams(ms);
    PlayersAreTheTeams(ns);
  }

  lemma HeirAlike(ms: seq<Member>, ns: seq<Member>, v: AccountId)
    requires RosterAlike(ms, ns, v) && ms != []
    ensures Heir(ms).account == Heir(ns).account
  {
    HeirIsLongestSeated(ms);
    HeirIsLongestSeated(ns);
    var i :| IsHeir(ms, i) && Heir(ms) == ms[i];
    var j :| IsHeir(ns, j) && Heir(ns) == ns[j];
    forall k | 0 <= k < |ms| ensures ms[k].position == ns[k].position && ms[k].joinedAt == ns[k].joinedAt {
      assert MemberAlike(ms[k], ns[k], v);
    }
    assert MemberAlike(ms[i], ns[i], v);
    assert i == j;
  }

  lemma FoundLobbyAlike(q: Registry, r: Registry, v: AccountId, a: AccountId)
    requires RegistryAlike(q, r, v)
    ensures RequireLobby(q, a).Some? <==> RequireLobby(r, a).Some?
    ensures RequireLobby(q, a).Some? ==> LobbyAlike(RequireLobby(q, a).value, RequireLobby(r, a).value, v)
    ensures LobbyFor(q, a) == LobbyFor(r, a)
    ensures a != v ==> ViewFor(q, a) == ViewFor(r, a)
  {
    assert q.membership == r.membership;
    assert forall id :: id in q.lobbies <==> id in r.lobbies by {
      assert forall id :: id in q.lobbies.Keys <==> id in r.lobbies.Keys;
    }
    if RequireLobby(q, a).Some? {
      var id := q.membership[a];
      var k, l := q.lobbies[id], r.lobbies[id];
      assert LobbyAlike(k, l, v);
      AlikeShowsTheSame(k, l, v);
      FoundAlike(k.members, l.members, v, a);
      var i := Find(k.members, a);
      assert i >= 0 ==> MemberAlike(k.members[i], l.members[i], v);
    }
  }

  lemma PutAlike(q: Registry, r: Registry, v: AccountId, k: Lobby, l: Lobby)
    requires RegistryAlike(q, r, v) && LobbyAlike(k, l, v)
    ensures RegistryAlike(Put(q, k), Put(r, l), v)
  {
  }

  // ── Command by command ────────────────────────────────────────────────────────────

  lemma ReseatAlike(q: Registry, r: Registry, v: AccountId, k: Lobby, l: Lobby, i: int, m: Member, n: Member)
    requires RegistryAlike(q, r, v) && LobbyAlike(k, l, v) && 0 <= i < |k.members| && MemberAlike(m, n, v)
    ensures StepAlike(Reseat(q, k, i, m), Reseat(r, l, i, n), v)
  {
    var k', l' := k.(members := k.members[i := m]), l.(members := l.members[i := n]);
    assert LobbyAlike(k', l', v);
    PutAlike(q, r, v, k', l');
    AlikeShowsTheSame(k', l', v);
  }

  lemma CreateAlike(q: Registry, r: Registry, v: AccountId, a: AccountId, c: Command, now: Millis)
    requires RegistryAlike(q, r, v) && c.Create?
    ensures StepAlike(Apply(q, a, c, now), Apply(r, a, c, now), v)
  {
  }

  lemma JoinAlike(q: Registry, r: Registry, v: AccountId, a: AccountId, username: string, id: LobbyId, now: Millis)
    requires RegistryAlike(q, r, v)
    ensures StepAlike(JoinStep(q, a, username, id, now), JoinStep(r, a, username, id, now), v)
  {
    if id in q.lobbies {
      var k, l := q.lobbies[id], r.lobbies[id];
      CountedAlike(k.members, l.members, v);
      var p := FirstOpenPosition(k);
      assert p == FirstOpenPosition(l);
      if p.Some? {
        var m := Member(a, username, p.value, now, None, false);
        var k', l' := k.(members := k.members + [m]), l.(members := l.members + [m]);
        assert RosterAlike(k'.members, l'.members, v);
        AlikeShowsTheSame(k', l', v);
      }
    }
  }

  lemma RoomAlike(k: Lobby, l: Lobby, v: AccountId, p: Position, a: AccountId)
    requires LobbyAlike(k, l, v)
    ensures CapacityFor(k, p, a) == CapacityFor(l, p, a)
  {
    WithoutAlike(k.members, l.members, v, a);
    CountedAlike(Without(k.members, a), Without(l.members, a), v);
  }

  lemma SetPositionAlike(q: Registry, r: Registry, v: AccountId, a: AccountId, p: Position)
    requires RegistryAlike(q, r, v)
    ensures StepAlike(SetPositionStep(q, a, p), SetPositionStep(r, a, p), v)
  {
    FoundLobbyAlike(q, r, v, a);
    if RequireLobby(q, a).Some? {
      var k, l := RequireLobby(q, a).value, RequireLobby(r, a).value;
      var i := Find(k.members, a);
      FoundAlike(k.members, l.members, v, a);
      AlikeShowsTheSame(k, l, v);
      RoomAlike(k, l, v, p, a);
      if i >= 0 {
        var m, n := k.members[i], l.members[i];
        assert MemberAlike(m, n, v);
        ReseatAlike(q, r, v, k, l, i, m.(position := p, ready := m.ready && p != Spectator),
                    n.(position := p, ready := n.ready && p != Spectator));
      }
    }
  }

  lemma SelectFleetAlike(q: Registry, r: Registry, v: AccountId, a: AccountId, f: Option<Fleet>, g: Option<Fleet>)
    requires RegistryAlike(q, r, v) && (f.Some? <==> g.Some?)
    requires if a == v then JudgedAlike(f, g, BudgetOf(r, v)) else f == g
    ensures StepAlike(SelectFleetStep(q, a, f), SelectFleetStep(r, a, g), v)
  {
    FoundLobbyAlike(q, r, v, a);
    if RequireLobby(q, a).Some? {
      var k, l := RequireLobby(q, a).value, RequireLobby(r, a).value;
      var i := Find(k.members, a);
      FoundAlike(k.members, l.members, v, a);
      if i >= 0 {
        assert MemberAlike(k.members[i], l.members[i], v);
        ReseatAlike(q, r, v, k, l, i, k.members[i].(fleet := f, ready := false), l.members[i].(fleet := g, ready := false));
      }
    }
  }

  lemma SetReadyAlike(q: Registry, r: Registry, v: AccountId, a: AccountId, ready: bool)
    requires RegistryAlike(q, r, v)
    ensures StepAlike(SetReadyStep(q, a, ready), SetReadyStep(r, a, ready), v)
  {
    FoundLobbyAlike(q, r, v, a);
    if RequireLobby(q, a).Some? {
      var k, l := RequireLobby(q, a).value, RequireLobby(r, a).value;
      var i := Find(k.members, a);
      FoundAlike(k.members, l.members, v, a);
      if i >= 0 {
        assert MemberAlike(k.members[i], l.members[i], v);
        ReseatAlike(q, r, v, k, l, i, k.members[i].(ready := ready), l.members[i].(ready := ready));
      }
    }
  }

  lemma StartAlike(q: Registry, r: Registry, v: AccountId, a: AccountId)
    requires RegistryAlike(q, r, v)
    ensures StepAlike(StartStep(q, a), StartStep(r, a), v)
  {
    FoundLobbyAlike(q, r, v, a);
    if RequireLobby(q, a).Some? {
      var k, l := RequireLobby(q, a).value, RequireLobby(r, a).value;
      CountedAlike(k.members, l.members, v);
      AlikeShowsTheSame(k, l, v);
    }
  }

  lemma ResyncOfAnotherAlike(q: Registry, r: Registry, v: AccountId, a: AccountId, c: Command)
    requires RegistryAlike(q, r, v) && c.ResyncFleet? && a != v
    ensures StepAlike(ResyncFleetStep(q, a, c.saved, c.fleetId), ResyncFleetStep(r, a, c.saved, c.fleetId), v)
  {
    FoundLobbyAlike(q, r, v, a);
    if RequireLobby(q, a).Some? {
      var k, l := RequireLobby(q, a).value, RequireLobby(r, a).value;
      var i := Find(k.members, a);
      FoundAlike(k.members, l.members, v, a);
      if i >= 0 {
        var m, n := k.members[i], l.members[i];
        assert MemberAlike(m, n, v);
        ReseatAlike(q, r, v, k, l, i, m.(fleet := None, ready := false), n.(fleet := None, ready := false));
        ReseatAlike(q, r, v, k, l, i, m.(fleet := c.saved, ready := false), n.(fleet := c.saved, ready := false));
      }
    }
  }

  lemma ResyncOfItsOwnAlike(q: Registry, r: Registry, v: AccountId, c: Command, d: Command)
    requires RegistryAlike(q, r, v) && c.ResyncFleet? && d.ResyncFleet? && ReadAlike(q, r, v, c, d)
    ensures StepAlike(ResyncFleetStep(q, v, c.saved, c.fleetId), ResyncFleetStep(r, v, d.saved, d.fleetId), v)
  {
    FoundLobbyAlike(q, r, v, v);
    if RequireLobby(q, v).Some? {
      var k, l := RequireLobby(q, v).value, RequireLobby(r, v).value;
      var i := Find(k.members, v);
      FoundAlike(k.members, l.members, v, v);
      if i >= 0 {
        var m, n := k.members[i], l.members[i];
        assert MemberAlike(m, n, v);
        ReseatAlike(q, r, v, k, l, i, m.(fleet := None, ready := false), n.(fleet := None, ready := false));
        ReseatAlike(q, r, v, k, l, i, m.(fleet := c.saved, ready := false), n.(fleet := d.saved, ready := false));
      }
    }
  }

  lemma RemoveAlike(q: Registry, r: Registry, v: AccountId, k: Lobby, l: Lobby, a: AccountId)
    requires RegistryAlike(q, r, v) && LobbyAlike(k, l, v)
    ensures StepAlike(RemoveStep(q, k, a), RemoveStep(r, l, a), v)
  {
    var ms, ns := Without(k.members, a), Without(l.members, a);
    WithoutAlike(k.members, l.members, v, a);
    if ms != [] {
      HeirAlike(ms, ns, v);
      var k' := k.(members := ms, host := if k.host == a then Heir(ms).account else k.host);
      var l' := l.(members := ns, host := if l.host == a then Heir(ns).account else l.host);
      assert LobbyAlike(k', l', v);
      AlikeShowsTheSame(k', l', v);
    }
  }

  lemma DepartureAlike(q: Registry, r: Registry, v: AccountId, a: AccountId, c: Command, now: Millis)
    requires RegistryAlike(q, r, v) && IsRemoval(c)
    ensures StepAlike(Apply(q, a, c, now), Apply(r, a, c, now), v)
  {
    FoundLobbyAlike(q, r, v, a);
    if RequireLobby(q, a).Some? {
      var k, l := RequireLobby(q, a).value, RequireLobby(r, a).value;
      RemoveAlike(q, r, v, k, l, if c.Kick? then c.target else a);
      if c.Kick? {
        FoundAlike(k.members, l.members, v, c.target);
      }
    }
  }

  lemma StrandedAlike(ms: seq<Member>, ns: seq<Member>, v: AccountId, budget: int)
    requires RosterAlike(ms, ns, v)
    requires forall i :: 0 <= i < |ms| && ms[i].account == v ==> JudgedAlike(ms[i].fleet, ns[i].fleet, budget)
    ensures RosterAlike(DropStranded(ms, budget), DropStranded(ns, budget), v)
  {
    forall i | 0 <= i < |ms|
      ensures MemberAlike(DropStranded(ms, budget)[i], DropStranded(ns, budget)[i], v)
    {
      assert MemberAlike(ms[i], ns[i], v);
    }
  }

  /** A member's entry is the one its account is shown. */
  lemma EntryIsShown(r: Registry, a: AccountId, v: AccountId, i: int)
    requires Inv(r) && RequireLobby(r, a).Some? && 0 <= i < |RequireLobby(r, a).value.members|
    requires RequireLobby(r, a).value.members[i].account == v
    ensures ViewFor(r, v) == RequireLobby(r, a).value.members[i].fleet
    ensures !Over(ViewFor(r, v), RequireLobby(r, a).value.settings.fleetPoints)
  {
    Registered(r, a);
    assert EntryOk(r, r.membership[a]);
    assert HonestMember(RequireLobby(r, a).value.members[i], RequireLobby(r, a).value.settings.fleetPoints);
  }

  lemma ModifyAlike(q: Registry, r: Registry, v: AccountId, a: AccountId, p: Patch)
    requires RegistryAlike(q, r, v) && Inv(q) && Inv(r)
    requires p.fleetPoints.Some? ==> JudgedAlike(ViewFor(q, v), ViewFor(r, v), p.fleetPoints.value.Floor)
    ensures StepAlike(ModifyStep(q, a, p), ModifyStep(r, a, p), v)
  {
    FoundLobbyAlike(q, r, v, a);
    if RequireLobby(q, a).Some? {
      var k, l := RequireLobby(q, a).value, RequireLobby(r, a).value;
      CountedAlike(k.members, l.members, v);
      assert PatchedSettings(k, p) == PatchedSettings(l, p);
      if PatchedSettings(k, p).NewSettings? {
        var s := PatchedSettings(k, p).settings;
        forall i | 0 <= i < |k.members| && k.members[i].account == v
          ensures JudgedAlike(k.members[i].fleet, l.members[i].fleet, s.fleetPoints)
        {
          assert MemberAlike(k.members[i], l.members[i], v);
          EntryIsShown(q, a, v, i);
          EntryIsShown(r, a, v, i);
        }
        StrandedAlike(k.members, l.members, v, s.fleetPoints);
        var k' := k.(settings := s, members := DropStranded(k.members, s.fleetPoints));
        var l' := l.(settings := s, members := DropStranded(l.members, s.fleetPoints));
        PutAlike(q, r, v, k', l');
        AlikeShowsTheSame(k', l', v);
      }
    }
  }

  lemma JoinCommandAlike(q: Registry, r: Registry, v: AccountId, a: AccountId, c: Command, now: Millis)
    requires RegistryAlike(q, r, v) && (c.JoinByCode? || c.JoinById?)
    ensures StepAlike(Apply(q, a, c, now), Apply(r, a, c, now), v)
  {
    if c.JoinById? {
      JoinAlike(q, r, v, a, c.username, c.id, now);
    } else if c.code in q.byCode {
      JoinAlike(q, r, v, a, c.username, q.byCode[c.code], now);
    }
  }

  lemma ResyncAlike(q: Registry, r: Registry, v: AccountId, a: AccountId, c: Command, d: Command)
    requires RegistryAlike(q, r, v) && c.ResyncFleet? && CommandAlike(q, r, v, a, c, d)
    ensures d.ResyncFleet?
    ensures StepAlike(ResyncFleetStep(q, a, c.saved, c.fleetId), ResyncFleetStep(r, a, d.saved, d.fleetId), v)
  {
    if a == v && d.ResyncFleet? {
      ResyncOfItsOwnAlike(q, r, v, c, d);
    } else {
      ResyncOfAnotherAlike(q, r, v, a, c);
    }
  }

  /** Alike commands on alike registries are answered the same and leave alike registries. */
  lemma CommandsHideFleets(q: Registry, r: Registry, v: AccountId, a: AccountId, c: Command, d: Command, now: Millis)
    requires Inv(q) && Inv(r) && RegistryAlike(q, r, v) && CommandAlike(q, r, v, a, c, d)
    ensures StepAlike(Apply(q, a, c, now), Apply(r, a, d, now), v)
  {
    match c
    case Create(_, _, _) => CreateAlike(q, r, v, a, c, now);
    case SetPosition(p) => SetPositionAlike(q, r, v, a, p);
    case SelectFleet(f) => SelectFleetAlike(q, r, v, a, f, d.fleet);
    case SetReady(ready) => SetReadyAlike(q, r, v, a, ready);
    case Start => StartAlike(q, r, v, a);
    case ResyncFleet(_, _) => ResyncAlike(q, r, v, a, c, d);
    case Modify(p) => ModifyAlike(q, r, v, a, p);
    case _ =>
      if IsRemoval(c) {
        DepartureAlike(q, r, v, a, c, now);
      } else {
        JoinCommandAlike(q, r, v, a, c, now);
      }
  }

  // ── What does show ────────────────────────────────────────────────────────────────

  /** Of a fleet chosen the answer shows whether the budget allows it, and nothing else. */
  lemma ChoiceShowsOnlyTheVerdict(q: Registry, r: Registry, v: AccountId, f: Fleet, g: Fleet)
    requires RegistryAlike(q, r, v) && Inv(q) && v in q.membership
    ensures SelectFleetStep(q, v, Some(f)).out == SelectFleetStep(r, v, Some(g)).out <==>
            JudgedAlike(Some(f), Some(g), BudgetOf(r, v))
  {
    Registered(q, v);
    FoundLobbyAlike(q, r, v, v);
    FoundAlike(RequireLobby(q, v).value.members, RequireLobby(r, v).value.members, v, v);
    if JudgedAlike(Some(f), Some(g), BudgetOf(r, v)) {
      SelectFleetAlike(q, r, v, v, Some(f), Some(g));
    }
  }

  lemma ShownAfterStriking(l: Lobby, s: Settings, i: int)
    requires 0 <= i < |l.members|
    ensures Snapshot(l.(settings := s, members := DropStranded(l.members, s.fleetPoints))).members[i].hasFleet <==>
            l.members[i].fleet.Some? && !Over(l.members[i].fleet, s.fleetPoints)
  {
  }

  /** Of a fleet held when the budget is set anew the answer shows whether it still fits, and nothing else. */
  lemma BudgetShowsOnlyTheVerdict(q: Registry, r: Registry, v: AccountId, a: AccountId, p: Patch)
    requires RegistryAlike(q, r, v) && Inv(q) && Inv(r)
    requires a in q.membership && v in q.membership && q.membership[a] == q.membership[v]
    requires p.fleetPoints.Some? && ModifyStep(q, a, p).out.Settled?
    ensures ModifyStep(q, a, p).out == ModifyStep(r, a, p).out <==>
            JudgedAlike(ViewFor(q, v), ViewFor(r, v), p.fleetPoints.value.Floor)
  {
    Registered(q, v);
    FoundLobbyAlike(q, r, v, a);
    var k, l := RequireLobby(q, a).value, RequireLobby(r, a).value;
    var i := Find(k.members, v);
    FoundAlike(k.members, l.members, v, v);
    CountedAlike(k.members, l.members, v);
    assert MemberAlike(k.members[i], l.members[i], v);
    assert PatchedSettings(k, p) == PatchedSettings(l, p);
    ShownAfterStriking(k, PatchedSettings(k, p).settings, i);
    ShownAfterStriking(l, PatchedSettings(l, p).settings, i);
    if JudgedAlike(ViewFor(q, v), ViewFor(r, v), p.fleetPoints.value.Floor) {
      ModifyAlike(q, r, v, a, p);
    }
  }

  // ── Message by message ────────────────────────────────────────────────────────────

  type Inbox = map<AccountId, Option<ServerMessage>>

  /** The same accounts are connected, and all but `v` were last told the same. */
  ghost predicate ToldAlike(x: Inbox, y: Inbox, v: AccountId) {
    x.Keys == y.Keys && forall b :: b in x && b != v ==> x[b] == y[b]
  }

  predicate LookupAlike(k: Lookup, l: Lookup, v: AccountId) {
    && (k.SelectLookup? <==> l.SelectLookup?) && k.account == l.account
    && (k.account != v ==> k == l)
  }

  ghost predicate ProtocolAlike(p: Protocol, q: Protocol, v: AccountId) {
    && Inv(p.reg) && Inv(q.reg) && RegistryAlike(p.reg, q.reg, v)
    && ToldAlike(p.told, q.told, v)
    && |p.inFlight| == |q.inFlight|
    && forall i :: 0 <= i < |p.inFlight| ==> LookupAlike(p.inFlight[i], q.inFlight[i], v)
  }

  /** The command a lookup settles when it comes back, if it settles any. */
  function Answer(l: Lookup, reply: Reply): Option<Command> {
    match l
    case SelectLookup(_, _) => if reply.Found? then Some(SelectFleet(Some(reply.fleet))) else None
    case ResyncLookup(_, fleetId) =>
      if reply.Failed? then None
      else Some(ResyncFleet(if reply.Found? then Some(reply.fleet) else None, fleetId))
  }

  predicate RequestAlike(p: Protocol, q: Protocol, v: AccountId, a: AccountId, username: string, x: Request, y: Request) {
    if Simple(x) then
      Simple(y) && CommandAlike(p.reg, q.reg, v, a, CommandOf(username, x), CommandOf(username, y))
    else if x.SelectFleetRequest? && a == v then y.SelectFleetRequest? && y.fleetId.Some?
    else x == y
  }

  /**
   * The same event; or `v` asking for one fleet here and another there, or saving one and another, or a
   * lookup of its own coming back with one and another that the budget judges alike.
   */
  predicate EventAlike(p: Protocol, q: Protocol, v: AccountId, e: Event, f: Event) {
    match e
    case Attach(_) => f == e
    case Detach(_) => f == e
    case FleetChanged(a, _) => f.FleetChanged? && f.account == a && (a != v ==> f == e)
    case Handle(a, username, request, current, now) =>
      && f.Handle? && f == e.(request := f.request)
      && RequestAlike(p, q, v, a, username, request, f.request)
    case LookupDone(index, reply) =>
      && f.LookupDone? && f.index == index
      && (index < |p.inFlight| && index < |q.inFlight| ==>
            var c, d := Answer(p.inFlight[index], reply), Answer(q.inFlight[index], f.reply);
            && (c.Some? <==> d.Some?)
            && (c.Some? && d.Some? ==> CommandAlike(p.reg, q.reg, v, p.inFlight[index].account, c.value, d.value)))
  }

  lemma BroadcastAlike(q: Registry, r: Registry, x: Inbox, y: Inbox, v: AccountId, state: Option<LobbyState>)
    requires RegistryAlike(q, r, v) && ToldAlike(x, y, v)
    ensures ToldAlike(Broadcast(q, x, state), Broadcast(r, y, state), v)
  {
    forall b | b in x && b != v && state.Some? ensures b in y && Update(q, state.value, b) == Update(r, state.value, b) {
      assert b in x.Keys;
      FoundLobbyAlike(q, r, v, b);
    }
    if state.Some? {
      assert Broadcast(q, x, state).Keys == x.Keys && Broadcast(r, y, state).Keys == y.Keys;
    }
  }

  lemma SettleAlike(p: Protocol, q: Protocol, v: AccountId, a: AccountId, c: Command, d: Command, now: Millis)
    requires ProtocolAlike(p, q, v) && CommandAlike(p.reg, q.reg, v, a, c, d)
    ensures ProtocolAlike(Settle(p, Apply(p.reg, a, c, now)), Settle(q, Apply(q.reg, a, d, now)), v)
  {
    var s, t := Apply(p.reg, a, c, now), Apply(q.reg, a, d, now);
    CommandsHideFleets(p.reg, q.reg, v, a, c, d, now);
    ApplyKeeps(p.reg, a, c, now);
    ApplyKeeps(q.reg, a, d, now);
    if s.out.Settled? {
      BroadcastAlike(s.reg, t.reg, p.told, q.told, v, Some(s.out.state));
    }
  }

  /** What a removal does to the registry and says to those who remain. */
  lemma RemovalToldAlike(p: Protocol, q: Protocol, v: AccountId, a: AccountId, c: Command, x: Inbox, y: Inbox)
    requires ProtocolAlike(p, q, v) && IsRemoval(c) && ToldAlike(x, y, v)
    ensures var s, t := Apply(p.reg, a, c, 0), Apply(q.reg, a, c, 0);
      && s.out == t.out && Inv(s.reg) && Inv(t.reg) && RegistryAlike(s.reg, t.reg, v)
      && (s.out.Departed? ==> ToldAlike(Broadcast(s.reg, x, s.out.remaining), Broadcast(t.reg, y, t.out.remaining), v))
  {
    var s, t := Apply(p.reg, a, c, 0), Apply(q.reg, a, c, 0);
    CommandsHideFleets(p.reg, q.reg, v, a, c, c, 0);
    ApplyKeeps(p.reg, a, c, 0);
    ApplyKeeps(q.reg, a, c, 0);
    if s.out.Departed? {
      BroadcastAlike(s.reg, t.reg, x, y, v, s.out.remaining);
    }
  }

  lemma TellAlike(x: Inbox, y: Inbox, v: AccountId, a: AccountId, m: ServerMessage)
    requires ToldAlike(x, y, v)
    ensures ToldAlike(LobbyProtocol.Tell(x, a, m), LobbyProtocol.Tell(y, a, m), v)
  {
    assert a in x.Keys <==> a in y.Keys;
  }

  lemma LeaveAlike(p: Protocol, q: Protocol, v: AccountId, a: AccountId, current: bool)
    requires ProtocolAlike(p, q, v)
    ensures ProtocolAlike(LeaveEvent(p, a, current), LeaveEvent(q, a, current), v)
  {
    TellAlike(p.told, q.told, v, a, LobbyExit(ExitReason.Left));
    RemovalToldAlike(p, q, v, a, Command.Leave,
                     if current then LobbyProtocol.Tell(p.told, a, LobbyExit(ExitReason.Left)) else p.told,
                     if current then LobbyProtocol.Tell(q.told, a, LobbyExit(ExitReason.Left)) else q.told);
  }

  lemma KickAlike(p: Protocol, q: Protocol, v: AccountId, a: AccountId, target: AccountId)
    requires ProtocolAlike(p, q, v)
    ensures ProtocolAlike(KickEvent(p, a, target), KickEvent(q, a, target), v)
  {
    TellAlike(p.told, q.told, v, target, LobbyExit(Kicked));
    RemovalToldAlike(p, q, v, a, Command.Kick(target), LobbyProtocol.Tell(p.told, target, LobbyExit(Kicked)),
                     LobbyProtocol.Tell(q.told, target, LobbyExit(Kicked)));
  }

  lemma DetachAlike(p: Protocol, q: Protocol, v: AccountId, a: AccountId)
    requires ProtocolAlike(p, q, v)
    ensures ProtocolAlike(DetachStep(p, a), DetachStep(q, a), v)
  {
    assert (p.told - {a}).Keys == p.told.Keys - {a} && (q.told - {a}).Keys == q.told.Keys - {a};
    RemovalToldAlike(p, q, v, a, Command.Disconnect, p.told - {a}, q.told - {a});
  }

  lemma AttachAlike(p: Protocol, q: Protocol, v: AccountId, a: AccountId)
    requires ProtocolAlike(p, q, v)
    ensures ProtocolAlike(AttachStep(p, a), AttachStep(q, a), v)
  {
    FoundLobbyAlike(p.reg, q.reg, v, a);
    assert AttachStep(p, a).told.Keys == p.told.Keys + {a} && AttachStep(q, a).told.Keys == q.told.Keys + {a};
  }

  lemma AskingAlike(p: Protocol, q: Protocol, v: AccountId, k: Lookup, l: Lookup)
    requires ProtocolAlike(p, q, v) && LookupAlike(k, l, v)
    ensures ProtocolAlike(p.(inFlight := p.inFlight + [k]), q.(inFlight := q.inFlight + [l]), v)
  {
  }

  lemma TakenAlike(p: Protocol, q: Protocol, v: AccountId, i: nat)
    requires ProtocolAlike(p, q, v) && i < |p.inFlight|
    ensures ProtocolAlike(p.(inFlight := p.inFlight[..i] + p.inFlight[i + 1..]),
                          q.(inFlight := q.inFlight[..i] + q.inFlight[i + 1..]), v)
  {
  }

  lemma HandleAlike(p: Protocol, q: Protocol, v: AccountId, a: AccountId, username: string, x: Request, y: Request,
                    current: bool, now: Millis)
    requires ProtocolAlike(p, q, v) && RequestAlike(p, q, v, a, username, x, y)
    ensures ProtocolAlike(HandleStep(p, a, username, x, current, now), HandleStep(q, a, username, y, current, now), v)
  {
    if Simple(x) {
      SettleAlike(p, q, v, a, CommandOf(username, x), CommandOf(username, y), now);
    } else {
      match x
      case LeaveRequest => LeaveAlike(p, q, v, a, current);
      case KickRequest(target) => KickAlike(p, q, v, a, target);
      case StartRequest =>
      case SelectFleetRequest(fleetId) =>
        AskingAlike(p, q, v, SelectLookup(a, fleetId.value), SelectLookup(a, y.fleetId.value));
    }
  }

  lemma LookupDoneAlike(p: Protocol, q: Protocol, v: AccountId, e: Event, f: Event)
    requires ProtocolAlike(p, q, v) && e.LookupDone? && EventAlike(p, q, v, e, f)
    ensures ProtocolAlike(Next(p, e), Next(q, f), v)
  {
    var i := e.index;
    if i < |p.inFlight| {
      assert LookupAlike(p.inFlight[i], q.inFlight[i], v);
      TakenAlike(p, q, v, i);
      var c, d := Answer(p.inFlight[i], e.reply), Answer(q.inFlight[i], f.reply);
      if c.Some? {
        SettleAlike(p.(inFlight := p.inFlight[..i] + p.inFlight[i + 1..]),
                    q.(inFlight := q.inFlight[..i] + q.inFlight[i + 1..]), v, p.inFlight[i].account, c.value, d.value, 0);
      }
    }
  }

  lemma NextAlike(p: Protocol, q: Protocol, v: AccountId, e: Event, f: Event)
    requires ProtocolAlike(p, q, v) && EventAlike(p, q, v, e, f)
    ensures ProtocolAlike(Next(p, e), Next(q, f), v)
  {
    match e
    case Attach(a) => AttachAlike(p, q, v, a);
    case Detach(a) => DetachAlike(p, q, v, a);
    case Handle(a, username, request, current, now) => HandleAlike(p, q, v, a, username, request, f.request, current, now);
    case FleetChanged(a, fleetId) =>
      FoundLobbyAlike(p.reg, q.reg, v, a);
      AskingAlike(p, q, v, ResyncLookup(a, fleetId), ResyncLookup(a, f.fleetId));
    case LookupDone(_, _) => LookupDoneAlike(p, q, v, e, f);
  }

  /** Two runs, event by event alike. */
  predicate RunsAlike(p: Protocol, q: Protocol, v: AccountId, es: seq<Event>, fs: seq<Event>)
    decreases |es|
  {
    |es| == |fs| && (es != [] ==> EventAlike(p, q, v, es[0], fs[0])
                                  && RunsAlike(Next(p, es[0]), Next(q, fs[0]), v, es[1..], fs[1..]))
  }

  lemma {:induction false} PlaysAlike(p: Protocol, q: Protocol, v: AccountId, es: seq<Event>, fs: seq<Event>)
    requires ProtocolAlike(p, q, v) && RunsAlike(p, q, v, es, fs)
    ensures ProtocolAlike(Play(p, es), Play(q, fs), v)
    decreases |es|
  {
    if es != [] {
      NextAlike(p, q, v, es[0], fs[0]);
      PlaysAlike(Next(p, es[0]), Next(q, fs[0]), v, es[1..], fs[1..]);
    }
  }

  /**
   * Whatever fleets `v` asks for, saves and brings in one run, and whatever others in another run alike in
   * everything else: every other account is told the same.
   */
  lemma FleetsStayPrivate(es: seq<Event>, fs: seq<Event>, v: AccountId, b: AccountId)
    requires RunsAlike(IDLE, IDLE, v, es, fs) && b != v
    ensures b in Play(IDLE, es).told <==> b in Play(IDLE, fs).told
    ensures b in Play(IDLE, es).told ==> Play(IDLE, es).told[b] == Play(IDLE, fs).told[b]
  {
    PlaysAlike(IDLE, IDLE, v, es, fs);
    assert b in Play(IDLE, es).told.Keys <==> b in Play(IDLE, fs).told.Keys;
  }
}
