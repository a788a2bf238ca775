/**
 * What every command keeps, and what each command promises, over all registries and all inputs.
 */
module LobbyInvariants {
  import opened Options
  import opened LobbyTypes
  import opened LobbyRules
  import opened StableSort

  // ── The invariant ─────────────────────────────────────────────────────────────────

  ghost predicate DistinctAccounts(ms: seq<Member>) {
    forall i, j :: 0 <= i < j < |ms| ==> ms[i].account != ms[j].account
  }

  predicate Holds(ms: seq<Member>, a: AccountId) {
    exists i :: 0 <= i < |ms| && ms[i].account == a
  }

  /** Seats within the cap, fleets within the budget, and readiness that means something. */
  ghost predicate Fair(l: Lobby) {
    && MAX_PLAYERS_MIN <= l.settings.maxPlayers <= MAX_PLAYERS_MAX
    && l.settings.maxPlayers % 2 == 0
    && FLEET_POINTS_MIN <= l.settings.fleetPoints <= FLEET_POINTS_MAX
    && PositionCount(l.members, Team1) <= TeamCapacity(l.settings.maxPlayers)
    && PositionCount(l.members, Team2) <= TeamCapacity(l.settings.maxPlayers)
    && PositionCount(l.members, Spectator) <= SPECTATOR_CAP
    && forall i :: 0 <= i < |l.members| ==> HonestMember(l.members[i], l.settings.fleetPoints)
  }

  predicate HonestMember(m: Member, budget: int) {
    && (m.fleet.Some? ==> m.fleet.value.points <= budget)
    && (m.ready ==> m.fleet.Some? && m.position != Spectator)
  }

  ghost predicate LobbyOk(l: Lobby) {
    && l.members != []
    && DistinctAccounts(l.members)
    && Holds(l.members, l.host)
    && Fair(l)
  }

  /** One live lobby: filed under its own id and code, and every member's account points back at it. */
  ghost predicate EntryOk(r: Registry, id: LobbyId)
    requires id in r.lobbies
  {
    var l := r.lobbies[id];
    && l.id == id < r.nextId
    && l.code in r.byCode && r.byCode[l.code] == id
    && LobbyOk(l)
    && forall i :: 0 <= i < |l.members| ==>
         l.members[i].account in r.membership && r.membership[l.members[i].account] == id
  }

  ghost predicate CodeOk(r: Registry, c: JoinCode)
    requires c in r.byCode
  {
    r.byCode[c] in r.lobbies && r.lobbies[r.byCode[c]].code == c
  }

  ghost predicate AccountOk(r: Registry, a: AccountId)
    requires a in r.membership
  {
    r.membership[a] in r.lobbies && Holds(r.lobbies[r.membership[a]].members, a)
  }

  /**
   * The three maps agree: lobbies and codes are in bijection, and an account maps to a lobby exactly
   * when it is among that lobby's members.
   */
  ghost predicate Inv(r: Registry) {
    && (forall id {:trigger EntryOk(r, id)} :: id in r.lobbies ==> EntryOk(r, id))
    && (forall c {:trigger CodeOk(r, c)} :: c in r.byCode ==> CodeOk(r, c))
    && (forall a {:trigger AccountOk(r, a)} :: a in r.membership ==> AccountOk(r, a))
  }

  // ── Counting ──────────────────────────────────────────────────────────────────────

  lemma {:induction false} CountAppend(xs: seq<Member>, ys: seq<Member>, p: Position)
    ensures PositionCount(xs + ys, p) == PositionCount(xs, p) + PositionCount(ys, p)
  {
    if xs == [] {
      assert xs + ys == ys;
    } else {
      assert (xs + ys)[1..] == xs[1..] + ys;
      CountAppend(xs[1..], ys, p);
    }
  }

  lemma {:induction false} CountUpdate(ms: seq<Member>, i: int, m: Member, p: Position)
    requires 0 <= i < |ms|
    ensures PositionCount(ms[i := m], p)
         == PositionCount(ms, p) - (if ms[i].position == p then 1 else 0) + (if m.position == p then 1 else 0)
  {
    if i == 0 {
      assert ms[i := m][1..] == ms[1..];
    } else {
      assert ms[i := m][1..] == ms[1..][i - 1 := m];
      CountUpdate(ms[1..], i - 1, m, p);
    }
  }

  lemma {:induction false} PlayersAreTheTeams(ms: seq<Member>)
    ensures PlayerCount(ms) == PositionCount(ms, Team1) + PositionCount(ms, Team2)
    ensures |ms| == PlayerCount(ms) + PositionCount(ms, Spectator)
  {
    if ms != [] {
      PlayersAreTheTeams(ms[1..]);
    }
  }

  lemma {:induction false} SamePositionsSameCount(xs: seq<Member>, ys: seq<Member>, p: Position)
    requires |xs| == |ys| && forall i :: 0 <= i < |xs| ==> xs[i].position == ys[i].position
    ensures PositionCount(xs, p) == PositionCount(ys, p)
  {
    if xs != [] {
      assert forall i :: 0 <= i < |xs[1..]| ==> xs[1..][i] == xs[i + 1] && ys[1..][i] == ys[i + 1];
      SamePositionsSameCount(xs[1..], ys[1..], p);
    }
  }

  /** Filtering an account out of a roster that lists it nowhere changes nothing. */
  lemma {:induction false} WithoutAbsent(ms: seq<Member>, a: AccountId)
    requires !Holds(ms, a)
    ensures Without(ms, a) == ms
  {
    if ms != [] {
      assert ms[0].account != a;
      assert forall i :: 0 <= i < |ms[1..]| ==> ms[1..][i] == ms[i + 1];
      WithoutAbsent(ms[1..], a);
    }
  }

  /** Filtering out an account listed once cuts exactly that entry. */
  lemma {:induction false} WithoutAt(ms: seq<Member>, k: int, a: AccountId)
    requires 0 <= k < |ms| && ms[k].account == a
    requires forall j :: 0 <= j < |ms| && j != k ==> ms[j].account != a
    ensures Without(ms, a) == ms[..k] + ms[k + 1..]
  {
    var tail := ms[1..];
    if k == 0 {
      forall i | 0 <= i < |tail| ensures tail[i].account != a {
        assert tail[i] == ms[i + 1];
      }
      WithoutAbsent(tail, a);
    } else {
      WithoutAt(tail, k - 1, a);
      assert ms[..k] + ms[k + 1..] == [ms[0]] + (tail[..k - 1] + tail[k..]);
    }
  }

  lemma WithoutPresent(ms: seq<Member>, a: AccountId)
    requires DistinctAccounts(ms) && Holds(ms, a)
    ensures Find(ms, a) >= 0 && Without(ms, a) == ms[..Find(ms, a)] + ms[Find(ms, a) + 1..]
  {
    var k := Find(ms, a);
    forall j | 0 <= j < |ms| && j != k ensures ms[j].account != a {
      assert j < k || k < j;
    }
    WithoutAt(ms, k, a);
  }

  lemma CountSplit(before: seq<Member>, m: Member, after: seq<Member>, p: Position)
    ensures PositionCount(before + [m] + after, p)
         == PositionCount(before + after, p) + (if m.position == p then 1 else 0)
  {
    CountAppend(before, after, p);
    CountAppend(before, [m] + after, p);
    assert ([m] + after)[1..] == after;
    assert before + ([m] + after) == before + [m] + after;
  }

  lemma CountWithout(ms: seq<Member>, a: AccountId, p: Position)
    requires DistinctAccounts(ms) && Holds(ms, a)
    ensures PositionCount(Without(ms, a), p)
         == PositionCount(ms, p) - (if ms[Find(ms, a)].position == p then 1 else 0)
  {
    WithoutPresent(ms, a);
    var k := Find(ms, a);
    CountSplit(ms[..k], ms[k], ms[k + 1..], p);
    assert ms == ms[..k] + [ms[k]] + ms[k + 1..];
  }

  // ── Changes that stay inside one lobby ────────────────────────────────────────────

  ghost predicate SameAccounts(xs: seq<Member>, ys: seq<Member>) {
    |xs| == |ys| && forall i :: 0 <= i < |xs| ==> xs[i].account == ys[i].account
  }

  lemma PutKeeps(r: Registry, l: Lobby, l': Lobby)
    requires Inv(r) && l.id in r.lobbies && r.lobbies[l.id] == l
    requires l'.id == l.id && l'.code == l.code && l'.host == l.host && SameAccounts(l.members, l'.members)
    requires Fair(l')
    ensures Inv(Put(r, l'))
  {
    assert EntryOk(r, l.id);
    var r' := Put(r, l');
    assert LobbyOk(l');
    forall id | id in r'.lobbies ensures EntryOk(r', id) {
      assert id in r.lobbies && EntryOk(r, id);
    }
    forall c | c in r'.byCode ensures CodeOk(r', c) {
      assert CodeOk(r, c);
    }
    forall a | a in r'.membership ensures AccountOk(r', a) {
      assert AccountOk(r, a);
    }
  }

  lemma ReseatKeeps(r: Registry, l: Lobby, i: int, m: Member)
    requires Inv(r) && l.id in r.lobbies && r.lobbies[l.id] == l
    requires 0 <= i < |l.members| && m.account == l.members[i].account
    requires HonestMember(m, l.settings.fleetPoints)
    requires m.position != l.members[i].position ==>
      PositionCount(l.members, m.position)
        < (if m.position == Spectator then SPECTATOR_CAP else TeamCapacity(l.settings.maxPlayers))
    ensures Inv(Reseat(r, l, i, m).reg)
  {
    assert EntryOk(r, l.id);
    var l' := l.(members := l.members[i := m]);
    CountUpdate(l.members, i, m, Team1);
    CountUpdate(l.members, i, m, Team2);
    CountUpdate(l.members, i, m, Spectator);
    assert Fair(l');
    PutKeeps(r, l, l');
  }

  /** A registered account's lobby is found, and so is its entry there. */
  lemma Registered(r: Registry, a: AccountId)
    requires Inv(r)
    ensures RequireLobby(r, a).Some? <==> a in r.membership
    ensures a in r.membership ==>
      var l := r.lobbies[r.membership[a]];
      && RequireLobby(r, a) == Some(l) && l.id == r.membership[a]
      && Find(l.members, a) >= 0 && LobbyOk(l)
  {
    if a in r.membership {
      assert AccountOk(r, a);
      assert EntryOk(r, r.membership[a]);
    }
  }

  lemma SetPositionKeeps(r: Registry, a: AccountId, p: Position)
    requires Inv(r)
    ensures Inv(SetPositionStep(r, a, p).reg)
  {
    Registered(r, a);
    if a in r.membership {
      var l := r.lobbies[r.membership[a]];
      var m := l.members[Find(l.members, a)];
      if m.position != p && CapacityFor(l, p, a).None? {
        CountWithout(l.members, a, p);
        assert HonestMember(m, l.settings.fleetPoints);
        ReseatKeeps(r, l, Find(l.members, a), m.(position := p, ready := m.ready && p != Spectator));
      }
    }
  }

  lemma SelectFleetKeeps(r: Registry, a: AccountId, fleet: Option<Fleet>)
    requires Inv(r)
    ensures Inv(SelectFleetStep(r, a, fleet).reg)
  {
    Registered(r, a);
    if a in r.membership {
      var l := r.lobbies[r.membership[a]];
      if !(fleet.Some? && fleet.value.points > l.settings.fleetPoints) {
        ReseatKeeps(r, l, Find(l.members, a), l.members[Find(l.members, a)].(fleet := fleet, ready := false));
      }
    }
  }

  lemma SetReadyKeeps(r: Registry, a: AccountId, ready: bool)
    requires Inv(r)
    ensures Inv(SetReadyStep(r, a, ready).reg)
  {
    Registered(r, a);
    if a in r.membership {
      var l := r.lobbies[r.membership[a]];
      var m := l.members[Find(l.members, a)];
      assert HonestMember(m, l.settings.fleetPoints);
      if !(ready && (m.position == Spectator || m.fleet.None?)) {
        ReseatKeeps(r, l, Find(l.members, a), m.(ready := ready));
      }
    }
  }

  lemma ResyncFleetKeeps(r: Registry, a: AccountId, saved: Option<Fleet>, fleetId: FleetId)
    requires Inv(r)
    ensures Inv(ResyncFleetStep(r, a, saved, fleetId).reg)
  {
    Registered(r, a);
    if a in r.membership {
      var l := r.lobbies[r.membership[a]];
      var i := Find(l.members, a);
      ReseatKeeps(r, l, i, l.members[i].(fleet := None, ready := false));
      if saved.Some? && saved.value.points <= l.settings.fleetPoints {
        ReseatKeeps(r, l, i, l.members[i].(fleet := saved, ready := false));
      }
    }
  }

  lemma ModifyKeeps(r: Registry, a: AccountId, p: Patch)
    requires Inv(r)
    ensures Inv(ModifyStep(r, a, p).reg)
  {
    Registered(r, a);
    if a in r.membership {
      var l := r.lobbies[r.membership[a]];
      if l.host == a && PatchedSettings(l, p).NewSettings? {
        var s := PatchedSettings(l, p).settings;
        var l' := l.(settings := s, members := DropStranded(l.members, s.fleetPoints));
        SamePositionsSameCount(l.members, l'.members, Team1);
        SamePositionsSameCount(l.members, l'.members, Team2);
        SamePositionsSameCount(l.members, l'.members, Spectator);
        forall i | 0 <= i < |l'.members| ensures HonestMember(l'.members[i], s.fleetPoints) {
          assert HonestMember(l.members[i], l.settings.fleetPoints);
        }
        PutKeeps(r, l, l');
      }
    }
  }

  // ── Coming and going ──────────────────────────────────────────────────────────────

  ghost predicate FirstFree(draws: seq<JoinCode>, taken: set<JoinCode>, attempts: nat, code: JoinCode, i: int) {
    && 0 <= i < |draws| && i < attempts && draws[i] == code
    && forall j :: 0 <= j < i ==> draws[j] in taken
  }

  lemma {:induction false} MintIsFresh(draws: seq<JoinCode>, taken: set<JoinCode>, attempts: nat)
    ensures match Mint(draws, taken, attempts)
      case None => forall i :: 0 <= i < |draws| && i < attempts ==> draws[i] in taken
      case Some(code) => code !in taken && exists i :: FirstFree(draws, taken, attempts, code, i)
  {
    if attempts != 0 && draws != [] {
      if draws[0] in taken {
        MintIsFresh(draws[1..], taken, attempts - 1);
        var rest := Mint(draws[1..], taken, attempts - 1);
        if rest.Some? {
          var i :| FirstFree(draws[1..], taken, attempts - 1, rest.value, i);
          forall j | 0 <= j < i + 1 ensures draws[j] in taken {
            if j > 0 { assert draws[1..][j - 1] in taken; }
          }
          assert FirstFree(draws, taken, attempts, rest.value, i + 1);
        } else {
          forall i | 0 <= i < |draws| && i < attempts ensures draws[i] in taken {
            if i > 0 { assert draws[1..][i - 1] in taken; }
          }
        }
      } else {
        assert FirstFree(draws, taken, attempts, draws[0], 0);
      }
    }
  }

  lemma CreateKeeps(r: Registry, a: AccountId, username: string, name: string, draws: seq<JoinCode>, now: Millis)
    requires Inv(r)
    ensures Inv(CreateStep(r, a, username, name, draws, now).reg)
  {
    var s := CreateStep(r, a, username, name, draws, now);
    if s.out.Settled? {
      MintIsFresh(draws, r.byCode.Keys, MINT_ATTEMPTS);
      var m := Member(a, username, Team1, now, None, false);
      var r' := s.reg;
      var l := r'.lobbies[r.nextId];
      CountOne(m, Team1);
      CountOne(m, Team2);
      CountOne(m, Spectator);
      assert l.members == [m] && l.members[0].account == l.host;
      assert LobbyOk(l);
      forall id | id in r'.lobbies ensures EntryOk(r', id) {
        assert id == r.nextId || EntryOk(r, id);
      }
      forall c | c in r'.byCode ensures CodeOk(r', c) {
        assert c == l.code || (CodeOk(r, c) && EntryOk(r, r.byCode[c]));
      }
      forall b | b in r'.membership ensures AccountOk(r', b) {
        assert b == a || (AccountOk(r, b) && EntryOk(r, r.membership[b]));
      }
    }
  }

  lemma CountOne(m: Member, p: Position)
    ensures PositionCount([m], p) == if m.position == p then 1 else 0
  {
    assert [m][1..] == [];
  }

  lemma JoinKeeps(r: Registry, a: AccountId, username: string, id: LobbyId, now: Millis)
    requires Inv(r)
    ensures Inv(JoinStep(r, a, username, id, now).reg)
  {
    var s := JoinStep(r, a, username, id, now);
    if s.out.Settled? {
      assert EntryOk(r, id);
      var l := r.lobbies[id];
      var m := Member(a, username, FirstOpenPosition(l).value, now, None, false);
      var r' := s.reg;
      JoinedLobbyOk(l, m);
      forall k | k in r'.lobbies ensures EntryOk(r', k) {
        assert EntryOk(r, k);
      }
      forall c | c in r'.byCode ensures CodeOk(r', c) {
        assert CodeOk(r, c);
      }
      forall b | b in r'.membership ensures AccountOk(r', b) {
        assert b == a || AccountOk(r, b);
      }
    }
  }

  lemma JoinedLobbyOk(l: Lobby, m: Member)
    requires LobbyOk(l) && !Holds(l.members, m.account) && m.fleet.None? && !m.ready
    requires FirstOpenPosition(l) == Some(m.position)
    ensures LobbyOk(l.(members := l.members + [m]))
    ensures forall b :: Holds(l.members + [m], b) <==> b == m.account || Holds(l.members, b)
  {
    var ms := l.members + [m];
    CountAppend(l.members, [m], Team1);
    CountAppend(l.members, [m], Team2);
    CountAppend(l.members, [m], Spectator);
    CountOne(m, Team1);
    CountOne(m, Team2);
    CountOne(m, Spectator);
    forall b ensures Holds(ms, b) <==> b == m.account || Holds(l.members, b) {
      if Holds(l.members, b) {
        var i :| 0 <= i < |l.members| && l.members[i].account == b;
        assert ms[i].account == b;
      }
      assert ms[|l.members|] == m;
    }
    forall i | 0 <= i < |ms| ensures HonestMember(ms[i], l.settings.fleetPoints) {
      assert i < |l.members| ==> HonestMember(l.members[i], l.settings.fleetPoints);
    }
  }

  lemma OutranksIsAnOrder()
    ensures IsStrictOrder(Outranks)
  {
  }

  lemma HeirIsAMember(ms: seq<Member>)
    requires ms != []
    ensures Holds(ms, Heir(ms).account)
  {
    OutranksIsAnOrder();
    var i := SortHead(ms, Outranks);
    assert ms[i] == Heir(ms);
  }

  lemma RemoveKeeps(r: Registry, l: Lobby, a: AccountId)
    requires Inv(r) && l.id in r.lobbies && r.lobbies[l.id] == l && Holds(l.members, a)
    ensures Inv(RemoveStep(r, l, a).reg)
  {
    if Without(l.members, a) == [] {
      CloseKeeps(r, l, a);
    } else {
      SurviveKeeps(r, l, a);
    }
  }

  /** The last member out closes the lobby and frees its code. */
  lemma CloseKeeps(r: Registry, l: Lobby, a: AccountId)
    requires Inv(r) && l.id in r.lobbies && r.lobbies[l.id] == l && Holds(l.members, a)
    requires Without(l.members, a) == []
    ensures Inv(RemoveStep(r, l, a).reg)
  {
    assert EntryOk(r, l.id);
    var r' := RemoveStep(r, l, a).reg;
    RemainingMembers(l, a);
    forall id | id in r'.lobbies ensures EntryOk(r', id) {
      assert EntryOk(r, id);
    }
    forall c | c in r'.byCode ensures CodeOk(r', c) {
      assert CodeOk(r, c);
    }
    forall b | b in r'.membership ensures AccountOk(r', b) {
      assert AccountOk(r, b);
    }
  }

  lemma SurviveKeeps(r: Registry, l: Lobby, a: AccountId)
    requires Inv(r) && l.id in r.lobbies && r.lobbies[l.id] == l && Holds(l.members, a)
    requires Without(l.members, a) != []
    ensures Inv(RemoveStep(r, l, a).reg)
  {
    assert EntryOk(r, l.id);
    var r' := RemoveStep(r, l, a).reg;
    RemainingMembers(l, a);
    RemainingLobbyOk(l, a);
    assert EntryOk(r', l.id);
    forall id | id in r'.lobbies && id != l.id ensures EntryOk(r', id) {
      assert EntryOk(r, id) && r'.lobbies[id] == r.lobbies[id];
      assert !Holds(r.lobbies[id].members, a);
    }
    forall c | c in r'.byCode ensures CodeOk(r', c) {
      assert CodeOk(r, c);
    }
    forall b | b in r'.membership ensures AccountOk(r', b) {
      assert AccountOk(r, b);
      assert r.membership[b] == l.id ==> Holds(Without(l.members, a), b);
    }
  }

  lemma KickKeeps(r: Registry, a: AccountId, target: AccountId)
    requires Inv(r)
    ensures Inv(KickStep(r, a, target).reg)
  {
    Registered(r, a);
    if a in r.membership {
      var l := r.lobbies[r.membership[a]];
      if Find(l.members, target) >= 0 {
        RemoveKeeps(r, l, target);
      }
    }
  }

  lemma DepartureKeeps(r: Registry, a: AccountId)
    requires Inv(r)
    ensures Inv(LeaveStep(r, a).reg) && Inv(DisconnectStep(r, a).reg)
  {
    Registered(r, a);
    if a in r.membership {
      assert AccountOk(r, a);
      RemoveKeeps(r, r.lobbies[r.membership[a]], a);
    }
  }

  /** Removing one account leaves exactly the others, in order. */
  lemma RemainingMembers(l: Lobby, a: AccountId)
    requires DistinctAccounts(l.members) && Holds(l.members, a)
    ensures forall b :: Holds(Without(l.members, a), b) <==> b != a && Holds(l.members, b)
    ensures |Without(l.members, a)| == |l.members| - 1
    ensures forall i :: 0 <= i < |Without(l.members, a)| ==>
      Without(l.members, a)[i] == l.members[if i < Find(l.members, a) then i else i + 1]
  {
    WithoutPresent(l.members, a);
    var k := Find(l.members, a);
    forall b ensures Holds(Without(l.members, a), b) <==> b != a && Holds(l.members, b) {
      CutHolds(l.members, k, b);
    }
  }

  lemma CutHolds(xs: seq<Member>, k: int, b: AccountId)
    requires 0 <= k < |xs| && DistinctAccounts(xs)
    ensures Holds(xs[..k] + xs[k + 1..], b) <==> b != xs[k].account && Holds(xs, b)
  {
    var ys := xs[..k] + xs[k + 1..];
    if Holds(ys, b) {
      var i :| 0 <= i < |ys| && ys[i].account == b;
      var j := if i < k then i else i + 1;
      assert xs[j].account == b && j != k;
      assert j < k ==> xs[j].account != xs[k].account;
      assert k < j ==> xs[k].account != xs[j].account;
    }
    if b != xs[k].account && Holds(xs, b) {
      var i :| 0 <= i < |xs| && xs[i].account == b;
      assert ys[if i < k then i else i - 1].account == b;
    }
  }

  lemma RemainingLobbyOk(l: Lobby, a: AccountId)
    requires LobbyOk(l) && Holds(l.members, a) && Without(l.members, a) != []
    ensures LobbyOk(l.(members := Without(l.members, a),
                       host := if l.host == a then Heir(Without(l.members, a)).account else l.host))
  {
    var ms := Without(l.members, a);
    RemainingMembers(l, a);
    CountWithout(l.members, a, Team1);
    CountWithout(l.members, a, Team2);
    CountWithout(l.members, a, Spectator);
    HeirIsAMember(ms);
    forall i | 0 <= i < |ms| ensures HonestMember(ms[i], l.settings.fleetPoints) {
      assert HonestMember(l.members[if i < Find(l.members, a) then i else i + 1], l.settings.fleetPoints);
    }
  }
}
