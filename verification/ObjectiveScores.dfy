/**
 * Whom a capture is scored to, and what becomes of every circle of the board in a tick, told from the
 * circles themselves (the capture part of `tick` and `refillObjectives` in packages/server/src/match/runtime.ts).
 */
module ObjectiveScores {
  import opened Options
  import opened StableSort
  import opened Measures
  import opened MatchTypes
  import opened Objectives

  /** After this tick the zone is full and this team holds it. */
  predicate FallsTo(z: Zone, p: Presence, t: Team) {
    var z' := AdvanceZone(z, p);
    z'.capturing == Some(t) && z'.progress >= 1.0
  }

  /** How many zones fall to a team in one tick. */
  function Felled(zones: seq<Zone>, presence: ZoneId -> Presence, t: Team): nat {
    if zones == [] then 0
    else
      var last := zones[|zones| - 1];
      Felled(zones[..|zones| - 1], presence, t) + (if FallsTo(last, presence(last.id), t) then 1 else 0)
  }

  /** What one more zone of the board adds to a team's captures. */
  lemma OneMoreZone(zones: seq<Zone>, z: Zone, t: Team)
    ensures Scored(Captures(zones + [z]), t)
      == Scored(Captures(zones), t) + (if z.capturing == Some(t) && z.progress >= 1.0 then 1 else 0)
  {
    assert (zones + [z])[..|zones|] == zones;
    var front := Captures(zones);
    assert front + [] == front;
    if Fallen(z) {
      assert (front + [Capture(z, z.capturing.value)])[..|front|] == front;
    }
  }

  lemma {:induction false} ScoredIsFelled(zones: seq<Zone>, presence: ZoneId -> Presence, t: Team)
    ensures Scored(Captures(Advanced(zones, presence)), t) == Felled(zones, presence, t)
  {
    if zones != [] {
      var front, last := zones[..|zones| - 1], zones[|zones| - 1];
      assert Advanced(zones, presence) == Advanced(front, presence) + [AdvanceZone(last, presence(last.id))];
      ScoredIsFelled(front, presence, t);
      OneMoreZone(Advanced(front, presence), AdvanceZone(last, presence(last.id)), t);
    }
  }

  /** Over a tick each team's score grows by the number of zones that fall to it. */
  lemma ScoreIsWhatFell(l: Ledger, hasRuler: bool, presence: ZoneId -> Presence, spawn: Spawner)
    ensures var l' := Tick(l, hasRuler, presence, spawn);
      && l'.score1 == l.score1 + Felled(l.board.zones, presence, Team1)
      && l'.score2 == l.score2 + Felled(l.board.zones, presence, Team2)
  {
    ScoredIsFelled(l.board.zones, presence, Team1);
    ScoredIsFelled(l.board.zones, presence, Team2);
  }

  // ── What becomes of a zone ────────────────────────────────────────────────────────

  /** Falls to one team or the other. */
  predicate Falls(z: Zone, p: Presence) {
    FallsTo(z, p, Team1) || FallsTo(z, p, Team2)
  }

  lemma FallsMeansFallen(z: Zone, p: Presence)
    ensures Falls(z, p) <==> Fallen(AdvanceZone(z, p))
  {
    var holder := AdvanceZone(z, p).capturing;
    assert holder.Some? ==> holder.value == Team1 || holder.value == Team2;
  }

  /** A zone that does not fall stands after the tick as advanced, and one that falls is gone for good. */
  lemma StandsExactlyUnlessItFalls(l: Ledger, hasRuler: bool, presence: ZoneId -> Presence, spawn: Spawner, i: int)
    requires Orderly(l.board) && 0 <= i < |l.board.zones|
    ensures var z, b' := l.board.zones[i], Tick(l, hasRuler, presence, spawn).board;
      && (Falls(z, presence(z.id)) ==> !Standing(b', z.id))
      && (!Falls(z, presence(z.id)) ==> AdvanceZone(z, presence(z.id)) in b'.zones)
  {
    var z := l.board.zones[i];
    var zones := Advanced(l.board.zones, presence);
    var captures := Captures(zones);
    var b' := Tick(l, hasRuler, presence, spawn).board;
    assert zones[i] == AdvanceZone(z, presence(z.id)) && zones[i] in zones;
    AdvancedIsOrderly(l.board, presence);
    TakenMeansFallen(zones, i);
    FallsMeansFallen(z, presence(z.id));
    RetireKeepsOthers(zones, captures);
    if captures != [] && hasRuler {
      FilledKeeps(l.board.(zones := Retire(zones, captures)), spawn);
      FillingAddsOnlyNew(l.board.(zones := Retire(zones, captures)), spawn);
    }
    if Falls(z, presence(z.id)) {
      assert Taken(captures, z.id) && captures != [];
      forall k | 0 <= k < |b'.zones| ensures b'.zones[k].id != z.id {
        assert b'.zones[k] in b'.zones;
        assert b'.zones[k] in Retire(zones, captures) || l.board.nextZoneId <= b'.zones[k].id;
      }
    }
  }

  // ── What is put up ────────────────────────────────────────────────────────────────

  /** Put up by this spawner: unheld, arming for `arming` ticks, under an id in the given range. */
  ghost predicate PutUp(z: Zone, spawn: Spawner, from: ZoneId, upTo: ZoneId, arming: nat) {
    && from <= z.id < upTo
    && z.armingTicks == arming && z.capturing == None && z.progress == 0.0 && !z.contested
    && exists zones :: spawn(z.id, z.tag, zones) == Some(z.centre)
  }

  /** The spawner refused this label, for some id and some zones standing. */
  ghost predicate Refused(spawn: Spawner, tag: Label) {
    exists id, zones :: spawn(id, tag, zones) == None
  }

  lemma {:induction false} PlacedFillsWhereAllowed(b: Board, vacant: seq<Label>, spawn: Spawner)
    ensures forall z :: z in Placed(b, vacant, spawn).zones ==>
      z in b.zones || PutUp(z, spawn, b.nextZoneId, Placed(b, vacant, spawn).nextZoneId, 1200)
    ensures forall tag :: tag in vacant ==> Held(Placed(b, vacant, spawn).zones, tag) || Refused(spawn, tag)
    ensures b.nextZoneId <= Placed(b, vacant, spawn).nextZoneId
    decreases |vacant|
  {
    if vacant != [] {
      var centre := spawn(b.nextZoneId, vacant[0], b.zones);
      var next := if centre.None? then b
        else Board(b.zones + [NewZone(b.nextZoneId, vacant[0], centre.value, ARMING_TICKS)], b.nextZoneId + 1);
      var after := Placed(next, vacant[1..], spawn);
      PlacedFillsWhereAllowed(next, vacant[1..], spawn);
      PlacedGrows(next, vacant[1..], spawn);
      if centre.Some? {
        var z := NewZone(b.nextZoneId, vacant[0], centre.value, ARMING_TICKS);
        assert after.zones[|b.zones|] == z;
        assert spawn(z.id, z.tag, b.zones) == Some(z.centre);
        assert PutUp(z, spawn, b.nextZoneId, after.nextZoneId, 1200);
      } else {
        assert Refused(spawn, vacant[0]);
      }
      forall tag | tag in vacant ensures Held(after.zones, tag) || Refused(spawn, tag) {
        assert tag == vacant[0] || tag in vacant[1..];
      }
    }
  }

  /**
   * When a tick takes zones down in a match with objectives, every label stands again unless the spawner
   * refuses it; and whatever is new was put up by the spawner, unheld and arming.
   */
  lemma EveryVacancyIsTried(l: Ledger, presence: ZoneId -> Presence, spawn: Spawner, tag: Label)
    requires 1 <= tag <= 3 && exists i :: 0 <= i < |l.board.zones| && Falls(l.board.zones[i], presence(l.board.zones[i].id))
    ensures var b' := Tick(l, true, presence, spawn).board;
      && (Held(b'.zones, tag) || Refused(spawn, tag))
      && forall z :: z in b'.zones ==>
           || z in Advanced(l.board.zones, presence)
           || PutUp(z, spawn, l.board.nextZoneId, b'.nextZoneId, 1200)
  {
    var zones := Advanced(l.board.zones, presence);
    var captures := Captures(zones);
    var i :| 0 <= i < |l.board.zones| && Falls(l.board.zones[i], presence(l.board.zones[i].id));
    FallsMeansFallen(l.board.zones[i], presence(l.board.zones[i].id));
    CapturesAreFallen(zones);
    assert Capture(zones[i], zones[i].capturing.value) in captures;
    var standing := l.board.(zones := Retire(zones, captures));
    RetireKeepsOthers(zones, captures);
    FilledWhereAllowed(standing, spawn, tag);
  }

  lemma FilledWhereAllowed(b: Board, spawn: Spawner, tag: Label)
    requires 1 <= tag <= 3
    ensures var b' := FillVacancies(b, spawn);
      && (Held(b'.zones, tag) || Refused(spawn, tag))
      && forall z :: z in b'.zones ==> z in b.zones || PutUp(z, spawn, b.nextZoneId, b'.nextZoneId, 1200)
  {
    var vacant := VacantLabels(b.zones);
    var placed := Placed(b, vacant, spawn);
    PlacedFillsWhereAllowed(b, vacant, spawn);
    PlacedGrows(b, vacant, spawn);
    VacantAreFree(b.zones, 0, tag);
    SortKeepsMembers(placed.zones, ByLabel);
    FilledKeeps(b, spawn);
    HeldByMembers(b.zones, FillVacancies(b, spawn).zones, tag);
    HeldByMembers(placed.zones, FillVacancies(b, spawn).zones, tag);
  }

  lemma HeldByMembers(zones: seq<Zone>, more: seq<Zone>, tag: Label)
    requires forall z :: z in zones ==> z in more
    ensures Held(zones, tag) ==> Held(more, tag)
  {
    if Held(zones, tag) {
      var i :| 0 <= i < |zones| && zones[i].tag == tag;
      assert zones[i] in more;
    }
  }

  /** Without objectives in the match nothing is ever put up. */
  lemma NothingIsPutUpWithoutObjectives(l: Ledger, presence: ZoneId -> Presence, spawn: Spawner)
    ensures var b' := Tick(l, false, presence, spawn).board;
      b'.nextZoneId == l.board.nextZoneId && forall z :: z in b'.zones ==> z in Advanced(l.board.zones, presence)
  {
    RetireKeepsOthers(Advanced(l.board.zones, presence), Captures(Advanced(l.board.zones, presence)));
  }

  /** The opening board has every label the spawner allows, open at once and unheld. */
  lemma {:induction false} OpeningFillsWhereAllowed(slot: nat, zones: seq<Zone>, spawn: Spawner)
    requires slot <= 3
    ensures forall z :: z in zones ==> z in Opening(slot, zones, spawn)
    ensures forall z :: z in Opening(slot, zones, spawn) ==>
      z in zones || (PutUp(z, spawn, 1000 + slot, 1003, 0) && z.id == 999 + z.tag)
    ensures forall tag :: slot < tag <= 3 ==> Held(Opening(slot, zones, spawn), tag) || Refused(spawn, tag)
    decreases 3 - slot
  {
    if slot < 3 {
      var centre := spawn(ZONE_ID_BASE + slot, slot + 1, zones);
      if centre.None? {
        OpeningFillsWhereAllowed(slot + 1, zones, spawn);
        assert Refused(spawn, slot + 1);
      } else {
        var z := NewZone(ZONE_ID_BASE + slot, slot + 1, centre.value, 0);
        OpeningFillsWhereAllowed(slot + 1, zones + [z], spawn);
        assert spawn(z.id, z.tag, zones) == Some(z.centre);
        assert z in zones + [z];
      }
    }
  }

  /** An open zone is contested exactly while both teams are in it. */
  lemma ContestedExactlyWhileBothAreInside(z: Zone, p: Presence)
    requires z.armingTicks == 0
    ensures AdvanceZone(z, p).contested <==> p == Presence(true, true)
  {
  }

  // ── A match one team sits out ─────────────────────────────────────────────────────

  /** A team is never in any circle. */
  ghost predicate StaysOut(inputs: seq<Input>, t: Team) {
    forall i, id :: 0 <= i < |inputs| ==> !Inside(inputs[i].presence(id), t)
  }

  ghost predicate HeldByNone(zones: seq<Zone>, t: Team) {
    forall z :: z in zones ==> z.capturing != Some(t)
  }

  /** The zones that fall to a team over a match. */
  function FelledInAll(l: Ledger, hasRuler: bool, inputs: seq<Input>, t: Team): nat
    decreases |inputs|
  {
    if inputs == [] then 0
    else Felled(l.board.zones, inputs[0].presence, t)
         + FelledInAll(Tick(l, hasRuler, inputs[0].presence, inputs[0].spawn), hasRuler, inputs[1..], t)
  }

  /** Over a match each team's score grows by the zones that fell to it. */
  lemma {:induction false} ScoresAreWhatFell(l: Ledger, hasRuler: bool, inputs: seq<Input>)
    ensures var l' := Play(l, hasRuler, inputs);
      && l'.score1 == l.score1 + FelledInAll(l, hasRuler, inputs, Team1)
      && l'.score2 == l.score2 + FelledInAll(l, hasRuler, inputs, Team2)
    decreases |inputs|
  {
    if inputs != [] {
      ScoreIsWhatFell(l, hasRuler, inputs[0].presence, inputs[0].spawn);
      ScoresAreWhatFell(Tick(l, hasRuler, inputs[0].presence, inputs[0].spawn), hasRuler, inputs[1..]);
    }
  }

  lemma {:induction false} AbsentTakesNothing(zones: seq<Zone>, presence: ZoneId -> Presence, t: Team)
    requires HeldByNone(zones, t) && forall id :: !Inside(presence(id), t)
    ensures Felled(zones, presence, t) == 0 && HeldByNone(Advanced(zones, presence), t)
  {
    if zones != [] {
      var n := |zones| - 1;
      var advanced := Advanced(zones, presence);
      assert advanced[..n] == Advanced(zones[..n], presence);
      assert forall z :: z in zones[..n] ==> z in zones;
      AbsentTakesNothing(zones[..n], presence, t);
      assert zones[n] in zones;
      forall z | z in advanced ensures z.capturing != Some(t) {
        assert z in advanced[..n] || z == advanced[n];
      }
    }
  }

  lemma AbsentStaysOut(l: Ledger, hasRuler: bool, presence: ZoneId -> Presence, spawn: Spawner, t: Team)
    requires HeldByNone(l.board.zones, t) && forall id :: !Inside(presence(id), t)
    ensures HeldByNone(Tick(l, hasRuler, presence, spawn).board.zones, t)
  {
    var zones := Advanced(l.board.zones, presence);
    AbsentTakesNothing(l.board.zones, presence, t);
    RetireKeepsOthers(zones, Captures(zones));
    if hasRuler {
      FilledWhereAllowed(l.board.(zones := Retire(zones, Captures(zones))), spawn, 1);
    }
  }

  /**
   * A team that is never in any circle, in a match from zones it does not hold, never scores; and every zone
   * taken down scores one for the other team.
   */
  lemma {:induction false} AbsentTeamNeverScores(l: Ledger, hasRuler: bool, inputs: seq<Input>, t: Team)
    requires Orderly(l.board) && HeldByNone(l.board.zones, t) && StaysOut(inputs, t)
    ensures var l' := Play(l, hasRuler, inputs);
      var takenDown := |l.board.zones| + (l'.board.nextZoneId - l.board.nextZoneId) - |l'.board.zones|;
      && (t == Team1 ==> l'.score1 == l.score1 && l'.score2 == l.score2 + takenDown)
      && (t == Team2 ==> l'.score2 == l.score2 && l'.score1 == l.score1 + takenDown)
    decreases |inputs|
  {
    if inputs != [] {
      var presence, spawn := inputs[0].presence, inputs[0].spawn;
      var next := Tick(l, hasRuler, presence, spawn);
      assert forall id :: !Inside(presence(id), t);
      AbsentTakesNothing(l.board.zones, presence, t);
      AbsentStaysOut(l, hasRuler, presence, spawn, t);
      TickBalances(l, hasRuler, presence, spawn);
      ScoreIsWhatFell(l, hasRuler, presence, spawn);
      assert StaysOut(inputs[1..], t) by {
        assert forall i :: 0 <= i < |inputs| - 1 ==> inputs[1..][i] == inputs[i + 1];
      }
      AbsentTeamNeverScores(next, hasRuler, inputs[1..], t);
    }
  }
}
