/**
 * The objective board and its ledger (packages/shared/src/match/objectives.ts and the capture part of
 * `tick` in packages/server/src/match/runtime.ts).
 *
 * Where a zone may be placed is decided by terrain this model does not hold, so placement is an
 * arbitrary function that may refuse; who stands in which circle is an arbitrary function too. A label
 * (the field `tag`) is its slot number: the three labels sort the same way as their slots.
 */
module Objectives {
  import opened Options
  import opened StableSort
  import opened Measures
  import opened MatchTypes

  type ZoneId = int
  type Label = int

  datatype Presence = Presence(team1: bool, team2: bool)

  const OBJECTIVE_COUNT := 3
  const ZONE_ID_BASE := 1000
  const SIM_TICK_SECONDS := 0.05
  const CAPTURE_SECONDS := 30.0
  const ARMING_TICKS := 1200

  datatype Zone = Zone(
    id: ZoneId,
    tag: Label,
    centre: Vec2,
    armingTicks: nat,
    capturing: Option<Team>,
    progress: real,
    contested: bool)

  datatype Capture = Capture(zone: Zone, team: Team)

  /** Where a zone of this id and label goes on this board, or a refusal. */
  type Spawner = (ZoneId, Label, seq<Zone>) -> Option<Vec2>

  // ── One tick of one zone ──────────────────────────────────────────────────────────

  predicate Inside(p: Presence, t: Team) {
    if t == Team1 then p.team1 else p.team2
  }

  function AdvanceZone(z: Zone, p: Presence): (z': Zone)
    ensures z'.id == z.id && z'.tag == z.tag && z'.centre == z.centre
  {
    if z.armingTicks > 0 then z.(armingTicks := z.armingTicks - 1)
    else
      var dropped := z.capturing.Some? && !Inside(p, z.capturing.value);
      var capturing := if dropped then None else z.capturing;
      var progress := if dropped then 0.0 else z.progress;
      if p.team1 && p.team2 then z.(capturing := capturing, progress := progress, contested := true)
      else if p.team1 || p.team2 then
        z.(capturing := Some(if p.team1 then Team1 else Team2),
           progress := MinR(1.0, progress + SIM_TICK_SECONDS / CAPTURE_SECONDS), contested := false)
      else z.(capturing := None, progress := 0.0, contested := false)
  }

  predicate Fallen(z: Zone) {
    z.capturing.Some? && z.progress >= 1.0
  }

  function Advanced(zones: seq<Zone>, presence: ZoneId -> Presence): seq<Zone> {
    seq(|zones|, i requires 0 <= i < |zones| => AdvanceZone(zones[i], presence(zones[i].id)))
  }

  function Captures(zones: seq<Zone>): seq<Capture> {
    if zones == [] then []
    else Captures(zones[..|zones| - 1])
         + (if Fallen(zones[|zones| - 1]) then [Capture(zones[|zones| - 1], zones[|zones| - 1].capturing.value)] else [])
  }

  // ── The board ─────────────────────────────────────────────────────────────────────

  predicate Taken(captures: seq<Capture>, id: ZoneId) {
    exists i :: 0 <= i < |captures| && captures[i].zone.id == id
  }

  /** The zones that none of the captures names, in their order. */
  function Retire(zones: seq<Zone>, captures: seq<Capture>): seq<Zone> {
    if zones == [] then []
    else Retire(zones[..|zones| - 1], captures)
         + (if Taken(captures, zones[|zones| - 1].id) then [] else [zones[|zones| - 1]])
  }

  predicate Held(zones: seq<Zone>, tag: Label) {
    exists i :: 0 <= i < |zones| && zones[i].tag == tag
  }

  /** The labels above `slot` that no zone carries, ascending. */
  function VacantFrom(zones: seq<Zone>, slot: nat): seq<Label>
    decreases OBJECTIVE_COUNT - slot
  {
    if slot >= OBJECTIVE_COUNT then []
    else (if Held(zones, slot + 1) then [] else [slot + 1]) + VacantFrom(zones, slot + 1)
  }

  function VacantLabels(zones: seq<Zone>): seq<Label> {
    VacantFrom(zones, 0)
  }

  function NewZone(id: ZoneId, tag: Label, centre: Vec2, armingTicks: nat): Zone {
    Zone(id, tag, centre, armingTicks, None, 0.0, false)
  }

  /** A board, and the next id to hand out. */
  datatype Board = Board(zones: seq<Zone>, nextZoneId: ZoneId)

  /** The board after trying these labels in order: an id is spent for each zone placed and for nothing else. */
  function Placed(b: Board, vacant: seq<Label>, spawn: Spawner): Board
    decreases |vacant|
  {
    if vacant == [] then b
    else
      var centre := spawn(b.nextZoneId, vacant[0], b.zones);
      Placed(if centre.None? then b
             else Board(b.zones + [NewZone(b.nextZoneId, vacant[0], centre.value, ARMING_TICKS)], b.nextZoneId + 1),
             vacant[1..], spawn)
  }

  predicate ByLabel(x: Zone, y: Zone) {
    x.tag < y.tag
  }

  function FillVacancies(b: Board, spawn: Spawner): Board {
    var placed := Placed(b, VacantLabels(b.zones), spawn);
    if |placed.zones| == |b.zones| then Board(b.zones, placed.nextZoneId)
    else placed.(zones := Sort(placed.zones, ByLabel))
  }

  // ── The ledger ────────────────────────────────────────────────────────────────────

  datatype Ledger = Ledger(board: Board, score1: int, score2: int)

  function Scored(captures: seq<Capture>, t: Team): nat {
    if captures == [] then 0
    else Scored(captures[..|captures| - 1], t) + (if captures[|captures| - 1].team == t then 1 else 0)
  }

  /** `hasRuler` is whether the match opened with objectives at all. */
  function Tick(l: Ledger, hasRuler: bool, presence: ZoneId -> Presence, spawn: Spawner): Ledger {
    var zones := Advanced(l.board.zones, presence);
    var captures := Captures(zones);
    if captures == [] then l.(board := l.board.(zones := zones))
    else
      var standing := l.board.(zones := Retire(zones, captures));
      Ledger(if hasRuler then FillVacancies(standing, spawn) else standing,
             l.score1 + Scored(captures, Team1), l.score2 + Scored(captures, Team2))
  }

  class MatchObjectives {
    const hasRuler: bool
    var zones: seq<Zone>
    var nextZoneId: ZoneId
    var score1: int
    var score2: int

    function State(): Ledger
      reads this
    {
      Ledger(Board(zones, nextZoneId), score1, score2)
    }

    /** Ids are handed out from past the highest the opening layout used. */
    constructor (zones: seq<Zone>)
      ensures this.zones == zones && score1 == 0 && score2 == 0 && hasRuler == (zones != [])
      ensures nextZoneId >= ZONE_ID_BASE && forall i :: 0 <= i < |zones| ==> zones[i].id < nextZoneId
      ensures (forall last :: Orderly(Board(zones, last)) ==> Orderly(Board(zones, nextZoneId)))
    {
      this.zones := zones;
      hasRuler := zones != [];
      score1, score2 := 0, 0;
      var next := ZONE_ID_BASE;
      var i := 0;
      while i < |zones|
        invariant 0 <= i <= |zones| && next >= ZONE_ID_BASE
        invariant forall j :: 0 <= j < i ==> zones[j].id < next
      {
        if zones[i].id + 1 > next {
          next := zones[i].id + 1;
        }
        i := i + 1;
      }
      nextZoneId := next;
    }

    method TickObjectives(presence: ZoneId -> Presence, spawn: Spawner)
      modifies this
      ensures State() == Tick(old(State()), hasRuler, presence, spawn)
    {
      zones := Advanced(zones, presence);
      var captures := TakeCaptures();
      if |captures| == 0 {
        return;
      }
      zones := Retire(zones, captures);
      if hasRuler {
        Refill(spawn);
      }
      ScoreCaptures(captures);
    }

    method TakeCaptures() returns (captures: seq<Capture>)
      ensures captures == Captures(zones)
    {
      captures := [];
      var i := 0;
      while i < |zones|
        invariant 0 <= i <= |zones| && captures == Captures(zones[..i])
      {
        assert zones[..i + 1][..i] == zones[..i];
        if zones[i].capturing.Some? && zones[i].progress >= 1.0 {
          captures := captures + [Capture(zones[i], zones[i].capturing.value)];
        }
        i := i + 1;
      }
      assert zones[..i] == zones;
    }

    method ScoreCaptures(captures: seq<Capture>)
      modifies this`score1, this`score2
      ensures score1 == old(score1) + Scored(captures, Team1)
      ensures score2 == old(score2) + Scored(captures, Team2)
    {
      var i := 0;
      while i < |captures|
        invariant 0 <= i <= |captures|
        invariant score1 == old(score1) + Scored(captures[..i], Team1)
        invariant score2 == old(score2) + Scored(captures[..i], Team2)
      {
        assert captures[..i + 1][..i] == captures[..i];
        if captures[i].team == Team1 {
          score1 := score1 + 1;
        } else {
          score2 := score2 + 1;
        }
        i := i + 1;
      }
      assert captures[..i] == captures;
    }

    /** Fill what can be filled, one slot after another, and put the board back in slot order. */
    method Refill(spawn: Spawner)
      modifies this`zones, this`nextZoneId
      ensures Board(zones, nextZoneId) == FillVacancies(old(Board(zones, nextZoneId)), spawn)
    {
      var vacant := VacantLabels(zones);
      PlacedGrows(Board(zones, nextZoneId), vacant, spawn);
      if |vacant| == 0 {
        return;
      }
      var next := zones;
      var i := 0;
      while i < |vacant|
        invariant 0 <= i <= |vacant|
        invariant zones == old(zones)
        invariant Placed(Board(next, nextZoneId), vacant[i..], spawn) == Placed(old(Board(zones, nextZoneId)), vacant, spawn)
      {
        assert vacant[i..][1..] == vacant[i + 1..];
        var centre := spawn(nextZoneId, vacant[i], next);
        if centre.Some? {
          next := next + [NewZone(nextZoneId, vacant[i], centre.value, ARMING_TICKS)];
          nextZoneId := nextZoneId + 1;
        }
        i := i + 1;
      }
      if |next| != |zones| {
        zones := Sort(next, ByLabel);
      }
    }
  }

  /** The zones placed from `slot` on: a slot that gets none still uses up its id and its label. */
  function Opening(slot: nat, zones: seq<Zone>, spawn: Spawner): seq<Zone>
    decreases OBJECTIVE_COUNT - slot
  {
    if slot >= OBJECTIVE_COUNT then zones
    else
      var centre := spawn(ZONE_ID_BASE + slot, slot + 1, zones);
      Opening(slot + 1,
              if centre.None? then zones else zones + [NewZone(ZONE_ID_BASE + slot, slot + 1, centre.value, 0)],
              spawn)
  }

  method SpawnZones(spawn: Spawner) returns (zones: seq<Zone>)
    ensures zones == Opening(0, [], spawn)
  {
    zones := [];
    var slot := 0;
    while slot < OBJECTIVE_COUNT
      invariant 0 <= slot <= OBJECTIVE_COUNT && Opening(slot, zones, spawn) == Opening(0, [], spawn)
    {
      var centre := spawn(ZONE_ID_BASE + slot, slot + 1, zones);
      if centre.Some? {
        zones := zones + [NewZone(ZONE_ID_BASE + slot, slot + 1, centre.value, 0)];
      }
      slot := slot + 1;
    }
  }

  // ── What every tick keeps ─────────────────────────────────────────────────────────

  /** In slot order, each label at most once and only real ones, each id at most once and already handed out. */
  ghost predicate Orderly(b: Board) {
    && (forall i, j :: 0 <= i < j < |b.zones| ==> b.zones[i].tag < b.zones[j].tag)
    && (forall i, j :: 0 <= i < j < |b.zones| ==> b.zones[i].id != b.zones[j].id)
    && (forall i :: 0 <= i < |b.zones| ==> 1 <= b.zones[i].tag <= OBJECTIVE_COUNT && b.zones[i].id < b.nextZoneId)
  }

  /** As `Orderly`, before the board is put back in order. */
  ghost predicate Tidy(b: Board) {
    && (forall i, j :: 0 <= i < j < |b.zones| ==> b.zones[i].tag != b.zones[j].tag)
    && (forall i, j :: 0 <= i < j < |b.zones| ==> b.zones[i].id != b.zones[j].id)
    && (forall i :: 0 <= i < |b.zones| ==> 1 <= b.zones[i].tag <= OBJECTIVE_COUNT && b.zones[i].id < b.nextZoneId)
  }

  lemma {:induction false} PlacedGrows(b: Board, vacant: seq<Label>, spawn: Spawner)
    ensures b.zones <= Placed(b, vacant, spawn).zones
    ensures |Placed(b, vacant, spawn).zones| - |b.zones| == Placed(b, vacant, spawn).nextZoneId - b.nextZoneId
    ensures forall i :: |b.zones| <= i < |Placed(b, vacant, spawn).zones| ==>
      b.nextZoneId <= Placed(b, vacant, spawn).zones[i].id
    decreases |vacant|
  {
    if vacant != [] {
      var centre := spawn(b.nextZoneId, vacant[0], b.zones);
      var next := if centre.None? then b
        else Board(b.zones + [NewZone(b.nextZoneId, vacant[0], centre.value, ARMING_TICKS)], b.nextZoneId + 1);
      PlacedGrows(next, vacant[1..], spawn);
    }
  }

  predicate Increasing(labels: seq<Label>) {
    forall i, j :: 0 <= i < j < |labels| ==> labels[i] < labels[j]
  }

  lemma {:induction false} PlacedIsTidy(b: Board, vacant: seq<Label>, spawn: Spawner)
    requires Tidy(b) && Increasing(vacant)
    requires forall i :: 0 <= i < |vacant| ==> 1 <= vacant[i] <= OBJECTIVE_COUNT && !Held(b.zones, vacant[i])
    ensures Tidy(Placed(b, vacant, spawn))
    decreases |vacant|
  {
    if vacant != [] {
      var centre := spawn(b.nextZoneId, vacant[0], b.zones);
      var next := if centre.None? then b
        else Board(b.zones + [NewZone(b.nextZoneId, vacant[0], centre.value, ARMING_TICKS)], b.nextZoneId + 1);
      assert Tidy(next) by {
        forall i | 0 <= i < |b.zones| ensures b.zones[i].tag != vacant[0] {
          assert Held(b.zones, b.zones[i].tag);
        }
      }
      forall i | 0 <= i < |vacant[1..]| ensures !Held(next.zones, vacant[1..][i]) {
        assert vacant[1..][i] == vacant[i + 1] && vacant[0] < vacant[i + 1];
        forall k | 0 <= k < |next.zones| ensures next.zones[k].tag != vacant[i + 1] {
          if k < |b.zones| {
            assert !Held(b.zones, vacant[i + 1]);
          }
        }
      }
      PlacedIsTidy(next, vacant[1..], spawn);
    }
  }

  /** The vacant labels above `slot` are exactly the existing labels above it that no zone carries. */
  lemma {:induction false} VacantAreFree(zones: seq<Zone>, slot: nat, tag: Label)
    requires slot <= OBJECTIVE_COUNT
    ensures tag in VacantFrom(zones, slot) <==> slot < tag <= OBJECTIVE_COUNT && !Held(zones, tag)
    decreases OBJECTIVE_COUNT - slot
  {
    if slot < OBJECTIVE_COUNT {
      VacantAreFree(zones, slot + 1, tag);
    }
  }

  lemma {:induction false} VacantAscend(zones: seq<Zone>, slot: nat)
    requires slot <= OBJECTIVE_COUNT
    ensures Increasing(VacantFrom(zones, slot))
    decreases OBJECTIVE_COUNT - slot
  {
    if slot < OBJECTIVE_COUNT {
      VacantAscend(zones, slot + 1);
      var rest := VacantFrom(zones, slot + 1);
      forall i | 0 <= i < |rest| ensures slot + 1 < rest[i] {
        assert rest[i] in rest;
        VacantAreFree(zones, slot + 1, rest[i]);
      }
    }
  }

  lemma SortedTidyIsOrderly(b: Board)
    requires Tidy(b)
    ensures Orderly(b.(zones := Sort(b.zones, ByLabel)))
  {
    var sorted := Sort(b.zones, ByLabel);
    SortKeepsElements(b.zones, ByLabel);
    SortSorts(b.zones, ByLabel);
    SortKeepsMembers(b.zones, ByLabel);
    forall i, j | 0 <= i < j < |sorted| ensures sorted[i].tag < sorted[j].tag && sorted[i].id != sorted[j].id {
      assert !ByLabel(sorted[j], sorted[i]);
      DistinctPlaces(b, sorted, i, j);
    }
    forall i | 0 <= i < |sorted| ensures 1 <= sorted[i].tag <= OBJECTIVE_COUNT && sorted[i].id < b.nextZoneId {
      assert sorted[i] in b.zones;
    }
  }

  /** Two places of a rearrangement hold two different zones. */
  lemma DistinctPlaces(b: Board, sorted: seq<Zone>, i: int, j: int)
    requires Tidy(b) && multiset(sorted) == multiset(b.zones) && 0 <= i < j < |sorted|
    ensures sorted[i].tag != sorted[j].tag && sorted[i].id != sorted[j].id
  {
    var x, y := sorted[i], sorted[j];
    assert x in multiset(sorted) && y in multiset(sorted);
    var p :| 0 <= p < |b.zones| && b.zones[p] == x;
    var q :| 0 <= q < |b.zones| && b.zones[q] == y;
    if x == y {
      assert sorted == sorted[..i] + [x] + sorted[i + 1..j] + [x] + sorted[j + 1..];
      assert multiset(sorted)[x] >= 2;
      OnceInTidy(b.zones, p);
    } else {
      assert p != q;
      assert p < q || q < p;
    }
  }

  lemma OnceInTidy(zones: seq<Zone>, p: int)
    requires forall i, j :: 0 <= i < j < |zones| ==> zones[i].id != zones[j].id
    requires 0 <= p < |zones|
    ensures multiset(zones)[zones[p]] == 1
  {
    var x := zones[p];
    assert zones == zones[..p] + [x] + zones[p + 1..];
    assert x !in zones[..p];
    assert x !in zones[p + 1..];
  }

  // Retirement.

  lemma {:induction false} RetireKeepsOthers(zones: seq<Zone>, captures: seq<Capture>)
    ensures forall z :: z in Retire(zones, captures) <==> z in zones && !Taken(captures, z.id)
  {
    if zones != [] {
      RetireKeepsOthers(zones[..|zones| - 1], captures);
    }
  }

  lemma OrderlyAppends(zones: seq<Zone>, z: Zone, next: ZoneId)
    requires Orderly(Board(zones, next)) && 1 <= z.tag <= OBJECTIVE_COUNT && z.id < next
    requires forall y :: y in zones ==> y.tag < z.tag && y.id != z.id
    ensures Orderly(Board(zones + [z], next))
  {
    forall i, j | 0 <= i < j < |zones + [z]|
      ensures (zones + [z])[i].tag < (zones + [z])[j].tag && (zones + [z])[i].id != (zones + [z])[j].id
    {
      assert zones[i] in zones;
    }
  }

  lemma {:induction false} RetireKeepsOrder(zones: seq<Zone>, captures: seq<Capture>, next: ZoneId)
    requires Orderly(Board(zones, next))
    ensures Orderly(Board(Retire(zones, captures), next))
  {
    if zones != [] {
      var n := |zones| - 1;
      RetireKeepsOrder(zones[..n], captures, next);
      if !Taken(captures, zones[n].id) {
        RetireKeepsOthers(zones[..n], captures);
        OrderlyAppends(Retire(zones[..n], captures), zones[n], next);
      }
    }
  }

  predicate DistinctIds(zones: seq<Zone>) {
    forall i, j :: 0 <= i < j < |zones| ==> zones[i].id != zones[j].id
  }

  lemma {:induction false} CapturesAreFallen(zones: seq<Zone>)
    ensures forall c :: c in Captures(zones) <==> c.zone in zones && Fallen(c.zone) && c.team == c.zone.capturing.value
  {
    if zones != [] {
      CapturesAreFallen(zones[..|zones| - 1]);
    }
  }

  /** With distinct ids, exactly the zones that fell are retired. */
  lemma TakenMeansFallen(zones: seq<Zone>, i: int)
    requires DistinctIds(zones) && 0 <= i < |zones|
    ensures Taken(Captures(zones), zones[i].id) <==> Fallen(zones[i])
  {
    CapturesAreFallen(zones);
    var cs := Captures(zones);
    if Fallen(zones[i]) {
      var c := Capture(zones[i], zones[i].capturing.value);
      assert c in cs;
      var k :| 0 <= k < |cs| && cs[k] == c;
      assert cs[k].zone.id == zones[i].id;
    }
    if Taken(cs, zones[i].id) {
      var k :| 0 <= k < |cs| && cs[k].zone.id == zones[i].id;
      assert cs[k] in cs;
      var j :| 0 <= j < |zones| && zones[j] == cs[k].zone;
      assert j == i || zones[j].id != zones[i].id;
    }
  }

  lemma {:induction false} RetireAndCapturesPartition(zones: seq<Zone>, all: seq<Zone>)
    requires DistinctIds(all) && zones <= all
    ensures |Retire(zones, Captures(all))| + |Captures(zones)| == |zones|
  {
    if zones != [] {
      RetireAndCapturesPartition(zones[..|zones| - 1], all);
      TakenMeansFallen(all, |zones| - 1);
    }
  }

  lemma {:induction false} EveryCaptureScores(captures: seq<Capture>)
    ensures Scored(captures, Team1) + Scored(captures, Team2) == |captures|
  {
    if captures != [] {
      EveryCaptureScores(captures[..|captures| - 1]);
    }
  }

  lemma FillingIsOrderly(b: Board, spawn: Spawner)
    requires Orderly(b)
    ensures Orderly(FillVacancies(b, spawn))
    ensures |FillVacancies(b, spawn).zones| - |b.zones| == FillVacancies(b, spawn).nextZoneId - b.nextZoneId >= 0
  {
    var vacant := VacantLabels(b.zones);
    VacantAscend(b.zones, 0);
    forall i | 0 <= i < |vacant| ensures 1 <= vacant[i] <= OBJECTIVE_COUNT && !Held(b.zones, vacant[i]) {
      assert vacant[i] in vacant;
      VacantAreFree(b.zones, 0, vacant[i]);
    }
    assert Tidy(b);
    PlacedIsTidy(b, vacant, spawn);
    PlacedGrows(b, vacant, spawn);
    var placed := Placed(b, vacant, spawn);
    if |placed.zones| != |b.zones| {
      SortedTidyIsOrderly(placed);
      SortKeepsLength(placed.zones, ByLabel);
    }
  }

  lemma FillingAddsOnlyNew(b: Board, spawn: Spawner)
    ensures forall z :: z in FillVacancies(b, spawn).zones ==> z in b.zones || b.nextZoneId <= z.id
  {
    var vacant := VacantLabels(b.zones);
    PlacedGrows(b, vacant, spawn);
    var placed := Placed(b, vacant, spawn);
    SortKeepsMembers(placed.zones, ByLabel);
    forall z | z in placed.zones ensures z in b.zones || b.nextZoneId <= z.id {
      var i :| 0 <= i < |placed.zones| && placed.zones[i] == z;
      assert i < |b.zones| ==> placed.zones[i] == b.zones[i];
    }
  }

  lemma FilledKeeps(b: Board, spawn: Spawner)
    ensures forall z :: z in b.zones ==> z in FillVacancies(b, spawn).zones
  {
    var vacant := VacantLabels(b.zones);
    PlacedGrows(b, vacant, spawn);
    var placed := Placed(b, vacant, spawn);
    SortKeepsMembers(placed.zones, ByLabel);
    forall z | z in b.zones ensures z in placed.zones {
      var i :| 0 <= i < |b.zones| && b.zones[i] == z;
      assert placed.zones[i] == z;
    }
  }

  /** Advancing a zone moves only its clock and its claim. */
  lemma AdvancedIsOrderly(b: Board, presence: ZoneId -> Presence)
    requires Orderly(b)
    ensures Orderly(b.(zones := Advanced(b.zones, presence)))
    ensures forall i :: 0 <= i < |b.zones| ==> Advanced(b.zones, presence)[i].id == b.zones[i].id
  {
    var zones := Advanced(b.zones, presence);
    forall i | 0 <= i < |b.zones| ensures zones[i].id == b.zones[i].id && zones[i].tag == b.zones[i].tag {
      var z := b.zones[i];
      assert zones[i] == AdvanceZone(z, presence(z.id));
    }
  }

  /**
   * One tick: the board stays in order, and the points scored, the zones taken down, the zones put up
   * and the ids spent balance.
   */
  lemma TickBalances(l: Ledger, hasRuler: bool, presence: ZoneId -> Presence, spawn: Spawner)
    requires Orderly(l.board)
    ensures var l' := Tick(l, hasRuler, presence, spawn);
      && Orderly(l'.board) && l.board.nextZoneId <= l'.board.nextZoneId
      && l'.score1 + l'.score2 + |l'.board.zones| - l'.board.nextZoneId
           == l.score1 + l.score2 + |l.board.zones| - l.board.nextZoneId
      && l.score1 <= l'.score1 && l.score2 <= l'.score2
  {
    AdvancedIsOrderly(l.board, presence);
    var zones := Advanced(l.board.zones, presence);
    var captures := Captures(zones);
    if captures != [] {
      RetireKeepsOrder(zones, captures, l.board.nextZoneId);
      RetireAndCapturesPartition(zones, zones);
      EveryCaptureScores(captures);
      if hasRuler {
        FillingIsOrderly(l.board.(zones := Retire(zones, captures)), spawn);
      }
    }
  }

  // ── Whole matches ─────────────────────────────────────────────────────────────────

  datatype Input = Input(presence: ZoneId -> Presence, spawn: Spawner)

  function Play(l: Ledger, hasRuler: bool, inputs: seq<Input>): Ledger
    decreases |inputs|
  {
    if inputs == [] then l
    else Play(Tick(l, hasRuler, inputs[0].presence, inputs[0].spawn), hasRuler, inputs[1..])
  }

  /**
   * Over any match: both scores plus the zones standing, less what they came to at the start, is the
   * number of ids handed out; and the board is in slot order with no label or id twice.
   */
  lemma {:induction false} LedgerBalances(l: Ledger, hasRuler: bool, inputs: seq<Input>)
    requires Orderly(l.board)
    ensures var l' := Play(l, hasRuler, inputs);
      && Orderly(l'.board) && l.board.nextZoneId <= l'.board.nextZoneId
      && (l'.score1 + l'.score2 + |l'.board.zones|) - (l.score1 + l.score2 + |l.board.zones|)
           == l'.board.nextZoneId - l.board.nextZoneId
    decreases |inputs|
  {
    if inputs != [] {
      TickBalances(l, hasRuler, inputs[0].presence, inputs[0].spawn);
      LedgerBalances(Tick(l, hasRuler, inputs[0].presence, inputs[0].spawn), hasRuler, inputs[1..]);
    }
  }

  predicate Standing(b: Board, id: ZoneId) {
    exists i :: 0 <= i < |b.zones| && b.zones[i].id == id
  }

  lemma TickNeverRevives(l: Ledger, hasRuler: bool, presence: ZoneId -> Presence, spawn: Spawner, id: ZoneId)
    requires Orderly(l.board) && id < l.board.nextZoneId && !Standing(l.board, id)
    ensures !Standing(Tick(l, hasRuler, presence, spawn).board, id)
  {
    AdvancedIsOrderly(l.board, presence);
    var zones := Advanced(l.board.zones, presence);
    var captures := Captures(zones);
    forall z | z in zones ensures z.id != id {
      var i :| 0 <= i < |zones| && zones[i] == z;
      assert l.board.zones[i].id != id;
    }
    RetireKeepsOthers(zones, captures);
    RetireKeepsOrder(zones, captures, l.board.nextZoneId);
    if captures != [] && hasRuler {
      FillingAddsOnlyNew(l.board.(zones := Retire(zones, captures)), spawn);
    }
    var b' := Tick(l, hasRuler, presence, spawn).board;
    forall i | 0 <= i < |b'.zones| ensures b'.zones[i].id != id {
      assert b'.zones[i] in b'.zones;
    }
  }

  /** An id once off the board never comes back to it. */
  lemma {:induction false} IdsAreNeverReused(l: Ledger, hasRuler: bool, inputs: seq<Input>, id: ZoneId)
    requires Orderly(l.board) && id < l.board.nextZoneId && !Standing(l.board, id)
    ensures !Standing(Play(l, hasRuler, inputs).board, id)
    decreases |inputs|
  {
    if inputs != [] {
      TickBalances(l, hasRuler, inputs[0].presence, inputs[0].spawn);
      TickNeverRevives(l, hasRuler, inputs[0].presence, inputs[0].spawn, id);
      IdsAreNeverReused(Tick(l, hasRuler, inputs[0].presence, inputs[0].spawn), hasRuler, inputs[1..], id);
    }
  }

  /** The opening layout is orderly, whichever slots it could fill. */
  lemma {:induction false} OpeningIsOrderly(slot: nat, zones: seq<Zone>, spawn: Spawner)
    requires slot <= OBJECTIVE_COUNT && Orderly(Board(zones, ZONE_ID_BASE + slot))
    requires forall i :: 0 <= i < |zones| ==> zones[i].tag <= slot
    ensures Orderly(Board(Opening(slot, zones, spawn), ZONE_ID_BASE + OBJECTIVE_COUNT))
    decreases OBJECTIVE_COUNT - slot
  {
    if slot < OBJECTIVE_COUNT {
      var centre := spawn(ZONE_ID_BASE + slot, slot + 1, zones);
      OpeningIsOrderly(slot + 1,
        if centre.None? then zones else zones + [NewZone(ZONE_ID_BASE + slot, slot + 1, centre.value, 0)], spawn);
    }
  }

  // ── Taking a zone ─────────────────────────────────────────────────────────────────

  /** A zone after these ticks, whoever was in it. */
  function Through(z: Zone, stay: seq<Presence>): Zone {
    if stay == [] then z else AdvanceZone(Through(z, stay[..|stay| - 1]), stay[|stay| - 1])
  }

  predicate Alone(p: Presence, t: Team) {
    p == Presence(t == Team1, t == Team2)
  }

  /** Of the ticks since a team was last out of the circle, those it was alone in it. */
  function Streak(stay: seq<Presence>, t: Team): nat {
    if stay == [] || !Inside(stay[|stay| - 1], t) then 0
    else Streak(stay[..|stay| - 1], t) + (if Alone(stay[|stay| - 1], t) then 1 else 0)
  }

  /** The progress of a team alone in an open zone for so many ticks. */
  function Progressed(ticks: nat): real {
    MinR(1.0, ticks as real * (SIM_TICK_SECONDS / CAPTURE_SECONDS))
  }

  /** While it arms a zone only counts down, whoever is in it. */
  lemma {:induction false} ArmingOnlyCountsDown(z: Zone, stay: seq<Presence>)
    requires |stay| <= z.armingTicks
    ensures Through(z, stay) == z.(armingTicks := z.armingTicks - |stay|)
  {
    if stay != [] {
      ArmingOnlyCountsDown(z, stay[..|stay| - 1]);
    }
  }

  /**
   * From an open zone nobody holds, after any comings and goings: a team holds it exactly when it has
   * been alone in it at some point of the stay it is still on, and its progress is that time alone.
   * Contested ticks neither add nor take away, and leaving loses everything.
   */
  lemma {:induction false} ProgressIsTheStreak(z: Zone, stay: seq<Presence>)
    requires z.armingTicks == 0 && z.capturing == None && z.progress == 0.0
    ensures var z' := Through(z, stay);
      && z'.armingTicks == 0
      && (z'.capturing == Some(Team1) <==> Streak(stay, Team1) > 0)
      && (z'.capturing == Some(Team2) <==> Streak(stay, Team2) > 0)
      && z'.progress == if z'.capturing.None? then 0.0
           else Progressed(Streak(stay, z'.capturing.value))
  {
    if stay != [] {
      ProgressIsTheStreak(z, stay[..|stay| - 1]);
    }
  }

  /** A held zone is full exactly when its ticks alone add up to the capture time. */
  lemma FullExactlyAtCaptureTime(z: Zone, ticks: nat)
    requires z.progress == Progressed(ticks)
    ensures z.progress >= 1.0 <==> ticks as real * SIM_TICK_SECONDS >= CAPTURE_SECONDS
  {
  }

  /** How a zone stands to a team whose time alone in it is given. */
  lemma FallsAtCaptureTime(z: Zone, ticks: nat, t: Team)
    requires z.armingTicks == 0
    requires z.capturing == Some(t) <==> ticks > 0
    requires z.capturing == Some(t) ==> z.progress == Progressed(ticks)
    ensures Fallen(z) && z.capturing == Some(t) <==> ticks as real * SIM_TICK_SECONDS >= CAPTURE_SECONDS
  {
    if z.capturing == Some(t) {
      FullExactlyAtCaptureTime(z, ticks);
    }
  }

  lemma ProgressOf(z: Zone, stay: seq<Presence>, t: Team)
    requires z.armingTicks == 0 && z.capturing == None && z.progress == 0.0
    ensures var z', ticks := Through(z, stay), Streak(stay, t);
      && z'.armingTicks == 0
      && (z'.capturing == Some(t) <==> ticks > 0)
      && (z'.capturing == Some(t) ==> z'.progress == Progressed(ticks))
  {
    ProgressIsTheStreak(z, stay);
  }

  /** So it falls to a team exactly when that team has been alone in it for the capture time without leaving. */
  lemma FallsExactlyWhenHeldLongEnough(z: Zone, stay: seq<Presence>, t: Team)
    requires z.armingTicks == 0 && z.capturing == None && z.progress == 0.0
    ensures var z' := Through(z, stay);
      Fallen(z') && z'.capturing == Some(t) <==> Streak(stay, t) as real * SIM_TICK_SECONDS >= CAPTURE_SECONDS
  {
    ProgressOf(z, stay, t);
    FallsAtCaptureTime(Through(z, stay), Streak(stay, t), t);
  }
}
