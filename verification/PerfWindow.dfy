/**
 * The ring of measured times (packages/server/src/match/perf.ts), and the part of `MatchRuntime`
 * that arms it (packages/server/src/match/runtime.ts).
 *
 * A phase is its place in the list of phases, and a measured time is a real the caller supplies.
 */
module PerfWindow {
  import opened Options
  import opened Measures

  type Phase = nat
  type AccountId = int
  type Slots = seq<Option<real>>

  const PERF_WINDOW := 40
  const PHASE_COUNT := 11
  const BUDGET_MS := 50.0

  // ── What a list of slots adds up to ───────────────────────────────────────────────

  datatype Summary = Summary(runs: nat, total: real, peak: real)

  function One(slot: Option<real>): Summary {
    if slot.None? then Summary(0, 0.0, 0.0) else Summary(1, slot.value, MaxR(0.0, slot.value))
  }

  function Join(a: Summary, b: Summary): Summary {
    Summary(a.runs + b.runs, a.total + b.total, MaxR(a.peak, b.peak))
  }

  function Summarize(slots: Slots): Summary {
    if slots == [] then Summary(0, 0.0, 0.0) else Join(Summarize(slots[..|slots| - 1]), One(slots[|slots| - 1]))
  }

  lemma {:induction false} PeakIsNotNegative(slots: Slots)
    ensures Summarize(slots).peak >= 0.0
  {
    if slots != [] {
      PeakIsNotNegative(slots[..|slots| - 1]);
    }
  }

  datatype PhaseView = PhaseView(runs: nat, mean: real, share: real, peak: real)

  function ViewOf(s: Summary, ticks: nat): PhaseView {
    PhaseView(
      s.runs,
      if s.runs == 0 then 0.0 else s.total / s.runs as real,
      if ticks == 0 then 0.0 else s.total / (ticks as real * BUDGET_MS),
      s.peak)
  }

  /** The peak is the largest time there is, or zero when no time is above it. */
  lemma {:induction false} PeakIsLargest(slots: Slots)
    ensures forall i :: 0 <= i < |slots| ==> One(slots[i]).peak <= Summarize(slots).peak
    ensures Summarize(slots).peak == 0.0 || exists i :: 0 <= i < |slots| && One(slots[i]).peak == Summarize(slots).peak
  {
    if slots != [] {
      var n := |slots| - 1;
      var front := slots[..n];
      PeakIsLargest(front);
      PeakIsNotNegative(front);
      forall i | 0 <= i < n ensures One(slots[i]).peak <= Summarize(slots).peak {
        assert front[i] == slots[i];
      }
      if Summarize(slots).peak != One(slots[n]).peak && Summarize(front).peak != 0.0 {
        var i :| 0 <= i < |front| && One(front[i]).peak == Summarize(front).peak;
        assert One(slots[i]).peak == Summarize(slots).peak;
      }
    }
  }

  lemma JoinAssociates(a: Summary, b: Summary, c: Summary)
    ensures Join(Join(a, b), c) == Join(a, Join(b, c))
  {
  }

  lemma JoinCommutes(a: Summary, b: Summary)
    ensures Join(a, b) == Join(b, a)
  {
  }

  lemma {:induction false} SummaryOfConcat(a: Slots, b: Slots)
    ensures Summarize(a + b) == Join(Summarize(a), Summarize(b))
  {
    if b == [] {
      assert a + b == a;
      PeakIsNotNegative(a);
    } else {
      var n := |b| - 1;
      var last := One(b[n]);
      assert (a + b)[..|a + b| - 1] == a + b[..n];
      assert (a + b)[|a + b| - 1] == b[n];
      SummaryOfConcat(a, b[..n]);
      JoinAssociates(Summarize(a), Summarize(b[..n]), last);
      assert Summarize(b) == Join(Summarize(b[..n]), last);
      assert Summarize(a + b) == Join(Summarize(a + b[..n]), last);
    }
  }

  predicate Turned(a: Slots, b: Slots) {
    |a| == |b| && forall i :: 0 <= i < |a| ==> a[i] == b[|b| - 1 - i]
  }

  /** A list of slots read backwards adds up to the same. */
  lemma {:induction false} SummaryOfTurned(a: Slots, b: Slots)
    requires Turned(a, b)
    ensures Summarize(a) == Summarize(b)
  {
    if a != [] {
      var first, rest, front := a[0], a[1..], b[..|b| - 1];
      assert Turned(rest, front) by {
        assert forall i :: 0 <= i < |rest| ==> rest[i] == a[i + 1] && front[|front| - 1 - i] == b[|b| - 2 - i];
      }
      SummaryOfTurned(rest, front);
      SummaryOfFirst(a);
      SummaryOfLast(b);
      JoinCommutes(Summarize(front), One(first));
    }
  }

  lemma SummaryOfFirst(slots: Slots)
    requires slots != []
    ensures Summarize(slots) == Join(One(slots[0]), Summarize(slots[1..]))
  {
    assert slots == [slots[0]] + slots[1..];
    SummaryOfOne(slots[0]);
    SummaryOfConcat([slots[0]], slots[1..]);
  }

  lemma SummaryOfLast(slots: Slots)
    requires slots != []
    ensures Summarize(slots) == Join(Summarize(slots[..|slots| - 1]), One(slots[|slots| - 1]))
  {
  }

  // ── The tracker as a value ────────────────────────────────────────────────────────

  datatype Tracker = Tracker(enabled: bool, slot: nat, ticks: nat, latest: int, rings: seq<Slots>)

  /** The remainder of a division that truncates toward zero. */
  function Remainder(x: int, d: nat): int
    requires d > 0
  {
    if x >= 0 then x % d else -((-x) % d)
  }

  function SlotFor(tick: int): int {
    Remainder(Remainder(tick, PERF_WINDOW) + PERF_WINDOW, PERF_WINDOW)
  }

  lemma SlotIsCongruent(tick: int)
    ensures 0 <= SlotFor(tick) < PERF_WINDOW && SlotFor(tick) == tick % PERF_WINDOW
  {
    if tick < 0 {
      var q, r := (-tick) / PERF_WINDOW, (-tick) % PERF_WINDOW;
      assert -tick == PERF_WINDOW * q + r;
    }
  }

  predicate Shaped(t: Tracker) {
    t.slot < PERF_WINDOW && |t.rings| == PHASE_COUNT && forall p :: 0 <= p < PHASE_COUNT ==> |t.rings[p]| == PERF_WINDOW
  }

  function Blank(): (s: Slots)
    ensures |s| == PERF_WINDOW && forall i :: 0 <= i < PERF_WINDOW ==> s[i] == None
  {
    seq(PERF_WINDOW, i => None)
  }

  /** Every ring with one slot wiped. */
  function Cleared(rings: seq<Slots>, slot: nat): (r: seq<Slots>)
    requires slot < PERF_WINDOW && forall p :: 0 <= p < |rings| ==> |rings[p]| == PERF_WINDOW
    ensures |r| == |rings| && forall p :: 0 <= p < |rings| ==> r[p] == rings[p][slot := None]
  {
    if rings == [] then [] else [rings[0][slot := None]] + Cleared(rings[1..], slot)
  }

  function Begun(t: Tracker, tick: int): (t': Tracker)
    requires Shaped(t)
    ensures Shaped(t')
  {
    if !t.enabled then t
    else
      SlotIsCongruent(tick);
      var slot := SlotFor(tick);
      Tracker(true, slot, if t.ticks < PERF_WINDOW then t.ticks + 1 else t.ticks, tick, Cleared(t.rings, slot))
  }

  function Sum(slot: Option<real>, ms: real): Option<real> {
    Some((if slot.None? then 0.0 else slot.value) + ms)
  }

  function Recorded(t: Tracker, p: Phase, ms: real): (t': Tracker)
    requires Shaped(t) && p < PHASE_COUNT
    ensures Shaped(t')
  {
    if !t.enabled then t
    else t.(rings := t.rings[p := t.rings[p][t.slot := Sum(t.rings[p][t.slot], ms)]])
  }

  function Forgotten(t: Tracker): (t': Tracker)
    requires Shaped(t)
    ensures Shaped(t')
  {
    t.(ticks := 0, rings := seq(PHASE_COUNT, p => Blank()))
  }

  // ── The tracker in place ──────────────────────────────────────────────────────────

  class PhaseRing {
    const times: array<real>
    const ran: array<bool>

    ghost predicate Valid()
      reads times, ran
    {
      && times.Length == PERF_WINDOW && ran.Length == PERF_WINDOW
      && forall i :: 0 <= i < PERF_WINDOW && !ran[i] ==> times[i] == 0.0
    }

    ghost function Held(): (s: Slots)
      requires Valid()
      reads times, ran
      ensures |s| == PERF_WINDOW
      ensures forall i :: 0 <= i < PERF_WINDOW ==> s[i] == if ran[i] then Some(times[i]) else None
    {
      seq(PERF_WINDOW, i requires 0 <= i < PERF_WINDOW reads times, ran => if ran[i] then Some(times[i]) else None)
    }

    constructor ()
      ensures Valid() && fresh(times) && fresh(ran) && Held() == Blank()
    {
      times := new real[PERF_WINDOW](i => 0.0);
      ran := new bool[PERF_WINDOW](i => false);
    }

    method Clear(slot: nat)
      requires Valid() && slot < PERF_WINDOW
      modifies times, ran
      ensures Valid() && Held() == old(Held())[slot := None]
    {
      times[slot] := 0.0;
      ran[slot] := false;
    }

    method ClearAll()
      requires Valid()
      modifies times, ran
      ensures Valid() && Held() == Blank()
    {
      var s := 0;
      while s < PERF_WINDOW
        invariant 0 <= s <= PERF_WINDOW && Valid() && forall k :: 0 <= k < s ==> Held()[k] == None
      {
        Clear(s);
        s := s + 1;
      }
    }

    method Add(slot: nat, ms: real)
      requires Valid() && slot < PERF_WINDOW
      modifies times, ran
      ensures Valid() && Held() == old(Held())[slot := Sum(old(Held())[slot], ms)]
    {
      times[slot] := times[slot] + ms;
      ran[slot] := true;
    }

    method View(ticks: nat) returns (view: PhaseView)
      requires Valid()
      ensures view == ViewOf(Summarize(Held()), ticks)
    {
      var total, peak, runs := 0.0, 0.0, 0;
      var i := 0;
      while i < PERF_WINDOW
        invariant 0 <= i <= PERF_WINDOW && peak >= 0.0 && Summary(runs, total, peak) == Summarize(Held()[..i])
      {
        assert Held()[..i + 1][..i] == Held()[..i];
        if ran[i] {
          var ms := times[i];
          total := total + ms;
          runs := runs + 1;
          if ms > peak {
            peak := ms;
          }
        }
        i := i + 1;
      }
      assert Held()[..i] == Held();
      var mean := if runs == 0 then 0.0 else total / runs as real;
      var share := if ticks == 0 then 0.0 else total / (ticks as real * BUDGET_MS);
      view := PhaseView(runs, mean, share, peak);
    }
  }

  class PerfTracker {
    var enabled: bool
    var slot: nat
    var ticks: nat
    var latest: int
    const rings: seq<PhaseRing>
    ghost const Repr: set<object>

    ghost predicate Valid()
      reads this, Repr
    {
      && slot < PERF_WINDOW && |rings| == PHASE_COUNT && this !in Repr
      && (forall p :: 0 <= p < PHASE_COUNT ==> rings[p].times in Repr && rings[p].ran in Repr && rings[p].Valid())
      && (forall p, q :: 0 <= p < q < PHASE_COUNT ==> rings[p].times != rings[q].times && rings[p].ran != rings[q].ran)
    }

    ghost function State(): (t: Tracker)
      requires Valid()
      reads this, Repr
      ensures Shaped(t)
    {
      Tracker(enabled, slot, ticks, latest,
              seq(PHASE_COUNT, p requires 0 <= p < PHASE_COUNT && Valid() reads this, Repr => rings[p].Held()))
    }

    constructor ()
      ensures Valid() && fresh(Repr)
      ensures State() == Tracker(false, 0, 0, 0, seq(PHASE_COUNT, p => Blank()))
    {
      var made: seq<PhaseRing> := [];
      ghost var repr: set<object> := {};
      while |made| < PHASE_COUNT
        invariant |made| <= PHASE_COUNT && fresh(repr)
        invariant forall p :: 0 <= p < |made| ==>
          made[p].times in repr && made[p].ran in repr && made[p].Valid() && made[p].Held() == Blank()
        invariant forall p, q :: 0 <= p < q < |made| ==> made[p].times != made[q].times && made[p].ran != made[q].ran
      {
        var ring := new PhaseRing();
        made := made + [ring];
        repr := repr + {ring.times, ring.ran};
      }
      enabled, slot, ticks, latest, rings, Repr := false, 0, 0, 0, made, repr;
    }

    method SetEnabled(on: bool)
      requires Valid()
      modifies `enabled
      ensures Valid() && State() == old(State()).(enabled := on)
    {
      enabled := on;
    }

    method BeginTick(tick: int)
      requires Valid()
      modifies this, Repr
      ensures Valid() && State() == Begun(old(State()), tick)
    {
      if !enabled {
        return;
      }
      SlotIsCongruent(tick);
      slot := SlotFor(tick);
      latest := tick;
      if ticks < PERF_WINDOW {
        ticks := ticks + 1;
      }
      assert Valid() && State().rings == old(State()).rings by {
        assert forall p :: 0 <= p < PHASE_COUNT ==> rings[p].Held() == old(rings[p].Held());
      }
      ClearSlot();
    }

    method ClearSlot()
      requires Valid()
      modifies Repr
      ensures Valid()
      ensures State() == old(State()).(rings := Cleared(old(State()).rings, old(slot)))
    {
      ghost var was := State();
      var i := 0;
      while i < |rings|
        invariant 0 <= i <= |rings| && Valid()
        invariant forall p :: 0 <= p < i ==> rings[p].Held() == was.rings[p][slot := None]
        invariant forall p :: i <= p < |rings| ==> rings[p].Held() == was.rings[p]
      {
        label Before:
        rings[i].Clear(slot);
        assert forall p :: 0 <= p < |rings| && p != i ==> rings[p].Held() == old@Before(rings[p].Held());
        i := i + 1;
      }
    }

    method Record(p: Phase, ms: real)
      requires Valid() && p < PHASE_COUNT
      modifies Repr
      ensures Valid() && State() == Recorded(old(State()), p, ms)
    {
      if !enabled {
        return;
      }
      rings[p].Add(slot, ms);
      assert forall q :: 0 <= q < PHASE_COUNT && q != p ==> rings[q].Held() == old(rings[q].Held());
    }

    method Reset()
      requires Valid()
      modifies this, Repr
      ensures Valid() && State() == Forgotten(old(State()))
    {
      ticks := 0;
      var i := 0;
      while i < |rings|
        invariant 0 <= i <= |rings| && Valid()
        invariant enabled == old(enabled) && slot == old(slot) && latest == old(latest) && ticks == 0
        invariant forall p :: 0 <= p < i ==> rings[p].Held() == Blank()
      {
        rings[i].ClearAll();
        i := i + 1;
      }
    }

    /** One view per phase, in phase order, with the last tick begun and the number of ticks they cover. */
    method Snapshot() returns (tick: int, window: nat, phases: seq<PhaseView>)
      requires Valid()
      ensures tick == latest && window == ticks && |phases| == PHASE_COUNT
      ensures forall p :: 0 <= p < PHASE_COUNT ==> phases[p] == ViewOf(Summarize(State().rings[p]), ticks)
    {
      tick, window, phases := latest, ticks, [];
      while |phases| < PHASE_COUNT
        invariant |phases| <= PHASE_COUNT
        invariant forall p :: 0 <= p < |phases| ==> phases[p] == ViewOf(Summarize(State().rings[p]), ticks)
      {
        var view := rings[|phases|].View(ticks);
        phases := phases + [view];
      }
    }
  }

  // ── The runtime that arms it ──────────────────────────────────────────────────────

  /** What one tick measured: each phase and the time one run of it took. */
  type Measured = seq<(Phase, real)>

  datatype Stats = Stats(watchers: set<AccountId>, clock: int, perf: Tracker)

  datatype Event =
    | SetStats(account: AccountId, on: bool)
    | Tick(measured: Measured)

  predicate AllKnown(measured: Measured) {
    forall i :: 0 <= i < |measured| ==> measured[i].0 < PHASE_COUNT
  }

  predicate Known(e: Event) {
    e.Tick? ==> AllKnown(e.measured)
  }

  function Watching(watchers: set<AccountId>, account: AccountId, on: bool): set<AccountId> {
    if on then watchers + {account} else watchers - {account}
  }

  function RecordAll(t: Tracker, measured: Measured): (t': Tracker)
    requires Shaped(t) && AllKnown(measured)
    ensures Shaped(t')
  {
    if measured == [] then t
    else
      var n := |measured| - 1;
      Recorded(RecordAll(t, measured[..n]), measured[n].0, measured[n].1)
  }

  function Next(s: Stats, e: Event): (s': Stats)
    requires Shaped(s.perf) && Known(e)
    ensures Shaped(s'.perf)
  {
    match e
    case SetStats(account, on) =>
      var watchers := Watching(s.watchers, account, on);
      var perf := if watchers == {} && s.perf.enabled then Forgotten(s.perf) else s.perf;
      Stats(watchers, s.clock, perf.(enabled := watchers != {}))
    case Tick(measured) =>
      Stats(s.watchers, s.clock + 1, RecordAll(Begun(s.perf, s.clock + 1), measured))
  }

  class MatchStatistics {
    var watchers: set<AccountId>
    var clock: int
    const perf: PerfTracker

    ghost predicate Valid()
      reads this, perf, perf.Repr
    {
      this !in perf.Repr && perf.Valid()
    }

    ghost function State(): (s: Stats)
      requires Valid()
      reads this, perf, perf.Repr
      ensures Shaped(s.perf)
    {
      Stats(watchers, clock, perf.State())
    }

    constructor ()
      ensures Valid() && fresh(perf) && fresh(perf.Repr)
      ensures State() == Stats({}, 0, Tracker(false, 0, 0, 0, seq(PHASE_COUNT, p => Blank())))
    {
      watchers, clock := {}, 0;
      perf := new PerfTracker();
    }

    method SetDebugStats(account: AccountId, on: bool)
      requires Valid()
      modifies this, perf, perf.Repr
      ensures Valid() && State() == Next(old(State()), SetStats(account, on))
    {
      if on {
        watchers := watchers + {account};
      } else {
        watchers := watchers - {account};
      }
      var watched := watchers != {};
      if !watched && perf.enabled {
        perf.Reset();
      }
      perf.SetEnabled(watched);
    }

    /** The stopwatch's part of one tick and of publishing it: the slot first, then each measurement. */
    method RunTick(measured: Measured)
      requires Valid() && Known(Tick(measured))
      modifies this, perf, perf.Repr
      ensures Valid() && State() == Next(old(State()), Tick(measured))
    {
      clock := clock + 1;
      perf.BeginTick(clock);
      ghost var begun := perf.State();
      var i := 0;
      while i < |measured|
        invariant 0 <= i <= |measured| && Valid()
        invariant watchers == old(watchers) && clock == old(clock) + 1
        invariant perf.State() == RecordAll(begun, measured[..i])
      {
        assert measured[..i + 1][..i] == measured[..i];
        perf.Record(measured[i].0, measured[i].1);
        i := i + 1;
      }
      assert measured[..i] == measured;
    }
  }

  // ── The full history, and what it would report ────────────────────────────────────

  datatype History = History(watchers: set<AccountId>, log: seq<Measured>)

  /** Every tick since the panel was armed, nothing forgotten until the last watcher goes. */
  function Remember(h: History, e: Event): History {
    match e
    case SetStats(account, on) =>
      var watchers := Watching(h.watchers, account, on);
      History(watchers, if watchers == {} then [] else h.log)
    case Tick(measured) => if h.watchers == {} then h else h.(log := h.log + [measured])
  }

  /** What one tick spent on a phase, or nothing when the phase did not run. */
  function Spent(measured: Measured, p: Phase): Option<real> {
    if measured == [] then None
    else
      var n := |measured| - 1;
      var before := Spent(measured[..n], p);
      if measured[n].0 == p then Sum(before, measured[n].1) else before
  }

  function Column(log: seq<Measured>, p: Phase): (s: Slots)
    ensures |s| == |log|
  {
    if log == [] then [] else Column(log[..|log| - 1], p) + [Spent(log[|log| - 1], p)]
  }

  lemma {:induction false} ColumnAt(log: seq<Measured>, p: Phase, i: int)
    requires 0 <= i < |log|
    ensures Column(log, p)[i] == Spent(log[i], p)
  {
    if i < |log| - 1 {
      ColumnAt(log[..|log| - 1], p, i);
    }
  }

  function Window(log: seq<Measured>): seq<Measured> {
    if |log| <= PERF_WINDOW then log else log[|log| - PERF_WINDOW..]
  }

  /** What the panel should say of a phase, computed from the whole history. */
  function Expected(log: seq<Measured>, p: Phase): PhaseView {
    ViewOf(Summarize(Column(Window(log), p)), |Window(log)|)
  }

  // ── The ring holds the window ─────────────────────────────────────────────────────

  /** What a phase spent `ago` ticks before the latest. */
  function Ago(log: seq<Measured>, p: Phase, ago: int): Option<real>
    requires ago >= 0
  {
    if ago < |log| then Spent(log[|log| - 1 - ago], p) else None
  }

  /** Slot by slot, a ring holds the last ticks of the history, each where its tick number puts it. */
  ghost predicate RingHolds(slots: Slots, log: seq<Measured>, p: Phase, latest: int) {
    |slots| == PERF_WINDOW &&
    forall s :: 0 <= s < PERF_WINDOW ==> slots[s] == Ago(log, p, (latest - s) % PERF_WINDOW)
  }

  ghost predicate Agrees(t: Tracker, log: seq<Measured>) {
    && Shaped(t)
    && t.ticks == |Window(log)|
    && (log != [] ==> t.slot == t.latest % PERF_WINDOW)
    && forall p :: 0 <= p < PHASE_COUNT ==> RingHolds(t.rings[p], log, p, t.latest)
  }

  function Recents(log: seq<Measured>, p: Phase): (s: Slots)
    ensures |s| == PERF_WINDOW && forall j :: 0 <= j < PERF_WINDOW ==> s[j] == Ago(log, p, j)
  {
    seq(PERF_WINDOW, j requires 0 <= j < PERF_WINDOW => Ago(log, p, j))
  }

  lemma {:induction false} SummaryOfNothing(slots: Slots)
    requires forall i :: 0 <= i < |slots| ==> slots[i] == None
    ensures Summarize(slots) == Summary(0, 0.0, 0.0)
  {
    if slots != [] {
      SummaryOfNothing(slots[..|slots| - 1]);
    }
  }

  lemma RecentIsOfTheWindow(log: seq<Measured>, p: Phase, j: int)
    requires 0 <= j < PERF_WINDOW
    ensures var column := Column(Window(log), p);
      Recents(log, p)[j] == if j < |column| then column[|column| - 1 - j] else None
  {
    assert Recents(log, p)[j] == Ago(log, p, j);
    var window := Window(log);
    if j < |window| {
      ColumnAt(window, p, |window| - 1 - j);
    }
  }

  lemma JoinNothing(a: Summary)
    requires a.peak >= 0.0
    ensures Join(a, Summary(0, 0.0, 0.0)) == a
  {
  }

  lemma SummaryOfPadded(slots: Slots, rest: Slots)
    requires forall i :: 0 <= i < |rest| ==> rest[i] == None
    ensures Summarize(slots + rest) == Summarize(slots)
  {
    SummaryOfConcat(slots, rest);
    SummaryOfNothing(rest);
    PeakIsNotNegative(slots);
    JoinNothing(Summarize(slots));
  }

  lemma RecentsAddUp(log: seq<Measured>, p: Phase)
    ensures Summarize(Recents(log, p)) == Summarize(Column(Window(log), p))
  {
    var column, recents := Column(Window(log), p), Recents(log, p);
    var near, rest := recents[..|column|], recents[|column|..];
    assert recents == near + rest;
    forall j | 0 <= j < PERF_WINDOW ensures recents[j] == if j < |column| then column[|column| - 1 - j] else None {
      RecentIsOfTheWindow(log, p, j);
    }
    SummaryOfTurned(near, column);
    SummaryOfPadded(near, rest);
  }

  lemma TurnsBack(latest: int, s: int)
    requires 0 <= s < PERF_WINDOW
    ensures (latest - s) % PERF_WINDOW ==
      if s <= latest % PERF_WINDOW then latest % PERF_WINDOW - s else latest % PERF_WINDOW - s + PERF_WINDOW
  {
    var q, r := latest / PERF_WINDOW, latest % PERF_WINDOW;
    assert latest - s == PERF_WINDOW * q + (r - s);
  }

  /** Each part turned, the whole adds up to the same. */
  lemma SummaryOfRotated(a: Slots, b: Slots, k: int)
    requires 0 <= k <= |a| == |b| && Turned(a[..k], b[..k]) && Turned(a[k..], b[k..])
    ensures Summarize(a) == Summarize(b)
  {
    assert a == a[..k] + a[k..] && b == b[..k] + b[k..];
    SummaryOfTurned(a[..k], b[..k]);
    SummaryOfTurned(a[k..], b[k..]);
    SummaryOfConcat(a[..k], a[k..]);
    SummaryOfConcat(b[..k], b[k..]);
  }

  /** The ring is the recent ticks read backwards from the latest slot and round, so it adds up the same. */
  lemma RingAddsUp(slots: Slots, log: seq<Measured>, p: Phase, latest: int)
    requires RingHolds(slots, log, p, latest)
    ensures Summarize(slots) == Summarize(Column(Window(log), p))
  {
    var r := latest % PERF_WINDOW;
    var recents := Recents(log, p);
    forall s | 0 <= s < PERF_WINDOW
      ensures slots[s] == if s <= r then recents[r - s] else recents[r - s + PERF_WINDOW]
    {
      TurnsBack(latest, s);
    }
    SummaryOfRotated(slots, recents, r + 1);
    RecentsAddUp(log, p);
  }

  // ── Every step keeps it so ────────────────────────────────────────────────────────

  lemma {:induction false} NextSlot(latest: int, s: int)
    requires 0 <= s < PERF_WINDOW
    ensures (latest + 1 - s) % PERF_WINDOW == 0 <==> s == (latest + 1) % PERF_WINDOW
    ensures (latest + 1 - s) % PERF_WINDOW != 0 ==> (latest + 1 - s) % PERF_WINDOW == (latest - s) % PERF_WINDOW + 1
  {
    TurnsBack(latest + 1, s);
    var q, r := (latest - s) / PERF_WINDOW, (latest - s) % PERF_WINDOW;
    assert latest - s == PERF_WINDOW * q + r;
  }

  lemma BeginKeepsRing(slots: Slots, log: seq<Measured>, p: Phase, latest: int)
    requires RingHolds(slots, log, p, latest)
    ensures RingHolds(slots[(latest + 1) % PERF_WINDOW := None], log + [[]], p, latest + 1)
  {
    var slots' := slots[(latest + 1) % PERF_WINDOW := None];
    forall s | 0 <= s < PERF_WINDOW
      ensures slots'[s] == Ago(log + [[]], p, (latest + 1 - s) % PERF_WINDOW)
    {
      NextSlot(latest, s);
      if s != (latest + 1) % PERF_WINDOW {
        assert Ago(log + [[]], p, (latest + 1 - s) % PERF_WINDOW) == Ago(log, p, (latest - s) % PERF_WINDOW);
      }
    }
  }

  lemma BeginKeeps(t: Tracker, log: seq<Measured>, tick: int)
    requires Agrees(t, log) && t.enabled && (log != [] ==> tick == t.latest + 1)
    ensures Agrees(Begun(t, tick), log + [[]])
  {
    SlotIsCongruent(tick);
    forall p | 0 <= p < PHASE_COUNT ensures RingHolds(Begun(t, tick).rings[p], log + [[]], p, tick) {
      BeginKeepsRing(t.rings[p], log, p, tick - 1);
    }
  }

  function Extended(log: seq<Measured>, p: Phase, ms: real): seq<Measured>
    requires log != []
  {
    log[|log| - 1 := log[|log| - 1] + [(p, ms)]]
  }

  lemma RecordKeepsRing(slots: Slots, log: seq<Measured>, q: Phase, p: Phase, ms: real, latest: int)
    requires RingHolds(slots, log, q, latest) && log != []
    ensures var slot := latest % PERF_WINDOW;
      RingHolds(if p == q then slots[slot := Sum(slots[slot], ms)] else slots, Extended(log, p, ms), q, latest)
  {
    var slot := latest % PERF_WINDOW;
    var log' := Extended(log, p, ms);
    var last := log[|log| - 1];
    assert (last + [(p, ms)])[..|last|] == last;
    var slots' := if p == q then slots[slot := Sum(slots[slot], ms)] else slots;
    forall s | 0 <= s < PERF_WINDOW ensures slots'[s] == Ago(log', q, (latest - s) % PERF_WINDOW) {
      TurnsBack(latest, s);
      assert slots[s] == Ago(log, q, (latest - s) % PERF_WINDOW);
    }
  }

  lemma RecordKeeps(t: Tracker, log: seq<Measured>, p: Phase, ms: real)
    requires Agrees(t, log) && t.enabled && log != [] && p < PHASE_COUNT
    ensures Agrees(Recorded(t, p, ms), Extended(log, p, ms))
  {
    forall q | 0 <= q < PHASE_COUNT ensures RingHolds(Recorded(t, p, ms).rings[q], Extended(log, p, ms), q, t.latest) {
      RecordKeepsRing(t.rings[q], log, q, p, ms, t.latest);
    }
  }

  /**
   * A measurement taken before any tick has begun since arming lands in whatever slot was last used:
   * the tracker then reports a run in a window of no ticks. With a tick begun it is always right.
   */
  lemma RecordAgreesExactlyWithinATick(t: Tracker, log: seq<Measured>, p: Phase, ms: real)
    requires Agrees(t, log) && t.enabled && p < PHASE_COUNT
    ensures Agrees(Recorded(t, p, ms), if log == [] then [] else Extended(log, p, ms)) <==> t.ticks > 0
  {
    if log != [] {
      RecordKeeps(t, log, p, ms);
    } else {
      var t' := Recorded(t, p, ms);
      assert t'.rings[p][t.slot].Some?;
      assert !RingHolds(t'.rings[p], [], p, t.latest) by {
        assert Ago([], p, (t.latest - t.slot) % PERF_WINDOW) == None;
      }
    }
  }

  lemma OneMoreRecordKeeps(t: Tracker, log: seq<Measured>, front: Measured, p: Phase, ms: real)
    requires Agrees(t, log + [front]) && t.enabled && p < PHASE_COUNT
    ensures Agrees(Recorded(t, p, ms), log + [front + [(p, ms)]])
    ensures Recorded(t, p, ms).enabled && Recorded(t, p, ms).latest == t.latest
  {
    RecordKeeps(t, log + [front], p, ms);
    assert Extended(log + [front], p, ms) == log + [front + [(p, ms)]];
  }

  lemma RecordAllOfOneMore(t: Tracker, front: Measured, p: Phase, ms: real)
    requires Shaped(t) && AllKnown(front) && p < PHASE_COUNT
    ensures AllKnown(front + [(p, ms)])
    ensures RecordAll(t, front + [(p, ms)]) == Recorded(RecordAll(t, front), p, ms)
  {
    assert (front + [(p, ms)])[..|front|] == front;
  }

  lemma {:induction false} RecordAllKeeps(t: Tracker, log: seq<Measured>, measured: Measured)
    requires Agrees(t, log + [[]]) && t.enabled && AllKnown(measured)
    ensures Agrees(RecordAll(t, measured), log + [measured])
    ensures var t' := RecordAll(t, measured); t'.enabled && t'.latest == t.latest
  {
    if measured != [] {
      var front, last := measured[..|measured| - 1], measured[|measured| - 1];
      assert measured == front + [(last.0, last.1)];
      RecordAllKeeps(t, log, front);
      OneMoreRecordKeeps(RecordAll(t, front), log, front, last.0, last.1);
      RecordAllOfOneMore(t, front, last.0, last.1);
    }
  }

  lemma {:induction false} RecordAllIdle(t: Tracker, measured: Measured)
    requires Shaped(t) && !t.enabled && AllKnown(measured)
    ensures RecordAll(t, measured) == t
  {
    if measured != [] {
      RecordAllIdle(t, measured[..|measured| - 1]);
    }
  }

  /** The statistics and the history agree, and the stopwatch runs exactly while somebody is watching. */
  ghost predicate InStep(s: Stats, h: History) {
    && s.watchers == h.watchers
    && s.perf.enabled == (s.watchers != {})
    && (s.watchers == {} ==> h.log == [])
    && (h.log != [] ==> s.perf.latest == s.clock)
    && Agrees(s.perf, h.log)
  }

  lemma StepKeeps(s: Stats, h: History, e: Event)
    requires InStep(s, h) && Known(e)
    ensures InStep(Next(s, e), Remember(h, e))
  {
    match e
    case SetStats(account, on) =>
    case Tick(measured) =>
      if s.watchers == {} {
        RecordAllIdle(s.perf, measured);
      } else {
        BeginKeeps(s.perf, h.log, s.clock + 1);
        RecordAllKeeps(Begun(s.perf, s.clock + 1), h.log, measured);
      }
  }

  function Fresh(): Stats {
    Stats({}, 0, Tracker(false, 0, 0, 0, seq(PHASE_COUNT, p => Blank())))
  }

  function Run(events: seq<Event>): (s: Stats)
    requires forall i :: 0 <= i < |events| ==> Known(events[i])
    ensures Shaped(s.perf)
  {
    if events == [] then Fresh() else Next(Run(events[..|events| - 1]), events[|events| - 1])
  }

  function Remembered(events: seq<Event>): History {
    if events == [] then History({}, []) else Remember(Remembered(events[..|events| - 1]), events[|events| - 1])
  }

  lemma {:induction false} RunIsInStep(events: seq<Event>)
    requires forall i :: 0 <= i < |events| ==> Known(events[i])
    ensures InStep(Run(events), Remembered(events))
  {
    if events == [] {
      forall p | 0 <= p < PHASE_COUNT ensures RingHolds(Fresh().perf.rings[p], [], p, 0) {
      }
    } else {
      RunIsInStep(events[..|events| - 1]);
      StepKeeps(Run(events[..|events| - 1]), Remembered(events[..|events| - 1]), events[|events| - 1]);
    }
  }

  /**
   * After any run of ticks, watchers coming and watchers going, every phase's figures are those of
   * the last `PERF_WINDOW` ticks since the panel was armed, and of nothing before.
   */
  lemma WindowIsBruteForce(events: seq<Event>, p: Phase)
    requires (forall i :: 0 <= i < |events| ==> Known(events[i])) && p < PHASE_COUNT
    ensures var t := Run(events).perf;
      && ViewOf(Summarize(t.rings[p]), t.ticks) == Expected(Remembered(events).log, p)
      && t.ticks == |Window(Remembered(events).log)|
      && (t.ticks > 0 ==> t.latest == Run(events).clock)
  {
    RunIsInStep(events);
    var t := Run(events).perf;
    assert RingHolds(t.rings[p], Remembered(events).log, p, t.latest);
    RingAddsUp(t.rings[p], Remembered(events).log, p, t.latest);
  }

  // ── Ticks in which a phase ran, and runs ──────────────────────────────────────────

  /** Each measurement of a phase in one tick, a slot apiece. */
  function Uses(measured: Measured, p: Phase): (s: Slots)
    ensures forall i :: 0 <= i < |s| ==> s[i].Some?
  {
    if measured == [] then []
    else
      var n := |measured| - 1;
      Uses(measured[..n], p) + if measured[n].0 == p then [Some(measured[n].1)] else []
  }

  /** Each measurement of a phase in a list of ticks, a slot apiece. */
  function Singles(log: seq<Measured>, p: Phase): (s: Slots)
    ensures forall i :: 0 <= i < |s| ==> s[i].Some?
  {
    if log == [] then [] else Singles(log[..|log| - 1], p) + Uses(log[|log| - 1], p)
  }

  ghost predicate OncePerTick(log: seq<Measured>, p: Phase) {
    forall i :: 0 <= i < |log| ==> |Uses(log[i], p)| <= 1
  }

  lemma {:induction false} SpentIsTheSumOfUses(measured: Measured, p: Phase)
    ensures Spent(measured, p).None? <==> Uses(measured, p) == []
    ensures One(Spent(measured, p)).total == Summarize(Uses(measured, p)).total
    ensures |Uses(measured, p)| == 1 ==> Spent(measured, p) == Uses(measured, p)[0]
  {
    if measured != [] {
      var n := |measured| - 1;
      SpentIsTheSumOfUses(measured[..n], p);
      if measured[n].0 == p {
        SummaryOfConcat(Uses(measured[..n], p), [Some(measured[n].1)]);
        SummaryOfOne(Some(measured[n].1));
      } else {
        assert Uses(measured[..n], p) + [] == Uses(measured[..n], p);
      }
    }
  }

  lemma SummaryOfOne(slot: Option<real>)
    ensures Summarize([slot]) == One(slot)
  {
    assert [slot][..0] == [];
  }

  lemma {:induction false} EachSingleRuns(slots: Slots)
    requires forall i :: 0 <= i < |slots| ==> slots[i].Some?
    ensures Summarize(slots).runs == |slots|
  {
    if slots != [] {
      EachSingleRuns(slots[..|slots| - 1]);
    }
  }

  lemma OneTick(measured: Measured, p: Phase)
    ensures var (once, single) := (One(Spent(measured, p)), Summarize(Uses(measured, p)));
      && once.total == single.total
      && once.runs <= single.runs
      && (once.runs == single.runs <==> |Uses(measured, p)| <= 1)
      && (|Uses(measured, p)| <= 1 ==> once == single)
  {
    SpentIsTheSumOfUses(measured, p);
    EachSingleRuns(Uses(measured, p));
    if |Uses(measured, p)| == 1 {
      assert Uses(measured, p) == [Spent(measured, p)];
      SummaryOfOne(Spent(measured, p));
    }
  }

  lemma ColumnGrows(log: seq<Measured>, measured: Measured, p: Phase)
    ensures Summarize(Column(log + [measured], p)) == Join(Summarize(Column(log, p)), One(Spent(measured, p)))
  {
    var more := log + [measured];
    assert more[..|more| - 1] == log && more[|more| - 1] == measured;
    assert Column(more, p) == Column(log, p) + [Spent(measured, p)];
    SummaryOfConcat(Column(log, p), [Spent(measured, p)]);
    SummaryOfOne(Spent(measured, p));
  }

  lemma SinglesGrow(log: seq<Measured>, measured: Measured, p: Phase)
    ensures Summarize(Singles(log + [measured], p)) == Join(Summarize(Singles(log, p)), Summarize(Uses(measured, p)))
  {
    var more := log + [measured];
    assert more[..|more| - 1] == log && more[|more| - 1] == measured;
    assert Singles(more, p) == Singles(log, p) + Uses(measured, p);
    SummaryOfConcat(Singles(log, p), Uses(measured, p));
  }

  lemma OnceGrows(log: seq<Measured>, measured: Measured, p: Phase)
    ensures OncePerTick(log + [measured], p) <==> OncePerTick(log, p) && |Uses(measured, p)| <= 1
  {
    var more := log + [measured];
    assert more[|log|] == measured && forall i :: 0 <= i < |log| ==> more[i] == log[i];
    if OncePerTick(more, p) {
      forall i | 0 <= i < |log| ensures |Uses(log[i], p)| <= 1 {
        assert |Uses(more[i], p)| <= 1;
      }
    }
  }

  /** Added up tick by tick, the total is that of the single measurements; the rest is only once per tick. */
  lemma {:induction false} ColumnAgainstSingles(log: seq<Measured>, p: Phase)
    ensures var (once, single) := (Summarize(Column(log, p)), Summarize(Singles(log, p)));
      && once.total == single.total
      && once.runs <= single.runs
      && (once.runs == single.runs <==> OncePerTick(log, p))
      && (OncePerTick(log, p) ==> once == single)
  {
    if log != [] {
      var front, last := log[..|log| - 1], log[|log| - 1];
      assert log == front + [last];
      ColumnAgainstSingles(front, p);
      OneTick(last, p);
      ColumnGrows(front, last, p);
      SinglesGrow(front, last, p);
      OnceGrows(front, last, p);
    }
  }

  lemma ShownIsTheWindow(events: seq<Event>, p: Phase)
    requires (forall i :: 0 <= i < |events| ==> Known(events[i])) && p < PHASE_COUNT
    ensures Summarize(Run(events).perf.rings[p]) == Summarize(Column(Window(Remembered(events).log), p))
  {
    RunIsInStep(events);
    var t, log := Run(events).perf, Remembered(events).log;
    assert RingHolds(t.rings[p], log, p, t.latest);
    RingAddsUp(t.rings[p], log, p, t.latest);
  }

  /**
   * After any run the total of a phase is the sum of its measurements in the window. Its run count is
   * their number exactly when no tick of the window measured it twice, and then its peak is the largest
   * of them.
   */
  lemma RunsAreCountedExactlyWhenOncePerTick(events: seq<Event>, p: Phase)
    requires (forall i :: 0 <= i < |events| ==> Known(events[i])) && p < PHASE_COUNT
    ensures var window, shown := Window(Remembered(events).log), Summarize(Run(events).perf.rings[p]);
      var singles := Singles(window, p);
      && shown.total == Summarize(singles).total
      && (shown.runs == |singles| <==> OncePerTick(window, p))
      && (OncePerTick(window, p) ==> shown.peak == Summarize(singles).peak)
  {
    var window := Window(Remembered(events).log);
    ShownIsTheWindow(events, p);
    ColumnAgainstSingles(window, p);
    EachSingleRuns(Singles(window, p));
  }

  lemma PeakIsNoMoreExactlyWhen(slots: Slots, bound: real)
    requires bound >= 0.0
    ensures Summarize(slots).peak <= bound <==> forall i :: 0 <= i < |slots| ==> One(slots[i]).total <= bound
  {
    PeakIsLargest(slots);
    assert forall i :: 0 <= i < |slots| ==> (One(slots[i]).peak <= bound <==> One(slots[i]).total <= bound);
  }

  lemma ColumnPeakExactlyWhen(log: seq<Measured>, p: Phase, bound: real)
    requires bound >= 0.0
    ensures Summarize(Column(log, p)).peak <= bound <==>
            forall i :: 0 <= i < |log| ==> One(Spent(log[i], p)).total <= bound
  {
    var column := Column(log, p);
    PeakIsNoMoreExactlyWhen(column, bound);
    forall i | 0 <= i < |log| ensures column[i] == Spent(log[i], p) {
      ColumnAt(log, p, i);
    }
  }

  ghost predicate NoneNegative(slots: Slots) {
    forall i :: 0 <= i < |slots| ==> One(slots[i]).total >= 0.0
  }

  lemma {:induction false} PeakIsWithinTotal(slots: Slots)
    requires NoneNegative(slots)
    ensures Summarize(slots).peak <= Summarize(slots).total
  {
    if slots != [] {
      PeakIsWithinTotal(slots[..|slots| - 1]);
      PeakIsNotNegative(slots[..|slots| - 1]);
      assert One(slots[|slots| - 1]).total >= 0.0;
    }
  }

  lemma {:induction false} PeakIsAtLeastEachRun(log: seq<Measured>, p: Phase)
    requires NoneNegative(Singles(log, p))
    ensures Summarize(Singles(log, p)).peak <= Summarize(Column(log, p)).peak
  {
    if log != [] {
      var front, last := log[..|log| - 1], log[|log| - 1];
      assert log == front + [last];
      var before, uses := Singles(front, p), Uses(last, p);
      assert NoneNegative(before) by {
        assert forall i :: 0 <= i < |before| ==> before[i] == Singles(log, p)[i];
      }
      assert NoneNegative(uses) by {
        assert forall i :: 0 <= i < |uses| ==> uses[i] == Singles(log, p)[|before| + i];
      }
      PeakIsAtLeastEachRun(front, p);
      PeakIsWithinTotal(uses);
      OneTick(last, p);
      ColumnGrows(front, last, p);
      SinglesGrow(front, last, p);
    }
  }

  /** The peak is that of the longest single measurement exactly when no tick of the window adds up to more. */
  lemma PeakIsOfOneRunExactlyWhen(events: seq<Event>, p: Phase)
    requires (forall i :: 0 <= i < |events| ==> Known(events[i])) && p < PHASE_COUNT
    requires NoneNegative(Singles(Window(Remembered(events).log), p))
    ensures var window, shown := Window(Remembered(events).log), Summarize(Run(events).perf.rings[p]);
      var longest := Summarize(Singles(window, p)).peak;
      shown.peak == longest <==> forall i :: 0 <= i < |window| ==> One(Spent(window[i], p)).total <= longest
  {
    var window := Window(Remembered(events).log);
    var longest := Summarize(Singles(window, p)).peak;
    ShownIsTheWindow(events, p);
    PeakIsNotNegative(Singles(window, p));
    PeakIsAtLeastEachRun(window, p);
    ColumnPeakExactlyWhen(window, p, longest);
  }

  lemma NextUse(measured: Measured, p: Phase, ms: real)
    ensures Spent(measured + [(p, ms)], p) == Sum(Spent(measured, p), ms)
    ensures Uses(measured + [(p, ms)], p) == Uses(measured, p) + [Some(ms)]
  {
    assert (measured + [(p, ms)])[..|measured|] == measured;
  }

  lemma TwiceUsed(ms: real)
    ensures Spent([(0, ms), (0, ms)], 0) == Some(ms + ms) && Uses([(0, ms), (0, ms)], 0) == [Some(ms)] + [Some(ms)]
  {
    NextUse([], 0, ms);
    NextUse([(0, ms)], 0, ms);
    assert [] + [(0, ms)] == [(0, ms)] && [(0, ms)] + [(0, ms)] == [(0, ms), (0, ms)];
  }

  lemma ColumnOfOne(log: seq<Measured>, p: Phase)
    requires |log| == 1
    ensures Summarize(Column(log, p)) == One(Spent(log[0], p))
  {
    assert Column(log, p) == Column(log[..0], p) + [Spent(log[0], p)];
    SummaryOfOne(Spent(log[0], p));
  }

  lemma SinglesOfOne(log: seq<Measured>, p: Phase)
    requires |log| == 1
    ensures Singles(log, p) == Uses(log[0], p)
  {
    assert Singles(log, p) == Singles(log[..0], p) + Uses(log[0], p);
  }

  lemma TwiceSummed(ms: real)
    requires ms >= 0.0
    ensures Summarize([Some(ms)] + [Some(ms)]) == Summary(2, ms + ms, ms)
  {
    SummaryOfConcat([Some(ms)], [Some(ms)]);
    SummaryOfOne(Some(ms));
  }

  lemma TwiceInAWindow(log: seq<Measured>, ms: real)
    requires log == [[(0, ms), (0, ms)]] && ms >= 0.0
    ensures Summarize(Column(log, 0)) == Summary(1, ms + ms, ms + ms)
    ensures Summarize(Singles(log, 0)) == Summary(2, ms + ms, ms)
  {
    ColumnOfOne(log, 0);
    SinglesOfOne(log, 0);
    TwiceUsed(ms);
    TwiceSummed(ms);
  }

  lemma ArmedForOneTick(events: seq<Event>, account: AccountId, measured: Measured)
    requires events == [SetStats(account, true), Tick(measured)] && Known(Tick(measured))
    ensures forall i :: 0 <= i < |events| ==> Known(events[i])
    ensures Window(Remembered(events).log) == [measured]
  {
    assert events[..1] == [SetStats(account, true)] && events[..1][..0] == [];
    assert Remembered(events[..1]) == History({account}, []);
  }

  lemma TwiceShown(events: seq<Event>, ms: real)
    requires forall i :: 0 <= i < |events| ==> Known(events[i])
    requires Window(Remembered(events).log) == [[(0, ms), (0, ms)]] && ms >= 0.0
    ensures Summarize(Run(events).perf.rings[0]) == Summary(1, ms + ms, ms + ms)
    ensures Summarize(Singles(Window(Remembered(events).log), 0)) == Summary(2, ms + ms, ms)
  {
    TwiceInAWindow(Window(Remembered(events).log), ms);
    ShownIsTheWindow(events, 0);
  }

  /** Two measurements of one phase in one tick: one run is counted, and the peak is their sum. */
  lemma TwiceInATick(events: seq<Event>, account: AccountId, measured: Measured, ms: real)
    requires events == [SetStats(account, true), Tick(measured)]
    requires measured == [(0, ms), (0, ms)] && ms >= 0.0
    ensures forall i :: 0 <= i < |events| ==> Known(events[i])
    ensures Summarize(Run(events).perf.rings[0]) == Summary(1, ms + ms, ms + ms)
    ensures Summarize(Singles(Window(Remembered(events).log), 0)) == Summary(2, ms + ms, ms)
  {
    ArmedForOneTick(events, account, measured);
    TwiceShown(events, ms);
  }
}
