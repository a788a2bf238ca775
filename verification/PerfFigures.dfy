/**
 * The figures of the statistics panel, and who is watching it, told from the measurements and the requests
 * alone (packages/server/src/match/perf.ts:62-85, packages/server/src/match/runtime.ts:851-858).
 */
module PerfFigures {
  import opened Options
  import opened Measures
  import opened PerfWindow

  /** The sum of the measurements in these slots. */
  function SumOf(slots: Slots): real {
    if slots == [] then 0.0
    else SumOf(slots[..|slots| - 1]) + slots[|slots| - 1].GetOr(0.0)
  }

  lemma {:induction false} TotalIsTheSum(slots: Slots)
    ensures Summarize(slots).total == SumOf(slots)
  {
    if slots != [] {
      TotalIsTheSum(slots[..|slots| - 1]);
    }
  }

  /** Of ticks, those in which the phase was measured at all. */
  function Used(log: seq<Measured>, p: Phase): nat {
    if log == [] then 0 else Used(log[..|log| - 1], p) + (if Uses(log[|log| - 1], p) == [] then 0 else 1)
  }

  lemma {:induction false} RunsAreTheUsed(log: seq<Measured>, p: Phase)
    ensures Summarize(Column(log, p)).runs == Used(log, p)
  {
    if log != [] {
      var front, last := log[..|log| - 1], log[|log| - 1];
      assert log == front + [last];
      RunsAreTheUsed(front, p);
      ColumnGrows(front, last, p);
      SpentIsTheSumOfUses(last, p);
    }
  }

  lemma Quotient(x: real, y: real)
    requires y > 0.0
    ensures x / y * y == x
  {
  }

  /**
   * Mean times runs, and share times the budget of the ticks, are both this sum; without runs the mean is
   * nothing, and without ticks the share.
   */
  predicate AddsUp(shown: PhaseView, ticks: nat, sum: real) {
    && shown.mean * shown.runs as real == sum && (shown.runs == 0 ==> shown.mean == 0.0)
    && shown.share * (ticks as real * 50.0) == sum && (ticks == 0 ==> shown.share == 0.0)
  }

  lemma ViewAddsUp(s: Summary, ticks: nat)
    requires (s.runs == 0 ==> s.total == 0.0) && (ticks == 0 ==> s.total == 0.0)
    ensures AddsUp(ViewOf(s, ticks), ticks, s.total)
  {
    if s.runs > 0 {
      Quotient(s.total, s.runs as real);
    }
    if ticks > 0 {
      Quotient(s.total, ticks as real * BUDGET_MS);
    }
  }

  /** What the ring adds up to is the sum of the measurements in the window, and the ticks that have any. */
  lemma RingIsTheSum(events: seq<Event>, p: Phase)
    requires (forall i :: 0 <= i < |events| ==> Known(events[i])) && p < PHASE_COUNT
    ensures var s, window := Summarize(Run(events).perf.rings[p]), Window(Remembered(events).log);
      && s.total == SumOf(Singles(window, p)) && s.runs == Used(window, p)
      && (s.runs == 0 ==> s.total == 0.0) && (|window| == 0 ==> s.total == 0.0)
  {
    var window := Window(Remembered(events).log);
    ShownIsTheWindow(events, p);
    ColumnAgainstSingles(window, p);
    TotalIsTheSum(Singles(window, p));
    RunsAreTheUsed(window, p);
    if Used(window, p) == 0 {
      NothingUsedIsNothing(window, p);
    }
  }

  /**
   * After any run, the figures of each phase are those of its measurements in the window and of the ticks of
   * the window it was measured in.
   */
  lemma FiguresAddUp(events: seq<Event>, p: Phase)
    requires (forall i :: 0 <= i < |events| ==> Known(events[i])) && p < PHASE_COUNT
    ensures var t, window := Run(events).perf, Window(Remembered(events).log);
      var shown := ViewOf(Summarize(t.rings[p]), t.ticks);
      shown.runs == Used(window, p) && AddsUp(shown, |window|, SumOf(Singles(window, p)))
  {
    var t := Run(events).perf;
    WindowIsBruteForce(events, p);
    RingIsTheSum(events, p);
    ViewAddsUp(Summarize(t.rings[p]), t.ticks);
    RunsShown(Summarize(t.rings[p]), t.ticks);
  }

  lemma RunsShown(s: Summary, ticks: nat)
    ensures ViewOf(s, ticks).runs == s.runs && ViewOf(s, ticks).peak == s.peak
  {
  }

  lemma {:induction false} NothingUsedIsNothing(log: seq<Measured>, p: Phase)
    requires Used(log, p) == 0
    ensures SumOf(Singles(log, p)) == 0.0
  {
    if log != [] {
      NothingUsedIsNothing(log[..|log| - 1], p);
      assert Uses(log[|log| - 1], p) == [];
      assert Singles(log[..|log| - 1], p) + [] == Singles(log[..|log| - 1], p);
    }
  }

  /** Whether an account's last request was to watch. */
  function AsksToWatch(events: seq<Event>, a: AccountId): bool {
    if events == [] then false
    else
      var last := events[|events| - 1];
      if last.SetStats? && last.account == a then last.on else AsksToWatch(events[..|events| - 1], a)
  }

  /** Exactly those watch whose last request was to, and the stopwatch runs exactly while somebody does. */
  lemma {:induction false} WatchersAskedTo(events: seq<Event>, a: AccountId)
    requires forall i :: 0 <= i < |events| ==> Known(events[i])
    ensures a in Run(events).watchers <==> AsksToWatch(events, a)
    ensures Run(events).perf.enabled <==> Run(events).watchers != {}
  {
    if events != [] {
      WatchersAskedTo(events[..|events| - 1], a);
    }
    RunIsInStep(events);
  }
}
