/**
 * The login rate limiter (packages/server/src/auth/rate-limit.ts), with milliseconds as reals.
 *
 * The class keeps one small entry per key and forgets old ones. Two things are proved of it over
 * every run: how many failures it can let through, and that sweeping it is unobservable.
 */
module RateLimit {
  import opened Options
  import opened Measures

  datatype Limits = Limits(maxFailures: nat, lockoutMs: real, windowMs: real)

  const USERNAME_LIMITS := Limits(10, 900_000.0, 900_000.0)
  const IP_LIMITS := Limits(30, 900_000.0, 900_000.0)

  /** `lockedUntil` is zero while the key is not locked. */
  datatype Entry = Entry(failures: nat, firstFailureAt: real, lockedUntil: real)

  datatype Decision = Decision(allowed: bool, retryAfterSeconds: int)

  const ALLOWED := Decision(true, 0)

  function Ceil(x: real): int {
    -(-x).Floor
  }

  type Table = map<string, Entry>

  // ── What each call does to one key's entry ────────────────────────────────────────

  predicate Stale(o: Limits, e: Entry, now: real) {
    now - e.firstFailureAt > o.windowMs
  }

  function Decide(e: Option<Entry>, now: real): Decision {
    if e.Some? && e.value.lockedUntil > now then Decision(false, Ceil((e.value.lockedUntil - now) / 1000.0))
    else ALLOWED
  }

  function AfterCheck(o: Limits, e: Option<Entry>, now: real): Option<Entry> {
    if e.Some? && e.value.lockedUntil <= now && (e.value.lockedUntil != 0.0 || Stale(o, e.value, now)) then None else e
  }

  function AfterFailure(o: Limits, e: Option<Entry>, now: real): Entry {
    if e.None? || Stale(o, e.value, now) then Entry(1, now, 0.0)
    else
      var failures := e.value.failures + 1;
      Entry(failures, e.value.firstFailureAt,
            if failures >= o.maxFailures then now + o.lockoutMs else e.value.lockedUntil)
  }

  predicate Expired(o: Limits, e: Entry, now: real) {
    e.lockedUntil <= now && Stale(o, e, now)
  }

  function Lookup(t: Table, key: string): Option<Entry> {
    if key in t then Some(t[key]) else None
  }

  function Store(t: Table, key: string, e: Option<Entry>): Table {
    if e.Some? then t[key := e.value] else t - {key}
  }

  function Swept(o: Limits, t: Table, now: real): Table {
    map key | key in t && !Expired(o, t[key], now) :: t[key]
  }

  class RateLimiter {
    const options: Limits
    var entries: Table

    constructor (options: Limits)
      ensures this.options == options && entries == map[]
    {
      this.options, entries := options, map[];
    }

    method Check(key: string, now: real) returns (d: Decision)
      modifies this
      ensures d == Decide(Lookup(old(entries), key), now)
      ensures entries == Store(old(entries), key, AfterCheck(options, Lookup(old(entries), key), now))
      ensures d.allowed <==> !(key in old(entries) && old(entries)[key].lockedUntil > now)
      ensures !d.allowed ==>
        && now + 1000.0 * d.retryAfterSeconds as real >= old(entries)[key].lockedUntil
        && now + 1000.0 * (d.retryAfterSeconds - 1) as real < old(entries)[key].lockedUntil
    {
      if key !in entries {
        return ALLOWED;
      }
      var entry := entries[key];
      if entry.lockedUntil > now {
        return Decision(false, Ceil((entry.lockedUntil - now) / 1000.0));
      }
      if entry.lockedUntil != 0.0 || now - entry.firstFailureAt > options.windowMs {
        entries := entries - {key};
      }
      return ALLOWED;
    }

    method RecordFailure(key: string, now: real)
      modifies this
      ensures entries == old(entries)[key := AfterFailure(options, Lookup(old(entries), key), now)]
    {
      if key !in entries || now - entries[key].firstFailureAt > options.windowMs {
        entries := entries[key := Entry(1, now, 0.0)];
        return;
      }
      var entry := entries[key];
      entry := entry.(failures := entry.failures + 1);
      if entry.failures >= options.maxFailures {
        entry := entry.(lockedUntil := now + options.lockoutMs);
      }
      entries := entries[key := entry];
    }

    method Clear(key: string)
      modifies this
      ensures entries == old(entries) - {key}
    {
      entries := entries - {key};
    }

    method Sweep(now: real)
      modifies this
      ensures entries == Swept(options, old(entries), now)
    {
      var keys := entries.Keys;
      while keys != {}
        invariant forall key :: key in entries ==> key in old(entries) && entries[key] == old(entries)[key]
        invariant forall key :: key in old(entries) && key in keys ==> key in entries
        invariant forall key :: key in old(entries) && key !in keys ==>
          (key in entries <==> !Expired(options, old(entries)[key], now))
        decreases keys
      {
        var key :| key in keys;
        if key in entries && entries[key].lockedUntil <= now && now - entries[key].firstFailureAt > options.windowMs {
          entries := entries - {key};
        }
        keys := keys - {key};
      }
    }

    /** One attempt as the login makes it: ask first, record the failure only if let through. */
    method Attempt(key: string, now: real, fails: bool) returns (d: Decision)
      modifies this
      ensures d == Decide(Lookup(old(entries), key), now)
      ensures entries == Store(old(entries), key, AfterAttempt(options, Lookup(old(entries), key), now, fails))
    {
      d := Check(key, now);
      if d.allowed && fails {
        RecordFailure(key, now);
      }
    }
  }

  function AfterAttempt(o: Limits, e: Option<Entry>, now: real, fails: bool): Option<Entry> {
    var e' := AfterCheck(o, e, now);
    if Decide(e, now).allowed && fails then Some(AfterFailure(o, e', now)) else e'
  }

  // ── Sweeping is unobservable ──────────────────────────────────────────────────────

  datatype Op = CheckOp(key: string, now: real) | FailOp(key: string, now: real) | ClearOp(key: string) | SweepOp(now: real)

  datatype Run = Run(table: Table, decisions: seq<Decision>)

  function Do(o: Limits, t: Table, op: Op): Run {
    match op
    case CheckOp(key, now) => Run(Store(t, key, AfterCheck(o, Lookup(t, key), now)), [Decide(Lookup(t, key), now)])
    case FailOp(key, now) => Run(t[key := AfterFailure(o, Lookup(t, key), now)], [])
    case ClearOp(key) => Run(t - {key}, [])
    case SweepOp(now) => Run(Swept(o, t, now), [])
  }

  function DoAll(o: Limits, t: Table, ops: seq<Op>): Run
    decreases |ops|
  {
    if ops == [] then Run(t, [])
    else
      var first := Do(o, t, ops[0]);
      var rest := DoAll(o, first.table, ops[1..]);
      Run(rest.table, first.decisions + rest.decisions)
  }

  function Unswept(ops: seq<Op>): seq<Op> {
    if ops == [] then []
    else (if ops[0].SweepOp? then [] else [ops[0]]) + Unswept(ops[1..])
  }

  function Clock(op: Op, last: real): real {
    if op.ClearOp? then last else op.now
  }

  /** The clock never runs backwards. */
  predicate Forwards(ops: seq<Op>, last: real) {
    ops != [] ==> last <= Clock(ops[0], last) && Forwards(ops[1..], Clock(ops[0], last))
  }

  /** The swept table lacks only entries that are dead by now. */
  ghost predicate Agree(o: Limits, swept: Table, full: Table, now: real) {
    && (forall key :: key in swept ==> key in full && full[key] == swept[key])
    && (forall key :: key in full && key !in swept ==> Expired(o, full[key], now))
  }

  lemma {:induction false} SweepsPreserveDecisions(o: Limits, swept: Table, full: Table, ops: seq<Op>, last: real)
    requires Agree(o, swept, full, last) && Forwards(ops, last)
    ensures DoAll(o, swept, ops).decisions == DoAll(o, full, Unswept(ops)).decisions
    decreases |ops|
  {
    if ops != [] {
      var op := ops[0];
      if op.SweepOp? {
        SweepsPreserveDecisions(o, Do(o, swept, op).table, full, ops[1..], op.now);
        assert Unswept(ops) == Unswept(ops[1..]);
      } else {
        SweepsPreserveDecisions(o, Do(o, swept, op).table, Do(o, full, op).table, ops[1..], Clock(op, last));
        assert Unswept(ops)[1..] == Unswept(ops[1..]);
      }
    }
  }

  /**
   * A limiter swept at any moments and one never swept answer every check alike, in every sequence of
   * checks, failures and clears on any keys under a clock that does not run backwards.
   */
  lemma SweepIsUnobservable(o: Limits, ops: seq<Op>, start: real)
    requires Forwards(ops, start)
    ensures DoAll(o, map[], ops).decisions == DoAll(o, map[], Unswept(ops)).decisions
  {
    SweepsPreserveDecisions(o, map[], map[], ops, start);
  }

  // ── How many failures get through ─────────────────────────────────────────────────

  /** What happens to one key: attempts, successful logins, and the periodic sweep. */
  datatype Event = Try(now: real, fails: bool) | Success | Sweeping(now: real)

  /**
   * One key's entry together with the full record of its failures since the last clear. `start` is
   * where the latest burst, the failures counted by one entry, begins in that record.
   */
  datatype Trace = Trace(entry: Option<Entry>, log: seq<real>, start: nat)

  const FRESH := Trace(None, [], 0)

  function Follow(o: Limits, tr: Trace, ev: Event): Trace {
    match ev
    case Success => FRESH
    case Sweeping(now) =>
      if tr.entry.Some? && Expired(o, tr.entry.value, now) then tr.(entry := None) else tr
    case Try(now, fails) =>
      var kept := AfterCheck(o, tr.entry, now);
      if Decide(tr.entry, now).allowed && fails then
        Trace(AfterAttempt(o, tr.entry, now, fails), tr.log + [now],
              if kept.None? || Stale(o, kept.value, now) then |tr.log| else tr.start)
      else tr.(entry := AfterAttempt(o, tr.entry, now, fails))
  }

  function FollowAll(o: Limits, tr: Trace, evs: seq<Event>): Trace
    decreases |evs|
  {
    if evs == [] then tr else FollowAll(o, Follow(o, tr, evs[0]), evs[1..])
  }

  function Time(ev: Event, last: real): real {
    if ev.Success? then last else ev.now
  }

  predicate Onwards(evs: seq<Event>, last: real) {
    evs != [] ==> last <= Time(evs[0], last) && Onwards(evs[1..], Time(evs[0], last))
  }

  function CountAfter(log: seq<real>, x: real): nat {
    if log == [] then 0
    else CountAfter(log[..|log| - 1], x) + (if log[|log| - 1] > x then 1 else 0)
  }

  lemma {:induction false} CountAfterSplit(xs: seq<real>, ys: seq<real>, x: real)
    ensures CountAfter(xs + ys, x) == CountAfter(xs, x) + CountAfter(ys, x)
  {
    if ys == [] {
      assert xs + ys == xs;
    } else {
      assert (xs + ys)[..|xs + ys| - 1] == xs + ys[..|ys| - 1];
      CountAfterSplit(xs, ys[..|ys| - 1], x);
    }
  }

  lemma {:induction false} CountAfterBounds(log: seq<real>, x: real, y: real)
    requires x <= y
    ensures CountAfter(log, y) <= CountAfter(log, x) <= |log|
  {
    if log != [] {
      CountAfterBounds(log[..|log| - 1], x, y);
    }
  }

  lemma {:induction false} NoneAfter(log: seq<real>, x: real)
    requires forall i :: 0 <= i < |log| ==> log[i] <= x
    ensures CountAfter(log, x) == 0
  {
    if log != [] {
      NoneAfter(log[..|log| - 1], x);
    }
  }

  lemma {:induction false} CountInIsRecent(log: seq<real>, from: real, length: real, x: real)
    requires x < from
    ensures CountIn(log, from, length) <= CountAfter(log, x)
  {
    if log != [] {
      CountInIsRecent(log[..|log| - 1], from, length, x);
    }
  }

  predicate Usable(o: Limits) {
    o.maxFailures >= 2 && 0.0 < o.windowMs <= o.lockoutMs
  }

  /** The latest burst is finished: its lock has run out, or its window has. */
  predicate Over(o: Limits, tr: Trace, now: real)
    requires tr.start < |tr.log|
  {
    || (|tr.log| - tr.start >= o.maxFailures && tr.log[|tr.log| - 1] + o.lockoutMs <= now)
    || (|tr.log| - tr.start < o.maxFailures && now - tr.log[tr.start] > o.windowMs)
  }

  /** The entry counts exactly the latest burst, and is locked exactly when the burst is full. */
  predicate EntryCounts(o: Limits, tr: Trace, now: real) {
    match tr.entry
    case None => tr.start < |tr.log| ==> Over(o, tr, now)
    case Some(e) =>
      && tr.start < |tr.log|
      && e.failures == |tr.log| - tr.start
      && e.firstFailureAt == tr.log[tr.start]
      && e.lockedUntil == if e.failures < o.maxFailures then 0.0 else tr.log[|tr.log| - 1] + o.lockoutMs
  }

  predicate Times(tr: Trace, now: real) {
    && 0.0 <= now
    && (forall i :: 0 <= i < |tr.log| ==> 0.0 <= tr.log[i] <= now)
    && (forall i :: 0 <= i < |tr.log| ==> tr.log[i] <= tr.log[|tr.log| - 1])
    && (forall i :: 0 <= i <= tr.start && i < |tr.log| && tr.start < |tr.log| ==> tr.log[i] <= tr.log[tr.start])
  }

  /** The entry matches the latest burst, which is no longer than allowed, and before which little was recent. */
  predicate Bounded(o: Limits, tr: Trace, now: real) {
    && Times(tr, now)
    && (if tr.log == [] then tr.start == 0 else tr.start < |tr.log|)
    && |tr.log| - tr.start <= o.maxFailures
    && EntryCounts(o, tr, now)
    && (tr.log != [] ==> CountAfter(tr.log[..tr.start], tr.log[tr.start] - o.windowMs) <= o.maxFailures - 2)
  }

  /** When a burst is over, almost nothing of it is recent any more. */
  lemma FinishedBurstIsOld(o: Limits, tr: Trace, now: real)
    requires Usable(o) && Times(tr, now) && tr.start < |tr.log| && |tr.log| - tr.start <= o.maxFailures
    requires Over(o, tr, now)
    ensures CountAfter(tr.log, now - o.windowMs) <= o.maxFailures - 2
  {
    var x := now - o.windowMs;
    if |tr.log| - tr.start >= o.maxFailures {
      forall i | 0 <= i < |tr.log| ensures tr.log[i] <= x {
        assert tr.log[i] <= tr.log[|tr.log| - 1];
      }
      NoneAfter(tr.log, x);
    } else {
      var head, tail := tr.log[..tr.start + 1], tr.log[tr.start + 1..];
      assert tr.log == head + tail;
      CountAfterSplit(head, tail, x);
      forall i | 0 <= i < |head| ensures head[i] <= x {
        assert tr.log[i] <= tr.log[tr.start];
      }
      NoneAfter(head, x);
      CountAfterBounds(tail, x, x);
    }
  }

  /** Logging one more failure keeps a window of the record within the bound. */
  lemma LoggingStaysBounded(o: Limits, log: seq<real>, start: nat, now: real, from: real)
    requires Usable(o) && start <= |log| && |log| + 1 - start <= o.maxFailures
    requires CountIn(log, from, o.windowMs) <= 2 * o.maxFailures - 2
    requires (log + [now])[start] <= now
    requires CountAfter((log + [now])[..start], (log + [now])[start] - o.windowMs) <= o.maxFailures - 2
    ensures CountIn(log + [now], from, o.windowMs) <= 2 * o.maxFailures - 2
  {
    var log' := log + [now];
    assert log'[..|log'| - 1] == log;
    if from <= now < from + o.windowMs {
      CountInIsRecent(log', from, o.windowMs, now - o.windowMs);
      RecentFailures(o, log', start, now);
    }
  }

  /** What is recent is at most the recent part of earlier bursts and the whole of the latest. */
  lemma RecentFailures(o: Limits, log: seq<real>, start: nat, now: real)
    requires start < |log| && |log| - start <= o.maxFailures && log[start] <= now
    requires CountAfter(log[..start], log[start] - o.windowMs) <= o.maxFailures - 2
    ensures CountAfter(log, now - o.windowMs) <= 2 * o.maxFailures - 2
  {
    var x := now - o.windowMs;
    assert log == log[..start] + log[start..];
    CountAfterSplit(log[..start], log[start..], x);
    CountAfterBounds(log[..start], log[start] - o.windowMs, x);
    CountAfterBounds(log[start..], x, x);
  }

  lemma NewBurstStaysBounded(o: Limits, tr: Trace, now: real, last: real)
    requires Usable(o) && Bounded(o, tr, last) && last <= now
    requires tr.start < |tr.log| ==> Over(o, tr, now)
    ensures Bounded(o, Trace(Some(Entry(1, now, 0.0)), tr.log + [now], |tr.log|), now)
  {
    if tr.log != [] {
      FinishedBurstIsOld(o, tr, now);
    }
    assert (tr.log + [now])[..|tr.log|] == tr.log;
  }

  lemma LongerBurstStaysBounded(o: Limits, tr: Trace, now: real, last: real)
    requires Usable(o) && Bounded(o, tr, last) && last <= now
    requires tr.entry.Some? && tr.entry.value.lockedUntil == 0.0 && !Stale(o, tr.entry.value, now)
    ensures Bounded(o, Trace(Some(AfterFailure(o, tr.entry, now)), tr.log + [now], tr.start), now)
  {
    assert (tr.log + [now])[..tr.start] == tr.log[..tr.start];
  }

  /** An event that logs nothing can only clear the record or drop a finished entry. */
  lemma QuietStaysBounded(o: Limits, tr: Trace, e: Option<Entry>, now: real, last: real)
    requires Usable(o) && Bounded(o, tr, last) && last <= now
    requires e == tr.entry || (e.None? && tr.entry.Some? && tr.entry.value.lockedUntil <= now
                               && (tr.entry.value.lockedUntil != 0.0 || Stale(o, tr.entry.value, now)))
    ensures Bounded(o, tr.(entry := e), now)
  {
  }

  lemma FollowStaysBounded(o: Limits, tr: Trace, ev: Event, last: real)
    requires Usable(o) && Bounded(o, tr, last) && last <= Time(ev, last)
    ensures Bounded(o, Follow(o, tr, ev), Time(ev, last))
  {
    match ev
    case Success =>
    case Sweeping(now) => QuietStaysBounded(o, tr, Follow(o, tr, ev).entry, now, last);
    case Try(now, fails) =>
      var kept := AfterCheck(o, tr.entry, now);
      if fails && Decide(tr.entry, now).allowed {
        if kept.None? || Stale(o, kept.value, now) {
          NewBurstStaysBounded(o, tr, now, last);
        } else {
          LongerBurstStaysBounded(o, tr, now, last);
        }
      } else {
        QuietStaysBounded(o, tr, kept, now, last);
      }
  }

  /** No event takes a window of the record over the bound. */
  lemma WindowStaysWithin(o: Limits, tr: Trace, ev: Event, last: real, from: real)
    requires Usable(o) && Bounded(o, tr, last) && last <= Time(ev, last)
    requires CountIn(tr.log, from, o.windowMs) <= 2 * o.maxFailures - 2
    ensures CountIn(Follow(o, tr, ev).log, from, o.windowMs) <= 2 * o.maxFailures - 2
  {
    FollowStaysBounded(o, tr, ev, last);
    if ev.Try? && Decide(tr.entry, ev.now).allowed && ev.fails {
      LoggingStaysBounded(o, tr.log, Follow(o, tr, ev).start, ev.now, from);
    }
  }

  lemma {:induction false} RunStaysWithin(o: Limits, tr: Trace, evs: seq<Event>, last: real, from: real)
    requires Usable(o) && Bounded(o, tr, last) && Onwards(evs, last)
    requires CountIn(tr.log, from, o.windowMs) <= 2 * o.maxFailures - 2
    ensures CountIn(FollowAll(o, tr, evs).log, from, o.windowMs) <= 2 * o.maxFailures - 2
    decreases |evs|
  {
    if evs != [] {
      FollowStaysBounded(o, tr, evs[0], last);
      WindowStaysWithin(o, tr, evs[0], last, from);
      RunStaysWithin(o, Follow(o, tr, evs[0]), evs[1..], Time(evs[0], last), from);
    }
  }

  /**
   * However attempts, sweeps and successes are timed, no window of `windowMs` between two clears of a
   * key ever holds more than `2 * maxFailures - 2` recorded failures.
   */
  lemma FailuresAreBounded(o: Limits, evs: seq<Event>, from: real)
    requires Usable(o) && Onwards(evs, 0.0)
    ensures CountIn(FollowAll(o, FRESH, evs).log, from, o.windowMs) <= 2 * o.maxFailures - 2
  {
    assert Bounded(o, FRESH, 0.0);
    RunStaysWithin(o, FRESH, evs, 0.0, from);
  }

  /** With the limits in use a window holds at most 18 failures of one name and 58 of one address. */
  lemma LimitsInUse(evs: seq<Event>, from: real)
    requires Onwards(evs, 0.0)
    ensures Usable(USERNAME_LIMITS) && Usable(IP_LIMITS)
    ensures CountIn(FollowAll(USERNAME_LIMITS, FRESH, evs).log, from, USERNAME_LIMITS.windowMs) <= 18
    ensures CountIn(FollowAll(IP_LIMITS, FRESH, evs).log, from, IP_LIMITS.windowMs) <= 58
  {
    FailuresAreBounded(USERNAME_LIMITS, evs, from);
    FailuresAreBounded(IP_LIMITS, evs, from);
  }

  // ── The bound is reached ──────────────────────────────────────────────────────────

  function Repeat(n: nat, now: real): seq<Event> {
    if n == 0 then [] else [Try(now, true)] + Repeat(n - 1, now)
  }

  function Instants(n: nat, now: real): seq<real> {
    seq(n, _ => now)
  }

  lemma {:induction false} RepeatIsOnwards(n: nat, now: real, rest: seq<Event>, last: real)
    requires last <= now && Onwards(rest, now)
    ensures Onwards(Repeat(n, now) + rest, last)
  {
    if n > 0 {
      assert (Repeat(n, now) + rest)[1..] == Repeat(n - 1, now) + rest;
      RepeatIsOnwards(n - 1, now, rest, now);
    } else {
      assert Repeat(n, now) + rest == rest;
      assert rest != [] ==> Time(rest[0], last) == Time(rest[0], now) || rest[0].Success?;
      OnwardsFromEarlier(rest, last, now);
    }
  }

  lemma {:induction false} OnwardsFromEarlier(evs: seq<Event>, last: real, now: real)
    requires last <= now && Onwards(evs, now)
    ensures Onwards(evs, last)
  {
    if evs != [] && evs[0].Success? {
      OnwardsFromEarlier(evs[1..], last, now);
    }
  }

  lemma {:induction false} FollowAllSplit(o: Limits, tr: Trace, xs: seq<Event>, ys: seq<Event>)
    ensures FollowAll(o, tr, xs + ys) == FollowAll(o, FollowAll(o, tr, xs), ys)
    decreases |xs|
  {
    if xs == [] {
      assert xs + ys == ys;
    } else {
      assert (xs + ys)[1..] == xs[1..] + ys;
      FollowAllSplit(o, Follow(o, tr, xs[0]), xs[1..], ys);
    }
  }

  /** Failures at one instant keep filling the burst as long as it is neither full nor stale. */
  lemma {:induction false} RepeatFills(o: Limits, tr: Trace, n: nat, now: real)
    requires tr.entry.Some? && tr.entry.value.lockedUntil == 0.0 && 0.0 <= now
    requires tr.entry.value.failures + n <= o.maxFailures && !Stale(o, tr.entry.value, now)
    requires n > 0 ==> tr.entry.value.failures < o.maxFailures
    ensures FollowAll(o, tr, Repeat(n, now)).log == tr.log + Instants(n, now)
    ensures tr.entry.value.failures + n < o.maxFailures ==>
      FollowAll(o, tr, Repeat(n, now)).entry == Some(Entry(tr.entry.value.failures + n, tr.entry.value.firstFailureAt, 0.0))
    decreases n
  {
    if n == 0 {
      assert tr.log + Instants(0, now) == tr.log;
    } else {
      var tr' := Follow(o, tr, Try(now, true));
      assert Repeat(n, now)[1..] == Repeat(n - 1, now);
      if n == 1 {
        assert tr'.log == tr.log + Instants(1, now);
        assert FollowAll(o, tr', []) == tr';
      } else {
        RepeatFills(o, tr', n - 1, now);
        assert tr.log + Instants(n, now) == tr'.log + Instants(n - 1, now);
      }
    }
  }

  lemma {:induction false} CountInstants(log: seq<real>, n: nat, now: real, from: real, length: real)
    requires from <= now < from + length
    ensures CountIn(log + Instants(n, now), from, length) == CountIn(log, from, length) + n
  {
    if n == 0 {
      assert log + Instants(0, now) == log;
    } else {
      assert (log + Instants(n, now))[..|log| + n - 1] == log + Instants(n - 1, now);
      CountInstants(log, n - 1, now, from, length);
    }
  }

  /** The three bursts of the worst case: one early failure, a full window's rest, and a fresh burst. */
  function WorstCase(o: Limits): seq<Event>
    requires Usable(o)
  {
    var late := o.windowMs + o.windowMs / 2.0;
    [Try(0.0, true)]
      + (Repeat(o.maxFailures - 2, o.windowMs) + ([Try(late, true)] + Repeat(o.maxFailures - 1, late)))
  }

  lemma WorstCaseIsOnwards(o: Limits)
    requires Usable(o)
    ensures Onwards(WorstCase(o), 0.0)
  {
    var w, m := o.windowMs, o.maxFailures;
    var late := w + w / 2.0;
    var burst := [Try(late, true)] + Repeat(m - 1, late);
    RepeatIsOnwards(m - 1, late, [], late);
    assert Repeat(m - 1, late) + [] == Repeat(m - 1, late);
    assert burst[1..] == Repeat(m - 1, late);
    RepeatIsOnwards(m - 2, w, burst, 0.0);
    assert WorstCase(o)[1..] == Repeat(m - 2, w) + burst;
  }

  lemma WorstCaseLog(o: Limits)
    requires Usable(o)
    ensures var late := o.windowMs + o.windowMs / 2.0;
      FollowAll(o, FRESH, WorstCase(o)).log
        == [0.0] + Instants(o.maxFailures - 2, o.windowMs) + Instants(o.maxFailures, late)
  {
    var w, m := o.windowMs, o.maxFailures;
    var late := w + w / 2.0;
    var burst := [Try(late, true)] + Repeat(m - 1, late);
    var a := Follow(o, FRESH, Try(0.0, true));
    assert a == Trace(Some(Entry(1, 0.0, 0.0)), [0.0], 0);
    RepeatFills(o, a, m - 2, w);
    var b := FollowAll(o, a, Repeat(m - 2, w));
    var c := Follow(o, b, Try(late, true));
    assert c == Trace(Some(Entry(1, late, 0.0)), b.log + [late], |b.log|);
    RepeatFills(o, c, m - 1, late);
    assert burst[1..] == Repeat(m - 1, late);
    FollowAllSplit(o, a, Repeat(m - 2, w), burst);
    assert WorstCase(o)[1..] == Repeat(m - 2, w) + burst;
    assert [late] + Instants(m - 1, late) == Instants(m, late);
    assert b.log + [late] + Instants(m - 1, late) == b.log + Instants(m, late);
  }

  /**
   * And the bound is exact: for every limiter, one failure at zero, `maxFailures - 2` more as its
   * window closes, and a full burst half a window later put `2 * maxFailures - 2` in one window.
   */
  lemma BoundIsReached(o: Limits)
    requires Usable(o)
    ensures Onwards(WorstCase(o), 0.0)
    ensures CountIn(FollowAll(o, FRESH, WorstCase(o)).log, o.windowMs, o.windowMs) == 2 * o.maxFailures - 2
  {
    var w, m := o.windowMs, o.maxFailures;
    WorstCaseIsOnwards(o);
    WorstCaseLog(o);
    assert [0.0][..0] == [];
    assert CountIn([0.0], w, w) == 0;
    CountInstants([0.0], m - 2, w, w, w);
    CountInstants([0.0] + Instants(m - 2, w), m, w + w / 2.0, w, w);
  }
}
