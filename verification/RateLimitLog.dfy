/**
 * The limiter told from the log of failures alone, key by key, and the whole table at work
 * (packages/server/src/auth/rate-limit.ts).
 */
module RateLimitLog {
  import opened Options
  import opened Measures
  import opened RateLimit

  // ── Locked out, by the log ────────────────────────────────────────────────────────

  /**
   * Where the latest burst begins in a log of failures. A failure belongs to the burst before it unless that
   * one is full or began more than a window ago.
   */
  function Burst(o: Limits, log: seq<real>): (start: nat)
    ensures log != [] ==> start < |log|
  {
    if |log| <= 1 then 0
    else
      var front, last := log[..|log| - 1], log[|log| - 1];
      var start := Burst(o, front);
      if |front| - start >= o.maxFailures || last - front[start] > o.windowMs then |front| else start
  }

  /** The latest burst is full, and its last failure is less than a lockout ago. */
  predicate LockedOut(o: Limits, log: seq<real>, now: real) {
    log != [] && |log| - Burst(o, log) >= o.maxFailures && now < log[|log| - 1] + o.lockoutMs
  }

  /** What an event leaves of the log: a success clears it, and a failure is added unless it is locked out. */
  function LogAfter(o: Limits, log: seq<real>, ev: Event): seq<real> {
    match ev
    case Success => []
    case Sweeping(_) => log
    case Try(now, fails) => if fails && !LockedOut(o, log, now) then log + [now] else log
  }

  function LogOf(o: Limits, log: seq<real>, evs: seq<Event>): seq<real>
    decreases |evs|
  {
    if evs == [] then log else LogOf(o, LogAfter(o, log, evs[0]), evs[1..])
  }

  predicate StartsAtTheBurst(o: Limits, tr: Trace) {
    tr.log != [] ==> tr.start == Burst(o, tr.log)
  }

  lemma BurstOfOneMore(o: Limits, log: seq<real>, now: real)
    ensures Burst(o, log + [now]) ==
      if log == [] || |log| - Burst(o, log) >= o.maxFailures || now - log[Burst(o, log)] > o.windowMs
      then |log| else Burst(o, log)
  {
    assert (log + [now])[..|log|] == log;
  }

  lemma DecidedByTheLog(o: Limits, tr: Trace, last: real, now: real)
    requires Usable(o) && Bounded(o, tr, last) && StartsAtTheBurst(o, tr) && last <= now
    ensures Decide(tr.entry, now).allowed <==> !LockedOut(o, tr.log, now)
  {
  }

  /** A failure let through begins a burst by the entry exactly when it does by the log. */
  lemma StartsWhereTheBurstDoes(o: Limits, tr: Trace, last: real, now: real)
    requires Usable(o) && Bounded(o, tr, last) && StartsAtTheBurst(o, tr) && last <= now && !LockedOut(o, tr.log, now)
    ensures var kept := AfterCheck(o, tr.entry, now);
      (if kept.None? || Stale(o, kept.value, now) then |tr.log| else tr.start) == Burst(o, tr.log + [now])
  {
    BurstOfOneMore(o, tr.log, now);
  }

  /** What an attempt logs, and where it leaves the burst. */
  lemma TryIsLogged(o: Limits, tr: Trace, now: real, fails: bool)
    ensures var tr', kept := Follow(o, tr, Try(now, fails)), AfterCheck(o, tr.entry, now);
      if fails && Decide(tr.entry, now).allowed then
        && tr'.log == tr.log + [now]
        && tr'.start == if kept.None? || Stale(o, kept.value, now) then |tr.log| else tr.start
      else tr'.log == tr.log && tr'.start == tr.start
  {
  }

  lemma FollowsTheLog(o: Limits, tr: Trace, ev: Event, last: real)
    requires Usable(o) && Bounded(o, tr, last) && StartsAtTheBurst(o, tr) && last <= Time(ev, last)
    ensures Follow(o, tr, ev).log == LogAfter(o, tr.log, ev) && StartsAtTheBurst(o, Follow(o, tr, ev))
  {
    if ev.Try? {
      var now := ev.now;
      DecidedByTheLog(o, tr, last, now);
      TryIsLogged(o, tr, now, ev.fails);
      if ev.fails && !LockedOut(o, tr.log, now) {
        StartsWhereTheBurstDoes(o, tr, last, now);
        SameStart(o, Follow(o, tr, ev), tr.log + [now]);
      } else {
        SameStart(o, Follow(o, tr, ev), tr.log);
      }
    }
  }

  lemma SameStart(o: Limits, tr: Trace, log: seq<real>)
    requires tr.log == log && (log != [] ==> tr.start == Burst(o, log))
    ensures StartsAtTheBurst(o, tr)
  {
  }

  lemma {:induction false} RunFollowsTheLog(o: Limits, tr: Trace, evs: seq<Event>, last: real) returns (at: real)
    requires Usable(o) && Bounded(o, tr, last) && StartsAtTheBurst(o, tr) && Onwards(evs, last)
    ensures at == LastTime(evs, last)
    ensures var tr' := FollowAll(o, tr, evs);
      Bounded(o, tr', at) && StartsAtTheBurst(o, tr') && tr'.log == LogOf(o, tr.log, evs)
    decreases |evs|
  {
    at := last;
    if evs != [] {
      FollowsTheLog(o, tr, evs[0], last);
      FollowStaysBounded(o, tr, evs[0], last);
      at := RunFollowsTheLog(o, Follow(o, tr, evs[0]), evs[1..], Time(evs[0], last));
    }
  }

  function LastTime(evs: seq<Event>, last: real): real
    decreases |evs|
  {
    if evs == [] then last else LastTime(evs[1..], Time(evs[0], last))
  }

  /**
   * After any run of attempts, successes and sweeps of a key: the failures recorded are those not locked out,
   * and the next attempt is refused exactly when the latest burst of them is full and its lock still runs.
   */
  lemma LimiterIsItsLog(o: Limits, evs: seq<Event>, now: real)
    requires Usable(o) && Onwards(evs, 0.0) && LastTime(evs, 0.0) <= now
    ensures var tr := FollowAll(o, FRESH, evs);
      tr.log == LogOf(o, [], evs) && (Decide(tr.entry, now).allowed <==> !LockedOut(o, LogOf(o, [], evs), now))
  {
    assert Bounded(o, FRESH, 0.0);
    var at := RunFollowsTheLog(o, FRESH, evs, 0.0);
    DecidedByTheLog(o, FollowAll(o, FRESH, evs), at, now);
  }

  // ── The table ─────────────────────────────────────────────────────────────────────

  /** The calls a login makes of the limiter, and the periodic sweep. */
  datatype Call = Attempt(key: string, now: real, fails: bool) | Succeed(key: string) | SweepAll(now: real)

  function TableAfter(o: Limits, t: Table, call: Call): Table {
    match call
    case Attempt(key, now, fails) => Store(t, key, AfterAttempt(o, Lookup(t, key), now, fails))
    case Succeed(key) => t - {key}
    case SweepAll(now) => Swept(o, t, now)
  }

  function Tables(o: Limits, calls: seq<Call>): Table {
    if calls == [] then map[] else TableAfter(o, Tables(o, calls[..|calls| - 1]), calls[|calls| - 1])
  }

  /** What the calls mean to one key. */
  function Concerning(calls: seq<Call>, key: string): seq<Event> {
    if calls == [] then []
    else
      var before := Concerning(calls[..|calls| - 1], key);
      match calls[|calls| - 1]
      case Attempt(k, now, fails) => if k == key then before + [Try(now, fails)] else before
      case Succeed(k) => if k == key then before + [Success] else before
      case SweepAll(now) => before + [Sweeping(now)]
  }

  lemma {:induction false} FollowOneMore(o: Limits, tr: Trace, evs: seq<Event>, ev: Event)
    ensures FollowAll(o, tr, evs + [ev]) == Follow(o, FollowAll(o, tr, evs), ev)
    decreases |evs|
  {
    if evs == [] {
      assert ([] + [ev])[1..] == [] && evs + [ev] == [ev];
    } else {
      assert (evs + [ev])[0] == evs[0] && (evs + [ev])[1..] == evs[1..] + [ev];
      FollowOneMore(o, Follow(o, tr, evs[0]), evs[1..], ev);
    }
  }

  /** The table holds of each key exactly what the calls about that key have led to, whatever the others did. */
  lemma {:induction false} KeyFollowsItsOwnCalls(o: Limits, calls: seq<Call>, key: string)
    ensures var t, e := Tables(o, calls), FollowAll(o, FRESH, Concerning(calls, key)).entry;
      (key in t <==> e.Some?) && (key in t ==> t[key] == e.value)
  {
    if calls != [] {
      var before, last := calls[..|calls| - 1], calls[|calls| - 1];
      KeyFollowsItsOwnCalls(o, before, key);
      match last
      case Attempt(k, now, fails) =>
        if k == key {
          FollowOneMore(o, FRESH, Concerning(before, key), Try(now, fails));
        }
      case Succeed(k) =>
        if k == key {
          FollowOneMore(o, FRESH, Concerning(before, key), Success);
        }
      case SweepAll(now) =>
        FollowOneMore(o, FRESH, Concerning(before, key), Sweeping(now));
    }
  }

  /** A sweep leaves an entry, as it was, exactly when it is locked still or began within the last window. */
  lemma SweepLeavesExactlyTheLive(o: Limits, t: Table, now: real, key: string)
    ensures key in Swept(o, t, now) <==>
            key in t && (now < t[key].lockedUntil || now <= t[key].firstFailureAt + o.windowMs)
    ensures key in Swept(o, t, now) ==> Swept(o, t, now)[key] == t[key]
  {
  }
}
