/**
 * Hostile alerts and the rings they draw (packages/client/src/render/pings.ts).
 *
 * An alert's key is its tick and position. `live` is a list the methods replace; compacting it writes the
 * survivors down over the front of the same list and then cuts it, as the source does.
 */
module Alerts {
  import opened Measures

  const MAX_ALERTS := 16
  const SEEN_LIMIT := 4 * MAX_ALERTS
  const PING_RING_MS := 667.0
  const PING_SPEED_M_PER_S := 1500.0
  const PING_MAX_RADIUS_M := 1000.0
  const PING_RING_ALPHA := 0.32

  datatype Event = Event(tick: int, at: Vec2, detail: int)
  datatype Key = Key(tick: int, at: Vec2)
  datatype LiveAlert = LiveAlert(key: Key, at: Vec2, bornAt: real)
  datatype PingRing = PingRing(at: Vec2, radius: real, alpha: real)

  type Frame = seq<Event>

  function KeyOf(e: Event): Key {
    Key(e.tick, e.at)
  }

  function Keys(events: Frame): set<Key> {
    if events == [] then {} else Keys(events[..|events| - 1]) + {KeyOf(events[|events| - 1])}
  }

  // ── Which events are new ──────────────────────────────────────────────────────────

  /** The events of a frame not seen before it or earlier in it, in the order reported. */
  function Fresh(seen: set<Key>, events: Frame): seq<Event> {
    if events == [] then []
    else
      var n := |events| - 1;
      Fresh(seen, events[..n])
      + (if KeyOf(events[n]) in seen || KeyOf(events[n]) in Keys(events[..n]) then [] else [events[n]])
  }

  function Raised(novel: seq<Event>, now: real): seq<LiveAlert> {
    if novel == [] then []
    else
      var n := |novel| - 1;
      Raised(novel[..n], now) + [LiveAlert(KeyOf(novel[n]), novel[n].at, now)]
  }

  function PlacesOf(novel: seq<Event>): seq<Vec2> {
    if novel == [] then [] else PlacesOf(novel[..|novel| - 1]) + [novel[|novel| - 1].at]
  }

  function Newest(alerts: seq<LiveAlert>): seq<LiveAlert> {
    if |alerts| > MAX_ALERTS then alerts[|alerts| - MAX_ALERTS..] else alerts
  }

  predicate Trims(seen: set<Key>, events: Frame) {
    |seen + Keys(events)| > SEEN_LIMIT
  }

  /** What is remembered after a frame: past the limit, only what the frame itself reports. */
  function SeenAfter(seen: set<Key>, events: Frame): set<Key> {
    if Trims(seen, events) then Keys(events) else seen + Keys(events)
  }

  // ── Which alerts are still drawn ──────────────────────────────────────────────────

  predicate Visible(a: LiveAlert, now: real, lifetime: real) {
    0.0 <= now - a.bornAt < lifetime
  }

  function VisibleOf(alerts: seq<LiveAlert>, now: real, lifetime: real): seq<LiveAlert> {
    if alerts == [] then []
    else
      var n := |alerts| - 1;
      VisibleOf(alerts[..n], now, lifetime) + (if Visible(alerts[n], now, lifetime) then [alerts[n]] else [])
  }

  function RingAt(at: Vec2, age: real): PingRing {
    var reach := PING_SPEED_M_PER_S * age / 1000.0;
    PingRing(at, if reach < PING_MAX_RADIUS_M then reach else PING_MAX_RADIUS_M, PING_RING_ALPHA * (1.0 - age / PING_RING_MS))
  }

  function RingsOf(alerts: seq<LiveAlert>, now: real): seq<PingRing> {
    if alerts == [] then []
    else
      var n := |alerts| - 1;
      RingsOf(alerts[..n], now) + [RingAt(alerts[n].at, now - alerts[n].bornAt)]
  }

  /** What one more event of a frame adds. */
  lemma OneMoreEvent(seen: set<Key>, events: Frame, i: nat, now: real)
    requires i < |events|
    ensures Keys(events[..i + 1]) == Keys(events[..i]) + {KeyOf(events[i])}
    ensures var known, was, next :=
        KeyOf(events[i]) in seen + Keys(events[..i]), Fresh(seen, events[..i]), Fresh(seen, events[..i + 1]);
      && (known ==> next == was)
      && (!known ==>
            Raised(next, now) == Raised(was, now) + [LiveAlert(KeyOf(events[i]), events[i].at, now)] &&
            PlacesOf(next) == PlacesOf(was) + [events[i].at])
  {
    assert events[..i + 1][..i] == events[..i];
    var was := Fresh(seen, events[..i]);
    assert (was + [events[i]])[..|was|] == was;
    assert was + [] == was;
  }

  /** What one more alert in the list adds to what is drawn. */
  lemma OneMoreVisible(alerts: seq<LiveAlert>, i: nat, now: real)
    requires i < |alerts|
    ensures var was := VisibleOf(alerts[..i], now, PING_RING_MS);
      && VisibleOf(alerts[..i + 1], now, PING_RING_MS) == (if Visible(alerts[i], now, PING_RING_MS) then was + [alerts[i]] else was)
      && RingsOf(was + [alerts[i]], now) == RingsOf(was, now) + [RingAt(alerts[i].at, now - alerts[i].bornAt)]
  {
    assert alerts[..i + 1][..i] == alerts[..i];
    var was := VisibleOf(alerts[..i], now, PING_RING_MS);
    assert was + [] == was && (was + [alerts[i]])[..|was|] == was;
  }

  class HostilePings {
    var seen: set<Key>
    var live: seq<LiveAlert>

    constructor ()
      ensures seen == {} && live == []
    {
      seen, live := {}, [];
    }

    /** Fold in a frame; what is returned is where each new alert happened. */
    method Observe(events: Frame, now: real) returns (born: seq<Vec2>)
      modifies this
      ensures seen == SeenAfter(old(seen), events)
      ensures live == Newest(old(live) + Raised(Fresh(old(seen), events), now))
      ensures born == PlacesOf(Fresh(old(seen), events))
    {
      var known, list;
      known, list, born := FoldIn(seen, live, events, now);
      seen, live := known, Newest(list);
      if |seen| > SEEN_LIMIT {
        var keep := Keys(events);
        seen := set key | key in seen && key in keep;
        assert seen == keep;
      }
    }

    /** The loop over a frame's events. */
    static method FoldIn(seen: set<Key>, live: seq<LiveAlert>, events: Frame, now: real)
      returns (known: set<Key>, list: seq<LiveAlert>, born: seq<Vec2>)
      ensures known == seen + Keys(events) && list == live + Raised(Fresh(seen, events), now)
      ensures born == PlacesOf(Fresh(seen, events))
    {
      known, list, born := seen, live, [];
      var i := 0;
      while i < |events|
        invariant 0 <= i <= |events| && known == seen + Keys(events[..i])
        invariant list == live + Raised(Fresh(seen, events[..i]), now)
        invariant born == PlacesOf(Fresh(seen, events[..i]))
      {
        var event := events[i];
        var key := KeyOf(event);
        OneMoreEvent(seen, events, i, now);
        if key !in known {
          known := known + {key};
          born := born + [event.at];
          list := list + [LiveAlert(key, event.at, now)];
        }
        i := i + 1;
      }
      assert events[..i] == events;
    }

    /** The list keeps exactly the alerts young enough to show, in order, and as many rings are drawn. */
    method Rings(now: real) returns (out: seq<PingRing>)
      modifies this`live
      ensures live == VisibleOf(old(live), now, PING_RING_MS)
      ensures out == RingsOf(live, now)
    {
      live, out := Compact(live, now);
    }

    /** The loop over the live alerts, which writes the survivors over the front of the list it reads. */
    static method Compact(was: seq<LiveAlert>, now: real) returns (live: seq<LiveAlert>, out: seq<PingRing>)
      ensures live == VisibleOf(was, now, PING_RING_MS) && out == RingsOf(live, now)
    {
      live, out := was, [];
      var kept := 0;
      var i := 0;
      while i < |live|
        invariant 0 <= kept <= i <= |live| == |was|
        invariant live[..kept] == VisibleOf(was[..i], now, PING_RING_MS)
        invariant forall k :: i <= k < |was| ==> live[k] == was[k]
        invariant out == RingsOf(VisibleOf(was[..i], now, PING_RING_MS), now)
      {
        var alert := live[i];
        OneMoreVisible(was, i, now);
        var age := now - alert.bornAt;
        if !(age >= PING_RING_MS || age < 0.0) {
          out := out + [RingAt(alert.at, age)];
          assert live[kept := alert][..kept + 1] == live[..kept] + [alert];
          live := live[kept := alert];
          kept := kept + 1;
        }
        i := i + 1;
      }
      assert was[..i] == was;
      live := live[..kept];
    }
  }

  // ── Exactly once from repeated reports ────────────────────────────────────────────

  /** The keys remembered after these frames. */
  function Seen(frames: seq<Frame>): set<Key> {
    if frames == [] then {} else SeenAfter(Seen(frames[..|frames| - 1]), frames[|frames| - 1])
  }

  /** Whether frame `f` raises an alert for `key`, and how many. */
  function AlertsIn(frames: seq<Frame>, f: nat, key: Key): nat
    requires f < |frames|
  {
    CountOf(Fresh(Seen(frames[..f]), frames[f]), key)
  }

  function CountOf(events: seq<Event>, key: Key): nat {
    if events == [] then 0
    else CountOf(events[..|events| - 1], key) + (if KeyOf(events[|events| - 1]) == key then 1 else 0)
  }

  predicate Reports(frames: seq<Frame>, f: nat, key: Key)
    requires f < |frames|
  {
    key in Keys(frames[f])
  }

  lemma {:induction false} FreshCounts(seen: set<Key>, events: Frame, key: Key)
    ensures CountOf(Fresh(seen, events), key) == if key in Keys(events) && key !in seen then 1 else 0
  {
    if events != [] {
      var n := |events| - 1;
      FreshCounts(seen, events[..n], key);
      assert Keys(events) == Keys(events[..n]) + {KeyOf(events[n])};
      var front := Fresh(seen, events[..n]);
      assert front + [] == front;
    }
  }

  /** A frame raises one alert for a key it reports and no frame is remembered for, and none otherwise. */
  lemma AlertsExactlyWhenNew(frames: seq<Frame>, f: nat, key: Key)
    requires f < |frames|
    ensures AlertsIn(frames, f, key) == if Reports(frames, f, key) && key !in Seen(frames[..f]) then 1 else 0
  {
    FreshCounts(Seen(frames[..f]), frames[f], key);
  }

  lemma SeenOfOneMore(frames: seq<Frame>, n: nat)
    requires n < |frames|
    ensures Seen(frames[..n + 1]) == SeenAfter(Seen(frames[..n]), frames[n])
  {
    assert frames[..n + 1][..n] == frames[..n];
  }

  /** Frame `g` did not forget `key`. */
  ghost predicate Spared(frames: seq<Frame>, g: nat, key: Key)
    requires g < |frames|
  {
    Trims(Seen(frames[..g]), frames[g]) ==> Reports(frames, g, key)
  }

  /** Reported in frame `f`, and spared by every frame from then to the `n`th. */
  ghost predicate StillRemembered(frames: seq<Frame>, f: nat, n: nat, key: Key)
    requires n <= |frames|
  {
    f < n && Reports(frames, f, key) && forall g :: f < g < n ==> Spared(frames, g, key)
  }

  lemma {:induction false} ReportedAndSparedIsSeen(frames: seq<Frame>, f: nat, n: nat, key: Key)
    requires n <= |frames| && StillRemembered(frames, f, n, key)
    ensures key in Seen(frames[..n])
  {
    SeenOfOneMore(frames, n - 1);
    if f < n - 1 {
      ReportedAndSparedIsSeen(frames, f, n - 1, key);
      assert Spared(frames, n - 1, key);
    }
  }

  lemma {:induction false} SeenWasReportedAndSpared(frames: seq<Frame>, n: nat, key: Key) returns (f: nat)
    requires n <= |frames| && key in Seen(frames[..n])
    ensures StillRemembered(frames, f, n, key)
  {
    SeenOfOneMore(frames, n - 1);
    if Reports(frames, n - 1, key) {
      f := n - 1;
    } else {
      f := SeenWasReportedAndSpared(frames, n - 1, key);
    }
  }

  /** A key is remembered exactly when some frame reported it and every trim since found it reported still. */
  lemma RememberedExactlyWhen(frames: seq<Frame>, n: nat, key: Key)
    requires n <= |frames|
    ensures key in Seen(frames[..n]) <==> exists f: nat :: StillRemembered(frames, f, n, key)
  {
    if key in Seen(frames[..n]) {
      var f := SeenWasReportedAndSpared(frames, n, key);
    }
    if f: nat :| StillRemembered(frames, f, n, key) {
      ReportedAndSparedIsSeen(frames, f, n, key);
    }
  }

  /**
   * Reported in every frame of a streak and in none before it, an event alerts once, on the first frame,
   * whatever else is reported and however often the memory is trimmed.
   */
  lemma StreakAlertsOnceAtItsStart(frames: seq<Frame>, start: nat, f: nat, key: Key)
    requires start <= f < |frames|
    requires forall g :: 0 <= g < start ==> !Reports(frames, g, key)
    requires forall g :: start <= g <= f ==> Reports(frames, g, key)
    ensures AlertsIn(frames, f, key) == if f == start then 1 else 0
  {
    AlertsExactlyWhenNew(frames, f, key);
    RememberedExactlyWhen(frames, f, key);
    if f > start {
      assert Reports(frames, start, key);
      assert forall g :: start < g < f ==> Spared(frames, g, key);
      assert StillRemembered(frames, start, f, key);
    }
  }

  lemma {:induction false} KeysAreBounded(events: Frame)
    ensures |Keys(events)| <= |events|
  {
    if events != [] {
      var n := |events| - 1;
      KeysAreBounded(events[..n]);
      assert Keys(events) == Keys(events[..n]) + {KeyOf(events[n])};
    }
  }

  /** The memory never outgrows the limit, or the last frame if that is larger. */
  lemma MemoryIsBounded(frames: seq<Frame>)
    requires frames != []
    ensures |Seen(frames)| <= SEEN_LIMIT || |Seen(frames)| <= |frames[|frames| - 1]|
  {
    KeysAreBounded(frames[|frames| - 1]);
  }

  // ── Compaction is not seen ────────────────────────────────────────────────────────

  datatype Step = Observe(novel: seq<Event>, now: real) | Draw(now: real)

  function LiveAfter(live: seq<LiveAlert>, s: Step, lifetime: real): seq<LiveAlert> {
    match s
    case Observe(novel, now) => Newest(live + Raised(novel, now))
    case Draw(now) => VisibleOf(live, now, lifetime)
  }

  function Live(steps: seq<Step>, lifetime: real): seq<LiveAlert> {
    if steps == [] then [] else LiveAfter(Live(steps[..|steps| - 1], lifetime), steps[|steps| - 1], lifetime)
  }

  /** Every alert ever raised, in order. */
  function Ever(steps: seq<Step>): seq<LiveAlert> {
    if steps == [] then []
    else
      var last := steps[|steps| - 1];
      Ever(steps[..|steps| - 1]) + (if last.Observe? then Raised(last.novel, last.now) else [])
  }

  predicate ClockNeverRunsBack(steps: seq<Step>, now: real) {
    steps != [] ==>
      var last := steps[|steps| - 1];
      last.now <= now && ClockNeverRunsBack(steps[..|steps| - 1], last.now)
  }

  /** In order of birth, the last no later than `now`. */
  predicate Ordered(alerts: seq<LiveAlert>, now: real) {
    alerts != [] ==>
      var last := alerts[|alerts| - 1];
      last.bornAt <= now && Ordered(alerts[..|alerts| - 1], last.bornAt)
  }

  lemma {:induction false} OrderedBefore(alerts: seq<LiveAlert>, now: real, i: int, j: int)
    requires Ordered(alerts, now) && 0 <= i <= j < |alerts|
    ensures alerts[i].bornAt <= alerts[j].bornAt <= now
  {
    var n := |alerts| - 1;
    if j < n {
      OrderedBefore(alerts[..n], alerts[n].bornAt, i, j);
    } else if i < n {
      OrderedBefore(alerts[..n], alerts[n].bornAt, i, n - 1);
    }
  }

  /** `live` is a tail of `ever`, at most the limit; and of the newest of `ever` it lacks only the expired. */
  ghost predicate IsTheTail(live: seq<LiveAlert>, ever: seq<LiveAlert>, now: real, lifetime: real) {
    && |live| <= MAX_ALERTS && |live| <= |ever| && live == ever[|ever| - |live|..]
    && (forall i :: 0 <= i && |ever| - MAX_ALERTS <= i < |ever| - |live| ==> now - ever[i].bornAt >= lifetime)
  }

  lemma {:induction false} VisibleIsFrom(alerts: seq<LiveAlert>, d: nat, now: real, lifetime: real)
    requires d <= |alerts|
    requires forall i :: 0 <= i < |alerts| ==> (Visible(alerts[i], now, lifetime) <==> d <= i)
    ensures VisibleOf(alerts, now, lifetime) == alerts[d..]
  {
    if alerts != [] {
      var n := |alerts| - 1;
      var front := alerts[..n];
      assert forall i :: 0 <= i < n ==> front[i] == alerts[i];
      if d <= n {
        VisibleIsFrom(front, d, now, lifetime);
        assert alerts[d..] == front[d..] + [alerts[n]];
      } else {
        VisibleIsFrom(front, n, now, lifetime);
        assert front[n..] == [] == alerts[d..];
      }
    }
  }

  /** Where the visible part of a list in order of birth starts. */
  lemma VisibleIsATail(alerts: seq<LiveAlert>, now: real, lifetime: real) returns (d: nat)
    requires Ordered(alerts, now)
    ensures d <= |alerts| && VisibleOf(alerts, now, lifetime) == alerts[d..]
    ensures forall i :: 0 <= i < |alerts| ==> (Visible(alerts[i], now, lifetime) <==> d <= i)
  {
    d := |alerts|;
    while d > 0 && Visible(alerts[d - 1], now, lifetime)
      invariant 0 <= d <= |alerts|
      invariant forall i :: d <= i < |alerts| ==> Visible(alerts[i], now, lifetime)
    {
      d := d - 1;
    }
    forall i | 0 <= i < d ensures !Visible(alerts[i], now, lifetime) {
      OrderedBefore(alerts, now, i, d - 1);
    }
    VisibleIsFrom(alerts, d, now, lifetime);
  }

  lemma {:induction false} TailIsOrdered(alerts: seq<LiveAlert>, d: nat, now: real)
    requires Ordered(alerts, now) && d <= |alerts|
    ensures Ordered(alerts[d..], now)
  {
    if d < |alerts| {
      var n := |alerts| - 1;
      TailIsOrdered(alerts[..n], d, alerts[n].bornAt);
      assert alerts[d..][..n - d] == alerts[..n][d..];
    }
  }

  lemma {:induction false} RaisedIsOrdered(ever: seq<LiveAlert>, novel: seq<Event>, now: real)
    requires Ordered(ever, now)
    ensures Ordered(ever + Raised(novel, now), now) && |Raised(novel, now)| == |novel|
  {
    if novel == [] {
      assert ever + [] == ever;
    } else {
      var n := |novel| - 1;
      var a := LiveAlert(KeyOf(novel[n]), novel[n].at, now);
      RaisedIsOrdered(ever, novel[..n], now);
      assert ever + Raised(novel, now) == ever + Raised(novel[..n], now) + [a];
    }
  }

  lemma ObserveKeepsTheTail(live: seq<LiveAlert>, ever: seq<LiveAlert>, more: seq<LiveAlert>, now: real, lifetime: real)
    requires IsTheTail(live, ever, now, lifetime)
    ensures IsTheTail(Newest(live + more), ever + more, now, lifetime)
  {
    var ever' := ever + more;
    var live' := Newest(live + more);
    assert live + more == ever'[|ever| - |live|..];
    assert live' == ever'[|ever'| - |live'|..];
    forall i | 0 <= i && |ever'| - MAX_ALERTS <= i < |ever'| - |live'| ensures now - ever'[i].bornAt >= lifetime {
      assert i < |ever| - |live| && ever'[i] == ever[i];
    }
  }

  lemma DrawKeepsTheTail(live: seq<LiveAlert>, ever: seq<LiveAlert>, now: real, lifetime: real)
    requires IsTheTail(live, ever, now, lifetime) && Ordered(ever, now)
    ensures IsTheTail(VisibleOf(live, now, lifetime), ever, now, lifetime)
  {
    TailIsOrdered(ever, |ever| - |live|, now);
    var d := VisibleIsATail(live, now, lifetime);
    var live' := VisibleOf(live, now, lifetime);
    var skipped := |ever| - |live|;
    forall i | 0 <= i && |ever| - MAX_ALERTS <= i < |ever| - |live'| ensures now - ever[i].bornAt >= lifetime {
      if skipped <= i {
        assert live[i - skipped] == ever[i] && !Visible(live[i - skipped], now, lifetime);
        OrderedBefore(ever, now, i, i);
      }
    }
  }

  lemma {:induction false} LiveIsTheTail(steps: seq<Step>, now: real, lifetime: real)
    requires ClockNeverRunsBack(steps, now)
    ensures IsTheTail(Live(steps, lifetime), Ever(steps), now, lifetime) && Ordered(Ever(steps), now)
  {
    if steps != [] {
      var n := |steps| - 1;
      var last := steps[n];
      var live, ever := Live(steps[..n], lifetime), Ever(steps[..n]);
      LiveIsTheTail(steps[..n], last.now, lifetime);
      if last.Observe? {
        var more := Raised(last.novel, last.now);
        RaisedIsOrdered(ever, last.novel, last.now);
        ObserveKeepsTheTail(live, ever, more, last.now, lifetime);
        assert Live(steps, lifetime) == Newest(live + more) && Ever(steps) == ever + more;
      } else {
        DrawKeepsTheTail(live, ever, last.now, lifetime);
        assert Ever(steps) == ever + [] == ever;
      }
      Later(Live(steps, lifetime), Ever(steps), last.now, now, lifetime);
    }
  }

  lemma Later(live: seq<LiveAlert>, ever: seq<LiveAlert>, was: real, now: real, lifetime: real)
    requires IsTheTail(live, ever, was, lifetime) && Ordered(ever, was) && was <= now
    ensures IsTheTail(live, ever, now, lifetime) && Ordered(ever, now)
  {
  }

  /**
   * Whenever it is drawn, and however often the list was compacted before, what is drawn is what is still
   * young enough of the newest alerts ever raised.
   */
  lemma CompactionIsUnobservable(steps: seq<Step>, now: real, lifetime: real)
    requires ClockNeverRunsBack(steps, now)
    ensures VisibleOf(Live(steps, lifetime), now, lifetime) == VisibleOf(Newest(Ever(steps)), now, lifetime)
  {
    LiveIsTheTail(steps, now, lifetime);
    TailShowsTheSame(Live(steps, lifetime), Ever(steps), now, lifetime);
  }

  lemma {:induction false} VisibleOfConcat(a: seq<LiveAlert>, b: seq<LiveAlert>, now: real, lifetime: real)
    ensures VisibleOf(a + b, now, lifetime) == VisibleOf(a, now, lifetime) + VisibleOf(b, now, lifetime)
  {
    if b == [] {
      assert a + b == a;
    } else {
      var n := |b| - 1;
      assert (a + b)[..|a| + n] == a + b[..n];
      VisibleOfConcat(a, b[..n], now, lifetime);
    }
  }

  lemma {:induction false} NoneVisible(alerts: seq<LiveAlert>, now: real, lifetime: real)
    requires forall i :: 0 <= i < |alerts| ==> !Visible(alerts[i], now, lifetime)
    ensures VisibleOf(alerts, now, lifetime) == []
  {
    if alerts != [] {
      NoneVisible(alerts[..|alerts| - 1], now, lifetime);
    }
  }

  lemma TailShowsTheSame(live: seq<LiveAlert>, ever: seq<LiveAlert>, now: real, lifetime: real)
    requires IsTheTail(live, ever, now, lifetime)
    ensures VisibleOf(live, now, lifetime) == VisibleOf(Newest(ever), now, lifetime)
  {
    var newest := Newest(ever);
    var gone := newest[..|newest| - |live|];
    assert newest == gone + live;
    forall i | 0 <= i < |gone| ensures !Visible(gone[i], now, lifetime) {
      assert gone[i] == ever[|ever| - |newest| + i];
    }
    NoneVisible(gone, now, lifetime);
    VisibleOfConcat(gone, live, now, lifetime);
  }

  // ── What is raised and drawn ──────────────────────────────────────────────────────

  /** Each new event raises one alert where it happened, born now, in the order reported. */
  lemma {:induction false} RaisedWhereTheyHappened(novel: seq<Event>, now: real)
    ensures |Raised(novel, now)| == |novel| == |PlacesOf(novel)|
    ensures forall i :: 0 <= i < |novel| ==>
      Raised(novel, now)[i] == LiveAlert(Key(novel[i].tick, novel[i].at), novel[i].at, now) && PlacesOf(novel)[i] == novel[i].at
  {
    if novel != [] {
      RaisedWhereTheyHappened(novel[..|novel| - 1], now);
    }
  }

  /** One ring to an alert, in order, around where it happened. */
  lemma {:induction false} OneRingEach(alerts: seq<LiveAlert>, now: real)
    ensures |RingsOf(alerts, now)| == |alerts|
    ensures forall i :: 0 <= i < |alerts| ==>
      RingsOf(alerts, now)[i] == RingAt(alerts[i].at, now - alerts[i].bornAt) && RingsOf(alerts, now)[i].at == alerts[i].at
  {
    if alerts != [] {
      OneRingEach(alerts[..|alerts| - 1], now);
    }
  }

  /**
   * A ring starts as a point at full strength, grows by a metre and a half a millisecond until its radius is
   * a kilometre, and fades evenly, to nothing as its time runs out.
   */
  lemma RingGrowsAndFades(at: Vec2, age: real, later: real)
    requires 0.0 <= age < later <= 667.0
    ensures RingAt(at, 0.0) == PingRing(at, 0.0, 0.32) && RingAt(at, 667.0).alpha == 0.0
    ensures 3.0 * later <= 2000.0 ==> RingAt(at, later).radius - RingAt(at, age).radius == 1.5 * (later - age)
    ensures 3.0 * later >= 2000.0 ==> RingAt(at, later).radius == 1000.0
    ensures RingAt(at, age).radius <= RingAt(at, later).radius <= 1000.0
    ensures (RingAt(at, age).alpha - RingAt(at, later).alpha) * 667.0 == 0.32 * (later - age)
  {
  }

  /** What has been remembered is forgotten only when there would be more than 64 keys, and then all but the frame's own. */
  lemma ForgetsOnlyPastTheLimit(seen: set<Key>, events: Frame)
    ensures SeenAfter(seen, events) == if |seen + Keys(events)| <= 64 then seen + Keys(events) else Keys(events)
  {
  }
}
