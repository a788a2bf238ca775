/** The chat rate limit (`allowChat` and `detach` in packages/server/src/match/handler.ts). */
module ChatBucket {
  import opened Measures

  type AccountId = int
  type Times = map<AccountId, seq<real>>

  const CHAT_BURST := 3
  const CHAT_WINDOW_MS := 5000.0

  /** The send times still inside the window at `now`. */
  function Recent(times: seq<real>, now: real): seq<real> {
    if times == [] then []
    else
      var last := times[|times| - 1];
      Recent(times[..|times| - 1], now) + (if now - last < CHAT_WINDOW_MS then [last] else [])
  }

  function TimesOf(times: Times, account: AccountId): seq<real> {
    if account in times then times[account] else []
  }

  predicate Admits(times: seq<real>, now: real) {
    |Recent(times, now)| < CHAT_BURST
  }

  /** What is kept after a line is offered: the window, and the line itself when it was admitted. */
  function Offered(times: seq<real>, now: real): seq<real> {
    Recent(times, now) + (if Admits(times, now) then [now] else [])
  }

  datatype Event = Send(account: AccountId, now: real) | Detach(account: AccountId)

  function Next(times: Times, e: Event): Times {
    match e
    case Send(account, now) => times[account := Offered(TimesOf(times, account), now)]
    case Detach(account) => times - {account}
  }

  class ChatLimiter {
    var chatTimes: Times

    constructor ()
      ensures chatTimes == map[]
    {
      chatTimes := map[];
    }

    method AllowChat(account: AccountId, now: real) returns (allowed: bool)
      modifies this
      ensures allowed == Admits(TimesOf(old(chatTimes), account), now)
      ensures chatTimes == Next(old(chatTimes), Send(account, now))
    {
      var times := TimesOf(chatTimes, account);
      var recent := [];
      var i := 0;
      while i < |times|
        invariant 0 <= i <= |times| && recent == Recent(times[..i], now)
      {
        assert times[..i + 1][..i] == times[..i];
        if now - times[i] < CHAT_WINDOW_MS {
          recent := recent + [times[i]];
        }
        i := i + 1;
      }
      assert times[..i] == times;
      if |recent| >= CHAT_BURST {
        assert recent + [] == recent;
        chatTimes := chatTimes[account := recent];
        return false;
      }
      recent := recent + [now];
      chatTimes := chatTimes[account := recent];
      return true;
    }

    method Forget(account: AccountId)
      modifies this
      ensures chatTimes == Next(old(chatTimes), Detach(account))
    {
      chatTimes := chatTimes - {account};
    }
  }

  // ── Against everything admitted ───────────────────────────────────────────────────

  function Run(events: seq<Event>): Times {
    if events == [] then map[] else Next(Run(events[..|events| - 1]), events[|events| - 1])
  }

  /** A line admitted: when, and the latest the clock has read at any line its account offered from then on. */
  datatype Line = Line(at: real, peak: real)

  /** Every line with the clock's reading at one more line of the same account taken into account. */
  function Noted(log: seq<Line>, now: real): seq<Line> {
    if log == [] then []
    else
      var last := log[|log| - 1];
      Noted(log[..|log| - 1], now) + [Line(last.at, MaxR(last.peak, now))]
  }

  /** Every line an account was allowed since it was last detached, none forgotten. */
  function Log(events: seq<Event>, account: AccountId): seq<Line> {
    if events == [] then []
    else
      var before, last := events[..|events| - 1], events[|events| - 1];
      if last.account != account then Log(before, account)
      else if last.Detach? then []
      else
        Noted(Log(before, account), last.now)
        + (if Admits(TimesOf(Run(before), account), last.now) then [Line(last.now, last.now)] else [])
  }

  function Sent(log: seq<Line>): seq<real> {
    if log == [] then [] else Sent(log[..|log| - 1]) + [log[|log| - 1].at]
  }

  /** The send times of the lines the clock was never a whole window past when their account offered one. */
  function Held(log: seq<Line>): seq<real> {
    if log == [] then []
    else
      var last := log[|log| - 1];
      Held(log[..|log| - 1]) + (if last.peak - last.at < CHAT_WINDOW_MS then [last.at] else [])
  }

  /** Still in the window at `now`, but outlived when an earlier line of its account was offered: thrown away. */
  predicate Forgotten(l: Line, now: real) {
    now - l.at < CHAT_WINDOW_MS <= l.peak - l.at
  }

  function Missed(log: seq<Line>, now: real): nat {
    if log == [] then 0
    else Missed(log[..|log| - 1], now) + (if Forgotten(log[|log| - 1], now) then 1 else 0)
  }

  lemma RecentOfOneMore(times: seq<real>, last: real, now: real)
    ensures Recent(times + [last], now) == Recent(times, now) + (if now - last < CHAT_WINDOW_MS then [last] else [])
  {
    assert (times + [last])[..|times|] == times;
  }

  lemma HeldOfOneMore(log: seq<Line>, l: Line)
    ensures Held(log + [l]) == Held(log) + (if l.peak - l.at < CHAT_WINDOW_MS then [l.at] else [])
  {
    assert (log + [l])[..|log|] == log;
  }

  /** Filtering what is held at one more reading is holding what is left after it. */
  lemma {:induction false} HeldAfterAnOffer(log: seq<Line>, now: real)
    ensures Recent(Held(log), now) == Held(Noted(log, now))
  {
    if log != [] {
      var front, last := log[..|log| - 1], log[|log| - 1];
      HeldAfterAnOffer(front, now);
      HeldOfOneMore(Noted(front, now), Line(last.at, MaxR(last.peak, now)));
      if last.peak - last.at < CHAT_WINDOW_MS {
        RecentOfOneMore(Held(front), last.at, now);
      } else {
        assert Held(front) + [] == Held(front);
      }
    }
  }

  /** What the limiter keeps of an account is, after any run under any clock, the lines held. */
  lemma {:induction false} KeptIsHeld(events: seq<Event>, account: AccountId)
    ensures TimesOf(Run(events), account) == Held(Log(events, account))
  {
    if events != [] {
      var before, last := events[..|events| - 1], events[|events| - 1];
      KeptIsHeld(before, account);
      if last.account == account && last.Send? {
        var log := Log(before, account);
        HeldAfterAnOffer(log, last.now);
        HeldOfOneMore(Noted(log, last.now), Line(last.now, last.now));
        assert Noted(log, last.now) + [] == Noted(log, last.now);
      }
    }
  }

  /**
   * After any run, whatever the clock does: a line is admitted exactly when fewer than `CHAT_BURST` of the
   * lines admitted since the last detach are within a window of every line its account offered since, this
   * one included.
   */
  lemma AdmittedExactlyWhen(events: seq<Event>, account: AccountId, now: real)
    ensures Admits(TimesOf(Run(events), account), now) <==>
            |Held(Noted(Log(events, account), now))| < CHAT_BURST
  {
    KeptIsHeld(events, account);
    HeldAfterAnOffer(Log(events, account), now);
  }

  // ── When the window kept is the true one ──────────────────────────────────────────

  lemma {:induction false} WindowLacksTheMissed(log: seq<Line>, now: real)
    ensures |Recent(Held(log), now)| + Missed(log, now) == |Recent(Sent(log), now)|
    ensures Missed(log, now) == 0 ==> Recent(Held(log), now) == Recent(Sent(log), now)
  {
    if log != [] {
      var front, last := log[..|log| - 1], log[|log| - 1];
      WindowLacksTheMissed(front, now);
      RecentOfOneMore(Sent(front), last.at, now);
      RecentOfOneMore(Held(front), last.at, now);
      assert Held(front) + [] == Held(front);
    }
  }

  ghost predicate NoneForgotten(log: seq<Line>, now: real) {
    forall i :: 0 <= i < |log| ==> !Forgotten(log[i], now)
  }

  lemma {:induction false} MissedCountsTheForgotten(log: seq<Line>, now: real)
    ensures Missed(log, now) == 0 <==> NoneForgotten(log, now)
  {
    if log != [] {
      var n := |log| - 1;
      MissedCountsTheForgotten(log[..n], now);
      assert forall i :: 0 <= i < n ==> log[..n][i] == log[i];
    }
  }

  /**
   * After any run, whatever the clock does: the window the limiter judges a line by holds every admitted
   * line it should exactly when no line still in the window was outlived when its account offered another.
   */
  lemma WindowIsTrueExactlyWhenNoneForgotten(events: seq<Event>, account: AccountId, now: real)
    ensures Recent(TimesOf(Run(events), account), now) == Recent(Sent(Log(events, account)), now) <==>
            NoneForgotten(Log(events, account), now)
  {
    KeptIsHeld(events, account);
    WindowLacksTheMissed(Log(events, account), now);
    MissedCountsTheForgotten(Log(events, account), now);
  }

  /** No line was ever offered while one in its window was forgotten. */
  ghost predicate NeverForgets(events: seq<Event>, account: AccountId) {
    events != [] ==>
      var before, last := events[..|events| - 1], events[|events| - 1];
      NeverForgets(before, account)
      && (last.Send? && last.account == account ==> NoneForgotten(Log(before, account), last.now))
  }

  /** What shares a window with `now` is in the window behind `now`, or ahead of it. */
  lemma {:induction false} SharedWindowIsRecent(times: seq<real>, from: real, now: real)
    requires from <= now < from + CHAT_WINDOW_MS
    ensures CountIn(times, from, CHAT_WINDOW_MS) <= |Recent(times, now)|
  {
    if times != [] {
      SharedWindowIsRecent(times[..|times| - 1], from, now);
    }
  }

  lemma {:induction false} NotingKeepsTimes(log: seq<Line>, now: real)
    ensures Sent(Noted(log, now)) == Sent(log)
  {
    if log != [] {
      var front, last := log[..|log| - 1], log[|log| - 1];
      NotingKeepsTimes(front, now);
      assert (Noted(front, now) + [Line(last.at, MaxR(last.peak, now))])[..|Noted(front, now)|] == Noted(front, now);
    }
  }

  lemma SentOfOneMore(log: seq<Line>, l: Line, from: real)
    ensures CountIn(Sent(log + [l]), from, CHAT_WINDOW_MS) ==
      CountIn(Sent(log), from, CHAT_WINDOW_MS) + (if from <= l.at < from + CHAT_WINDOW_MS then 1 else 0)
  {
    assert (log + [l])[..|log|] == log;
    assert (Sent(log) + [l.at])[..|Sent(log)|] == Sent(log);
  }

  /**
   * Where nothing was forgotten too soon, no window of that length, wherever it starts, ever holds more
   * than a burst of one connection's lines, however the clock moved.
   */
  lemma {:induction false} NoWindowHoldsMoreThanABurst(events: seq<Event>, account: AccountId, from: real)
    requires NeverForgets(events, account)
    ensures CountIn(Sent(Log(events, account)), from, CHAT_WINDOW_MS) <= CHAT_BURST
  {
    if events != [] {
      var before, last := events[..|events| - 1], events[|events| - 1];
      var log := Log(before, account);
      NoWindowHoldsMoreThanABurst(before, account, from);
      if last.account == account && last.Send? {
        NotingKeepsTimes(log, last.now);
        if Admits(TimesOf(Run(before), account), last.now) {
          WindowIsTrueExactlyWhenNoneForgotten(before, account, last.now);
          SentOfOneMore(Noted(log, last.now), Line(last.now, last.now), from);
          if from <= last.now < from + CHAT_WINDOW_MS {
            SharedWindowIsRecent(Sent(log), from, last.now);
          }
        } else {
          assert Noted(log, last.now) + [] == Noted(log, last.now);
        }
      }
    }
  }

  // ── A clock that never runs back ──────────────────────────────────────────────────

  /** The time of the last line offered by anyone, or a floor below them all. */
  function Clock(events: seq<Event>, floor: real): real {
    if events == [] then floor
    else
      var last := events[|events| - 1];
      if last.Send? then last.now else Clock(events[..|events| - 1], floor)
  }

  predicate ClockNeverRunsBack(events: seq<Event>, floor: real) {
    events != [] ==>
      var before, last := events[..|events| - 1], events[|events| - 1];
      ClockNeverRunsBack(before, floor) && (last.Send? ==> Clock(before, floor) <= last.now)
  }

  ghost predicate PeaksBy(log: seq<Line>, clock: real) {
    forall i :: 0 <= i < |log| ==> log[i].peak <= clock
  }

  lemma {:induction false} NotingPeaks(log: seq<Line>, clock: real, now: real)
    requires PeaksBy(log, clock) && clock <= now
    ensures PeaksBy(Noted(log, now), now)
  {
    if log != [] {
      NotingPeaks(log[..|log| - 1], clock, now);
    }
  }

  lemma {:induction false} PeaksAreBehindTheClock(events: seq<Event>, floor: real, account: AccountId)
    requires ClockNeverRunsBack(events, floor)
    ensures PeaksBy(Log(events, account), Clock(events, floor))
    ensures NeverForgets(events, account)
  {
    if events != [] {
      var before, last := events[..|events| - 1], events[|events| - 1];
      PeaksAreBehindTheClock(before, floor, account);
      if last.Send? {
        NotingPeaks(Log(before, account), Clock(before, floor), last.now);
      }
    }
  }

  /**
   * Under a clock that never runs back a line is admitted exactly when fewer than `CHAT_BURST` of those
   * admitted since the last detach fall in the window before it, although older send times were thrown
   * away; and no window ever holds more than a burst.
   */
  lemma BucketIsExact(events: seq<Event>, floor: real, account: AccountId, now: real, from: real)
    requires ClockNeverRunsBack(events, floor) && Clock(events, floor) <= now
    ensures Admits(TimesOf(Run(events), account), now) <==>
            |Recent(Sent(Log(events, account)), now)| < CHAT_BURST
    ensures CountIn(Sent(Log(events, account)), from, CHAT_WINDOW_MS) <= CHAT_BURST
  {
    PeaksAreBehindTheClock(events, floor, account);
    WindowIsTrueExactlyWhenNoneForgotten(events, account, now);
    NoWindowHoldsMoreThanABurst(events, account, from);
  }

  // ── A clock that does ─────────────────────────────────────────────────────────────

  function Copies(at: real, n: nat): (times: seq<real>)
    ensures |times| == n
  {
    if n == 0 then [] else Copies(at, n - 1) + [at]
  }

  lemma {:induction false} RecentOfCopies(at: real, n: nat, now: real)
    ensures Recent(Copies(at, n), now) == if now - at < CHAT_WINDOW_MS then Copies(at, n) else []
  {
    if n > 0 {
      RecentOfCopies(at, n - 1, now);
      RecentOfOneMore(Copies(at, n - 1), at, now);
    }
  }

  lemma OneSend(before: seq<Event>, account: AccountId, now: real)
    ensures var after, kept, log := before + [Send(account, now)], TimesOf(Run(before), account), Log(before, account);
      && TimesOf(Run(after), account) == Offered(kept, now)
      && Sent(Log(after, account)) == Sent(log) + (if Admits(kept, now) then [now] else [])
  {
    assert (before + [Send(account, now)])[..|before|] == before;
    var log := Noted(Log(before, account), now);
    NotingKeepsTimes(Log(before, account), now);
    assert (log + [Line(now, now)])[..|log|] == log;
    assert log + [] == log;
  }

  /** `n` lines offered at once. */
  function Sends(account: AccountId, at: real, n: nat): seq<Event> {
    if n == 0 then [] else Sends(account, at, n - 1) + [Send(account, at)]
  }

  lemma OneMoreOfABurst(before: seq<Event>, account: AccountId, at: real, n: nat)
    requires n < CHAT_BURST && TimesOf(Run(before), account) == Copies(at, n) == Sent(Log(before, account))
    ensures var after := before + [Send(account, at)];
      TimesOf(Run(after), account) == Copies(at, n + 1) == Sent(Log(after, account))
  {
    RecentOfCopies(at, n, at);
    OneSend(before, account, at);
  }

  lemma {:induction false} ABurstIsAdmitted(account: AccountId, at: real, n: nat)
    requires n <= CHAT_BURST
    ensures TimesOf(Run(Sends(account, at, n)), account) == Copies(at, n) == Sent(Log(Sends(account, at, n), account))
  {
    if n == 0 {
      assert Sends(account, at, 0) == [];
    } else {
      ABurstIsAdmitted(account, at, n - 1);
      OneMoreOfABurst(Sends(account, at, n - 1), account, at, n - 1);
      assert Sends(account, at, n) == Sends(account, at, n - 1) + [Send(account, at)];
    }
  }

  lemma NextWindowForgetsABurst(before: seq<Event>, account: AccountId, at: real, later: real)
    requires TimesOf(Run(before), account) == Copies(at, CHAT_BURST) == Sent(Log(before, account))
    requires later - at >= CHAT_WINDOW_MS
    ensures TimesOf(Run(before + [Send(account, later)]), account) == [later]
    ensures Sent(Log(before + [Send(account, later)], account)) == Copies(at, CHAT_BURST) + [later]
  {
    RecentOfCopies(at, CHAT_BURST, later);
    OneSend(before, account, later);
  }

  /**
   * A burst at once, and then a line when it has left the window: if the clock now runs back into that
   * window, the burst thrown away is missed and one line more than a burst gets through.
   */
  lemma ClockRunningBackLetsMoreThrough(account: AccountId, at: real, later: real, back: real)
    requires back - at < CHAT_WINDOW_MS <= later - at
    ensures var events := Sends(account, at, CHAT_BURST) + [Send(account, later)];
      && Admits(TimesOf(Run(events), account), back)
      && |Recent(Sent(Log(events, account)), back)| == CHAT_BURST + 1
  {
    ABurstIsAdmitted(account, at, CHAT_BURST);
    NextWindowForgetsABurst(Sends(account, at, CHAT_BURST), account, at, later);
    RecentOfOneMore(Copies(at, CHAT_BURST), later, back);
    RecentOfOneMore([], later, back);
    RecentOfCopies(at, CHAT_BURST, back);
  }
}
