/**
 * Delivering a team's chart to one player: the delta encoding and the chart log
 * (packages/shared/src/match/vision.ts), the watermark per account
 * (packages/server/src/match/runtime.ts), and the client that folds the frames in
 * (packages/client/src/state/match.ts, packages/client/src/render/picture.ts).
 *
 * The promise is that incremental delivery equals full transfer. It holds exactly as long as square 0
 * is not among those sent: the decoder reads a leading zero as the end of the list.
 */
module ChartDelivery {
  import opened StableSort
  import opened Options
  import opened Measures
  import opened MatchTypes
  import SonarChart

  type AccountId = int

  // ── The wire encoding ─────────────────────────────────────────────────────────────

  /** The first square absolute, the rest as gaps; `started` once something has been written. */
  function PackFrom(cells: seq<Cell>, previous: Cell, started: bool): seq<int> {
    if cells == [] then []
    else
      var gap := cells[0] - previous;
      if started && gap <= 0 then PackFrom(cells[1..], previous, started)
      else [gap] + PackFrom(cells[1..], cells[0], true)
  }

  function Pack(cells: seq<Cell>): seq<int> {
    PackFrom(cells, 0, false)
  }

  function UnpackFrom(packed: seq<int>, running: int): seq<int> {
    if packed == [] || packed[0] <= 0 then []
    else [running + packed[0]] + UnpackFrom(packed[1..], running + packed[0])
  }

  function Unpack(packed: seq<int>): seq<int> {
    UnpackFrom(packed, 0)
  }

  method PackCells(ascending: seq<Cell>) returns (out: seq<int>)
    ensures out == Pack(ascending)
  {
    out := [];
    var previous := 0;
    var i := 0;
    while i < |ascending|
      invariant 0 <= i <= |ascending|
      invariant out + PackFrom(ascending[i..], previous, |out| > 0) == Pack(ascending)
    {
      assert ascending[i..][1..] == ascending[i + 1..];
      var gap := ascending[i] as int - previous as int;
      if !(|out| > 0 && gap <= 0) {
        out := out + [gap];
        previous := ascending[i];
      }
      i := i + 1;
    }
  }

  method UnpackCells(packed: seq<int>) returns (out: seq<int>)
    ensures out == Unpack(packed)
  {
    out := [];
    var running := 0;
    var i := 0;
    while i < |packed|
      invariant 0 <= i <= |packed|
      invariant out + UnpackFrom(packed[i..], running) == Unpack(packed)
    {
      assert packed[i..][1..] == packed[i + 1..];
      if packed[i] <= 0 {
        return;
      }
      running := running + packed[i];
      out := out + [running];
      i := i + 1;
    }
  }

  predicate Ascending(cells: seq<Cell>) {
    forall i, j :: 0 <= i < j < |cells| ==> cells[i] <= cells[j]
  }

  /** Each square once: what remains of an ascending list without its repeats. */
  function Deduplicated(cells: seq<Cell>, previous: int): seq<int> {
    if cells == [] then []
    else if cells[0] <= previous then Deduplicated(cells[1..], previous)
    else [cells[0]] + Deduplicated(cells[1..], cells[0])
  }

  lemma {:induction false} GapsRoundTrip(cells: seq<Cell>, previous: Cell)
    requires Ascending(cells)
    ensures UnpackFrom(PackFrom(cells, previous, true), previous) == Deduplicated(cells, previous)
  {
    if cells != [] {
      GapsRoundTrip(cells[1..], if cells[0] <= previous then previous else cells[0]);
    }
  }

  /** Decoding an encoded ascending list gives its distinct squares back, unless it starts at square 0. */
  lemma PackRoundTrips(cells: seq<Cell>)
    requires Ascending(cells)
    ensures Unpack(Pack(cells)) == if cells != [] && cells[0] == 0 then [] else Deduplicated(cells, -1)
  {
    if cells != [] {
      GapsRoundTrip(cells[1..], cells[0]);
    }
  }

  lemma {:induction false} DeduplicatedMembers(cells: seq<Cell>, previous: int)
    requires Ascending(cells)
    ensures forall c :: c in Deduplicated(cells, previous) <==> c in cells && c > previous
  {
    if cells != [] {
      DeduplicatedMembers(cells[1..], if cells[0] <= previous then previous else cells[0]);
      assert cells == [cells[0]] + cells[1..];
      forall c | c in cells[1..] ensures cells[0] <= c {
        var i :| 0 <= i < |cells[1..]| && cells[1..][i] == c;
        assert cells[i + 1] == c;
      }
    }
  }

  /** A list that starts with square 0 comes out empty, whatever else is in it. */
  lemma NothingSurvivesSquareZero(cells: seq<Cell>)
    requires Ascending(cells) && 0 in cells
    ensures Unpack(Pack(cells)) == []
  {
    var i :| 0 <= i < |cells| && cells[i] == 0;
    PackRoundTrips(cells);
  }

  /** The failing input: three squares are encoded, the first of them square 0, and nothing comes out. */
  lemma SquareZeroIsLost()
    ensures Pack([0, 5, 9]) == [0, 5, 4] && Unpack(Pack([0, 5, 9])) == []
  {
    assert PackFrom([0, 5, 9][1..], 0, true) == [5] + PackFrom([5, 9][1..], 5, true);
    assert PackFrom([5, 9][1..], 5, true) == [4] + PackFrom([9][1..], 9, true);
  }

  // ── The chart log and its frames ──────────────────────────────────────────────────

  /** The squares after the first `from`, at most `limit` of them. */
  function Since(log: seq<Cell>, from: nat, limit: nat): seq<Cell> {
    var start := Min(from, |log|);
    log[start..Min(start + limit, |log|)]
  }

  /** A list without repeats and the set of its members; discovering a square adds it to both or to neither. */
  class TeamChart {
    var confirmed: set<Cell>
    var log: seq<Cell>

    ghost predicate Valid()
      reads this
    {
      SonarChart.NoRepeats(log) && (forall c :: c in confirmed <==> c in log)
    }

    constructor ()
      ensures Valid() && log == []
    {
      confirmed, log := {}, [];
    }

    method Add(cell: Cell) returns (isNew: bool)
      requires Valid()
      modifies this
      ensures Valid() && (isNew <==> cell !in old(log))
      ensures log == if isNew then old(log) + [cell] else old(log)
    {
      if cell in confirmed {
        return false;
      }
      confirmed := confirmed + {cell};
      log := log + [cell];
      return true;
    }
  }

  datatype Frame = Frame(charted: seq<int>, chartSeen: nat)

  predicate Less(x: Cell, y: Cell) {
    x < y
  }

  function FrameFor(log: seq<Cell>, seen: nat, limit: nat): Frame {
    var owed := Since(log, seen, limit);
    Frame(Pack(Sort(owed, Less)), Min(seen, |log|) + |owed|)
  }

  /** The part of the match runtime that frames a team's chart for each account. */
  class VisionRuntime {
    const limit: nat
    const chart1: TeamChart
    const chart2: TeamChart
    /** How much of its team's chart each account has been sent. */
    var chartSeen: map<AccountId, nat>

    constructor (limit: nat, chart1: TeamChart, chart2: TeamChart)
      ensures this.limit == limit && this.chart1 == chart1 && this.chart2 == chart2 && chartSeen == map[]
    {
      this.limit, this.chart1, this.chart2, chartSeen := limit, chart1, chart2, map[];
    }

    function ChartOf(team: Team): TeamChart {
      if team == Team1 then chart1 else chart2
    }

    function Seen(a: AccountId): nat
      reads this
    {
      if a in chartSeen then chartSeen[a] else 0
    }

    /**
     * The frame is cut from this account's watermark, which moves on by the frame's length; no other moves.
     * An account on no team gets none.
     */
    method VisionFor(a: AccountId, team: Option<Team>) returns (frame: Option<Frame>)
      modifies this
      ensures team.None? ==> frame.None? && chartSeen == old(chartSeen)
      ensures team.Some? ==> frame == Some(FrameFor(ChartOf(team.value).log, old(Seen(a)), limit))
      ensures team == Some(Team1) ==> frame == Some(FrameFor(chart1.log, old(Seen(a)), limit))
      ensures team == Some(Team2) ==> frame == Some(FrameFor(chart2.log, old(Seen(a)), limit))
      ensures team.Some? ==> chartSeen == old(chartSeen)[a := frame.value.chartSeen]
    {
      if team.None? {
        return None;
      }
      var cut := FrameFor(ChartOf(team.value).log, Seen(a), limit);
      chartSeen := chartSeen[a := cut.chartSeen];
      frame := Some(cut);
    }

    method Forget(a: AccountId)
      modifies this
      ensures chartSeen == old(chartSeen) - {a} && Seen(a) == 0
    {
      chartSeen := chartSeen - {a};
    }
  }

  /** What a frame carries: the owed slice, whole, or nothing at all when square 0 is in it. */
  lemma FrameCarries(log: seq<Cell>, seen: nat, limit: nat)
    requires seen <= |log|
    ensures var f := FrameFor(log, seen, limit);
      && seen <= f.chartSeen <= |log| && f.chartSeen == Min(seen + limit, |log|)
      && forall c :: c in Unpack(f.charted) <==> c in log[seen..f.chartSeen] && 0 !in log[seen..f.chartSeen]
  {
    var owed := Since(log, seen, limit);
    var sorted := Sort(owed, Less);
    SortSorts(owed, Less);
    SortKeepsMembers(owed, Less);
    assert Ascending(sorted);
    PackRoundTrips(sorted);
    DeduplicatedMembers(sorted, -1);
    assert 0 in sorted <==> sorted != [] && sorted[0] == 0;
  }

  // ── Delivery, over every run ──────────────────────────────────────────────────────

  /**
   * One player's side of a match: the team's log, the account's watermark and view sequence on the
   * server, and what the client holds.
   */
  datatype Delivery = Delivery(log: seq<Cell>, seen: nat, viewSeq: nat, charted: seq<Cell>, clientSeq: nat)

  const START := Delivery([], 0, 0, [], 0)

  /**
   * The team confirms a square; a frame is built, sent and applied in order; or the player is sent the
   * match afresh, in a new tab or in the one it has, which resets the watermark and starts a new picture.
   */
  datatype Event = Confirm(cell: Cell) | Publish | Resume(newTab: bool)

  function Received(charted: seq<Cell>, cells: seq<int>): seq<Cell>
    requires forall i :: 0 <= i < |cells| ==> cells[i] >= 0
  {
    SonarChart.Confirmed(charted, seq(|cells|, i requires 0 <= i < |cells| => cells[i] as nat))
  }

  lemma {:induction false} UnpackedPositive(packed: seq<int>, running: int)
    requires running >= 0
    ensures forall i :: 0 <= i < |UnpackFrom(packed, running)| ==> UnpackFrom(packed, running)[i] > 0
  {
    if packed != [] && packed[0] > 0 {
      UnpackedPositive(packed[1..], running + packed[0]);
    }
  }

  /** A frame is sent, and applied unless the client has had a later one. */
  function Applied(d: Delivery, frame: Frame): Delivery {
    var viewSeq := d.viewSeq + 1;
    UnpackedPositive(frame.charted, 0);
    if d.clientSeq >= viewSeq then d.(seen := frame.chartSeen, viewSeq := viewSeq)
    else d.(seen := frame.chartSeen, viewSeq := viewSeq, clientSeq := viewSeq,
            charted := Received(d.charted, Unpack(frame.charted)))
  }

  function PublishStep(d: Delivery, limit: nat): Delivery {
    Applied(d, FrameFor(d.log, d.seen, limit))
  }

  /** A fresh picture and a forgotten watermark; only a new tab forgets the frames it has applied. */
  function Restarted(d: Delivery, newTab: bool): Delivery {
    d.(seen := 0, charted := [], clientSeq := if newTab then 0 else d.clientSeq)
  }

  function Step(d: Delivery, e: Event, limit: nat): Delivery {
    match e
    case Confirm(cell) => if cell in d.log then d else d.(log := d.log + [cell])
    case Publish => PublishStep(d, limit)
    case Resume(newTab) =>
      PublishStep(Restarted(d, newTab), limit)
  }

  function Play(d: Delivery, events: seq<Event>, limit: nat): Delivery
    decreases |events|
  {
    if events == [] then d else Play(Step(d, events[0], limit), events[1..], limit)
  }

  ghost predicate SameSquares(xs: seq<Cell>, ys: seq<Cell>) {
    forall c :: c in xs <==> c in ys
  }

  ghost predicate Delivered(d: Delivery) {
    && SonarChart.NoRepeats(d.log) && d.seen <= |d.log| && d.clientSeq <= d.viewSeq
    && 0 !in d.charted
    && (0 !in d.log[..d.seen] ==> SameSquares(d.charted, d.log[..d.seen]))
  }

  lemma PublishDelivers(d: Delivery, limit: nat)
    requires Delivered(d)
    ensures Delivered(PublishStep(d, limit))
  {
    var frame := FrameFor(d.log, d.seen, limit);
    FrameCarries(d.log, d.seen, limit);
    UnpackedPositive(frame.charted, 0);
    var cells := Unpack(frame.charted);
    var received := seq(|cells|, i requires 0 <= i < |cells| => cells[i] as nat);
    SonarChart.ConfirmedMembers(d.charted, received);
    assert d.log[..frame.chartSeen] == d.log[..d.seen] + d.log[d.seen..frame.chartSeen];
    forall c: Cell ensures c in received <==> c in cells {
      if c in cells {
        var i :| 0 <= i < |cells| && cells[i] == c;
        assert received[i] == c;
      }
    }
  }

  lemma StepDelivers(d: Delivery, e: Event, limit: nat)
    requires Delivered(d)
    ensures Delivered(Step(d, e, limit))
  {
    match e
    case Confirm(cell) =>
      assert (d.log + [cell])[..d.seen] == d.log[..d.seen];
    case Publish => PublishDelivers(d, limit);
    case Resume(newTab) =>
      var restarted := d.(seen := 0, charted := [], clientSeq := if newTab then 0 else d.clientSeq);
      assert d.log[..0] == [];
      PublishDelivers(restarted, limit);
  }

  lemma {:induction false} PlayDelivers(d: Delivery, events: seq<Event>, limit: nat)
    requires Delivered(d)
    ensures Delivered(Play(d, events, limit))
    decreases |events|
  {
    if events != [] {
      StepDelivers(d, events[0], limit);
      PlayDelivers(Step(d, events[0], limit), events[1..], limit);
    }
  }

  /**
   * At every moment of every run, the client's chart is the prefix of its team's chart up to its
   * watermark exactly when square 0 is not in that prefix.
   */
  lemma ClientHoldsThePrefix(events: seq<Event>, limit: nat)
    ensures var d := Play(START, events, limit);
      d.seen <= |d.log| && (SameSquares(d.charted, d.log[..d.seen]) <==> 0 !in d.log[..d.seen])
  {
    assert Delivered(START);
    PlayDelivers(START, events, limit);
  }

  /** No frame repeats a square the watermark says was sent. */
  lemma FrameIsNew(events: seq<Event>, limit: nat, c: Cell)
    ensures var d := Play(START, events, limit);
      c in Unpack(FrameFor(d.log, d.seen, limit).charted) ==> c !in d.log[..d.seen]
  {
    assert Delivered(START);
    PlayDelivers(START, events, limit);
    var d := Play(START, events, limit);
    FrameCarries(d.log, d.seen, limit);
  }

  /** The squares in the frame an event sends, if it sends one. */
  function Carried(d: Delivery, e: Event, limit: nat): seq<int> {
    match e
    case Confirm(_) => []
    case Publish => Unpack(FrameFor(d.log, d.seen, limit).charted)
    case Resume(_) => Unpack(FrameFor(d.log, 0, limit).charted)
  }

  /** The squares sent by event `i` of a run. */
  function Sent(events: seq<Event>, i: int, limit: nat): seq<int>
    requires 0 <= i < |events|
  {
    Carried(Play(START, events[..i], limit), events[i], limit)
  }

  /** Whatever a frame carries is then below the watermark. */
  lemma CarriedIsBelow(d: Delivery, e: Event, limit: nat, c: Cell)
    requires Delivered(d) && c in Carried(d, e, limit)
    ensures var d' := Step(d, e, limit); d'.seen <= |d'.log| && c in d'.log[..d'.seen]
  {
    var from := if e.Publish? then d.seen else 0;
    FrameCarries(d.log, from, limit);
    var upTo := FrameFor(d.log, from, limit).chartSeen;
    assert d.log[from..upTo] == d.log[..upTo][from..];
  }

  /** Until a resume the log and the watermark only grow. */
  lemma {:induction false} PlayGrows(d: Delivery, events: seq<Event>, limit: nat)
    requires Delivered(d) && forall k :: 0 <= k < |events| ==> !events[k].Resume?
    ensures var d' := Play(d, events, limit); Delivered(d') && d.seen <= d'.seen && d.log <= d'.log
    decreases |events|
  {
    if events != [] {
      var next := Step(d, events[0], limit);
      StepDelivers(d, events[0], limit);
      FrameCarries(d.log, d.seen, limit);
      PlayGrows(next, events[1..], limit);
      assert d.log <= next.log;
    }
  }

  lemma {:induction false} PlaySplits(d: Delivery, xs: seq<Event>, e: Event, ys: seq<Event>, limit: nat)
    ensures Play(d, xs + [e] + ys, limit) == Play(Step(Play(d, xs, limit), e, limit), ys, limit)
    decreases |xs|
  {
    if xs == [] {
      assert ([] + [e] + ys)[0] == e && ([] + [e] + ys)[1..] == ys;
      assert xs + [e] + ys == [e] + ys;
    } else {
      assert (xs + [e] + ys)[0] == xs[0] && (xs + [e] + ys)[1..] == xs[1..] + [e] + ys;
      PlaySplits(Step(d, xs[0], limit), xs[1..], e, ys, limit);
    }
  }

  /** From after event `i` to before event `j` nothing is resumed, so what was sent stays below the watermark. */
  lemma SentStaysBelow(events: seq<Event>, i: int, j: int, limit: nat, c: Cell)
    requires 0 <= i < j < |events| && c in Sent(events, i, limit)
    requires forall k :: i < k < j ==> !events[k].Resume?
    ensures var d := Play(START, events[..j], limit); Delivered(d) && c in d.log[..d.seen]
  {
    var d := Play(START, events[..i], limit);
    assert Delivered(START);
    PlayDelivers(START, events[..i], limit);
    StepDelivers(d, events[i], limit);
    CarriedIsBelow(d, events[i], limit, c);
    SeenStaysBelow(Step(d, events[i], limit), events[i + 1..j], limit, c);
    PlaySplits(START, events[..i], events[i], events[i + 1..j], limit);
    assert events[..j] == events[..i] + [events[i]] + events[i + 1..j];
  }

  lemma SeenStaysBelow(d: Delivery, events: seq<Event>, limit: nat, c: Cell)
    requires Delivered(d) && c in d.log[..d.seen]
    requires forall k :: 0 <= k < |events| ==> !events[k].Resume?
    ensures var d' := Play(d, events, limit); Delivered(d') && c in d'.log[..d'.seen]
  {
    PlayGrows(d, events, limit);
    var d' := Play(d, events, limit);
    assert d.log[..d.seen] <= d'.log[..d'.seen];
  }

  lemma NextFrameIsNew(d: Delivery, limit: nat, c: Cell)
    requires Delivered(d) && c in d.log[..d.seen]
    ensures c !in Carried(d, Publish, limit)
  {
    FrameCarries(d.log, d.seen, limit);
  }

  /** Two frames of one run have no square in common, unless the player was sent the match afresh in between. */
  lemma NothingIsSentTwice(events: seq<Event>, i: int, j: int, limit: nat, c: Cell)
    requires 0 <= i < j < |events|
    requires forall k :: i < k <= j ==> !events[k].Resume?
    ensures c !in Sent(events, i, limit) || c !in Sent(events, j, limit)
  {
    if c in Sent(events, i, limit) && events[j].Publish? {
      SentStaysBelow(events, i, j, limit, c);
      NextFrameIsNew(Play(START, events[..j], limit), limit, c);
    }
  }

  function Publishes(n: nat): seq<Event> {
    if n == 0 then [] else [Publish] + Publishes(n - 1)
  }

  /** How many squares `n` frames have room for. */
  function Room(n: nat, limit: nat): nat {
    if n == 0 then 0 else limit + Room(n - 1, limit)
  }

  lemma PublishAdvances(d: Delivery, limit: nat)
    requires Delivered(d)
    ensures var d' := PublishStep(d, limit);
      Delivered(d') && d'.log == d.log && d'.seen == Min(d.seen + limit, |d.log|)
  {
    PublishDelivers(d, limit);
    FrameCarries(d.log, d.seen, limit);
  }

  lemma {:induction false} PublishesCatchUp(d: Delivery, n: nat, limit: nat)
    requires Delivered(d)
    ensures Play(d, Publishes(n), limit).log == d.log
    ensures Play(d, Publishes(n), limit).seen == Min(d.seen + Room(n, limit), |d.log|)
    decreases n
  {
    if n > 0 {
      PublishAdvances(d, limit);
      PublishesCatchUp(PublishStep(d, limit), n - 1, limit);
    }
  }

  /** A player sent the match afresh has the whole chart again once enough frames have gone by. */
  lemma ResumeRebuildsTheChart(events: seq<Event>, newTab: bool, n: nat, limit: nat)
    requires 0 !in Play(START, events, limit).log
    requires |Play(START, events, limit).log| <= Room(n + 1, limit)
    ensures var d := Play(START, events, limit);
      SameSquares(Play(Step(d, Resume(newTab), limit), Publishes(n), limit).charted, d.log)
  {
    assert Delivered(START);
    PlayDelivers(START, events, limit);
    RestartRebuilds(Play(START, events, limit), newTab, n, limit);
  }

  lemma RestartRebuilds(d: Delivery, newTab: bool, n: nat, limit: nat)
    requires Delivered(d) && 0 !in d.log && |d.log| <= Room(n + 1, limit)
    ensures SameSquares(Play(Step(d, Resume(newTab), limit), Publishes(n), limit).charted, d.log)
  {
    var first := PublishStep(Restarted(d, newTab), limit);
    RestartDelivers(d, newTab, limit);
    PublishesCatchUp(first, n, limit);
    PlayDelivers(first, Publishes(n), limit);
  }

  lemma RestartDelivers(d: Delivery, newTab: bool, limit: nat)
    requires Delivered(d)
    ensures var first := PublishStep(Restarted(d, newTab), limit);
      Delivered(first) && first.log == d.log && first.seen == Min(limit, |d.log|)
  {
    assert d.log[..0] == [];
    PublishAdvances(Restarted(d, newTab), limit);
  }
}
