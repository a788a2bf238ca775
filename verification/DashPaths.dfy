/**
 * Cutting a weapon's track into dashes (`dashPath` and the stretch in `drawTrails`,
 * packages/client/src/render/trails.ts). A track is given by the lengths of its segments, and a stroke by
 * how far along its segment it starts and stops.
 */
module DashPaths {
  import opened Measures

  const EPSILON := 0.000001
  const MAX_DASHES := 400

  /** One step of the walk: a stretch of one segment, in one run. Run 0 is ink, run 1 a gap, and so on. */
  datatype Piece = Piece(segment: nat, from: real, to: real, run: nat)

  datatype Stroke = Stroke(segment: nat, from: real, to: real)

  predicate Inked(run: nat) {
    run == 0 || !Inked(run - 1)
  }

  function Nominal(run: nat, on: real, off: real): real {
    if Inked(run) then on else off
  }

  function Span(p: Piece): real {
    p.to - p.from
  }

  function RunLength(pieces: seq<Piece>, run: nat): real {
    if pieces == [] then 0.0
    else
      var last := pieces[|pieces| - 1];
      RunLength(pieces[..|pieces| - 1], run) + (if last.run == run then Span(last) else 0.0)
  }

  /** How far along a segment the pieces reach. */
  function Reached(pieces: seq<Piece>, segment: nat): real {
    if pieces == [] then 0.0
    else
      var last := pieces[|pieces| - 1];
      if last.segment == segment then last.to else Reached(pieces[..|pieces| - 1], segment)
  }

  predicate OnTrack(pieces: seq<Piece>, lengths: seq<real>) {
    forall k :: 0 <= k < |pieces| ==>
      pieces[k].segment < |lengths| && 0.0 <= pieces[k].from < pieces[k].to <= lengths[pieces[k].segment]
  }

  /** Each piece starts where the last on its segment stopped, and no segment is returned to. */
  predicate InOrder(pieces: seq<Piece>) {
    pieces != [] ==>
      var front, last := pieces[..|pieces| - 1], pieces[|pieces| - 1];
      && InOrder(front)
      && last.from == Reached(front, last.segment)
      && (front != [] ==> front[|front| - 1].segment <= last.segment)
  }

  /** The pieces tile the track: in order, abutting, disjoint, and short of no segment's end by more than a hair. */
  ghost predicate Tiles(pieces: seq<Piece>, lengths: seq<real>) {
    && OnTrack(pieces, lengths) && InOrder(pieces)
    && (forall s {:trigger Reached(pieces, s)} :: 0 <= s < |lengths| ==> lengths[s] - Reached(pieces, s) <= EPSILON)
  }

  /** Runs come one after another from the first. */
  predicate RunsFollow(pieces: seq<Piece>) {
    pieces != [] ==>
      var front, last := pieces[..|pieces| - 1], pieces[|pieces| - 1];
      && RunsFollow(front)
      && (if front == [] then last.run == 0 else front[|front| - 1].run <= last.run <= front[|front| - 1].run + 1)
  }

  ghost predicate RunsFull(pieces: seq<Piece>, run: nat, on: real, off: real) {
    forall r :: 0 <= r < run ==> Nominal(r, on, off) - EPSILON <= RunLength(pieces, r) <= Nominal(r, on, off)
  }

  function LastRun(pieces: seq<Piece>): nat {
    if pieces == [] then 0 else pieces[|pieces| - 1].run
  }

  /**
   * Ink and gap alternate along the whole track, vertices or not: every run but the last is its nominal
   * length to within a hair, and the last no longer than that.
   */
  ghost predicate Alternates(pieces: seq<Piece>, on: real, off: real) {
    && RunsFollow(pieces)
    && RunsFull(pieces, LastRun(pieces), on, off)
    && RunLength(pieces, LastRun(pieces)) <= Nominal(LastRun(pieces), on, off)
  }

  /** The strokes queued: the inked pieces. */
  function StrokesOf(pieces: seq<Piece>): seq<Stroke> {
    if pieces == [] then []
    else
      var last := pieces[|pieces| - 1];
      StrokesOf(pieces[..|pieces| - 1]) + (if Inked(last.run) then [Stroke(last.segment, last.from, last.to)] else [])
  }

  // ── The walk as a function ────────────────────────────────────────────────────────

  /** The pieces so far, the run the pen is in, and how much of it is left. */
  datatype Pen = Pen(pieces: seq<Piece>, run: nat, left: real)

  /** Something of the run is left: more than a hair, or all of it. */
  predicate Ready(pen: Pen, on: real, off: real) {
    on > 0.0 && off > 0.0 && pen.left > 0.0 && (pen.left > EPSILON || pen.left == Nominal(pen.run, on, off))
  }

  function Stepped(pen: Pen, i: nat, walked: real, step: real, on: real, off: real): Pen {
    var pieces := pen.pieces + [Piece(i, walked, walked + step, pen.run)];
    if pen.left - step <= EPSILON then Pen(pieces, pen.run + 1, Nominal(pen.run + 1, on, off))
    else Pen(pieces, pen.run, pen.left - step)
  }

  function LeastStep(on: real, off: real): real {
    MinR(EPSILON, MinR(on, off))
  }

  lemma NothingTimes(x: real, y: real)
    requires y > 0.0 && x * y == 0.0
    ensures x == 0.0
  {
  }

  /** One less of the least steps fits in a distance one of them shorter. */
  lemma QuotientDrops(distance: real, least: real)
    requires least > 0.0 && distance > 0.0
    ensures (distance - least) / least == distance / least - 1.0 && distance / least >= 0.0
  {
    var q, r := distance / least, (distance - least) / least;
    assert q * least == distance && r * least == distance - least;
    NothingTimes(q - r - 1.0, least);
  }

  /** How many steps of the least possible length it takes to cover a distance: what bounds the walk. */
  function Steps(distance: real, least: real): nat
    requires least > 0.0
    decreases distance / least
  {
    if distance <= 0.0 then 0
    else
      QuotientDrops(distance, least);
      1 + Steps(distance - least, least)
  }

  lemma {:induction false} StepsGrow(shorter: real, longer: real, least: real)
    requires least > 0.0 && shorter <= longer
    ensures Steps(shorter, least) <= Steps(longer, least)
    decreases Steps(shorter, least)
  {
    if shorter > 0.0 {
      StepsGrow(shorter - least, longer - least, least);
    }
  }

  /** A step is at least one step's worth of progress. */
  lemma StepCounts(distance: real, step: real, on: real, off: real)
    requires on > 0.0 && off > 0.0 && LeastStep(on, off) <= step <= distance
    ensures Steps(distance - step, LeastStep(on, off)) < Steps(distance, LeastStep(on, off))
  {
    var least := LeastStep(on, off);
    StepsGrow(distance - step, distance - least, least);
    assert Steps(distance, least) == 1 + Steps(distance - least, least);
  }

  /** Walk what is left of segment `i`. */
  function CutSegment(pen: Pen, i: nat, length: real, walked: real, on: real, off: real): (pen': Pen)
    requires Ready(pen, on, off) && 0.0 <= walked
    ensures Ready(pen', on, off)
    decreases Steps(length - walked, LeastStep(on, off))
  {
    if length - walked <= EPSILON then pen
    else
      var step := MinR(pen.left, length - walked);
      StepCounts(length - walked, step, on, off);
      CutSegment(Stepped(pen, i, walked, step, on, off), i, length, walked + step, on, off)
  }

  lemma SegmentUnrolls(pen: Pen, i: nat, length: real, walked: real, on: real, off: real)
    requires Ready(pen, on, off) && 0.0 <= walked && length - walked > EPSILON
    ensures var step := MinR(pen.left, length - walked);
      var pen' := Stepped(pen, i, walked, step, on, off);
      && 0.0 < step <= pen.left && walked + step <= length && Ready(pen', on, off)
      && CutSegment(pen, i, length, walked, on, off) == CutSegment(pen', i, length, walked + step, on, off)
      && Steps(length - (walked + step), LeastStep(on, off)) < Steps(length - walked, LeastStep(on, off))
  {
    StepCounts(length - walked, MinR(pen.left, length - walked), on, off);
  }

  function CutTrack(lengths: seq<real>, on: real, off: real): (pen: Pen)
    requires on > 0.0 && off > 0.0
    ensures Ready(pen, on, off)
  {
    if lengths == [] then Pen([], 0, on)
    else
      var n := |lengths| - 1;
      CutSegment(CutTrack(lengths[..n], on, off), n, lengths[n], 0.0, on, off)
  }

  // ── What every step keeps ─────────────────────────────────────────────────────────

  /** Between steps, of where the walk has been: `walked` of segment `i` is behind the pen. */
  ghost predicate Tiling(pieces: seq<Piece>, lengths: seq<real>, i: nat, walked: real) {
    && OnTrack(pieces, lengths) && InOrder(pieces)
    && (pieces != [] ==> pieces[|pieces| - 1].segment <= i)
    && Reached(pieces, i) == walked
    && (forall s {:trigger Reached(pieces, s)} :: i < s ==> Reached(pieces, s) == 0.0)
    && (forall s {:trigger Reached(pieces, s)} :: 0 <= s < i && s < |lengths| ==> lengths[s] - Reached(pieces, s) <= EPSILON)
  }

  /** Between steps, of the dash state. */
  ghost predicate Running(pen: Pen, on: real, off: real) {
    && Ready(pen, on, off) && RunsFollow(pen.pieces)
    && (pen.pieces == [] ==> pen.run == 0)
    && (pen.pieces != [] ==> LastRun(pen.pieces) <= pen.run <= LastRun(pen.pieces) + 1)
    && RunsFull(pen.pieces, pen.run, on, off)
    && RunLength(pen.pieces, pen.run) == Nominal(pen.run, on, off) - pen.left
  }

  lemma OneMore(pieces: seq<Piece>, p: Piece)
    ensures forall r :: RunLength(pieces + [p], r) == RunLength(pieces, r) + (if p.run == r then Span(p) else 0.0)
    ensures forall s :: Reached(pieces + [p], s) == if p.segment == s then p.to else Reached(pieces, s)
  {
    assert (pieces + [p])[..|pieces|] == pieces;
  }

  lemma {:induction false} NoRunBeyond(pieces: seq<Piece>, run: nat)
    requires forall k :: 0 <= k < |pieces| ==> pieces[k].run != run
    ensures RunLength(pieces, run) == 0.0
  {
    if pieces != [] {
      NoRunBeyond(pieces[..|pieces| - 1], run);
    }
  }

  lemma {:induction false} RunsRise(pieces: seq<Piece>, k: nat)
    requires RunsFollow(pieces) && k < |pieces|
    ensures pieces[k].run <= LastRun(pieces)
  {
    if k < |pieces| - 1 {
      RunsRise(pieces[..|pieces| - 1], k);
    }
  }

  lemma StepTiles(pieces: seq<Piece>, lengths: seq<real>, i: nat, walked: real, step: real, run: nat)
    requires Tiling(pieces, lengths, i, walked)
    requires i < |lengths| && 0.0 <= walked && 0.0 < step && walked + step <= lengths[i]
    ensures Tiling(pieces + [Piece(i, walked, walked + step, run)], lengths, i, walked + step)
  {
    var p := Piece(i, walked, walked + step, run);
    assert (pieces + [p])[..|pieces|] == pieces;
    OneMore(pieces, p);
  }

  lemma StepKeepsRuns(pieces: seq<Piece>, p: Piece, left: real, on: real, off: real)
    requires RunsFollow(pieces) && (pieces == [] ==> p.run == 0)
    requires pieces != [] ==> LastRun(pieces) <= p.run <= LastRun(pieces) + 1
    requires RunsFull(pieces, p.run, on, off)
    requires RunLength(pieces, p.run) == Nominal(p.run, on, off) - left && 0.0 < Span(p) <= left
    ensures RunsFollow(pieces + [p]) && RunsFull(pieces + [p], p.run, on, off)
    ensures RunLength(pieces + [p], p.run) == Nominal(p.run, on, off) - (left - Span(p))
    ensures left - Span(p) <= EPSILON ==>
      RunsFull(pieces + [p], p.run + 1, on, off) && RunLength(pieces + [p], p.run + 1) == 0.0
  {
    var pieces' := pieces + [p];
    OneMore(pieces, p);
    forall k | 0 <= k < |pieces'| ensures pieces'[k].run <= p.run {
      if k < |pieces| {
        RunsRise(pieces, k);
      }
    }
    NoRunBeyond(pieces', p.run + 1);
  }

  lemma StepRuns(pen: Pen, i: nat, walked: real, step: real, on: real, off: real)
    requires Running(pen, on, off) && 0.0 < step <= pen.left
    ensures Running(Stepped(pen, i, walked, step, on, off), on, off)
  {
    StepKeepsRuns(pen.pieces, Piece(i, walked, walked + step, pen.run), pen.left, on, off);
  }

  /** `inv` holds of a pen that has walked this far, and every step on this segment keeps it. */
  ghost predicate Kept(inv: (Pen, real) -> bool, i: nat, length: real, on: real, off: real) {
    forall pen, walked, step {:trigger inv(pen, walked), Stepped(pen, i, walked, step, on, off)} ::
      inv(pen, walked) && Ready(pen, on, off) && 0.0 <= walked && 0.0 < step <= pen.left && walked + step <= length ==>
      inv(Stepped(pen, i, walked, step, on, off), walked + step)
  }

  /** Then it holds where the segment is walked out. */
  lemma {:induction false} SegmentKeeps(inv: (Pen, real) -> bool, pen: Pen, i: nat, length: real, walked: real,
                                        on: real, off: real)
    returns (end: real)
    requires Kept(inv, i, length, on, off)
    requires Ready(pen, on, off) && 0.0 <= walked && inv(pen, walked)
    ensures inv(CutSegment(pen, i, length, walked, on, off), end) && length - end <= EPSILON
    decreases Steps(length - walked, LeastStep(on, off))
  {
    if length - walked > EPSILON {
      var step := MinR(pen.left, length - walked);
      SegmentUnrolls(pen, i, length, walked, on, off);
      assert inv(Stepped(pen, i, walked, step, on, off), walked + step);
      end := SegmentKeeps(inv, Stepped(pen, i, walked, step, on, off), i, length, walked + step, on, off);
    } else {
      end := walked;
    }
  }

  lemma SegmentTiles(pen: Pen, lengths: seq<real>, i: nat, on: real, off: real)
    requires Ready(pen, on, off) && Tiling(pen.pieces, lengths, i, 0.0) && i < |lengths|
    ensures Tiling(CutSegment(pen, i, lengths[i], 0.0, on, off).pieces, lengths, i + 1, 0.0)
  {
    var inv := (pen: Pen, walked: real) => Tiling(pen.pieces, lengths, i, walked);
    forall pen, walked, step | inv(pen, walked) && 0.0 <= walked && 0.0 < step && walked + step <= lengths[i]
      ensures inv(Stepped(pen, i, walked, step, on, off), walked + step)
    {
      StepTiles(pen.pieces, lengths, i, walked, step, pen.run);
    }
    var end := SegmentKeeps(inv, pen, i, lengths[i], 0.0, on, off);
    NextSegmentIsUntouched(CutSegment(pen, i, lengths[i], 0.0, on, off).pieces, lengths, i, end);
  }

  lemma NextSegmentIsUntouched(pieces: seq<Piece>, lengths: seq<real>, i: nat, end: real)
    requires Tiling(pieces, lengths, i, end) && i < |lengths| && lengths[i] - end <= EPSILON
    ensures Tiling(pieces, lengths, i + 1, 0.0)
  {
  }

  lemma SegmentRuns(pen: Pen, i: nat, length: real, on: real, off: real)
    requires Running(pen, on, off)
    ensures Running(CutSegment(pen, i, length, 0.0, on, off), on, off)
  {
    var inv := (pen: Pen, walked: real) => Running(pen, on, off);
    forall pen, walked, step | inv(pen, walked) && 0.0 < step <= pen.left
      ensures inv(Stepped(pen, i, walked, step, on, off), walked + step)
    {
      StepRuns(pen, i, walked, step, on, off);
    }
    var end := SegmentKeeps(inv, pen, i, length, 0.0, on, off);
  }

  lemma {:induction false} TrackTiles(lengths: seq<real>, n: nat, on: real, off: real)
    requires on > 0.0 && off > 0.0 && n <= |lengths|
    ensures Tiling(CutTrack(lengths[..n], on, off).pieces, lengths, n, 0.0)
  {
    if n > 0 {
      TrackTiles(lengths, n - 1, on, off);
      assert lengths[..n][..n - 1] == lengths[..n - 1];
      SegmentTiles(CutTrack(lengths[..n - 1], on, off), lengths, n - 1, on, off);
    }
  }

  lemma {:induction false} TrackRuns(lengths: seq<real>, on: real, off: real)
    requires on > 0.0 && off > 0.0
    ensures Running(CutTrack(lengths, on, off), on, off)
  {
    if lengths != [] {
      var n := |lengths| - 1;
      TrackRuns(lengths[..n], on, off);
      SegmentRuns(CutTrack(lengths[..n], on, off), n, lengths[n], on, off);
    }
  }

  /** However long the track and whatever the dash and gap, the walk tiles it and ink and gap alternate along it. */
  lemma WalkTilesAndAlternates(lengths: seq<real>, on: real, off: real)
    requires on > 0.0 && off > 0.0
    ensures Tiles(CutTrack(lengths, on, off).pieces, lengths)
    ensures Alternates(CutTrack(lengths, on, off).pieces, on, off)
  {
    TrackTiles(lengths, |lengths|, on, off);
    TrackRuns(lengths, on, off);
    assert lengths[..|lengths|] == lengths;
  }

  // ── The walk as the client runs it ────────────────────────────────────────────────

  /** What one step adds to the strokes and to the dash state. */
  lemma StepDraws(pen: Pen, i: nat, walked: real, step: real, on: real, off: real)
    ensures var pen' := Stepped(pen, i, walked, step, on, off);
      && StrokesOf(pen'.pieces) == StrokesOf(pen.pieces) + (if Inked(pen.run) then [Stroke(i, walked, walked + step)] else [])
      && Inked(pen'.run) == (if pen.left - step <= EPSILON then !Inked(pen.run) else Inked(pen.run))
      && pen'.left == if pen.left - step <= EPSILON then (if Inked(pen'.run) then on else off) else pen.left - step
  {
    var p := Piece(i, walked, walked + step, pen.run);
    assert (pen.pieces + [p])[..|pen.pieces|] == pen.pieces;
  }

  /** The walk as the client runs it. */
  method DashPath(lengths: seq<real>, on: real, off: real) returns (queued: bool, strokes: seq<Stroke>)
    ensures on <= 0.0 || off <= 0.0 ==> strokes == []
    ensures on > 0.0 && off > 0.0 ==> strokes == StrokesOf(CutTrack(lengths, on, off).pieces)
    ensures queued == (strokes != [])
  {
    if on <= 0.0 || off <= 0.0 {
      return false, [];
    }
    var inking, left := true, on;
    queued, strokes := false, [];
    ghost var pen := Pen([], 0, on);
    var i := 0;
    while i < |lengths|
      invariant 0 <= i <= |lengths|
      invariant pen == CutTrack(lengths[..i], on, off)
      invariant inking == Inked(pen.run) && left == pen.left
      invariant strokes == StrokesOf(pen.pieces) && queued == (strokes != [])
    {
      assert lengths[..i + 1][..i] == lengths[..i];
      var length := lengths[i];
      if length > 0.0 {
        var walked := 0.0;
        while length - walked > EPSILON
          invariant 0.0 <= walked <= length && Ready(pen, on, off)
          invariant CutSegment(pen, i, length, walked, on, off) == CutTrack(lengths[..i + 1], on, off)
          invariant inking == Inked(pen.run) && left == pen.left
          invariant strokes == StrokesOf(pen.pieces) && queued == (strokes != [])
          decreases Steps(length - walked, LeastStep(on, off))
        {
          var step := MinR(left, length - walked);
          SegmentUnrolls(pen, i, length, walked, on, off);
          StepDraws(pen, i, walked, step, on, off);
          if inking {
            strokes := strokes + [Stroke(i, walked, walked + step)];
            queued := true;
          }
          pen := Stepped(pen, i, walked, step, on, off);
          walked := walked + step;
          left := left - step;
          if left <= EPSILON {
            inking := !inking;
            left := if inking then on else off;
          }
        }
      }
      i := i + 1;
    }
    assert lengths[..i] == lengths;
  }

  // ── How many dashes a track is cut into ───────────────────────────────────────────

  function Total(lengths: seq<real>): real {
    if lengths == [] then 0.0 else Total(lengths[..|lengths| - 1]) + lengths[|lengths| - 1]
  }

  /** The sum of the lengths of the first `runs` runs. */
  function RunTotal(pieces: seq<Piece>, runs: nat): real {
    if runs == 0 then 0.0 else RunTotal(pieces, runs - 1) + RunLength(pieces, runs - 1)
  }

  function ReachTotal(pieces: seq<Piece>, segments: nat): real {
    if segments == 0 then 0.0 else ReachTotal(pieces, segments - 1) + Reached(pieces, segments - 1)
  }

  lemma {:induction false} RunTotalGrows(pieces: seq<Piece>, p: Piece, runs: nat)
    ensures RunTotal(pieces + [p], runs) == RunTotal(pieces, runs) + (if p.run < runs then Span(p) else 0.0)
  {
    OneMore(pieces, p);
    if runs > 0 {
      RunTotalGrows(pieces, p, runs - 1);
    }
  }

  lemma {:induction false} ReachTotalGrows(pieces: seq<Piece>, p: Piece, segments: nat)
    requires p.from == Reached(pieces, p.segment)
    ensures ReachTotal(pieces + [p], segments) ==
      ReachTotal(pieces, segments) + (if p.segment < segments then Span(p) else 0.0)
  {
    OneMore(pieces, p);
    if segments > 0 {
      ReachTotalGrows(pieces, p, segments - 1);
    }
  }

  lemma {:induction false} RunTotalOfNone(runs: nat)
    ensures RunTotal([], runs) == 0.0 && ReachTotal([], runs) == 0.0
  {
    if runs > 0 {
      RunTotalOfNone(runs - 1);
    }
  }

  /** Counting the walk by runs or by segments, it comes to no more by runs. */
  lemma {:induction false} RunsFitTheTrack(pieces: seq<Piece>, lengths: seq<real>, runs: nat)
    requires OnTrack(pieces, lengths) && InOrder(pieces)
    ensures RunTotal(pieces, runs) <= ReachTotal(pieces, |lengths|)
  {
    if pieces == [] {
      RunTotalOfNone(runs);
      RunTotalOfNone(|lengths|);
    } else {
      var n := |pieces| - 1;
      var front, p := pieces[..n], pieces[n];
      assert pieces == front + [p];
      RunsFitTheTrack(front, lengths, runs);
      RunTotalGrows(front, p, runs);
      ReachTotalGrows(front, p, |lengths|);
    }
  }

  lemma {:induction false} ReachedIsWithin(pieces: seq<Piece>, lengths: seq<real>, s: nat)
    requires OnTrack(pieces, lengths) && s < |lengths| && lengths[s] >= 0.0
    ensures Reached(pieces, s) <= lengths[s]
  {
    if pieces != [] {
      ReachedIsWithin(pieces[..|pieces| - 1], lengths, s);
    }
  }

  lemma {:induction false} ReachIsWithin(pieces: seq<Piece>, lengths: seq<real>, segments: nat)
    requires OnTrack(pieces, lengths) && segments <= |lengths|
    requires forall s :: 0 <= s < |lengths| ==> lengths[s] >= 0.0
    ensures ReachTotal(pieces, segments) <= Total(lengths[..segments])
  {
    if segments > 0 {
      ReachIsWithin(pieces, lengths, segments - 1);
      ReachedIsWithin(pieces, lengths, segments - 1);
      assert lengths[..segments][..segments - 1] == lengths[..segments - 1];
    }
  }

  /** `n` lots of `x`. */
  function Times(n: nat, x: real): real {
    if n == 0 then 0.0 else Times(n - 1, x) + x
  }

  lemma {:induction false} TimesGrows(m: nat, n: nat, x: real)
    requires m <= n && x >= 0.0
    ensures Times(m, x) <= Times(n, x)
  {
    if m < n {
      TimesGrows(m, n - 1, x);
    }
  }

  lemma {:induction false} TimesIsProduct(n: nat, x: real)
    ensures Times(n, x) == n as real * x
  {
    if n > 0 {
      TimesIsProduct(n - 1, x);
      assert n as real * x == (n - 1) as real * x + x;
    }
  }

  lemma {:induction false} EvenRunsAreInked(n: nat)
    ensures Inked(2 * n) && !Inked(2 * n + 1)
  {
    if n > 0 {
      EvenRunsAreInked(n - 1);
    }
  }

  lemma {:induction false} PeriodsAddUp(pieces: seq<Piece>, n: nat, on: real, off: real)
    requires RunsFull(pieces, 2 * n, on, off)
    ensures RunTotal(pieces, 2 * n) >= Times(n, on + off - 2.0 * EPSILON)
  {
    if n > 0 {
      PeriodsAddUp(pieces, n - 1, on, off);
      assert RunTotal(pieces, 2 * n) == RunTotal(pieces, 2 * n - 2) + RunLength(pieces, 2 * n - 2) + RunLength(pieces, 2 * n - 1);
      EvenRunsAreInked(n - 1);
    }
  }

  /** The stretched period: never shorter than asked, and long enough that `MAX_DASHES` of them cover the track. */
  function Stretch(total: real, period: real): real
    requires period > 0.0
  {
    var ratio := total / (MAX_DASHES as real * period);
    if ratio > 1.0 then ratio else 1.0
  }

  lemma StretchCovers(total: real, period: real)
    requires period > 0.0
    ensures Stretch(total, period) >= 1.0 && total <= MAX_DASHES as real * (period * Stretch(total, period))
  {
    var full := MAX_DASHES as real * period;
    assert total == total / full * full;
    assert MAX_DASHES as real * (period * Stretch(total, period)) == full * Stretch(total, period);
    if total / full <= 1.0 {
      assert total <= full;
    }
  }

  /** The whole periods of a walk come, hairs aside, to no more than the track. */
  lemma WholePeriodsFit(pieces: seq<Piece>, lengths: seq<real>, on: real, off: real, n: nat)
    requires Tiles(pieces, lengths) && RunsFull(pieces, 2 * n, on, off)
    requires forall s :: 0 <= s < |lengths| ==> lengths[s] >= 0.0
    ensures Times(n, on + off - 2.0 * EPSILON) <= Total(lengths)
  {
    assert lengths[..|lengths|] == lengths;
    PeriodsAddUp(pieces, n, on, off);
    RunsFitTheTrack(pieces, lengths, 2 * n);
    ReachIsWithin(pieces, lengths, |lengths|);
  }

  lemma PeriodStretches(dash: real, gap: real, stretch: real)
    requires dash + gap > 0.0 && stretch >= 1.0
    ensures dash * stretch + gap * stretch == (dash + gap) * stretch >= dash + gap
  {
  }

  /** A dash or a gap as the trail drawer asks for it. */
  function Stretched(part: real, lengths: seq<real>, period: real): (r: real)
    requires part > 0.0 && period > 0.0
    ensures r >= part
  {
    StretchCovers(Total(lengths), period);
    NeverShorter(part, Stretch(Total(lengths), period));
    part * Stretch(Total(lengths), period)
  }

  lemma NeverShorter(part: real, stretch: real)
    requires part > 0.0 && stretch >= 1.0
    ensures part * stretch >= part
  {
  }

  /** Dash and gap together are no shorter than asked, and `MAX_DASHES` of them cover the track. */
  lemma StretchedCovers(lengths: seq<real>, dash: real, gap: real)
    requires dash > 0.0 && gap > 0.0
    ensures var period := Stretched(dash, lengths, dash + gap) + Stretched(gap, lengths, dash + gap);
      period >= dash + gap && Total(lengths) <= MAX_DASHES as real * period
  {
    StretchCovers(Total(lengths), dash + gap);
    PeriodStretches(dash, gap, Stretch(Total(lengths), dash + gap));
  }

  /**
   * The stretch is no more than is needed: dash and gap keep their proportion, are as asked where as many of
   * them as allowed reach along the track, and otherwise exactly so long that they do.
   */
  lemma StretchedNoMoreThanNeeded(lengths: seq<real>, dash: real, gap: real)
    requires dash > 0.0 && gap > 0.0
    ensures var on, off := Stretched(dash, lengths, dash + gap), Stretched(gap, lengths, dash + gap);
      && on * gap == off * dash
      && (Total(lengths) <= 400.0 * (dash + gap) ==> on == dash && off == gap)
      && (Total(lengths) >= 400.0 * (dash + gap) ==> 400.0 * (on + off) == Total(lengths))
  {
    var stretch := Stretch(Total(lengths), dash + gap);
    PeriodStretches(dash, gap, stretch);
    StretchIsTheRatio(Total(lengths), dash + gap);
    Proportion(dash, gap, stretch);
  }

  lemma Proportion(x: real, y: real, stretch: real)
    ensures x * stretch * y == y * stretch * x
  {
  }

  lemma StretchIsTheRatio(total: real, period: real)
    requires period > 0.0
    ensures total <= 400.0 * period ==> Stretch(total, period) == 1.0
    ensures total >= 400.0 * period ==> 400.0 * (period * Stretch(total, period)) == total
    ensures Stretch(total, period) >= 1.0
  {
    var full := MAX_DASHES as real * period;
    var ratio := total / full;
    assert ratio * full == total;
    QuotientAgainstOne(total, full);
    assert 400.0 * (period * ratio) == ratio * full;
  }

  /** The length of a track is that of its parts. */
  lemma {:induction false} TotalAddsUp(a: seq<real>, b: seq<real>)
    ensures Total(a + b) == Total(a) + Total(b)
    ensures |a| == 1 ==> Total(a) == a[0]
  {
    if b == [] {
      assert a + b == a;
    } else {
      assert (a + b)[..|a + b| - 1] == a + b[..|b| - 1];
      TotalAddsUp(a, b[..|b| - 1]);
    }
  }

  /**
   * Stretched, a track is never cut into more than `MAX_DASHES` whole dash-and-gap periods, provided a
   * period is longer than the hairs the walk may lose on that many runs.
   */
  lemma DashesAreBounded(pieces: seq<Piece>, lengths: seq<real>, dash: real, gap: real, on: real, off: real, n: nat)
    requires dash > 0.0 && gap > 0.0 && dash + gap > 2.0 * (MAX_DASHES + 1) as real * EPSILON
    requires forall s :: 0 <= s < |lengths| ==> lengths[s] >= 0.0
    requires on == Stretched(dash, lengths, dash + gap) && off == Stretched(gap, lengths, dash + gap)
    requires Tiles(pieces, lengths) && RunsFull(pieces, 2 * n, on, off)
    ensures n <= MAX_DASHES
  {
    StretchedCovers(lengths, dash, gap);
    WholePeriodsFit(pieces, lengths, on, off, n);
    PeriodsFit(n, on + off, Total(lengths));
  }

  lemma PeriodsFit(n: nat, period: real, total: real)
    requires period > 2.0 * (MAX_DASHES + 1) as real * EPSILON
    requires Times(n, period - 2.0 * EPSILON) <= total <= MAX_DASHES as real * period
    ensures n <= MAX_DASHES
  {
    var each := period - 2.0 * EPSILON;
    TimesIsProduct(MAX_DASHES + 1, each);
    if n > MAX_DASHES {
      TimesGrows(MAX_DASHES + 1, n, each);
    }
  }

  /** So the walk of a stretched track is never past run `2 * MAX_DASHES + 1`. */
  lemma StretchedWalkIsBounded(lengths: seq<real>, dash: real, gap: real)
    requires dash > 0.0 && gap > 0.0 && dash + gap > 2.0 * (MAX_DASHES + 1) as real * EPSILON
    requires forall s :: 0 <= s < |lengths| ==> lengths[s] >= 0.0
    ensures var on, off := Stretched(dash, lengths, dash + gap), Stretched(gap, lengths, dash + gap);
      CutTrack(lengths, on, off).run / 2 <= MAX_DASHES
  {
    var on, off := Stretched(dash, lengths, dash + gap), Stretched(gap, lengths, dash + gap);
    var pen := CutTrack(lengths, on, off);
    TrackRuns(lengths, on, off);
    WalkTilesAndAlternates(lengths, on, off);
    DashesAreBounded(pen.pieces, lengths, dash, gap, on, off, pen.run / 2);
  }

  lemma StrokesAfter(pieces: seq<Piece>, p: Piece)
    ensures |StrokesOf(pieces + [p])| == |StrokesOf(pieces)| + (if Inked(p.run) then 1 else 0)
  {
    assert (pieces + [p])[..|pieces|] == pieces;
  }

  lemma {:induction false} InkedIsEven(run: nat)
    ensures Inked(run) <==> run % 2 == 0
  {
    if run > 0 {
      InkedIsEven(run - 1);
    }
  }

  /** A step ends its run or its segment, so beyond one stroke to a dash there is at most one to a segment. */
  lemma {:induction false} SegmentStrokes(pen: Pen, i: nat, length: real, walked: real, on: real, off: real)
    requires Ready(pen, on, off) && 0.0 <= walked
    ensures var pen' := CutSegment(pen, i, length, walked, on, off);
      |StrokesOf(pen'.pieces)| - (pen'.run + 1) / 2 <= |StrokesOf(pen.pieces)| - (pen.run + 1) / 2 + 1
    decreases Steps(length - walked, LeastStep(on, off))
  {
    if length - walked > EPSILON {
      var step := MinR(pen.left, length - walked);
      var next := Stepped(pen, i, walked, step, on, off);
      SegmentUnrolls(pen, i, length, walked, on, off);
      StrokesAfter(pen.pieces, Piece(i, walked, walked + step, pen.run));
      InkedIsEven(pen.run);
      if next.run == pen.run {
        assert walked + step == length;
      } else {
        SegmentStrokes(next, i, length, walked + step, on, off);
      }
    }
  }

  lemma {:induction false} TrackStrokes(lengths: seq<real>, on: real, off: real)
    requires on > 0.0 && off > 0.0
    ensures var pen := CutTrack(lengths, on, off); |StrokesOf(pen.pieces)| <= (pen.run + 1) / 2 + |lengths|
  {
    if lengths != [] {
      var n := |lengths| - 1;
      TrackStrokes(lengths[..n], on, off);
      SegmentStrokes(CutTrack(lengths[..n], on, off), n, lengths[n], 0.0, on, off);
    }
  }

  /** The strokes queued for one track: at most one to a dash, of which there are few, and one to a segment. */
  lemma StrokesAreBounded(lengths: seq<real>, dash: real, gap: real)
    requires dash > 0.0 && gap > 0.0 && dash + gap > 2.0 * (MAX_DASHES + 1) as real * EPSILON
    requires forall s :: 0 <= s < |lengths| ==> lengths[s] >= 0.0
    ensures var on, off := Stretched(dash, lengths, dash + gap), Stretched(gap, lengths, dash + gap);
      |StrokesOf(CutTrack(lengths, on, off).pieces)| <= MAX_DASHES + 1 + |lengths|
  {
    var on, off := Stretched(dash, lengths, dash + gap), Stretched(gap, lengths, dash + gap);
    StretchedWalkIsBounded(lengths, dash, gap);
    TrackStrokes(lengths, on, off);
  }
}
