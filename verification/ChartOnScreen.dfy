/**
 * A team's chart from discovery to the screen: one player's side of a match, with the server's objects
 * (packages/server/src/match/runtime.ts), the client's picture (packages/client/src/render/picture.ts) and
 * the layer that draws it (packages/client/src/render/sonar.ts), driven event by event as `ChartDelivery`
 * describes.
 */
module ChartOnScreen {
  import opened Options
  import opened Measures
  import opened MatchTypes
  import opened ChartDelivery
  import opened SonarChart

  /** A square is under some rectangle drawn. */
  ghost predicate OnScreen(layers: SonarLayers, cell: Cell)
    requires layers.picture.cols > 0
    reads layers
  {
    exists i :: 0 <= i < |layers.Drawn()| && Covers(layers.Drawn()[i], cell, layers.picture.cols)
  }

  /** The part of the team's chart below the watermark. */
  function Below(d: Delivery): seq<Cell> {
    d.log[..Min(d.seen, |d.log|)]
  }

  lemma PlayOneMore(d: Delivery, events: seq<Event>, e: Event, limit: nat)
    ensures Play(d, events + [e], limit) == Step(Play(d, events, limit), e, limit)
  {
    PlaySplits(d, events, e, [], limit);
    assert events + [e] + [] == events + [e];
  }

  class PlayerView {
    const runtime: VisionRuntime
    const account: AccountId
    const team: Team
    const cols: nat
    var viewSeq: nat
    var clientSeq: nat
    var layers: SonarLayers
    /** Every event so far. */
    ghost var history: seq<Event>

    function Chart(): TeamChart {
      runtime.ChartOf(team)
    }

    /** Both sides as they stand. */
    ghost function Sides(): Delivery
      reads this, runtime, Chart(), layers.picture
    {
      Delivery(Chart().log, runtime.Seen(account), viewSeq, layers.picture.charted, clientSeq)
    }

    ghost predicate Sound()
      reads this, runtime, Chart(), layers, layers.picture
    {
      && Chart().Valid() && layers.Valid() && layers.picture.cols == cols && cols > 0
    }

    ghost predicate Valid()
      reads this, runtime, Chart(), layers, layers.picture
    {
      Sound() && Sides() == Play(START, history, runtime.limit)
    }

    constructor (runtime: VisionRuntime, account: AccountId, team: Team, cols: nat)
      requires cols > 0 && runtime.ChartOf(team).Valid() && runtime.ChartOf(team).log == []
      requires runtime.Seen(account) == 0
      ensures Valid() && this.runtime == runtime && this.account == account && this.team == team
      ensures history == [] && fresh(layers) && fresh(layers.picture)
    {
      this.runtime, this.account, this.team, this.cols := runtime, account, team, cols;
      viewSeq, clientSeq, history := 0, 0, [];
      var picture := new SonarPicture(cols);
      layers := new SonarLayers(picture);
    }

    method Discover(cell: Cell)
      requires Valid()
      modifies this`history, Chart()
      ensures Valid() && history == old(history) + [Confirm(cell)]
    {
      PlayOneMore(START, history, Confirm(cell), runtime.limit);
      ghost var was := Sides();
      var isNew := Chart().Add(cell);
      assert Sides() == Step(was, Confirm(cell), runtime.limit);
      history := history + [Confirm(cell)];
    }

    /** One frame is cut, sent and, unless the client has had a later one, applied. */
    method SendFrame()
      requires Sound()
      modifies this`viewSeq, this`clientSeq, runtime, layers.picture
      ensures Sound() && Sides() == PublishStep(old(Sides()), runtime.limit)
    {
      ghost var was := Sides();
      var frame := runtime.VisionFor(account, Some(team));
      assert Sides() == was.(seen := frame.value.chartSeen);
      Deliver(frame.value);
    }

    method Deliver(frame: Frame)
      requires Sound() && runtime.Seen(account) == frame.chartSeen
      modifies this`viewSeq, this`clientSeq, layers.picture
      ensures Sound() && Sides() == Applied(old(Sides()), frame)
    {
      viewSeq := viewSeq + 1;
      Receive(viewSeq, frame.charted);
    }

    method Receive(number: nat, packed: seq<int>)
      requires layers.Valid()
      modifies this`clientSeq, layers.picture
      ensures layers.Valid() && forall i :: 0 <= i < |Unpack(packed)| ==> Unpack(packed)[i] >= 0
      ensures clientSeq == if old(clientSeq) >= number then old(clientSeq) else number
      ensures layers.picture.charted ==
        if old(clientSeq) >= number then old(layers.picture.charted)
        else Received(old(layers.picture.charted), Unpack(packed))
    {
      UnpackedPositive(packed, 0);
      if clientSeq >= number {
        return;
      }
      clientSeq := number;
      var cells := UnpackCells(packed);
      layers.picture.ApplyChart(seq(|cells|, i requires 0 <= i < |cells| => cells[i] as nat));
    }

    method Send()
      requires Valid()
      modifies this, runtime, layers.picture
      ensures Valid() && history == old(history) + [Publish] && layers == old(layers)
    {
      PlayOneMore(START, history, Publish, runtime.limit);
      SendFrame();
      history := history + [Publish];
    }

    /** The player is sent the match afresh: an empty picture, an empty layer and a watermark of nothing. */
    method Rejoin(newTab: bool)
      requires Valid()
      modifies this, runtime
      ensures Valid() && history == old(history) + [Resume(newTab)]
      ensures fresh(layers) && fresh(layers.picture)
    {
      PlayOneMore(START, history, Resume(newTab), runtime.limit);
      ghost var was := Sides();
      Restart(newTab);
      SendFrame();
      assert Sides() == Step(was, Resume(newTab), runtime.limit);
      history := history + [Resume(newTab)];
    }

    method Restart(newTab: bool)
      requires Sound()
      modifies this`layers, this`clientSeq, runtime
      ensures Sound() && Sides() == Restarted(old(Sides()), newTab)
      ensures fresh(layers) && fresh(layers.picture)
    {
      runtime.Forget(account);
      var picture := new SonarPicture(cols);
      layers := new SonarLayers(picture);
      if newTab {
        clientSeq := 0;
      }
    }

    /**
     * After any run of these events, drawing leaves on the screen exactly the part of the team's chart
     * below this player's watermark, if and only if square 0 is not in it.
     */
    method Redraw()
      requires Valid()
      modifies layers, layers.picture
      ensures Valid() && Sides() == old(Sides()) && layers.picture.pendingRuns == []
      ensures (forall cell :: OnScreen(layers, cell) <==> cell in Below(Sides())) <==> 0 !in Below(Sides())
    {
      layers.AppendChart();
      ScreenShowsThePrefix(this);
    }
  }

  /** What is on a screen drawn up to date, in terms of the team's chart. */
  lemma ScreenShowsThePrefix(view: PlayerView)
    requires view.Valid() && view.layers.picture.pendingRuns == []
    ensures var sent := Below(Play(START, view.history, view.runtime.limit));
      (forall cell :: OnScreen(view.layers, cell) <==> cell in sent) <==> 0 !in sent
  {
    var d := Play(START, view.history, view.runtime.limit);
    ClientHoldsThePrefix(view.history, view.runtime.limit);
    forall cell: Cell ensures OnScreen(view.layers, cell) <==> cell in d.charted {
      DrawnIsCharted(view.layers, cell);
    }
  }
}
