/** Playing each reported noise once, against the full record of reports (packages/client/src/audio/cues.ts). */
module Cues {
  import opened Options
  import opened Measures
  import opened MatchTypes

  type Kind = int

  datatype Transient = Transient(kind: Kind, tick: int)
  datatype Source = Source(id: EntityId, pos: Vec2, hull: Option<int>, mine: bool, transients: seq<Transient>)
  datatype Cue = Cue(kind: Kind, at: Vec2, hull: Option<int>, mine: bool)

  /** A noise played: which boat made it, and which of its transients it was. */
  datatype Sound = Sound(boat: Source, transient: Transient)

  type Ticks = map<Kind, int>
  type Seen = map<EntityId, Ticks>
  type Frame = seq<Source>

  function CueOf(s: Sound): Cue {
    Cue(s.transient.kind, s.boat.pos, s.boat.hull, s.boat.mine)
  }

  function CuesOf(sounds: seq<Sound>): seq<Cue> {
    if sounds == [] then [] else CuesOf(sounds[..|sounds| - 1]) + [CueOf(sounds[|sounds| - 1])]
  }

  // ── One boat ──────────────────────────────────────────────────────────────────────

  predicate Old(ticks: Ticks, t: Transient) {
    t.kind in ticks && t.tick <= ticks[t.kind]
  }

  function TicksAfter(ticks: Ticks, transients: seq<Transient>): Ticks {
    if transients == [] then ticks
    else
      var last := transients[|transients| - 1];
      var before := TicksAfter(ticks, transients[..|transients| - 1]);
      if Old(before, last) then before else before[last.kind := last.tick]
  }

  /** The transients of a boat that move its record on, in the order reported. */
  function News(ticks: Ticks, transients: seq<Transient>): seq<Transient> {
    if transients == [] then []
    else
      var front, last := transients[..|transients| - 1], transients[|transients| - 1];
      News(ticks, front) + (if Old(TicksAfter(ticks, front), last) then [] else [last])
  }

  function SoundsOf(boat: Source, transients: seq<Transient>): seq<Sound> {
    if transients == [] then []
    else SoundsOf(boat, transients[..|transients| - 1]) + [Sound(boat, transients[|transients| - 1])]
  }

  function TicksOf(seen: Seen, id: EntityId): Ticks {
    if id in seen then seen[id] else map[]
  }

  /** A boat on its first frame is recorded and not played. */
  function BoatSounds(seen: Seen, boat: Source): seq<Sound> {
    if boat.id !in seen then [] else SoundsOf(boat, News(seen[boat.id], boat.transients))
  }

  function SeenBoat(seen: Seen, boat: Source): Seen {
    seen[boat.id := TicksAfter(TicksOf(seen, boat.id), boat.transients)]
  }

  // ── One frame ─────────────────────────────────────────────────────────────────────

  function SeenBoats(seen: Seen, boats: Frame): Seen {
    if boats == [] then seen else SeenBoat(SeenBoats(seen, boats[..|boats| - 1]), boats[|boats| - 1])
  }

  function FrameSounds(seen: Seen, boats: Frame): seq<Sound> {
    if boats == [] then []
    else
      var front, last := boats[..|boats| - 1], boats[|boats| - 1];
      FrameSounds(seen, front) + BoatSounds(SeenBoats(seen, front), last)
  }

  function Ids(boats: Frame): set<EntityId> {
    if boats == [] then {} else Ids(boats[..|boats| - 1]) + {boats[|boats| - 1].id}
  }

  /** The record with every boat not in these dropped. */
  function Dropped(seen: Seen, present: set<EntityId>): Seen {
    map id | id in seen && id in present :: seen[id]
  }

  function SeenFrame(seen: Seen, boats: Frame): Seen {
    Dropped(SeenBoats(seen, boats), Ids(boats))
  }

  class TransientCues {
    var seen: Seen

    constructor ()
      ensures seen == map[]
    {
      seen := map[];
    }

    method Observe(boats: Frame) returns (cues: seq<Cue>)
      modifies this
      ensures seen == SeenFrame(old(seen), boats)
      ensures cues == CuesOf(FrameSounds(old(seen), boats))
    {
      var present: set<EntityId> := {};
      ghost var sounds := [];
      cues := [];
      var i := 0;
      while i < |boats|
        invariant 0 <= i <= |boats| && present == Ids(boats[..i]) && seen == SeenBoats(old(seen), boats[..i])
        invariant sounds == FrameSounds(old(seen), boats[..i]) && cues == CuesOf(sounds)
      {
        assert boats[..i + 1][..i] == boats[..i];
        present := present + {boats[i].id};
        var ticks, played := ObserveBoat(seen, boats[i]);
        CuesOfConcat(sounds, BoatSounds(seen, boats[i]));
        sounds := sounds + BoatSounds(seen, boats[i]);
        cues := cues + played;
        seen := seen[boats[i].id := ticks];
        i := i + 1;
      }
      assert boats[..i] == boats;
      seen := map id | id in seen && id in present :: seen[id];
    }
  }

  /** The loop over one boat's transients. */
  method ObserveBoat(seen: Seen, boat: Source) returns (ticks: Ticks, cues: seq<Cue>)
    ensures ticks == SeenBoat(seen, boat)[boat.id] && cues == CuesOf(BoatSounds(seen, boat))
  {
    var unseen := boat.id !in seen;
    ticks := if unseen then map[] else seen[boat.id];
    ghost var was := ticks;
    ghost var sounds := [];
    cues := [];
    var i := 0;
    while i < |boat.transients|
      invariant 0 <= i <= |boat.transients| && ticks == TicksAfter(was, boat.transients[..i])
      invariant sounds == SoundsOf(boat, News(was, boat.transients[..i]))
      invariant cues == if unseen then [] else CuesOf(sounds)
    {
      var transient := boat.transients[i];
      OneMoreSound(boat, was, boat.transients, i);
      if !(transient.kind in ticks && transient.tick <= ticks[transient.kind]) {
        ticks := ticks[transient.kind := transient.tick];
        if !unseen {
          cues := cues + [Cue(transient.kind, boat.pos, boat.hull, boat.mine)];
        }
        sounds := sounds + [Sound(boat, transient)];
      }
      i := i + 1;
    }
    assert boat.transients[..i] == boat.transients;
  }

  /** What one more transient of a boat adds. */
  lemma OneMoreSound(boat: Source, was: Ticks, all: seq<Transient>, i: nat)
    requires i < |all|
    ensures var before := TicksAfter(was, all[..i]);
      TicksAfter(was, all[..i + 1]) == if Old(before, all[i]) then before else before[all[i].kind := all[i].tick]
    ensures var sounds := SoundsOf(boat, News(was, all[..i]));
      && SoundsOf(boat, News(was, all[..i + 1])) ==
           (if Old(TicksAfter(was, all[..i]), all[i]) then sounds else sounds + [Sound(boat, all[i])])
      && CuesOf(sounds + [Sound(boat, all[i])]) == CuesOf(sounds) + [CueOf(Sound(boat, all[i]))]
  {
    assert all[..i + 1][..i] == all[..i];
    var news := News(was, all[..i]);
    assert news + [] == news && (news + [all[i]])[..|news|] == news;
    var sounds := SoundsOf(boat, news);
    assert (sounds + [Sound(boat, all[i])])[..|sounds|] == sounds;
  }

  lemma {:induction false} CuesOfConcat(a: seq<Sound>, b: seq<Sound>)
    ensures CuesOf(a + b) == CuesOf(a) + CuesOf(b)
  {
    if b == [] {
      assert a + b == a;
    } else {
      var n := |b| - 1;
      assert (a + b)[..|a| + n] == a + b[..n];
      CuesOfConcat(a, b[..n]);
    }
  }

  // ── Against everything reported ───────────────────────────────────────────────────

  ghost predicate DistinctIds(boats: Frame) {
    forall i, j :: 0 <= i < j < |boats| ==> boats[i].id != boats[j].id
  }

  /** The boat in a frame with this id. */
  function Find(boats: Frame, id: EntityId): Option<Source> {
    if boats == [] then None
    else if boats[|boats| - 1].id == id then Some(boats[|boats| - 1])
    else Find(boats[..|boats| - 1], id)
  }

  /** Everything a boat has reported since it came into the frames it is now in; nothing when it is in none. */
  function Streak(frames: seq<Frame>, id: EntityId): Option<seq<Transient>> {
    if frames == [] then None
    else
      var boat := Find(frames[|frames| - 1], id);
      if boat.None? then None
      else Some(Streak(frames[..|frames| - 1], id).GetOr([]) + boat.value.transients)
  }

  /** `t` comes after every report of its kind. */
  ghost predicate IsNew(reports: seq<Transient>, t: Transient) {
    forall i :: 0 <= i < |reports| && reports[i].kind == t.kind ==> reports[i].tick < t.tick
  }

  /** Of `more`, those that come after every report of their kind before them. */
  ghost function Unheard(reports: seq<Transient>, more: seq<Transient>): seq<Transient> {
    if more == [] then []
    else
      var front, last := more[..|more| - 1], more[|more| - 1];
      Unheard(reports, front) + (if IsNew(reports + front, last) then [last] else [])
  }

  /** `ticks` is the latest tick of each kind reported. */
  ghost predicate Latest(ticks: Ticks, reports: seq<Transient>) {
    && (forall i :: 0 <= i < |reports| ==> Old(ticks, reports[i]))
    && (forall k :: k in ticks ==> Transient(k, ticks[k]) in reports)
  }

  lemma OneMoreIsLatest(ticks: Ticks, reports: seq<Transient>, t: Transient)
    requires Latest(ticks, reports)
    ensures Latest(if Old(ticks, t) then ticks else ticks[t.kind := t.tick], reports + [t])
    ensures Old(ticks, t) <==> !IsNew(reports, t)
  {
  }

  lemma {:induction false} TicksStayLatest(ticks: Ticks, reports: seq<Transient>, more: seq<Transient>)
    requires Latest(ticks, reports)
    ensures Latest(TicksAfter(ticks, more), reports + more) && News(ticks, more) == Unheard(reports, more)
  {
    if more == [] {
      assert reports + more == reports;
    } else {
      var n := |more| - 1;
      var front, last := more[..n], more[n];
      TicksStayLatest(ticks, reports, front);
      assert reports + more == reports + front + [last];
      OneMoreIsLatest(TicksAfter(ticks, front), reports + front, last);
    }
  }

  // A frame changes the record of each boat by what that boat reported.

  function SoundsFrom(sounds: seq<Sound>, id: EntityId): seq<Transient> {
    if sounds == [] then []
    else
      var last := sounds[|sounds| - 1];
      SoundsFrom(sounds[..|sounds| - 1], id) + (if last.boat.id == id then [last.transient] else [])
  }

  lemma {:induction false} SoundsFromConcat(a: seq<Sound>, b: seq<Sound>, id: EntityId)
    ensures SoundsFrom(a + b, id) == SoundsFrom(a, id) + SoundsFrom(b, id)
  {
    if b == [] {
      assert a + b == a;
    } else {
      var n := |b| - 1;
      assert (a + b)[..|a| + n] == a + b[..n];
      SoundsFromConcat(a, b[..n], id);
    }
  }

  lemma {:induction false} SoundsFromBoat(boat: Source, transients: seq<Transient>, id: EntityId)
    ensures SoundsFrom(SoundsOf(boat, transients), id) == if boat.id == id then transients else []
  {
    if transients != [] {
      var n := |transients| - 1;
      SoundsFromBoat(boat, transients[..n], id);
      var front := SoundsOf(boat, transients[..n]);
      assert (front + [Sound(boat, transients[n])])[..|front|] == front;
    }
  }

  /** What the last boat of a frame adds for one id. */
  lemma LastBoatAdds(seen: Seen, boats: Frame, id: EntityId)
    requires boats != []
    ensures var front, last := boats[..|boats| - 1], boats[|boats| - 1];
      var before := SeenBoats(seen, front);
      SoundsFrom(FrameSounds(seen, boats), id) == SoundsFrom(FrameSounds(seen, front), id)
        + (if last.id == id && id in before then News(before[id], last.transients) else [])
  {
    var front, last := boats[..|boats| - 1], boats[|boats| - 1];
    var before := SeenBoats(seen, front);
    SoundsFromConcat(FrameSounds(seen, front), BoatSounds(before, last), id);
    if last.id in before {
      SoundsFromBoat(last, News(before[last.id], last.transients), id);
    }
  }

  lemma {:induction false} AbsentChangesNothing(seen: Seen, boats: Frame, id: EntityId)
    requires Find(boats, id) == None
    ensures id !in Ids(boats)
    ensures id in SeenBoats(seen, boats) <==> id in seen
    ensures id in seen ==> SeenBoats(seen, boats)[id] == seen[id]
    ensures SoundsFrom(FrameSounds(seen, boats), id) == []
  {
    if boats != [] {
      AbsentChangesNothing(seen, boats[..|boats| - 1], id);
      LastBoatAdds(seen, boats, id);
    }
  }

  lemma {:induction false} FoundIsAbsentElsewhere(boats: Frame, id: EntityId)
    requires forall i :: 0 <= i < |boats| ==> boats[i].id != id
    ensures Find(boats, id) == None
  {
    if boats != [] {
      FoundIsAbsentElsewhere(boats[..|boats| - 1], id);
    }
  }

  lemma {:induction false} PresentIsObserved(seen: Seen, boats: Frame, id: EntityId)
    requires DistinctIds(boats) && Find(boats, id).Some?
    ensures var boat := Find(boats, id).value;
      && boat.id == id && id in Ids(boats) && id in SeenBoats(seen, boats)
      && SeenBoats(seen, boats)[id] == TicksAfter(TicksOf(seen, id), boat.transients)
      && SoundsFrom(FrameSounds(seen, boats), id) == (if id in seen then News(seen[id], boat.transients) else [])
  {
    var n := |boats| - 1;
    LastBoatAdds(seen, boats, id);
    if boats[n].id == id {
      FoundIsAbsentElsewhere(boats[..n], id);
      AbsentChangesNothing(seen, boats[..n], id);
    } else {
      PresentIsObserved(seen, boats[..n], id);
    }
  }

  // ── Whole sessions ────────────────────────────────────────────────────────────────

  function SeenAfter(frames: seq<Frame>): Seen {
    if frames == [] then map[] else SeenFrame(SeenAfter(frames[..|frames| - 1]), frames[|frames| - 1])
  }

  /** The transients of a boat played on the last of these frames. */
  function PlayedLast(frames: seq<Frame>, id: EntityId): seq<Transient>
    requires frames != []
  {
    SoundsFrom(FrameSounds(SeenAfter(frames[..|frames| - 1]), frames[|frames| - 1]), id)
  }

  ghost predicate AllDistinct(frames: seq<Frame>) {
    forall f :: 0 <= f < |frames| ==> DistinctIds(frames[f])
  }

  /** The record of a boat is the latest tick of each kind of everything reported in its present streak. */
  lemma {:induction false} RecordIsTheStreak(frames: seq<Frame>, id: EntityId)
    requires AllDistinct(frames)
    ensures id in SeenAfter(frames) <==> Streak(frames, id).Some?
    ensures id in SeenAfter(frames) ==> Latest(SeenAfter(frames)[id], Streak(frames, id).value)
  {
    if frames != [] {
      var n := |frames| - 1;
      var seen := SeenAfter(frames[..n]);
      RecordIsTheStreak(frames[..n], id);
      if Find(frames[n], id).None? {
        AbsentChangesNothing(seen, frames[n], id);
      } else {
        PresentIsObserved(seen, frames[n], id);
        TicksStayLatest(TicksOf(seen, id), Streak(frames[..n], id).GetOr([]), Find(frames[n], id).value.transients);
      }
    }
  }

  /**
   * What is played of a boat on a frame is nothing if it was not in the frame before, and otherwise
   * exactly those of its reports that come after every report of their kind since it appeared.
   */
  lemma PlayedExactlyWhenUnheard(frames: seq<Frame>, id: EntityId)
    requires AllDistinct(frames) && frames != []
    ensures var before := Streak(frames[..|frames| - 1], id);
      PlayedLast(frames, id) ==
        if before.None? || Find(frames[|frames| - 1], id).None? then []
        else Unheard(before.value, Find(frames[|frames| - 1], id).value.transients)
  {
    var n := |frames| - 1;
    var seen := SeenAfter(frames[..n]);
    RecordIsTheStreak(frames[..n], id);
    if Find(frames[n], id).None? {
      AbsentChangesNothing(seen, frames[n], id);
    } else {
      PresentIsObserved(seen, frames[n], id);
      if id in seen {
        TicksStayLatest(seen[id], Streak(frames[..n], id).value, Find(frames[n], id).value.transients);
      }
    }
  }

  /** Everything played of a boat since it came into the frames. */
  function Played(frames: seq<Frame>, id: EntityId): seq<Transient> {
    if frames == [] || Find(frames[|frames| - 1], id).None? then []
    else Played(frames[..|frames| - 1], id) + PlayedLast(frames, id)
  }

  ghost predicate Rising(played: seq<Transient>) {
    forall i, j :: 0 <= i < j < |played| && played[i].kind == played[j].kind ==> played[i].tick < played[j].tick
  }

  lemma {:induction false} UnheardRises(played: seq<Transient>, reports: seq<Transient>, more: seq<Transient>)
    requires Rising(played) && forall i :: 0 <= i < |played| ==> played[i] in reports
    ensures Rising(played + Unheard(reports, more))
    ensures forall i :: 0 <= i < |played + Unheard(reports, more)| ==> (played + Unheard(reports, more))[i] in reports + more
  {
    if more == [] {
      assert played + [] == played && reports + [] == reports;
    } else {
      var front, last := more[..|more| - 1], more[|more| - 1];
      UnheardRises(played, reports, front);
      var was := played + Unheard(reports, front);
      assert reports + more == reports + front + [last];
      if IsNew(reports + front, last) {
        assert played + Unheard(reports, more) == was + [last];
      } else {
        assert Unheard(reports, more) == Unheard(reports, front);
      }
    }
  }

  /**
   * While a boat stays in the frames it sounds each kind at strictly increasing ticks, so each
   * (kind, tick) at most once, and only what it reported.
   */
  lemma {:induction false} EachNoiseOnce(frames: seq<Frame>, id: EntityId)
    requires AllDistinct(frames)
    ensures Rising(Played(frames, id))
    ensures forall i :: 0 <= i < |Played(frames, id)| ==> Played(frames, id)[i] in Streak(frames, id).GetOr([])
  {
    if frames != [] && Find(frames[|frames| - 1], id).Some? {
      var before := frames[..|frames| - 1];
      EachNoiseOnce(before, id);
      PlayedExactlyWhenUnheard(frames, id);
      var more := Find(frames[|frames| - 1], id).value.transients;
      if Streak(before, id).Some? {
        UnheardRises(Played(before, id), Streak(before, id).value, more);
      } else {
        assert PlayedLast(frames, id) == [];
        assert Played(frames, id) == Played(before, id) + [];
      }
    }
  }

  // ── What a cue says ───────────────────────────────────────────────────────────────

  /** The cue of a report of this boat: its kind, and where, by what hull and whose it is. */
  predicate Announces(cue: Cue, boat: Source, t: Transient) {
    cue.kind == t.kind && cue.at == boat.pos && cue.hull == boat.hull && cue.mine == boat.mine
  }

  lemma {:induction false} CuesMatchSounds(sounds: seq<Sound>)
    ensures |CuesOf(sounds)| == |sounds|
    ensures forall i :: 0 <= i < |sounds| ==> Announces(CuesOf(sounds)[i], sounds[i].boat, sounds[i].transient)
  {
    if sounds != [] {
      CuesMatchSounds(sounds[..|sounds| - 1]);
    }
  }

  lemma {:induction false} NewsAreReports(ticks: Ticks, transients: seq<Transient>)
    ensures forall t :: t in News(ticks, transients) ==> t in transients
  {
    if transients != [] {
      NewsAreReports(ticks, transients[..|transients| - 1]);
    }
  }

  lemma {:induction false} SoundsAreOfTheBoat(boat: Source, transients: seq<Transient>)
    ensures |SoundsOf(boat, transients)| == |transients|
    ensures forall i :: 0 <= i < |transients| ==> SoundsOf(boat, transients)[i] == Sound(boat, transients[i])
  {
    if transients != [] {
      SoundsAreOfTheBoat(boat, transients[..|transients| - 1]);
    }
  }

  lemma {:induction false} FrameSoundsAreReports(seen: Seen, boats: Frame)
    ensures forall s :: s in FrameSounds(seen, boats) ==> s.boat in boats && s.transient in s.boat.transients
  {
    if boats != [] {
      var front, last := boats[..|boats| - 1], boats[|boats| - 1];
      FrameSoundsAreReports(seen, front);
      var ticks := SeenBoats(seen, front);
      if last.id in ticks {
        NewsAreReports(ticks[last.id], last.transients);
        SoundsAreOfTheBoat(last, News(ticks[last.id], last.transients));
      }
    }
  }

  /** Every cue played on a frame announces a report of a boat in the frame, as it was reported. */
  lemma EachCueIsOfAReport(seen: Seen, boats: Frame, i: int)
    requires 0 <= i < |CuesOf(FrameSounds(seen, boats))|
    ensures |CuesOf(FrameSounds(seen, boats))| == |FrameSounds(seen, boats)|
    ensures var s := FrameSounds(seen, boats)[i];
      s.boat in boats && s.transient in s.boat.transients
      && Announces(CuesOf(FrameSounds(seen, boats))[i], s.boat, s.transient)
  {
    CuesMatchSounds(FrameSounds(seen, boats));
    FrameSoundsAreReports(seen, boats);
    assert FrameSounds(seen, boats)[i] in FrameSounds(seen, boats);
  }
}
