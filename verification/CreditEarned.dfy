/**
 * What the cards of a tick say, told from the fleet before and after, the detonations and the weapons in
 * the water alone (`creditWeapons` in packages/server/src/match/runtime.ts).
 */
module CreditEarned {
  import opened Options
  import opened Measures
  import opened MatchTypes
  import opened Credit

  // ── The damage done ───────────────────────────────────────────────────────────────

  /** The damage of these hits on one boat. */
  function HitsOn(hits: seq<Hit>, boat: EntityId): real {
    if hits == [] then 0.0
    else HitsOn(hits[..|hits| - 1], boat)
         + (if hits[|hits| - 1].boat == boat then hits[|hits| - 1].damage else 0.0)
  }

  /** One of the torpedoes has this id, and this boat fired it. */
  ghost predicate Fired(torpedoes: seq<Torpedo>, id: EntityId, attacker: EntityId) {
    exists i :: 0 <= i < |torpedoes| && torpedoes[i] == Torpedo(id, attacker)
  }

  ghost predicate OneOfEach(torpedoes: seq<Torpedo>) {
    forall i, j :: 0 <= i < j < |torpedoes| ==> torpedoes[i].id != torpedoes[j].id
  }

  lemma {:induction false} FiredByIsFired(torpedoes: seq<Torpedo>, id: EntityId, attacker: EntityId)
    requires OneOfEach(torpedoes)
    ensures FiredBy(torpedoes, id) == Some(attacker) <==> Fired(torpedoes, id, attacker)
  {
    if torpedoes != [] {
      var n := |torpedoes| - 1;
      FiredByIsFired(torpedoes[..n], id, attacker);
      assert forall i :: 0 <= i < n ==> torpedoes[..n][i] == torpedoes[i];
      if Fired(torpedoes, id, attacker) {
        var i :| 0 <= i < |torpedoes| && torpedoes[i] == Torpedo(id, attacker);
        assert i < n ==> torpedoes[..n][i] == Torpedo(id, attacker);
      }
      if Fired(torpedoes[..n], id, attacker) {
        var i :| 0 <= i < n && torpedoes[..n][i] == Torpedo(id, attacker);
        assert torpedoes[i] == Torpedo(id, attacker);
      }
    }
  }

  /** All the damage an attacker's warheads did to a boat. */
  ghost function HarmBy(detonations: seq<Detonation>, torpedoes: seq<Torpedo>, attacker: EntityId, boat: EntityId): real {
    if detonations == [] then 0.0
    else (if Fired(torpedoes, detonations[0].torpedo, attacker) then HitsOn(detonations[0].hits, boat) else 0.0)
         + HarmBy(detonations[1..], torpedoes, attacker, boat)
  }

  /** All the damage done to a boat by warheads somebody fired. */
  ghost function HarmTo(detonations: seq<Detonation>, torpedoes: seq<Torpedo>, boat: EntityId): real {
    if detonations == [] then 0.0
    else (if exists a :: Fired(torpedoes, detonations[0].torpedo, a) then HitsOn(detonations[0].hits, boat) else 0.0)
         + HarmTo(detonations[1..], torpedoes, boat)
  }

  lemma {:induction false} BlowsOfAddUp(attacker: EntityId, hits: seq<Hit>, a: EntityId, boat: EntityId)
    ensures DamageBy(BlowsOf(attacker, hits), a, boat) == if a == attacker then HitsOn(hits, boat) else 0.0
    ensures DamageOn(BlowsOf(attacker, hits), boat) == HitsOn(hits, boat)
  {
    if hits != [] {
      var n := |hits| - 1;
      assert BlowsOf(attacker, hits)[..n] == BlowsOf(attacker, hits[..n]);
      BlowsOfAddUp(attacker, hits[..n], a, boat);
    }
  }

  lemma {:induction false} DamageOnSplits(xs: seq<Blow>, ys: seq<Blow>, boat: EntityId)
    ensures DamageOn(xs + ys, boat) == DamageOn(xs, boat) + DamageOn(ys, boat)
  {
    if ys == [] {
      assert xs + ys == xs;
    } else {
      assert (xs + ys)[..|xs + ys| - 1] == xs + ys[..|ys| - 1];
      DamageOnSplits(xs, ys[..|ys| - 1], boat);
    }
  }

  lemma {:induction false} BlowsAreTheHarm(detonations: seq<Detonation>, torpedoes: seq<Torpedo>, a: EntityId, boat: EntityId)
    requires OneOfEach(torpedoes)
    ensures DamageBy(Blows(detonations, torpedoes), a, boat) == HarmBy(detonations, torpedoes, a, boat)
    ensures DamageOn(Blows(detonations, torpedoes), boat) == HarmTo(detonations, torpedoes, boat)
  {
    if detonations != [] {
      var first, rest := detonations[0], detonations[1..];
      var attacker := FiredBy(torpedoes, first.torpedo);
      var blows := if attacker.Some? then BlowsOf(attacker.value, first.hits) else [];
      BlowsAreTheHarm(rest, torpedoes, a, boat);
      DamageSplits(blows, Blows(rest, torpedoes), a, boat);
      DamageOnSplits(blows, Blows(rest, torpedoes), boat);
      FiredByIsFired(torpedoes, first.torpedo, a);
      if attacker.Some? {
        BlowsOfAddUp(attacker.value, first.hits, a, boat);
        FiredByIsFired(torpedoes, first.torpedo, attacker.value);
      } else {
        forall b ensures !Fired(torpedoes, first.torpedo, b) {
          FiredByIsFired(torpedoes, first.torpedo, b);
        }
      }
    }
  }

  // ── The hit points lost ───────────────────────────────────────────────────────────

  /** The same boats in the same places, each once. */
  ghost predicate SameFleet(before: seq<Boat>, after: seq<Boat>) {
    && |before| == |after|
    && (forall i :: 0 <= i < |before| ==> before[i].id == after[i].id)
    && forall i, j :: 0 <= i < j < |before| ==> before[i].id != before[j].id
  }

  lemma {:induction false} PriorIsItsOwn(before: seq<Boat>, i: int)
    requires 0 <= i < |before| && forall j, k :: 0 <= j < k < |before| ==> before[j].id != before[k].id
    ensures PriorOf(before, before[i].id) == Some(before[i])
  {
    if i < |before| - 1 {
      PriorIsItsOwn(before[..|before| - 1], i);
    }
  }

  lemma OwnPrior(before: seq<Boat>, after: seq<Boat>, i: int)
    requires SameFleet(before, after) && 0 <= i < |after|
    ensures PriorOf(before, after[i].id) == Some(before[i])
  {
    PriorIsItsOwn(before, i);
  }

  /** The smaller of the damage done to a boat and the hit points it lost; nothing for one nobody harmed. */
  function WorthOf(damage: real, fall: real): real {
    if damage <= 0.0 then 0.0 else if fall < damage then fall else damage
  }

  /** What the first `n` boats of the fleet are worth to those who harmed them. */
  ghost function WorthInAll(before: seq<Boat>, after: seq<Boat>, n: nat, ds: seq<Detonation>, torpedoes: seq<Torpedo>): real
    requires n <= |before| && n <= |after|
  {
    if n == 0 then 0.0
    else WorthInAll(before, after, n - 1, ds, torpedoes)
         + WorthOf(HarmTo(ds, torpedoes, after[n - 1].id), before[n - 1].hp - after[n - 1].hp)
  }

  lemma {:induction false} WorthIsLanded(before: seq<Boat>, after: seq<Boat>, n: nat, ds: seq<Detonation>, torpedoes: seq<Torpedo>)
    requires SameFleet(before, after) && OneOfEach(torpedoes) && n <= |after|
    ensures BlowsLanded(before, after[..n], Blows(ds, torpedoes)) == WorthInAll(before, after, n, ds, torpedoes)
  {
    if n > 0 {
      assert after[..n][..n - 1] == after[..n - 1];
      WorthIsLanded(before, after, n - 1, ds, torpedoes);
      OwnPrior(before, after, n - 1);
      BlowsAreTheHarm(ds, torpedoes, 0, after[n - 1].id);
    }
  }

  /** Everyone who fired one of the warheads is on the roster. */
  ghost predicate OnRoster(ds: seq<Detonation>, torpedoes: seq<Torpedo>, roster: seq<EntityId>) {
    forall i, a :: 0 <= i < |ds| && Fired(torpedoes, ds[i].torpedo, a) ==> a in roster
  }

  lemma {:induction false} BlowsAreOnRoster(ds: seq<Detonation>, torpedoes: seq<Torpedo>, roster: seq<EntityId>)
    requires OneOfEach(torpedoes) && OnRoster(ds, torpedoes, roster)
    ensures forall b :: b in Blows(ds, torpedoes) ==> b.attacker in roster
  {
    if ds != [] {
      var attacker := FiredBy(torpedoes, ds[0].torpedo);
      assert OnRoster(ds[1..], torpedoes, roster) by {
        assert forall i :: 0 <= i < |ds| - 1 ==> ds[1..][i] == ds[i + 1];
      }
      BlowsAreOnRoster(ds[1..], torpedoes, roster);
      if attacker.Some? {
        FiredByIsFired(torpedoes, ds[0].torpedo, attacker.value);
        assert attacker.value in roster;
        assert forall b :: b in BlowsOf(attacker.value, ds[0].hits) ==> b.attacker == attacker.value;
      }
    }
  }

  /**
   * Over a tick the damage on all the cards grows, boat by boat, by the smaller of the damage done to it by
   * warheads somebody fired and the hit points it lost, and by nothing for a boat nobody harmed.
   */
  lemma CreditIsTheHitPointsLost(t: Tallies, before: seq<Boat>, after: seq<Boat>, ds: seq<Detonation>,
                                 torpedoes: seq<Torpedo>, roster: seq<EntityId>)
    requires SameFleet(before, after) && OneOfEach(torpedoes) && Unique(roster) && OnRoster(ds, torpedoes, roster)
    ensures TotalDealt(AfterFleet(t, before, after, Collected(map[], Blows(ds, torpedoes))), roster)
         == TotalDealt(t, roster) + WorthInAll(before, after, |after|, ds, torpedoes)
  {
    BlowsAreOnRoster(ds, torpedoes, roster);
    TickCreditIsConserved(t, before, after, ds, torpedoes, roster);
    WorthIsLanded(before, after, |after|, ds, torpedoes);
    assert after[..|after|] == after;
  }

  function HitPoints(fleet: seq<Boat>, n: nat): real
    requires n <= |fleet|
  {
    if n == 0 then 0.0 else HitPoints(fleet, n - 1) + fleet[n - 1].hp
  }

  lemma {:induction false} WorthIsWithinTheFall(before: seq<Boat>, after: seq<Boat>, n: nat, ds: seq<Detonation>, torpedoes: seq<Torpedo>)
    requires n <= |before| && n <= |after| && forall i :: 0 <= i < n ==> after[i].hp <= before[i].hp
    ensures WorthInAll(before, after, n, ds, torpedoes) <= HitPoints(before, n) - HitPoints(after, n)
  {
    if n > 0 {
      WorthIsWithinTheFall(before, after, n - 1, ds, torpedoes);
    }
  }

  /** So where no boat gained hit points, the cards grow by no more than the fleet lost. */
  lemma CreditIsWithinTheFall(t: Tallies, before: seq<Boat>, after: seq<Boat>, ds: seq<Detonation>,
                              torpedoes: seq<Torpedo>, roster: seq<EntityId>)
    requires SameFleet(before, after) && OneOfEach(torpedoes) && Unique(roster) && OnRoster(ds, torpedoes, roster)
    requires forall i :: 0 <= i < |after| ==> after[i].hp <= before[i].hp
    ensures TotalDealt(AfterFleet(t, before, after, Collected(map[], Blows(ds, torpedoes))), roster)
         <= TotalDealt(t, roster) + HitPoints(before, |before|) - HitPoints(after, |after|)
  {
    CreditIsTheHitPointsLost(t, before, after, ds, torpedoes, roster);
    WorthIsWithinTheFall(before, after, |after|, ds, torpedoes);
  }

  // ── Each attacker's part ──────────────────────────────────────────────────────────

  /** Of what a boat was worth, an attacker's part: in proportion to the damage it did. */
  function PartOf(own: real, damage: real, fall: real): real {
    if damage <= 0.0 then 0.0
    else if fall < damage then own * (fall / damage)
    else own
  }

  ghost function EarnedBy(before: seq<Boat>, after: seq<Boat>, n: nat, ds: seq<Detonation>, torpedoes: seq<Torpedo>, a: EntityId): real
    requires n <= |before| && n <= |after|
  {
    if n == 0 then 0.0
    else
      EarnedBy(before, after, n - 1, ds, torpedoes, a)
      + PartOf(HarmBy(ds, torpedoes, a, after[n - 1].id), HarmTo(ds, torpedoes, after[n - 1].id),
               before[n - 1].hp - after[n - 1].hp)
  }

  lemma PartIsShare(own: real, damage: real, lost: real)
    ensures PartOf(own, damage, lost) == Share(own, Scale(damage, lost))
  {
    if damage > 0.0 {
      QuotientAgainstOne(lost, damage);
    }
  }

  lemma {:induction false} EarnedIsEarnedBy(before: seq<Boat>, after: seq<Boat>, n: nat, ds: seq<Detonation>,
                                            torpedoes: seq<Torpedo>, a: EntityId)
    requires SameFleet(before, after) && OneOfEach(torpedoes) && n <= |after|
    ensures Earned(before, after[..n], Blows(ds, torpedoes), a) == EarnedBy(before, after, n, ds, torpedoes, a)
  {
    if n > 0 {
      var boat := after[n - 1];
      assert after[..n][..n - 1] == after[..n - 1];
      EarnedIsEarnedBy(before, after, n - 1, ds, torpedoes, a);
      OwnPrior(before, after, n - 1);
      BlowsAreTheHarm(ds, torpedoes, a, boat.id);
      PartIsShare(HarmBy(ds, torpedoes, a, boat.id), HarmTo(ds, torpedoes, boat.id), before[n - 1].hp - boat.hp);
    }
  }

  /**
   * Each attacker's card grows, boat by boat, by the damage it did, or where more was done than the boat
   * lost, by its proportion of what the boat lost.
   */
  lemma CardGrowsByItsPart(t: Tallies, before: seq<Boat>, after: seq<Boat>, ds: seq<Detonation>, torpedoes: seq<Torpedo>, a: EntityId)
    requires SameFleet(before, after) && OneOfEach(torpedoes)
    ensures TallyFor(AfterFleet(t, before, after, Collected(map[], Blows(ds, torpedoes))), a).damageDealt
         == TallyFor(t, a).damageDealt + EarnedBy(before, after, |after|, ds, torpedoes, a)
  {
    EachIsPaidItsPart(t, before, after, Blows(ds, torpedoes), a);
    EarnedIsEarnedBy(before, after, |after|, ds, torpedoes, a);
    assert after[..|after|] == after;
  }

  // ── Kills ─────────────────────────────────────────────────────────────────────────

  /** A boat is put down to nobody exactly when nobody harmed it, and otherwise to one nobody did more harm than. */
  lemma CulpritHarmedItMost(ds: seq<Detonation>, torpedoes: seq<Torpedo>, boat: EntityId, a: EntityId)
    requires OneOfEach(torpedoes)
    ensures var culprit := Culprit(ds, torpedoes, boat);
      && (culprit == None ==> HarmBy(ds, torpedoes, a, boat) <= 0.0)
      && (culprit.Some? ==>
            && HarmBy(ds, torpedoes, culprit.value, boat) > 0.0
            && HarmBy(ds, torpedoes, a, boat) <= HarmBy(ds, torpedoes, culprit.value, boat))
  {
    CulpritDidTheMost(ds, torpedoes, boat, a);
    BlowsAreTheHarm(ds, torpedoes, a, boat);
    if Culprit(ds, torpedoes, boat).Some? {
      BlowsAreTheHarm(ds, torpedoes, Culprit(ds, torpedoes, boat).value, boat);
    }
  }

  /** The boats that were afloat before and are wrecks after, and whose culprit this is, in fleet order. */
  function SankNow(before: seq<Boat>, after: seq<Boat>, n: nat, ds: seq<Detonation>, torpedoes: seq<Torpedo>, a: EntityId)
    : seq<EntityId>
    requires n <= |before| && n <= |after|
  {
    if n == 0 then []
    else
      var was, boat := before[n - 1], after[n - 1];
      SankNow(before, after, n - 1, ds, torpedoes, a)
      + (if was.status == Active && boat.status == Destroyed && Culprit(ds, torpedoes, boat.id) == Some(a)
         then [boat.id] else [])
  }

  lemma {:induction false} SunkByIsSankNow(before: seq<Boat>, after: seq<Boat>, n: nat, ds: seq<Detonation>,
                                           torpedoes: seq<Torpedo>, a: EntityId)
    requires SameFleet(before, after) && n <= |after|
    ensures SunkBy(before, after[..n], Collected(map[], Blows(ds, torpedoes)), a) == SankNow(before, after, n, ds, torpedoes, a)
  {
    if n > 0 {
      assert after[..n][..n - 1] == after[..n - 1];
      SunkByIsSankNow(before, after, n - 1, ds, torpedoes, a);
      OwnPrior(before, after, n - 1);
    }
  }

  /** Each attacker's list grows by exactly the boats this tick made wrecks of and that are put down to it. */
  lemma ListGrowsByWhatItSank(t: Tallies, before: seq<Boat>, after: seq<Boat>, ds: seq<Detonation>, torpedoes: seq<Torpedo>, a: EntityId)
    requires SameFleet(before, after)
    ensures TallyFor(AfterFleet(t, before, after, Collected(map[], Blows(ds, torpedoes))), a).sank
         == TallyFor(t, a).sank + SankNow(before, after, |after|, ds, torpedoes, a)
  {
    KillsGoToTheLeader(t, before, after, Collected(map[], Blows(ds, torpedoes)), a);
    SunkByIsSankNow(before, after, |after|, ds, torpedoes, a);
    assert after[..|after|] == after;
  }
}
