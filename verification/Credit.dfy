/**
 * Who gets the credit for the damage and the kills of one tick
 * (packages/server/src/match/runtime.ts, `creditWeapons` and `tallyFor`).
 *
 * The claims on a hull may add up to more than it had. What is shared out is never more than it lost,
 * and the kill goes to one claimant. Hit points and damage are reals.
 */
module Credit {
  import opened Options
  import opened Measures
  import opened MatchTypes

  datatype Status = Active | Destroyed
  datatype Boat = Boat(id: EntityId, hp: real, status: Status)
  datatype Torpedo = Torpedo(id: EntityId, firedBy: EntityId)
  datatype Hit = Hit(boat: EntityId, damage: real)
  datatype Detonation = Detonation(torpedo: EntityId, hits: seq<Hit>)

  datatype Tally = Tally(damageDealt: real, sank: seq<EntityId>)

  const NO_TALLY := Tally(0.0, [])

  type Tallies = map<EntityId, Tally>

  /** What one attacker claims against one victim. */
  datatype Claim = Claim(attacker: EntityId, damage: real)

  /** Per victim, the claims against it in the order its attackers first hit it. */
  type Claims = map<EntityId, seq<Claim>>

  function TallyFor(t: Tallies, boat: EntityId): Tally {
    if boat in t then t[boat] else NO_TALLY
  }

  // ── Collecting the claims ─────────────────────────────────────────────────────────

  /** The boat that fired a torpedo; the last listed under an id counts. */
  function FiredBy(torpedoes: seq<Torpedo>, id: EntityId): Option<EntityId> {
    if torpedoes == [] then None
    else if torpedoes[|torpedoes| - 1].id == id then Some(torpedoes[|torpedoes| - 1].firedBy)
    else FiredBy(torpedoes[..|torpedoes| - 1], id)
  }

  /** One hull caught by one warhead whose firer is known. */
  datatype Blow = Blow(attacker: EntityId, victim: EntityId, damage: real)

  function BlowsOf(attacker: EntityId, hits: seq<Hit>): seq<Blow> {
    seq(|hits|, i requires 0 <= i < |hits| => Blow(attacker, hits[i].boat, hits[i].damage))
  }

  function Blows(detonations: seq<Detonation>, torpedoes: seq<Torpedo>): seq<Blow> {
    if detonations == [] then []
    else
      var attacker := FiredBy(torpedoes, detonations[0].torpedo);
      (if attacker.Some? then BlowsOf(attacker.value, detonations[0].hits) else [])
        + Blows(detonations[1..], torpedoes)
  }

  function Raised(cs: seq<Claim>, attacker: EntityId, damage: real): seq<Claim> {
    if cs == [] then [Claim(attacker, 0.0 + damage)]
    else if cs[0].attacker == attacker then [cs[0].(damage := cs[0].damage + damage)] + cs[1..]
    else [cs[0]] + Raised(cs[1..], attacker, damage)
  }

  function ClaimsOn(c: Claims, victim: EntityId): seq<Claim> {
    if victim in c then c[victim] else []
  }

  function Recorded(c: Claims, b: Blow): Claims {
    c[b.victim := Raised(ClaimsOn(c, b.victim), b.attacker, b.damage)]
  }

  function Collected(c: Claims, blows: seq<Blow>): Claims {
    if blows == [] then c else Recorded(Collected(c, blows[..|blows| - 1]), blows[|blows| - 1])
  }

  lemma {:induction false} CollectedSplit(c: Claims, xs: seq<Blow>, ys: seq<Blow>)
    ensures Collected(c, xs + ys) == Collected(Collected(c, xs), ys)
  {
    if ys == [] {
      assert xs + ys == xs;
    } else {
      assert (xs + ys)[..|xs + ys| - 1] == xs + ys[..|ys| - 1];
      CollectedSplit(c, xs, ys[..|ys| - 1]);
    }
  }

  /** What an attacker really did to a victim, added up blow by blow. */
  function DamageBy(blows: seq<Blow>, attacker: EntityId, victim: EntityId): real {
    if blows == [] then 0.0
    else
      var b := blows[|blows| - 1];
      DamageBy(blows[..|blows| - 1], attacker, victim)
        + (if b.attacker == attacker && b.victim == victim then b.damage else 0.0)
  }

  function ClaimOf(cs: seq<Claim>, attacker: EntityId): real {
    if cs == [] then 0.0
    else if cs[0].attacker == attacker then cs[0].damage
    else ClaimOf(cs[1..], attacker)
  }

  ghost predicate OneEach(cs: seq<Claim>) {
    forall i, j :: 0 <= i < j < |cs| ==> cs[i].attacker != cs[j].attacker
  }

  lemma {:induction false} RaisedAdds(cs: seq<Claim>, attacker: EntityId, damage: real, a: EntityId)
    ensures ClaimOf(Raised(cs, attacker, damage), a) == ClaimOf(cs, a) + (if a == attacker then damage else 0.0)
  {
    if cs != [] && cs[0].attacker != attacker {
      RaisedAdds(cs[1..], attacker, damage, a);
    }
  }

  lemma {:induction false} RaisedNames(cs: seq<Claim>, attacker: EntityId, damage: real)
    ensures forall i :: 0 <= i < |Raised(cs, attacker, damage)| ==>
      Raised(cs, attacker, damage)[i].attacker == attacker || Raised(cs, attacker, damage)[i] in cs
  {
    if cs != [] && cs[0].attacker != attacker {
      RaisedNames(cs[1..], attacker, damage);
    }
  }

  lemma {:induction false} RaisedStaysOneEach(cs: seq<Claim>, attacker: EntityId, damage: real)
    requires OneEach(cs)
    ensures OneEach(Raised(cs, attacker, damage))
  {
    if cs != [] && cs[0].attacker != attacker {
      var rest := Raised(cs[1..], attacker, damage);
      RaisedStaysOneEach(cs[1..], attacker, damage);
      RaisedNames(cs[1..], attacker, damage);
      forall j | 0 <= j < |rest| ensures cs[0].attacker != rest[j].attacker {
        assert forall c :: c in cs[1..] ==> c.attacker != cs[0].attacker;
      }
    }
  }

  /** The claims collected are exactly the damage done: one claim an attacker, for the sum of its blows. */
  lemma {:induction false} ClaimsAreTheDamage(blows: seq<Blow>, attacker: EntityId, victim: EntityId)
    ensures OneEach(ClaimsOn(Collected(map[], blows), victim))
    ensures ClaimOf(ClaimsOn(Collected(map[], blows), victim), attacker) == DamageBy(blows, attacker, victim)
  {
    if blows != [] {
      var b := blows[|blows| - 1];
      ClaimsAreTheDamage(blows[..|blows| - 1], attacker, victim);
      if b.victim == victim {
        var was := ClaimsOn(Collected(map[], blows[..|blows| - 1]), victim);
        RaisedStaysOneEach(was, b.attacker, b.damage);
        RaisedAdds(was, b.attacker, b.damage, attacker);
      }
    }
  }

  // ── Sharing out what landed ───────────────────────────────────────────────────────

  function TotalClaim(cs: seq<Claim>): real {
    if cs == [] then 0.0 else TotalClaim(cs[..|cs| - 1]) + cs[|cs| - 1].damage
  }

  function Scale(total: real, lost: real): real {
    if total <= 0.0 then 0.0 else MinR(1.0, lost / total)
  }

  /** What the claims on one victim are worth: no more than was claimed, no more than was lost. */
  function Landed(total: real, lost: real): real {
    if total <= 0.0 then 0.0 else MinR(total, lost)
  }

  /** An attacker's part of what landed. */
  function Share(damage: real, scale: real): real {
    damage * scale
  }

  lemma ScaledTotalLands(total: real, lost: real)
    ensures total > 0.0 ==> Share(total, Scale(total, lost)) == Landed(total, lost)
  {
  }

  function Credited(t: Tallies, attacker: EntityId, amount: real): Tallies {
    t[attacker := TallyFor(t, attacker).(damageDealt := TallyFor(t, attacker).damageDealt + amount)]
  }

  function CreditedAll(t: Tallies, cs: seq<Claim>, scale: real): Tallies {
    if cs == [] then t
    else
      var c := cs[|cs| - 1];
      Credited(CreditedAll(t, cs[..|cs| - 1], scale), c.attacker, Share(c.damage, scale))
  }

  /** The first of the largest positive claims. */
  function Killer(cs: seq<Claim>): Option<Claim> {
    if cs == [] then None
    else
      var best := Killer(cs[..|cs| - 1]);
      var c := cs[|cs| - 1];
      if c.damage > (if best.Some? then best.value.damage else 0.0) then Some(c) else best
  }

  function WithKill(t: Tallies, killer: Option<Claim>, victim: EntityId): Tallies {
    if killer.None? then t
    else t[killer.value.attacker := TallyFor(t, killer.value.attacker).(sank := TallyFor(t, killer.value.attacker).sank + [victim])]
  }

  function PriorOf(before: seq<Boat>, id: EntityId): Option<Boat> {
    if before == [] then None
    else if before[|before| - 1].id == id then Some(before[|before| - 1])
    else PriorOf(before[..|before| - 1], id)
  }

  function Lost(before: seq<Boat>, boat: Boat): real {
    (if PriorOf(before, boat.id).Some? then PriorOf(before, boat.id).value.hp else boat.hp) - boat.hp
  }

  predicate SunkNow(before: seq<Boat>, boat: Boat) {
    boat.status == Destroyed && PriorOf(before, boat.id).Some? && PriorOf(before, boat.id).value.status == Active
  }

  function AfterBoat(t: Tallies, before: seq<Boat>, boat: Boat, cs: seq<Claim>): Tallies {
    var paid := CreditedAll(t, cs, Scale(TotalClaim(cs), Lost(before, boat)));
    if SunkNow(before, boat) then WithKill(paid, Killer(cs), boat.id) else paid
  }

  function AfterFleet(t: Tallies, before: seq<Boat>, after: seq<Boat>, claimed: Claims): Tallies {
    if after == [] then t
    else
      var rest := AfterFleet(t, before, after[..|after| - 1], claimed);
      var boat := after[|after| - 1];
      AfterBoat(rest, before, boat, ClaimsOn(claimed, boat.id))
  }

  // ── The runtime's bookkeeping ─────────────────────────────────────────────────────

  class MatchTallies {
    var tallies: Tallies

    constructor ()
      ensures tallies == map[]
    {
      tallies := map[];
    }

    method CreditWeapons(before: seq<Boat>, after: seq<Boat>, detonations: seq<Detonation>, torpedoes: seq<Torpedo>)
      modifies this
      ensures tallies == AfterFleet(old(tallies), before, after, Collected(map[], Blows(detonations, torpedoes)))
    {
      if |detonations| == 0 {
        NoClaimsNoCredit(tallies, before, after);
        return;
      }
      var claimed := CollectClaims(detonations, torpedoes);
      var k := 0;
      while k < |after|
        invariant 0 <= k <= |after|
        invariant tallies == AfterFleet(old(tallies), before, after[..k], claimed)
      {
        assert after[..k + 1][..k] == after[..k];
        UnclaimedIsUntouched(tallies, before, after[k]);
        if after[k].id in claimed {
          CreditBoat(before, after[k], claimed[after[k].id]);
        }
        k := k + 1;
      }
      assert after[..k] == after;
    }

    /** Victim by victim, attacker by attacker, what was claimed. */
    method CollectClaims(detonations: seq<Detonation>, torpedoes: seq<Torpedo>) returns (claimed: Claims)
      ensures claimed == Collected(map[], Blows(detonations, torpedoes))
    {
      claimed := map[];
      var i := 0;
      while i < |detonations|
        invariant 0 <= i <= |detonations|
        invariant Collected(claimed, Blows(detonations[i..], torpedoes)) == Collected(map[], Blows(detonations, torpedoes))
      {
        assert detonations[i..][1..] == detonations[i + 1..];
        ghost var rest := Blows(detonations[i + 1..], torpedoes);
        var attacker := FiredBy(torpedoes, detonations[i].torpedo);
        if attacker.Some? {
          CollectedSplit(claimed, BlowsOf(attacker.value, detonations[i].hits), rest);
          claimed := ClaimHits(claimed, attacker.value, detonations[i].hits);
        } else {
          assert [] + rest == rest;
        }
        i := i + 1;
      }
    }

    method ClaimHits(c: Claims, attacker: EntityId, hits: seq<Hit>) returns (claimed: Claims)
      ensures claimed == Collected(c, BlowsOf(attacker, hits))
    {
      claimed := c;
      ghost var blows := BlowsOf(attacker, hits);
      var j := 0;
      while j < |hits|
        invariant 0 <= j <= |hits|
        invariant claimed == Collected(c, blows[..j])
      {
        assert blows[..j + 1][..j] == blows[..j];
        claimed := claimed[hits[j].boat := Raised(ClaimsOn(claimed, hits[j].boat), attacker, hits[j].damage)];
        j := j + 1;
      }
      assert blows[..j] == blows;
    }

    method CreditBoat(before: seq<Boat>, boat: Boat, attackers: seq<Claim>)
      modifies this
      ensures tallies == AfterBoat(old(tallies), before, boat, attackers)
    {
      var total := 0.0;
      var j := 0;
      while j < |attackers|
        invariant 0 <= j <= |attackers| && total == TotalClaim(attackers[..j])
      {
        assert attackers[..j + 1][..j] == attackers[..j];
        total := total + attackers[j].damage;
        j := j + 1;
      }
      assert attackers[..j] == attackers;
      var killer := PayOut(attackers, Scale(total, Lost(before, boat)));
      if SunkNow(before, boat) && killer.Some? {
        tallies := tallies[killer.value := TallyFor(tallies, killer.value).(sank := TallyFor(tallies, killer.value).sank + [boat.id])];
      }
    }

    /** Pay every attacker its share, noting whose claim is the largest. */
    method PayOut(attackers: seq<Claim>, scale: real) returns (killer: Option<EntityId>)
      modifies this
      ensures tallies == CreditedAll(old(tallies), attackers, scale)
      ensures killer == if Killer(attackers).Some? then Some(Killer(attackers).value.attacker) else None
    {
      killer := None;
      var largest := 0.0;
      var j := 0;
      while j < |attackers|
        invariant 0 <= j <= |attackers|
        invariant tallies == CreditedAll(old(tallies), attackers[..j], scale)
        invariant Killer(attackers[..j]) == if killer.Some? then Some(Claim(killer.value, largest)) else None
        invariant killer.None? ==> largest == 0.0
      {
        ghost var upTo := attackers[..j + 1];
        assert upTo[..|upTo| - 1] == attackers[..j];
        var attacker, damage := attackers[j].attacker, attackers[j].damage;
        tallies := Credited(tallies, attacker, Share(damage, scale));
        assert tallies == CreditedAll(old(tallies), upTo, scale);
        if damage > largest {
          largest := damage;
          killer := Some(attacker);
        }
        j := j + 1;
      }
      assert attackers[..j] == attackers;
    }
  }

  lemma UnclaimedIsUntouched(t: Tallies, before: seq<Boat>, boat: Boat)
    ensures AfterBoat(t, before, boat, []) == t
  {
  }

  lemma {:induction false} NoClaimsNoCredit(t: Tallies, before: seq<Boat>, after: seq<Boat>)
    ensures AfterFleet(t, before, after, map[]) == t
  {
    if after != [] {
      NoClaimsNoCredit(t, before, after[..|after| - 1]);
    }
  }

  // ── Conservation ──────────────────────────────────────────────────────────────────

  /** All the damage credited to the boats of a roster. */
  function TotalDealt(t: Tallies, roster: seq<EntityId>): real {
    if roster == [] then 0.0 else TallyFor(t, roster[0]).damageDealt + TotalDealt(t, roster[1..])
  }

  ghost predicate Unique(roster: seq<EntityId>) {
    forall i, j :: 0 <= i < j < |roster| ==> roster[i] != roster[j]
  }

  lemma {:induction false} TotalDealtSame(t: Tallies, t': Tallies, roster: seq<EntityId>)
    requires forall a :: a in roster ==> TallyFor(t', a).damageDealt == TallyFor(t, a).damageDealt
    ensures TotalDealt(t', roster) == TotalDealt(t, roster)
  {
    if roster != [] {
      TotalDealtSame(t, t', roster[1..]);
    }
  }

  lemma {:induction false} CreditedAddsUp(t: Tallies, attacker: EntityId, amount: real, roster: seq<EntityId>)
    requires Unique(roster) && attacker in roster
    ensures TotalDealt(Credited(t, attacker, amount), roster) == TotalDealt(t, roster) + amount
  {
    if roster[0] == attacker {
      TotalDealtSame(t, Credited(t, attacker, amount), roster[1..]);
    } else {
      CreditedAddsUp(t, attacker, amount, roster[1..]);
    }
  }

  lemma {:induction false} CreditedAllAddsUp(t: Tallies, cs: seq<Claim>, scale: real, roster: seq<EntityId>)
    requires Unique(roster) && forall c :: c in cs ==> c.attacker in roster
    ensures TotalDealt(CreditedAll(t, cs, scale), roster) == TotalDealt(t, roster) + Share(TotalClaim(cs), scale)
  {
    if cs != [] {
      var init, c := cs[..|cs| - 1], cs[|cs| - 1];
      CreditedAllAddsUp(t, init, scale, roster);
      CreditedAddsUp(CreditedAll(t, init, scale), c.attacker, Share(c.damage, scale), roster);
      assert TotalClaim(cs) == TotalClaim(init) + c.damage;
      Distributes(TotalClaim(init), c.damage, scale);
    }
  }

  lemma Distributes(x: real, y: real, s: real)
    ensures Share(x + y, s) == Share(x, s) + Share(y, s)
  {
  }

  /** What a fleet's claims are worth in all. */
  function FleetLanded(before: seq<Boat>, after: seq<Boat>, claimed: Claims): real {
    if after == [] then 0.0
    else
      var boat := after[|after| - 1];
      FleetLanded(before, after[..|after| - 1], claimed)
        + Landed(TotalClaim(ClaimsOn(claimed, boat.id)), Lost(before, boat))
  }

  lemma AfterBoatAddsUp(t: Tallies, before: seq<Boat>, boat: Boat, cs: seq<Claim>, roster: seq<EntityId>)
    requires Unique(roster) && forall c :: c in cs ==> c.attacker in roster
    ensures TotalDealt(AfterBoat(t, before, boat, cs), roster)
         == TotalDealt(t, roster) + Landed(TotalClaim(cs), Lost(before, boat))
  {
    var scale := Scale(TotalClaim(cs), Lost(before, boat));
    CreditedAllAddsUp(t, cs, scale, roster);
    ScaledTotalLands(TotalClaim(cs), Lost(before, boat));
    var paid := CreditedAll(t, cs, scale);
    TotalDealtSame(paid, AfterBoat(t, before, boat, cs), roster);
  }

  /**
   * Over a tick, the damage credited to all attackers grows by exactly the sum over victims of the
   * smaller of what was claimed against each and what it lost.
   */
  lemma {:induction false} CreditIsConserved(t: Tallies, before: seq<Boat>, after: seq<Boat>, claimed: Claims, roster: seq<EntityId>)
    requires Unique(roster) && forall v, c :: v in claimed && c in claimed[v] ==> c.attacker in roster
    ensures TotalDealt(AfterFleet(t, before, after, claimed), roster)
         == TotalDealt(t, roster) + FleetLanded(before, after, claimed)
  {
    if after != [] {
      var boat := after[|after| - 1];
      CreditIsConserved(t, before, after[..|after| - 1], claimed, roster);
      AfterBoatAddsUp(AfterFleet(t, before, after[..|after| - 1], claimed), before, boat, ClaimsOn(claimed, boat.id), roster);
    }
  }

  /** All the attributable damage done to a victim. */
  function DamageOn(blows: seq<Blow>, victim: EntityId): real {
    if blows == [] then 0.0
    else
      var b := blows[|blows| - 1];
      DamageOn(blows[..|blows| - 1], victim) + (if b.victim == victim then b.damage else 0.0)
  }

  lemma {:induction false} RaisedTotal(cs: seq<Claim>, attacker: EntityId, damage: real)
    ensures TotalClaim(Raised(cs, attacker, damage)) == TotalClaim(cs) + damage
  {
    var out := Raised(cs, attacker, damage);
    if cs == [] {
      assert out[..0] == [];
    } else if cs[0].attacker == attacker {
      TotalFrom(cs);
      TotalFrom(out);
      assert out[1..] == cs[1..];
    } else {
      TotalFrom(cs);
      TotalFrom(out);
      assert out[1..] == Raised(cs[1..], attacker, damage);
      RaisedTotal(cs[1..], attacker, damage);
    }
  }

  lemma {:induction false} TotalFrom(cs: seq<Claim>)
    requires cs != []
    ensures TotalClaim(cs) == cs[0].damage + TotalClaim(cs[1..])
  {
    var n := |cs| - 1;
    if n == 0 {
      assert cs[..0] == [] && cs[1..] == [];
    } else {
      TotalFrom(cs[..n]);
      assert cs[..n][1..] == cs[1..][..n - 1];
    }
  }

  lemma {:induction false} ClaimsAddUpToTheDamage(blows: seq<Blow>, victim: EntityId)
    ensures TotalClaim(ClaimsOn(Collected(map[], blows), victim)) == DamageOn(blows, victim)
  {
    if blows != [] {
      var b := blows[|blows| - 1];
      ClaimsAddUpToTheDamage(blows[..|blows| - 1], victim);
      RaisedTotal(ClaimsOn(Collected(map[], blows[..|blows| - 1]), victim), b.attacker, b.damage);
    }
  }

  /** The same, victim by victim, straight from the blows. */
  function BlowsLanded(before: seq<Boat>, after: seq<Boat>, blows: seq<Blow>): real {
    if after == [] then 0.0
    else
      var boat := after[|after| - 1];
      BlowsLanded(before, after[..|after| - 1], blows) + Landed(DamageOn(blows, boat.id), Lost(before, boat))
  }

  lemma {:induction false} BlowsLandAsClaimed(before: seq<Boat>, after: seq<Boat>, blows: seq<Blow>)
    ensures FleetLanded(before, after, Collected(map[], blows)) == BlowsLanded(before, after, blows)
  {
    if after != [] {
      BlowsLandAsClaimed(before, after[..|after| - 1], blows);
      ClaimsAddUpToTheDamage(blows, after[|after| - 1].id);
    }
  }

  lemma {:induction false} AttackersAreBlowsAttackers(blows: seq<Blow>, v: EntityId, c: Claim)
    requires c in ClaimsOn(Collected(map[], blows), v)
    ensures exists b :: b in blows && b.attacker == c.attacker
  {
    var b := blows[|blows| - 1];
    var init := blows[..|blows| - 1];
    var was := ClaimsOn(Collected(map[], init), v);
    assert b in blows;
    if b.victim == v {
      RaisedKeepsAttackers(was, b.attacker, b.damage, c);
    }
    if c.attacker != b.attacker || b.victim != v {
      var d :| d in was && d.attacker == c.attacker;
      AttackersAreBlowsAttackers(init, v, d);
      var e :| e in init && e.attacker == d.attacker;
      assert e in blows;
    }
  }

  lemma {:induction false} RaisedKeepsAttackers(cs: seq<Claim>, attacker: EntityId, damage: real, c: Claim)
    requires c in Raised(cs, attacker, damage)
    ensures c.attacker == attacker || exists d :: d in cs && d.attacker == c.attacker
  {
    if cs != [] && cs[0].attacker != attacker {
      if c == cs[0] {
        assert c in cs;
      } else {
        RaisedKeepsAttackers(cs[1..], attacker, damage, c);
      }
    } else if cs != [] && c != Raised(cs, attacker, damage)[0] {
      assert c in cs[1..];
    }
  }

  /**
   * A tick's bookkeeping, from the detonations to the cards: the damage credited grows by exactly what
   * the attributable blows were worth, each victim's worth capped by the hit points it lost.
   */
  lemma TickCreditIsConserved(t: Tallies, before: seq<Boat>, after: seq<Boat>, detonations: seq<Detonation>,
                              torpedoes: seq<Torpedo>, roster: seq<EntityId>)
    requires Unique(roster) && forall b :: b in Blows(detonations, torpedoes) ==> b.attacker in roster
    ensures var blows := Blows(detonations, torpedoes);
      TotalDealt(AfterFleet(t, before, after, Collected(map[], blows)), roster)
        == TotalDealt(t, roster) + BlowsLanded(before, after, blows)
  {
    var blows := Blows(detonations, torpedoes);
    var claimed := Collected(map[], blows);
    forall v, c: Claim | v in claimed && c in claimed[v] ensures c.attacker in roster {
      AttackersAreBlowsAttackers(blows, v, c);
    }
    CreditIsConserved(t, before, after, claimed, roster);
    BlowsLandAsClaimed(before, after, blows);
  }

  /** And each attacker is paid its own part: its blows on each victim, scaled alike for everyone. */
  function Earned(before: seq<Boat>, after: seq<Boat>, blows: seq<Blow>, a: EntityId): real {
    if after == [] then 0.0
    else
      var boat := after[|after| - 1];
      Earned(before, after[..|after| - 1], blows, a)
        + Share(DamageBy(blows, a, boat.id), Scale(DamageOn(blows, boat.id), Lost(before, boat)))
  }

  lemma {:induction false} PaidItsClaim(t: Tallies, cs: seq<Claim>, scale: real, a: EntityId)
    requires OneEach(cs)
    ensures TallyFor(CreditedAll(t, cs, scale), a).damageDealt == TallyFor(t, a).damageDealt + Share(ClaimOf(cs, a), scale)
  {
    if cs != [] {
      var n := |cs| - 1;
      PaidItsClaim(t, cs[..n], scale, a);
      ClaimFromTheEnd(cs, a);
    }
  }

  lemma {:induction false} ClaimFromTheEnd(cs: seq<Claim>, a: EntityId)
    requires OneEach(cs) && cs != []
    ensures cs[|cs| - 1].attacker == a ==>
      ClaimOf(cs, a) == cs[|cs| - 1].damage && ClaimOf(cs[..|cs| - 1], a) == 0.0
    ensures cs[|cs| - 1].attacker != a ==> ClaimOf(cs, a) == ClaimOf(cs[..|cs| - 1], a)
  {
    var n := |cs| - 1;
    if n == 0 {
      assert cs[..0] == [] && cs[1..] == [];
    } else {
      assert cs[1..][..n - 1] == cs[..n][1..];
      ClaimFromTheEnd(cs[1..], a);
    }
  }

  lemma {:induction false} EachIsPaidItsPart(t: Tallies, before: seq<Boat>, after: seq<Boat>, blows: seq<Blow>, a: EntityId)
    ensures TallyFor(AfterFleet(t, before, after, Collected(map[], blows)), a).damageDealt
         == TallyFor(t, a).damageDealt + Earned(before, after, blows, a)
  {
    if after != [] {
      var claimed := Collected(map[], blows);
      var boat := after[|after| - 1];
      var cs := ClaimsOn(claimed, boat.id);
      EachIsPaidItsPart(t, before, after[..|after| - 1], blows, a);
      ClaimsAreTheDamage(blows, a, boat.id);
      ClaimsAddUpToTheDamage(blows, boat.id);
      PaidItsClaim(AfterFleet(t, before, after[..|after| - 1], claimed), cs, Scale(TotalClaim(cs), Lost(before, boat)), a);
    }
  }

  function FleetLost(before: seq<Boat>, after: seq<Boat>): real {
    if after == [] then 0.0 else FleetLost(before, after[..|after| - 1]) + Lost(before, after[|after| - 1])
  }

  /** So it never exceeds the hit points the fleet lost. */
  lemma {:induction false} CreditNeverExceedsLosses(before: seq<Boat>, after: seq<Boat>, claimed: Claims)
    requires forall i :: 0 <= i < |after| ==> Lost(before, after[i]) >= 0.0
    ensures FleetLanded(before, after, claimed) <= FleetLost(before, after)
  {
    if after != [] {
      CreditNeverExceedsLosses(before, after[..|after| - 1], claimed);
    }
  }

  // ── Kills ─────────────────────────────────────────────────────────────────────────

  /** The killer's claim is positive, no other is larger, and every earlier one is smaller. */
  ghost predicate LeadsAt(cs: seq<Claim>, i: int) {
    && 0 <= i < |cs| && cs[i].damage > 0.0
    && (forall j :: 0 <= j < |cs| ==> cs[j].damage <= cs[i].damage)
    && (forall j :: 0 <= j < i ==> cs[j].damage < cs[i].damage)
  }

  lemma {:induction false} KillerLeads(cs: seq<Claim>)
    ensures Killer(cs).None? <==> forall j :: 0 <= j < |cs| ==> cs[j].damage <= 0.0
    ensures Killer(cs).Some? ==> exists i :: LeadsAt(cs, i) && Killer(cs) == Some(cs[i])
  {
    if cs != [] {
      var n := |cs| - 1;
      KillerLeads(cs[..n]);
      var best := Killer(cs[..n]);
      if best.Some? {
        var i :| LeadsAt(cs[..n], i) && best == Some(cs[..n][i]);
        assert cs[..n][i] == cs[i];
        forall j | 0 <= j < n ensures cs[j].damage <= cs[i].damage && (j < i ==> cs[j].damage < cs[i].damage) {
          assert cs[..n][j] == cs[j];
        }
        assert if cs[n].damage > cs[i].damage then LeadsAt(cs, n) else LeadsAt(cs, i);
      } else {
        forall j | 0 <= j < n ensures cs[j].damage <= 0.0 {
          assert cs[..n][j] == cs[j];
        }
        assert cs[n].damage > 0.0 ==> LeadsAt(cs, n);
      }
    }
  }

  /** The boats of a fleet that an attacker sank this tick: sunk just now, and it leads the claims on them. */
  function SunkBy(before: seq<Boat>, after: seq<Boat>, claimed: Claims, attacker: EntityId): seq<EntityId> {
    if after == [] then []
    else
      var boat := after[|after| - 1];
      var killer := Killer(ClaimsOn(claimed, boat.id));
      SunkBy(before, after[..|after| - 1], claimed, attacker)
        + (if SunkNow(before, boat) && killer.Some? && killer.value.attacker == attacker then [boat.id] else [])
  }

  lemma {:induction false} CreditingKeepsSank(t: Tallies, cs: seq<Claim>, scale: real, a: EntityId)
    ensures TallyFor(CreditedAll(t, cs, scale), a).sank == TallyFor(t, a).sank
  {
    if cs != [] {
      CreditingKeepsSank(t, cs[..|cs| - 1], scale, a);
    }
  }

  /** An attacker's list grows by the hulls newly destroyed of which it is the killer, in fleet order. */
  lemma {:induction false} KillsGoToTheLeader(t: Tallies, before: seq<Boat>, after: seq<Boat>, claimed: Claims, a: EntityId)
    ensures TallyFor(AfterFleet(t, before, after, claimed), a).sank
         == TallyFor(t, a).sank + SunkBy(before, after, claimed, a)
  {
    if after != [] {
      var boat := after[|after| - 1];
      var cs := ClaimsOn(claimed, boat.id);
      var rest := AfterFleet(t, before, after[..|after| - 1], claimed);
      KillsGoToTheLeader(t, before, after[..|after| - 1], claimed, a);
      CreditingKeepsSank(rest, cs, Scale(TotalClaim(cs), Lost(before, boat)), a);
    }
  }

  lemma {:induction false} SunkByMeans(before: seq<Boat>, after: seq<Boat>, claimed: Claims, a: EntityId, v: EntityId)
    ensures v in SunkBy(before, after, claimed, a) <==>
      exists i :: 0 <= i < |after| && after[i].id == v && SunkNow(before, after[i])
        && Killer(ClaimsOn(claimed, v)).Some? && Killer(ClaimsOn(claimed, v)).value.attacker == a
  {
    if after != [] {
      var n := |after| - 1;
      SunkByMeans(before, after[..n], claimed, a, v);
      assert forall i :: 0 <= i < n ==> after[..n][i] == after[i];
    }
  }

  predicate JustSunk(before: seq<Boat>, after: seq<Boat>, v: EntityId) {
    exists i :: 0 <= i < |after| && after[i].id == v && SunkNow(before, after[i])
  }

  predicate Hurt(cs: seq<Claim>) {
    exists i :: 0 <= i < |cs| && cs[i].damage > 0.0
  }

  /**
   * A boat sunk this tick is on exactly one attacker's new list, one with the largest claim on it; and
   * on nobody's if no detonation claims it.
   */
  lemma OneKillerEach(before: seq<Boat>, after: seq<Boat>, claimed: Claims, v: EntityId, a: EntityId, b: EntityId)
    ensures v in SunkBy(before, after, claimed, a) && v in SunkBy(before, after, claimed, b) ==> a == b
    ensures v in SunkBy(before, after, claimed, a) ==>
      exists i :: LeadsAt(ClaimsOn(claimed, v), i) && ClaimsOn(claimed, v)[i].attacker == a
    ensures v !in claimed ==> v !in SunkBy(before, after, claimed, a)
    ensures JustSunk(before, after, v) && Hurt(ClaimsOn(claimed, v)) ==>
      exists k :: v in SunkBy(before, after, claimed, k)
  {
    SunkByMeans(before, after, claimed, a, v);
    SunkByMeans(before, after, claimed, b, v);
    var cs := ClaimsOn(claimed, v);
    KillerLeads(cs);
    if Killer(cs).Some? {
      SunkByMeans(before, after, claimed, Killer(cs).value.attacker, v);
    }
  }

  /** `c` is hurtful, and every other claim is smaller. */
  ghost predicate StrictlyLeads(cs: seq<Claim>, c: Claim) {
    c in cs && c.damage > 0.0 && forall d :: d in cs && d != c ==> d.damage < c.damage
  }

  lemma StrictLeaderIsTheKiller(cs: seq<Claim>, c: Claim)
    requires StrictlyLeads(cs, c)
    ensures Killer(cs) == Some(c)
  {
    KillerLeads(cs);
    var i :| 0 <= i < |cs| && cs[i] == c;
    var k :| LeadsAt(cs, k) && Killer(cs) == Some(cs[k]);
    assert cs[i].damage <= cs[k].damage;
  }

  // ── What the order of the detonations can change ──────────────────────────────────

  /** Who a hull's loss is put down to, straight from the detonations. */
  function Culprit(detonations: seq<Detonation>, torpedoes: seq<Torpedo>, victim: EntityId): Option<EntityId> {
    var killer := Killer(ClaimsOn(Collected(map[], Blows(detonations, torpedoes)), victim));
    if killer.Some? then Some(killer.value.attacker) else None
  }

  /** The damage an attacker's warheads did to a victim, over all these detonations. */
  function Harm(detonations: seq<Detonation>, torpedoes: seq<Torpedo>, attacker: EntityId, victim: EntityId): real {
    DamageBy(Blows(detonations, torpedoes), attacker, victim)
  }

  lemma {:induction false} ClaimOfMember(cs: seq<Claim>, i: int)
    requires OneEach(cs) && 0 <= i < |cs|
    ensures ClaimOf(cs, cs[i].attacker) == cs[i].damage
  {
    if i > 0 {
      assert cs[0].attacker != cs[i].attacker;
      ClaimOfMember(cs[1..], i - 1);
    }
  }

  lemma {:induction false} NoClaimIsZero(cs: seq<Claim>, a: EntityId)
    requires forall i :: 0 <= i < |cs| ==> cs[i].attacker != a
    ensures ClaimOf(cs, a) == 0.0
  {
    if cs != [] {
      NoClaimIsZero(cs[1..], a);
    }
  }

  ghost predicate IsClaimant(cs: seq<Claim>, a: EntityId) {
    exists i :: 0 <= i < |cs| && cs[i].attacker == a
  }

  /**
   * The killer in terms of the damage done: there is none exactly when nobody did any, and otherwise
   * nobody did more than it.
   */
  lemma CulpritDidTheMost(detonations: seq<Detonation>, torpedoes: seq<Torpedo>, v: EntityId, a: EntityId)
    ensures Culprit(detonations, torpedoes, v) == None ==> Harm(detonations, torpedoes, a, v) <= 0.0
    ensures Culprit(detonations, torpedoes, v).Some? ==>
      var k := Culprit(detonations, torpedoes, v).value;
      Harm(detonations, torpedoes, k, v) > 0.0 && Harm(detonations, torpedoes, a, v) <= Harm(detonations, torpedoes, k, v)
  {
    var blows := Blows(detonations, torpedoes);
    var cs := ClaimsOn(Collected(map[], blows), v);
    ClaimsAreTheDamage(blows, a, v);
    KillerLeads(cs);
    if IsClaimant(cs, a) {
      var j :| 0 <= j < |cs| && cs[j].attacker == a;
      ClaimOfMember(cs, j);
    } else {
      NoClaimIsZero(cs, a);
    }
    if Killer(cs).Some? {
      var i :| LeadsAt(cs, i) && Killer(cs) == Some(cs[i]);
      ClaimsAreTheDamage(blows, cs[i].attacker, v);
      ClaimOfMember(cs, i);
    }
  }

  ghost predicate Reordered(xs: seq<Detonation>, ys: seq<Detonation>) {
    multiset(xs) == multiset(ys)
  }

  lemma {:induction false} DamageSplits(xs: seq<Blow>, ys: seq<Blow>, a: EntityId, v: EntityId)
    ensures DamageBy(xs + ys, a, v) == DamageBy(xs, a, v) + DamageBy(ys, a, v)
  {
    if ys == [] {
      assert xs + ys == xs;
    } else {
      assert (xs + ys)[..|xs + ys| - 1] == xs + ys[..|ys| - 1];
      DamageSplits(xs, ys[..|ys| - 1], a, v);
    }
  }

  lemma {:induction false} BlowsSplit(xs: seq<Detonation>, ys: seq<Detonation>, torpedoes: seq<Torpedo>)
    ensures Blows(xs + ys, torpedoes) == Blows(xs, torpedoes) + Blows(ys, torpedoes)
  {
    if xs == [] {
      assert xs + ys == ys;
    } else {
      assert (xs + ys)[1..] == xs[1..] + ys;
      BlowsSplit(xs[1..], ys, torpedoes);
    }
  }

  lemma HarmSplits(xs: seq<Detonation>, ys: seq<Detonation>, torpedoes: seq<Torpedo>, a: EntityId, v: EntityId)
    ensures Harm(xs + ys, torpedoes, a, v) == Harm(xs, torpedoes, a, v) + Harm(ys, torpedoes, a, v)
  {
    BlowsSplit(xs, ys, torpedoes);
    DamageSplits(Blows(xs, torpedoes), Blows(ys, torpedoes), a, v);
  }

  /** A reordering with its first taken out of both is one still. */
  lemma TakenFromBoth(xs: seq<Detonation>, ys: seq<Detonation>) returns (i: int)
    requires Reordered(xs, ys) && xs != []
    ensures 0 <= i < |ys| && ys[i] == xs[0] && Reordered(xs[1..], ys[..i] + ys[i + 1..])
  {
    assert xs[0] in multiset(ys);
    i :| 0 <= i < |ys| && ys[i] == xs[0];
    assert xs == [xs[0]] + xs[1..];
    assert ys == ys[..i] + [ys[i]] + ys[i + 1..];
    assert multiset(xs[1..]) == multiset(xs) - multiset{xs[0]};
    assert multiset(ys[..i] + ys[i + 1..]) == multiset(ys) - multiset{ys[i]};
  }

  /** The damage done does not depend on the order it was done in. */
  lemma {:induction false} HarmIgnoresOrder(xs: seq<Detonation>, ys: seq<Detonation>, torpedoes: seq<Torpedo>, a: EntityId, v: EntityId)
    requires Reordered(xs, ys)
    ensures Harm(xs, torpedoes, a, v) == Harm(ys, torpedoes, a, v)
  {
    if xs == [] {
      assert |multiset(ys)| == 0;
    } else {
      var i := TakenFromBoth(xs, ys);
      HarmIgnoresOrder(xs[1..], ys[..i] + ys[i + 1..], torpedoes, a, v);
      HarmOfTheFirst(xs, torpedoes, a, v);
      HarmSplitsAt(ys, i, torpedoes, a, v);
    }
  }

  lemma HarmOfTheFirst(ds: seq<Detonation>, torpedoes: seq<Torpedo>, a: EntityId, v: EntityId)
    requires ds != []
    ensures Harm(ds, torpedoes, a, v) == Harm([ds[0]], torpedoes, a, v) + Harm(ds[1..], torpedoes, a, v)
  {
    assert ds == [ds[0]] + ds[1..];
    HarmSplits([ds[0]], ds[1..], torpedoes, a, v);
  }

  /** What one detonation did, and what the rest did without it. */
  lemma HarmSplitsAt(ds: seq<Detonation>, i: int, torpedoes: seq<Torpedo>, a: EntityId, v: EntityId)
    requires 0 <= i < |ds|
    ensures Harm(ds, torpedoes, a, v) == Harm([ds[i]], torpedoes, a, v) + Harm(ds[..i] + ds[i + 1..], torpedoes, a, v)
  {
    assert ds == ds[..i] + ([ds[i]] + ds[i + 1..]);
    HarmSplits(ds[..i], [ds[i]] + ds[i + 1..], torpedoes, a, v);
    HarmSplits([ds[i]], ds[i + 1..], torpedoes, a, v);
    HarmSplits(ds[..i], ds[i + 1..], torpedoes, a, v);
  }

  predicate Hits(d: Detonation, v: EntityId) {
    exists h :: 0 <= h < |d.hits| && d.hits[h].boat == v
  }

  /** The first to hit a victim heads the list of claims on it. */
  lemma {:induction false} FirstBlowHeadsTheClaims(blows: seq<Blow>, v: EntityId, first: int)
    requires 0 <= first < |blows| && blows[first].victim == v
    requires forall i :: 0 <= i < first ==> blows[i].victim != v
    ensures var cs := ClaimsOn(Collected(map[], blows), v); cs != [] && cs[0].attacker == blows[first].attacker
  {
    var n := |blows| - 1;
    if first < n {
      FirstBlowHeadsTheClaims(blows[..n], v, first);
    } else {
      NoBlowNoClaim(blows[..n], v);
    }
  }

  lemma {:induction false} NoBlowNoClaim(blows: seq<Blow>, v: EntityId)
    requires forall i :: 0 <= i < |blows| ==> blows[i].victim != v
    ensures ClaimsOn(Collected(map[], blows), v) == []
  {
    if blows != [] {
      NoBlowNoClaim(blows[..|blows| - 1], v);
    }
  }

  /** A detonation listed first that hits the victim puts its attacker at the head of the claims. */
  lemma FirstDetonationHeadsTheClaims(detonations: seq<Detonation>, torpedoes: seq<Torpedo>, v: EntityId, a: EntityId)
    requires detonations != [] && FiredBy(torpedoes, detonations[0].torpedo) == Some(a) && Hits(detonations[0], v)
    ensures var cs := ClaimsOn(Collected(map[], Blows(detonations, torpedoes)), v); cs != [] && cs[0].attacker == a
  {
    var hits := detonations[0].hits;
    var first := 0;
    while hits[first].boat != v
      invariant 0 <= first < |hits| && forall i :: 0 <= i < first ==> hits[i].boat != v
      invariant exists h :: first <= h < |hits| && hits[h].boat == v
      decreases |hits| - first
    {
      first := first + 1;
    }
    FirstBlowHeadsTheClaims(Blows(detonations, torpedoes), v, first);
  }

  /** Whoever did a victim harm fired a warhead that hit it. */
  lemma {:induction false} HarmCameFrom(detonations: seq<Detonation>, torpedoes: seq<Torpedo>, a: EntityId, v: EntityId) returns (i: int)
    requires Harm(detonations, torpedoes, a, v) != 0.0
    ensures 0 <= i < |detonations| && FiredBy(torpedoes, detonations[i].torpedo) == Some(a) && Hits(detonations[i], v)
  {
    var x, rest := [detonations[0]], detonations[1..];
    assert detonations == x + rest;
    HarmSplits(x, rest, torpedoes, a, v);
    if Harm(x, torpedoes, a, v) != 0.0 {
      i := 0;
      DamageNeedsABlow(Blows(x, torpedoes), a, v);
      var b :| 0 <= b < |Blows(x, torpedoes)| && Blows(x, torpedoes)[b].attacker == a && Blows(x, torpedoes)[b].victim == v;
      assert Blows(x[1..], torpedoes) == [];
      assert detonations[0].hits[b].boat == v;
    } else {
      i := HarmCameFrom(rest, torpedoes, a, v);
      i := i + 1;
    }
  }

  lemma {:induction false} DamageNeedsABlow(blows: seq<Blow>, a: EntityId, v: EntityId)
    requires DamageBy(blows, a, v) != 0.0
    ensures exists b :: 0 <= b < |blows| && blows[b].attacker == a && blows[b].victim == v
  {
    var n := |blows| - 1;
    if !(blows[n].attacker == a && blows[n].victim == v) {
      DamageNeedsABlow(blows[..n], a, v);
    }
  }

  /** Nobody did the victim any harm, or one attacker did it more than any other. */
  ghost predicate ClearCut(detonations: seq<Detonation>, torpedoes: seq<Torpedo>, v: EntityId) {
    || (forall a :: Harm(detonations, torpedoes, a, v) <= 0.0)
    || (exists a :: DidMoreThanAnyOther(detonations, torpedoes, a, v))
  }

  ghost predicate DidMoreThanAnyOther(detonations: seq<Detonation>, torpedoes: seq<Torpedo>, a: EntityId, v: EntityId) {
    forall b :: b != a ==> Harm(detonations, torpedoes, b, v) < Harm(detonations, torpedoes, a, v)
  }

  /** The same detonations with one of them listed first. */
  lemma BroughtForward(detonations: seq<Detonation>, i: int) returns (other: seq<Detonation>)
    requires 0 <= i < |detonations|
    ensures Reordered(other, detonations) && other != [] && other[0] == detonations[i]
  {
    other := [detonations[i]] + detonations[..i] + detonations[i + 1..];
    assert detonations == detonations[..i] + [detonations[i]] + detonations[i + 1..];
  }

  /** Where two did the victim equal and greatest harm, another order of the detonations has another killer. */
  lemma TieCanGoEitherWay(detonations: seq<Detonation>, torpedoes: seq<Torpedo>, v: EntityId) returns (other: seq<Detonation>)
    requires !ClearCut(detonations, torpedoes, v)
    ensures Reordered(other, detonations) && Culprit(other, torpedoes, v) != Culprit(detonations, torpedoes, v)
  {
    var some :| Harm(detonations, torpedoes, some, v) > 0.0;
    CulpritDidTheMost(detonations, torpedoes, v, some);
    var k := Culprit(detonations, torpedoes, v).value;
    assert !DidMoreThanAnyOther(detonations, torpedoes, k, v);
    var b :| b != k && Harm(detonations, torpedoes, b, v) >= Harm(detonations, torpedoes, k, v);
    var i := HarmCameFrom(detonations, torpedoes, b, v);
    other := BroughtForward(detonations, i);
    FirstDetonationHeadsTheClaims(other, torpedoes, v, b);
    TopOfTheListWins(other, detonations, torpedoes, v, b, k);
  }

  lemma TopOfTheListWins(other: seq<Detonation>, detonations: seq<Detonation>, torpedoes: seq<Torpedo>, v: EntityId,
                         b: EntityId, k: EntityId)
    requires Reordered(other, detonations) && Culprit(detonations, torpedoes, v) == Some(k)
    requires Harm(detonations, torpedoes, b, v) >= Harm(detonations, torpedoes, k, v)
    requires var cs := ClaimsOn(Collected(map[], Blows(other, torpedoes)), v); cs != [] && cs[0].attacker == b
    ensures Culprit(other, torpedoes, v) == Some(b)
  {
    var blows := Blows(other, torpedoes);
    var cs := ClaimsOn(Collected(map[], blows), v);
    ClaimsAreTheDamage(blows, b, v);
    ClaimOfMember(cs, 0);
    HarmIgnoresOrder(other, detonations, torpedoes, b, v);
    CulpritDidTheMost(detonations, torpedoes, v, b);
    KillerLeads(cs);
    var m :| LeadsAt(cs, m) && Killer(cs) == Some(cs[m]);
    ClaimsAreTheDamage(blows, cs[m].attacker, v);
    ClaimOfMember(cs, m);
    HarmIgnoresOrder(other, detonations, torpedoes, cs[m].attacker, v);
    CulpritDidTheMost(detonations, torpedoes, v, cs[m].attacker);
    assert cs[m].damage <= cs[0].damage;
  }

  /**
   * Every order of the same detonations puts a hull down to the same killer if and only if nobody did it
   * any harm or one attacker did it strictly more than any other.
   */
  lemma OrderDecidesExactlyTies(detonations: seq<Detonation>, torpedoes: seq<Torpedo>, v: EntityId)
    ensures (forall other: seq<Detonation> :: Reordered(other, detonations) ==>
               Culprit(other, torpedoes, v) == Culprit(detonations, torpedoes, v)) <==>
            ClearCut(detonations, torpedoes, v)
  {
    if ClearCut(detonations, torpedoes, v) {
      forall other: seq<Detonation> | Reordered(other, detonations)
        ensures Culprit(other, torpedoes, v) == Culprit(detonations, torpedoes, v)
      {
        ClearCutIgnoresOrder(other, detonations, torpedoes, v);
      }
    } else {
      var other := TieCanGoEitherWay(detonations, torpedoes, v);
    }
  }

  lemma ClearCutIgnoresOrder(other: seq<Detonation>, detonations: seq<Detonation>, torpedoes: seq<Torpedo>, v: EntityId)
    requires Reordered(other, detonations) && ClearCut(detonations, torpedoes, v)
    ensures Culprit(other, torpedoes, v) == Culprit(detonations, torpedoes, v)
  {
    var was, now := Culprit(detonations, torpedoes, v), Culprit(other, torpedoes, v);
    forall a ensures Harm(other, torpedoes, a, v) == Harm(detonations, torpedoes, a, v) {
      HarmIgnoresOrder(other, detonations, torpedoes, a, v);
    }
    if was.Some? {
      CulpritDidTheMost(detonations, torpedoes, v, was.value);
      CulpritDidTheMost(other, torpedoes, v, was.value);
    }
    if now.Some? {
      CulpritDidTheMost(other, torpedoes, v, now.value);
      CulpritDidTheMost(detonations, torpedoes, v, now.value);
    }
    if was.Some? && now.Some? {
      var a :| DidMoreThanAnyOther(detonations, torpedoes, a, v);
      CulpritDidTheMost(detonations, torpedoes, v, a);
      CulpritDidTheMost(other, torpedoes, v, a);
    }
  }

  /** Two weapons doing equal damage to one hull: the kill goes to whichever detonation is listed first. */
  lemma EqualClaimsDependOnOrder()
    ensures var first, second := Detonation(10, [Hit(7, 5.0)]), Detonation(20, [Hit(7, 5.0)]);
      var torpedoes := [Torpedo(10, 1), Torpedo(20, 2)];
      Culprit([first, second], torpedoes, 7) == Some(1) && Culprit([second, first], torpedoes, 7) == Some(2)
  {
    var first, second := Detonation(10, [Hit(7, 5.0)]), Detonation(20, [Hit(7, 5.0)]);
    var torpedoes := [Torpedo(10, 1), Torpedo(20, 2)];
    assert torpedoes[..1] == [Torpedo(10, 1)];
    assert FiredBy(torpedoes, 10) == Some(1) && FiredBy(torpedoes, 20) == Some(2);
    EachHits(first, second, torpedoes, 1, 2);
    EachHits(second, first, torpedoes, 2, 1);
  }

  lemma EachHits(x: Detonation, y: Detonation, torpedoes: seq<Torpedo>, a: EntityId, b: EntityId)
    requires x.hits == [Hit(7, 5.0)] == y.hits && a != b
    requires FiredBy(torpedoes, x.torpedo) == Some(a) && FiredBy(torpedoes, y.torpedo) == Some(b)
    ensures Culprit([x, y], torpedoes, 7) == Some(a)
  {
    assert [x, y][1..] == [y] && [y][1..] == [];
    assert BlowsOf(a, x.hits) == [Blow(a, 7, 5.0)] && BlowsOf(b, y.hits) == [Blow(b, 7, 5.0)];
    assert Blows([y], torpedoes) == [Blow(b, 7, 5.0)];
    assert Blows([x, y], torpedoes) == [Blow(a, 7, 5.0)] + [Blow(b, 7, 5.0)] == [Blow(a, 7, 5.0), Blow(b, 7, 5.0)];
    TwoBlows(a, b);
  }

  lemma TwoBlows(first: EntityId, second: EntityId)
    requires first != second
    ensures Killer(ClaimsOn(Collected(map[], [Blow(first, 7, 5.0), Blow(second, 7, 5.0)]), 7)) == Some(Claim(first, 5.0))
  {
    var blows := [Blow(first, 7, 5.0), Blow(second, 7, 5.0)];
    assert blows[..1] == [Blow(first, 7, 5.0)] && blows[..1][..0] == [];
    var one := [Claim(first, 5.0)];
    var cs := [Claim(first, 5.0), Claim(second, 5.0)];
    assert ClaimsOn(Collected(map[], blows[..1]), 7) == Raised([], first, 5.0) == one;
    assert ClaimsOn(Collected(map[], blows), 7) == Raised(one, second, 5.0);
    assert Raised(one[1..], second, 5.0) == [Claim(second, 5.0)];
    assert Raised(one, second, 5.0) == cs;
    assert one[..0] == [] && cs[..1] == one;
    assert Killer(one) == Some(one[0]);
  }
}
