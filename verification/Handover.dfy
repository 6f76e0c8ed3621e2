// What a lock request means for every device holding a stamp: when it succeeds, whose captures
// apply from then on, and whose never will again, whatever happens later.
module Handover {
  import opened Basics
  import opened Tables
  import opened Checkouts
  import opened Protocol
  import opened Staleness

  // Locks of other units decide as before.
  ghost predicate Elsewhere(db: Db, next: Db, unit: string) {
    forall u: string, stamp: Stamp :: u != unit ==> Decide(next, u, stamp) == Decide(db, u, stamp)
  }

  // A lock that changed hands: one generation on, under a token never issued, for the same start list.
  predicate ChangedHands(db: Db, unit: string, c: Checkout) {
    unit in db.checkouts ==>
      c.generation == db.checkouts[unit].generation + 1 && c.token == db.nextToken
      && c.startList == db.checkouts[unit].startList && c.version == db.checkouts[unit].version + 1
  }

  // The lock stands for this account and device, and its own stamp is the one that applies.
  ghost predicate Holds(next: Db, unit: string, c: Checkout, account: string, device: string) {
    && unit in next.checkouts && next.checkouts[unit] == c
    && c.active && c.account == account && c.device == device
    && forall stamp: Stamp :: Decide(next, unit, stamp) == ApplyIt <==> stamp == StampOf(c)
  }

  // No stamp known at db ever applies to the unit again.
  ghost predicate Revoked(meet: Meet, db: Db, next: Db, unit: string) {
    forall stamp: Stamp, later: seq<Step> | Issued(db, unit, stamp) ::
      Decide(Exec(meet, next, later), unit, stamp) != ApplyIt
  }

  // A lock that moved on, to a new generation or start list or out of use, revokes what was issued.
  lemma MovedOn(meet: Meet, db: Db, next: Db, unit: string)
    requires unit in db.checkouts && unit in next.checkouts
    requires var was, now := db.checkouts[unit], next.checkouts[unit];
             || (now.generation > was.generation && now.startList >= was.startList)
             || (now.generation == was.generation && now.token == was.token
                 && (now.startList > was.startList || (now.startList == was.startList && !now.active)))
    ensures Revoked(meet, db, next, unit)
  {
    forall stamp: Stamp, later: seq<Step> | Issued(db, unit, stamp)
      ensures Decide(Exec(meet, next, later), unit, stamp) != ApplyIt
    {
      IssuedForGood(meet, next, later, unit, stamp);
      InapplicableIsOutdated(Exec(meet, next, later), unit, stamp);
    }
  }

  // Opening a unit's page: a lock comes to be if the unit had none, and one that stands is left
  // as it is, whoever holds it.
  lemma EnsureMeaning(meet: Meet, db: Db, account: string, unit: string, device: string)
    ensures var (next, r) := EnsureCheckout(meet, db, account, unit, device);
            && (r.Ok? <==> unit in meet.units && (unit in db.checkouts || (unit != "" && account != "")))
            && (r.Err? || unit in db.checkouts ==> next == db)
            && (r.Ok? ==> unit in next.checkouts && r.value == next.checkouts[unit])
            && (r.Ok? && unit !in db.checkouts ==> Holds(next, unit, r.value, account, device))
            && Elsewhere(db, next, unit)
  {}

  // Taking the lock succeeds exactly when no one else holds it. A holder who asks again from the
  // same device changes nothing; otherwise every stamp issued before is revoked.
  lemma TakeMeaning(meet: Meet, db: Db, account: string, unit: string, device: string)
    ensures var (next, r) := CheckoutUnit(meet, db, account, unit, device);
            var held := unit in db.checkouts && db.checkouts[unit].active;
            && (r.Ok? <==> unit in meet.units && (held ==> db.checkouts[unit].account == account)
                           && (unit in db.checkouts || (unit != "" && account != "")))
            && (r.Err? ==> next == db) && Elsewhere(db, next, unit)
            && (r.Ok? ==> Holds(next, unit, r.value, account, device))
            && (r.Ok? ==> if held && db.checkouts[unit].device == device then next == db
                          else Revoked(meet, db, next, unit) && r.value.token == db.nextToken && ChangedHands(db, unit, r.value))
  {
    var (next, r) := CheckoutUnit(meet, db, account, unit, device);
    TakeSucceeds(meet, db, account, unit, device);
    TakeHolds(meet, db, account, unit, device);
    if r.Ok? && unit in db.checkouts && next != db { MovedOn(meet, db, next, unit); }
  }

  lemma TakeSucceeds(meet: Meet, db: Db, account: string, unit: string, device: string)
    ensures var (next, r) := CheckoutUnit(meet, db, account, unit, device);
            && (r.Ok? <==> unit in meet.units && (unit in db.checkouts || (unit != "" && account != ""))
                           && (unit in db.checkouts && db.checkouts[unit].active ==> db.checkouts[unit].account == account))
            && (r.Err? ==> next == db)
  {}

  lemma TakeHolds(meet: Meet, db: Db, account: string, unit: string, device: string)
    ensures var (next, r) := CheckoutUnit(meet, db, account, unit, device);
            Elsewhere(db, next, unit) && (r.Ok? ==> Holds(next, unit, r.value, account, device))
  {}

  // The office's override takes any existing lock and revokes every stamp issued before.
  lemma OverrideMeaning(meet: Meet, db: Db, account: string, unit: string, device: string)
    ensures var (next, r) := OverrideCheckout(meet, db, account, unit, device);
            && (r.Ok? <==> unit in meet.units && unit in db.checkouts)
            && (r.Err? ==> next == db) && Elsewhere(db, next, unit)
            && (r.Ok? ==> Holds(next, unit, r.value, account, device) && Revoked(meet, db, next, unit)
                          && ChangedHands(db, unit, r.value))
  {
    var (next, r) := OverrideCheckout(meet, db, account, unit, device);
    if r.Ok? { MovedOn(meet, db, next, unit); }
  }

  // A new start list leaves the holder, the token and the generation, yet revokes every stamp
  // issued before: what was captured against the old list goes to the office as a start-list
  // change, and the holder's next stamp applies.
  lemma ReviseMeaning(meet: Meet, db: Db, unit: string)
    ensures var (next, r) := ReviseStartList(meet, db, unit);
            && (r.Ok? <==> unit in meet.units && unit in db.checkouts)
            && (r.Err? ==> next == db) && Elsewhere(db, next, unit)
            && (r.Ok? ==> Revoked(meet, db, next, unit))
            && (r.Ok? && r.value.active ==> Holds(next, unit, r.value, db.checkouts[unit].account, db.checkouts[unit].device))
            && (r.Ok? ==> forall stamp: Stamp | Decide(db, unit, stamp) == ApplyIt ::
                            Decide(next, unit, stamp) == RouteStartList && stamp.token == r.value.token)
  {
    var (next, r) := ReviseStartList(meet, db, unit);
    if r.Ok? { MovedOn(meet, db, next, unit); }
  }

  // After a release nothing applies until the lock is taken again, and what was issued before
  // never does.
  lemma ReleaseMeaning(meet: Meet, db: Db, unit: string)
    ensures var (next, r) := ReleaseCheckout(meet, db, unit);
            && (r.Ok? <==> unit in meet.units && unit in db.checkouts)
            && (r.Err? ==> next == db) && Elsewhere(db, next, unit)
            && (r.Ok? ==> Revoked(meet, db, next, unit))
            && (r.Ok? ==> forall stamp: Stamp :: Decide(next, unit, stamp) == RouteStale)
  {
    var (next, r) := ReleaseCheckout(meet, db, unit);
    if r.Ok? { MovedOn(meet, db, next, unit); }
  }
}
