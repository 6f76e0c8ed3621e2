// The capture lock of a unit: first checkout, re-checkout, office override, start-list
// revision, release, and the routing rule for replayed captures.
module Checkouts {
  import opened Basics
  import opened Tables

  datatype LockError = UnknownUnit | MissingField | NoCheckout | CheckedOutByAnother

  function CreateCheckout(db: Db, unit: string, account: string, device: string): (Db, Result<Checkout, LockError>) {
    if unit == "" || account == "" then (db, Err(MissingField)) else
    var c := Checkout(account, device, db.nextToken, 1, 0, true, 1);
    (db.(checkouts := db.checkouts[unit := c], nextToken := db.nextToken + 1), Ok(c))
  }

  function Reassign(db: Db, unit: string, account: string, device: string): (Db, Result<Checkout, LockError>)
    requires unit in db.checkouts
  {
    var cur := db.checkouts[unit];
    var c := Checkout(account, device, db.nextToken, cur.generation + 1, cur.startList, true, cur.version + 1);
    (db.(checkouts := db.checkouts[unit := c], nextToken := db.nextToken + 1), Ok(c))
  }

  // Opening a unit's page makes sure a lock row exists, without touching one that does.
  function EnsureCheckout(meet: Meet, db: Db, account: string, unit: string, device: string)
    : (Db, Result<Checkout, LockError>)
  {
    if unit !in meet.units then (db, Err(UnknownUnit))
    else if unit in db.checkouts then (db, Ok(db.checkouts[unit]))
    else CreateCheckout(db, unit, account, device)
  }

  // A field official takes the lock: new, again by the same holder and device, or by
  // re-taking a released lock or changing device.
  function CheckoutUnit(meet: Meet, db: Db, account: string, unit: string, device: string)
    : (Db, Result<Checkout, LockError>)
  {
    if unit !in meet.units then (db, Err(UnknownUnit))
    else if unit !in db.checkouts then CreateCheckout(db, unit, account, device)
    else
      var cur := db.checkouts[unit];
      if cur.active && cur.account != account then (db, Err(CheckedOutByAnother))
      else if cur.active && cur.device == device then (db, Ok(cur))
      else Reassign(db, unit, account, device)
  }

  function OverrideCheckout(meet: Meet, db: Db, account: string, unit: string, device: string)
    : (Db, Result<Checkout, LockError>)
  {
    if unit !in meet.units then (db, Err(UnknownUnit))
    else if unit !in db.checkouts then (db, Err(NoCheckout))
    else Reassign(db, unit, account, device)
  }

  function ReviseStartList(meet: Meet, db: Db, unit: string): (Db, Result<Checkout, LockError>) {
    if unit !in meet.units then (db, Err(UnknownUnit))
    else if unit !in db.checkouts then (db, Err(NoCheckout))
    else
      var cur := db.checkouts[unit];
      var c := cur.(startList := cur.startList + 1, version := cur.version + 1);
      (db.(checkouts := db.checkouts[unit := c]), Ok(c))
  }

  function ReleaseCheckout(meet: Meet, db: Db, unit: string): (Db, Result<Checkout, LockError>) {
    if unit !in meet.units then (db, Err(UnknownUnit))
    else if unit !in db.checkouts then (db, Err(NoCheckout))
    else
      var cur := db.checkouts[unit];
      var c := cur.(active := false, version := cur.version + 1);
      (db.(checkouts := db.checkouts[unit := c]), Ok(c))
  }

  // --- Routing one replayed capture ---

  datatype CheckoutState = CheckoutState(generation: int, startList: int, active: bool)

  // What a replayed capture claims it was taken under; the token is the credential.
  datatype Stamp = Stamp(token: nat, generation: int, startList: int)

  datatype SyncDecision = ApplyIt | RouteStale | RouteStartList

  function DecideSync(current: CheckoutState, stamp: Stamp): SyncDecision {
    if !current.active || stamp.generation != current.generation then RouteStale
    else if stamp.startList != current.startList then RouteStartList
    else ApplyIt
  }

  // The server's decision for a stamp: the live token first, then generation and start list.
  function Decide(db: Db, unit: string, stamp: Stamp): SyncDecision {
    if unit !in db.checkouts then DecideSync(CheckoutState(0, 0, false), stamp)
    else
      var c := db.checkouts[unit];
      if c.active && stamp.token != c.token then RouteStale
      else DecideSync(CheckoutState(c.generation, c.startList, c.active), stamp)
  }

  // The stamp a device is issued with a checkout.
  function StampOf(c: Checkout): Stamp {
    Stamp(c.token, c.generation, c.startList)
  }

  lemma ApplicableMeansCurrent(db: Db, unit: string, stamp: Stamp)
    ensures Decide(db, unit, stamp) == ApplyIt <==>
            unit in db.checkouts && db.checkouts[unit].active && StampOf(db.checkouts[unit]) == stamp
  {}
}
