/**
 * controllers/cartOrders/orders.js: the key claim of getProductKeys, the checkout of
 * initiatePayment with its expiry, the settlement of createOrder, paymentFailed, the
 * signature checks of checkPayment and checkPayment2, and the paging arithmetic of
 * getAllOrdersOfUser.
 */
module Orders {
  import opened Wrappers
  import opened Schema
  import opened KeyStore
  import opened Ledger
  import opened Utils

  /** Number of keys the lines ask of product p. */
  function Demand(lines: seq<LockedLine>, p: ProductId): int
  {
    if lines == [] then 0
    else
      var last := lines[|lines| - 1];
      Demand(lines[..|lines| - 1], p) + (if last.productId == p then last.quantity else 0)
  }

  /** The first n lines of a claim go through: every such line asks for a non-negative number
      of keys (LIMIT rejects a negative one) and, counting the earlier lines of the same
      product, for no more than that product had unsold when the transaction began. */
  ghost predicate ClaimableUpTo(keys: KeyTable, lines: seq<LockedLine>, n: nat)
    requires n <= |lines|
  {
    forall i | 0 <= i < n ::
      0 <= lines[i].quantity && Demand(lines[..i + 1], lines[i].productId) <= |UnsoldOf(keys, lines[i].productId)|
  }

  ghost predicate Claimable(keys: KeyTable, lines: seq<LockedLine>)
  {
    ClaimableUpTo(keys, lines, |lines|)
  }

  function Flatten(rows: seq<seq<KeyId>>): seq<KeyId>
  {
    if rows == [] then [] else Flatten(rows[..|rows| - 1]) + rows[|rows| - 1]
  }

  /** The productKey values of the given rows, in row order. */
  function ValuesOf(keys: KeyTable, ids: seq<KeyId>): seq<string>
    requires SetOf(ids) <= keys.Keys
  {
    if ids == [] then []
    else
      assert ids[|ids| - 1] in SetOf(ids);
      ValuesOf(keys, ids[..|ids| - 1]) + [keys[ids[|ids| - 1]].productKey]
  }

  /** What a successful claim did: line i got exactly quantity_i keys of its product, each
      unsold before; no key went to two places; each locked line carries the values of its
      keys; and the table after differs from the one before by exactly those keys now sold. */
  ghost predicate ValidClaim(before: KeyTable, after: KeyTable, lines: seq<LockedLine>,
                             locked: seq<LockedLine>, claimed: seq<seq<KeyId>>)
  {
    && |claimed| == |lines| == |locked|
    && Distinct(Flatten(claimed))
    && (forall i | 0 <= i < |lines| ::
          && |claimed[i]| == lines[i].quantity
          && SetOf(claimed[i]) <= UnsoldOf(before, lines[i].productId)
          && locked[i] == lines[i].(productKeys := ValuesOf(before, claimed[i])))
    && after == MarkSold(before, SetOf(Flatten(claimed)))
  }

  /** One `UPDATE ... LIMIT quantity RETURNING *` of getProductKeys: an atomic step that marks
      sold some min(quantity, unsold) distinct unsold keys of product p, in any order, and
      returns them with their values. */
  method ClaimRows(db: Shop, p: ProductId, quantity: int) returns (rows: seq<KeyId>, values: seq<string>)
    requires 0 <= quantity
    modifies db`keys
    ensures |rows| == if quantity <= |UnsoldOf(old(db.keys), p)| then quantity else |UnsoldOf(old(db.keys), p)|
    ensures Distinct(rows) && SetOf(rows) <= UnsoldOf(old(db.keys), p)
    ensures values == ValuesOf(old(db.keys), rows)
    ensures db.keys == MarkSold(old(db.keys), SetOf(rows))
  {
    var pool := UnsoldOf(db.keys, p);
    var n := if quantity <= |pool| then quantity else |pool|;
    SomeRows(pool, n);
    rows :| |rows| == n && Distinct(rows) && SetOf(rows) <= pool;
    values := [];
    for j := 0 to |rows|
      invariant SetOf(rows[..j]) <= SetOf(rows)
      invariant values == ValuesOf(db.keys, rows[..j])
    {
      assert rows[..j + 1][..j] == rows[..j];
      assert rows[j] in SetOf(rows);
      values := values + [db.keys[rows[j]].productKey];
    }
    assert rows[..|rows|] == rows;
    db.keys := MarkSold(db.keys, SetOf(rows));
  }

  /** The claim state after i lines, as GetProductKeys keeps it. */
  ghost predicate ClaimedSoFar(before: KeyTable, current: KeyTable, lines: seq<LockedLine>, i: nat,
                               locked: seq<LockedLine>, claimed: seq<seq<KeyId>>)
  {
    && i <= |lines|
    && ClaimShape(before, current, lines, i, locked, claimed)
    && Counted(before, current, lines[..i])
    && ClaimableUpTo(before, lines, i)
  }

  /** Which keys the first i lines got and what the table then looks like. */
  ghost predicate ClaimShape(before: KeyTable, current: KeyTable, lines: seq<LockedLine>, i: nat,
                             locked: seq<LockedLine>, claimed: seq<seq<KeyId>>)
    requires i <= |lines|
  {
    && |claimed| == i && |locked| == i
    && Distinct(Flatten(claimed))
    && SetOf(Flatten(claimed)) <= before.Keys
    && (forall j | 0 <= j < i ::
          && |claimed[j]| == lines[j].quantity
          && SetOf(claimed[j]) <= UnsoldOf(before, lines[j].productId)
          && locked[j] == lines[j].(productKeys := ValuesOf(before, claimed[j])))
    && current == MarkSold(before, SetOf(Flatten(claimed)))
  }

  /** Every product's unsold count dropped by what the lines done asked of it. */
  ghost predicate Counted(before: KeyTable, current: KeyTable, done: seq<LockedLine>)
  {
    forall p :: |UnsoldOf(current, p)| + Demand(done, p) == |UnsoldOf(before, p)|
  }

  lemma CountedStep(before: KeyTable, current: KeyTable, done: seq<LockedLine>, line: LockedLine, rows: set<KeyId>)
    requires Counted(before, current, done)
    requires rows <= UnsoldOf(current, line.productId) && |rows| == line.quantity
    ensures Counted(before, MarkSold(current, rows), done + [line])
  {
    assert (done + [line])[..|done|] == done;
    ClaimEffect(current, rows, line.productId);
  }

  lemma ClaimableStep(keys: KeyTable, lines: seq<LockedLine>, i: nat)
    requires i < |lines| && ClaimableUpTo(keys, lines, i)
    requires 0 <= lines[i].quantity && Demand(lines[..i + 1], lines[i].productId) <= |UnsoldOf(keys, lines[i].productId)|
    ensures ClaimableUpTo(keys, lines, i + 1)
  {
  }

  lemma ShapeStep(before: KeyTable, current: KeyTable, lines: seq<LockedLine>, i: nat,
                  locked: seq<LockedLine>, claimed: seq<seq<KeyId>>,
                  rows: seq<KeyId>, values: seq<string>)
    requires i < |lines| && ClaimShape(before, current, lines, i, locked, claimed)
    requires |rows| == lines[i].quantity
    requires Distinct(rows) && SetOf(rows) <= UnsoldOf(current, lines[i].productId)
    requires values == ValuesOf(current, rows)
    ensures ClaimShape(before, MarkSold(current, SetOf(rows)), lines, i + 1,
                       locked + [lines[i].(productKeys := values)], claimed + [rows])
  {
    var line := lines[i];
    MarkSoldUnion(before, SetOf(Flatten(claimed)), SetOf(rows));
    assert Flatten(claimed + [rows]) == Flatten(claimed) + rows by {
      assert (claimed + [rows])[..|claimed|] == claimed;
    }
    assert SetOf(Flatten(claimed)) !! SetOf(rows);
    DistinctConcat(Flatten(claimed), rows);
    SetOfConcat(Flatten(claimed), rows);
    assert SetOf(rows) <= UnsoldOf(before, line.productId);
    ValuesOfUnsold(before, SetOf(Flatten(claimed)), rows);
  }

  /** Claiming line i in full extends the claim state by one line. */
  lemma ClaimedStep(before: KeyTable, current: KeyTable, lines: seq<LockedLine>, i: nat,
                    locked: seq<LockedLine>, claimed: seq<seq<KeyId>>,
                    rows: seq<KeyId>, values: seq<string>)
    requires ClaimedSoFar(before, current, lines, i, locked, claimed)
    requires i < |lines| && 0 <= lines[i].quantity && |rows| == lines[i].quantity
    requires Distinct(rows) && SetOf(rows) <= UnsoldOf(current, lines[i].productId)
    requires values == ValuesOf(current, rows)
    ensures ClaimedSoFar(before, MarkSold(current, SetOf(rows)), lines, i + 1,
                         locked + [lines[i].(productKeys := values)], claimed + [rows])
  {
    ShapeStep(before, current, lines, i, locked, claimed, rows, values);
    DistinctCard(rows);
    assert lines[..i + 1] == lines[..i] + [lines[i]];
    CountedStep(before, current, lines[..i], lines[i], SetOf(rows));
    ClaimableStep(before, lines, i);
  }

  /** Values of rows that are not yet marked sold read the same before and after the marking. */
  lemma {:induction false} ValuesOfUnsold(before: KeyTable, sold: set<KeyId>, rows: seq<KeyId>)
    requires SetOf(rows) <= before.Keys && SetOf(rows) !! sold
    ensures SetOf(rows) <= MarkSold(before, sold).Keys
    ensures ValuesOf(MarkSold(before, sold), rows) == ValuesOf(before, rows)
  {
    if rows != [] {
      var t := rows[..|rows| - 1];
      assert SetOf(t) <= SetOf(rows);
      assert rows[|rows| - 1] in SetOf(rows);
      ValuesOfUnsold(before, sold, t);
    }
  }

  /** getProductKeys: inside one transaction, for every line run the claiming UPDATE and push the
      returned values into the line; a line that gets fewer rows than its quantity, or an SQL
      error, rolls everything back. */
  method GetProductKeys(db: Shop, lines: seq<LockedLine>)
    returns (ok: bool, locked: seq<LockedLine>, ghost claimed: seq<seq<KeyId>>)
    modifies db`keys
    ensures ok <==> Claimable(old(db.keys), lines)
    ensures !ok ==> db.keys == old(db.keys)
    ensures ok ==> ValidClaim(old(db.keys), db.keys, lines, locked, claimed)
  {
    var before := db.keys;  // the state the transaction rolls back to
    locked, claimed := [], [];
    MarkSoldNothing(before);
    var i := 0;
    while i < |lines|
      invariant ClaimedSoFar(before, db.keys, lines, i, locked, claimed)
    {
      var line := lines[i];
      assert lines[..i + 1][..i] == lines[..i];
      if line.quantity < 0 {
        // LIMIT must not be negative: the query throws and the transaction is rolled back
        db.keys, ok, locked := before, false, [];
        return;
      }
      ghost var current := db.keys;
      var rows, values := ClaimRows(db, line.productId, line.quantity);
      if |rows| != line.quantity {
        // "Required quantity is not available": rollback
        assert Demand(lines[..i + 1], line.productId) > |UnsoldOf(before, line.productId)|;
        db.keys, ok, locked := before, false, [];
        return;
      }
      ClaimedStep(before, current, lines, i, locked, claimed, rows, values);
      locked := locked + [line.(productKeys := values)];
      claimed := claimed + [rows];
      i := i + 1;
    }
    assert lines[..|lines|] == lines;
    ok := true;
  }

  /** With no two lines of the same product, a claim goes through exactly when every line
      asks for between 0 and the unsold count of its product. */
  lemma ClaimableDistinctProducts(keys: KeyTable, lines: seq<LockedLine>)
    requires forall i, j | 0 <= i < j < |lines| :: lines[i].productId != lines[j].productId
    ensures Claimable(keys, lines) <==>
              forall i | 0 <= i < |lines| :: 0 <= lines[i].quantity <= |UnsoldOf(keys, lines[i].productId)|
  {
    forall i | 0 <= i < |lines|
      ensures Demand(lines[..i + 1], lines[i].productId) == lines[i].quantity
    {
      assert lines[..i + 1][..i] == lines[..i];
      DemandAbsent(lines[..i], lines[i].productId);
    }
  }

  lemma {:induction false} DemandAbsent(lines: seq<LockedLine>, p: ProductId)
    requires forall l | l in lines :: l.productId != p
    ensures Demand(lines, p) == 0
  {
    if lines != [] {
      DemandAbsent(lines[..|lines| - 1], p);
    }
  }

  /** getProductKeysIndividual: the claim of getProductKeys for one product and quantity. The
      values claimed are not kept; the failure path rolls back and then calls an undefined
      `next`, which the model reports as a false result. */
  method GetProductKeysIndividual(db: Shop, productId: ProductId, quantity: int) returns (ok: bool)
    modifies db`keys
    ensures ok <==> 0 <= quantity <= |UnsoldOf(old(db.keys), productId)|
    ensures !ok ==> db.keys == old(db.keys)
    ensures ok ==> exists rows: set<KeyId> :: |rows| == quantity && rows <= UnsoldOf(old(db.keys), productId) && db.keys == MarkSold(old(db.keys), rows)
  {
    var line := LockedLine(productId, quantity, 0, []);
    ClaimableDistinctProducts(db.keys, [line]);
    ghost var claimed;
    var productKeys;  // claimed and dropped
    ok, productKeys, claimed := GetProductKeys(db, [line]);
    if ok {
      assert Flatten(claimed) == claimed[0] by {
        assert claimed[..0] == [];
      }
      DistinctCard(claimed[0]);
    }
  }

  /** What unlockKeys leaves of the key table, given the lock table it reads. */
  ghost function ReleasedFor(keys: KeyTable, locks: seq<LockedKeys>, u: UserId): KeyTable
  {
    match FindLock(locks, u)
    case None => keys
    case Some(lock) => Released(keys, LockedValues(lock))
  }

  /** The timer initiatePayment arms: whose lock it expires and the createdAt it captured. */
  datatype Expiry = Expiry(userId: UserId, createdAt: int)

  /** What initiatePayment returns: the armed expiry and the amount, in paise, of the payment
      order it asks for. */
  datatype Checkout = Checkout(expiry: Expiry, amountInPaise: int)

  /** The first half of initiatePayment: calculateOrderAmount on the cart getUserCart filters
      and saves. */
  method PriceCart(db: Shop, userId: UserId) returns (r: Result<(int, seq<LockedLine>), Error>)
    modifies db`carts
    ensures userId !in old(db.carts) ==> r == Err(NoCart) && db.carts == old(db.carts)
    ensures userId in old(db.carts) ==>
              var cart := AvailableLines(old(db.carts)[userId], db.keys, db.products);
              && db.carts == old(db.carts)[userId := cart]
              && (r.Ok? <==> Priceable(cart, db.products))
              && (r.Err? ==> r.error == PriceUnavailable || r.error == ProductMissing)
              && (r.Ok? ==>
                    && |r.value.1| == |cart|
                    && (forall i | 0 <= i < |cart| :: r.value.1[i] == Priced(cart[i], db.products[cart[i].productId].actualPrice))
                    && r.value.0 == OrderTotal(r.value.1))
  {
    var cart := GetUserCart(db, userId);
    if cart.Err? {
      return Err(cart.error);
    }
    r := CalculateOrderAmount(cart.value, db.products);
  }

  /** The middle of initiatePayment: release and delete the user's lock, if there is one,
      then claim keys for the priced lines. */
  method Relock(db: Shop, userId: UserId, lines: seq<LockedLine>)
    returns (ok: bool, locked: seq<LockedLine>, ghost claimed: seq<seq<KeyId>>)
    modifies db`keys, db`locks
    ensures ok <==> Claimable(ReleasedFor(old(db.keys), old(db.locks), userId), lines)
    ensures !ok ==> db.keys == ReleasedFor(old(db.keys), old(db.locks), userId)
    ensures ok ==> ValidClaim(ReleasedFor(old(db.keys), old(db.locks), userId), db.keys, lines, locked, claimed)
    ensures FindLock(db.locks, userId).None?
    ensures forall v | v != userId :: FindLock(db.locks, v) == FindLock(old(db.locks), v)
    ensures OneLockPerUser(old(db.locks)) ==> OneLockPerUser(db.locks)
  {
    var existing := FindLock(db.locks, userId);
    if existing.Some? {
      var _ := UnlockKeys(db, userId);
      DestroyLocksSpec(db.locks, userId);
      db.locks := DestroyLocks(db.locks, userId);
    }
    ok, locked, claimed := GetProductKeys(db, lines);
  }

  /** initiatePayment: filter and price the cart (calculateGST is the parameter gst), release
      and delete any lock of the user, claim keys for every line, then create the lock with
      createdAt = now and arm its expiry. The Razorpay order itself is not modelled. */
  method InitiatePayment(db: Shop, userId: UserId, gst: int -> int, now: int)
    returns (r: Result<Checkout, Error>, ghost priced: seq<LockedLine>, ghost claimed: seq<seq<KeyId>>)
    modifies db`carts, db`keys, db`locks
    ensures userId !in old(db.carts) ==>
              r == Err(NoCart) && db.keys == old(db.keys) && db.locks == old(db.locks) && db.carts == old(db.carts)
    ensures userId in old(db.carts) ==>
              db.carts == old(db.carts)[userId := AvailableLines(old(db.carts)[userId], old(db.keys), db.products)]
    ensures userId in old(db.carts) && !Priceable(AvailableLines(old(db.carts)[userId], old(db.keys), db.products), db.products) ==>
              r.Err? && db.keys == old(db.keys) && db.locks == old(db.locks)
    ensures r.Ok? ==>
              var cart := AvailableLines(old(db.carts)[userId], old(db.keys), db.products);
              && userId in old(db.carts) && Priceable(cart, db.products)
              && |priced| == |cart|
              && (forall i | 0 <= i < |cart| :: priced[i] == Priced(cart[i], db.products[cart[i].productId].actualPrice))
              && Claimable(ReleasedFor(old(db.keys), old(db.locks), userId), priced)
              && FindLock(db.locks, userId).Some?
              && FindLock(db.locks, userId).value.totalPrice == OrderTotal(priced) + gst(OrderTotal(priced))
              && FindLock(db.locks, userId).value.createdAt == now
              && ValidClaim(ReleasedFor(old(db.keys), old(db.locks), userId), db.keys, priced,
                            FindLock(db.locks, userId).value.products, claimed)
              && r.value == Checkout(Expiry(userId, now), ToPaise(OrderTotal(priced) + gst(OrderTotal(priced))))
    ensures userId in old(db.carts) && Priceable(AvailableLines(old(db.carts)[userId], old(db.keys), db.products), db.products) ==>
              var cart := AvailableLines(old(db.carts)[userId], old(db.keys), db.products);
              && |priced| == |cart|
              && (forall i | 0 <= i < |cart| :: priced[i] == Priced(cart[i], db.products[cart[i].productId].actualPrice))
              && (r.Ok? <==> Claimable(ReleasedFor(old(db.keys), old(db.locks), userId), priced))
              && (r.Err? ==> r.error == KeysUnavailable)
    ensures r.Err? && r.error == KeysUnavailable ==>
              && !Claimable(ReleasedFor(old(db.keys), old(db.locks), userId), priced)
              && db.keys == ReleasedFor(old(db.keys), old(db.locks), userId)
              && FindLock(db.locks, userId).None?
    ensures r.Err? ==> r.error in {NoCart, ProductMissing, PriceUnavailable, KeysUnavailable}
    ensures forall v | v != userId :: FindLock(db.locks, v) == FindLock(old(db.locks), v)
    ensures OneLockPerUser(old(db.locks)) ==> OneLockPerUser(db.locks)
  {
    priced, claimed := [], [];
    var amount := PriceCart(db, userId);
    if amount.Err? {
      return Err(amount.error), priced, claimed;
    }
    var total := amount.value.0 + gst(amount.value.0);
    var lines := amount.value.1;
    priced := lines;
    var ok, locked;
    ok, locked, claimed := Relock(db, userId, lines);
    if !ok {
      return Err(KeysUnavailable), priced, claimed;
    }
    var lock := LockedKeys(userId, locked, total, now);
    AddLock(db.locks, lock);
    db.locks := db.locks + [lock];
    r := Ok(Checkout(Expiry(userId, now), ToPaise(total)));
  }

  /** `${createdAt}` renders a Date with Date.prototype.toString, to the second; the expiry
      compares those renderings, so it sees createdAt (in milliseconds) only to the second. */
  function Rendered(createdAt: int): int
  {
    createdAt / 1000
  }

  /** The expiry fires when the user's current lock renders like the captured createdAt (with
      no lock at all, reading `key.createdAt` throws inside the timer). */
  predicate ExpiryFires(locks: seq<LockedKeys>, e: Expiry)
  {
    FindLock(locks, e.userId).Some? && Rendered(FindLock(locks, e.userId).value.createdAt) == Rendered(e.createdAt)
  }

  /** The expiry callback of initiatePayment as an explicit event: unless the lock it was armed
      for has been replaced (its rendering differs), unlock that user's keys and delete the lock. */
  method Expire(db: Shop, e: Expiry) returns (fired: bool)
    modifies db`keys, db`locks
    ensures fired <==> ExpiryFires(old(db.locks), e)
    ensures !fired ==> db.keys == old(db.keys) && db.locks == old(db.locks)
    ensures fired ==>
              && db.keys == Released(old(db.keys), LockedValues(FindLock(old(db.locks), e.userId).value))
              && db.locks == DestroyLocks(old(db.locks), e.userId)
              && FindLock(db.locks, e.userId).None?
  {
    var key := FindLock(db.locks, e.userId);
    if key.None? || Rendered(e.createdAt) != Rendered(key.value.createdAt) {
      return false;
    }
    var _ := UnlockKeys(db, e.userId);
    DestroyLocksSpec(db.locks, e.userId);
    db.locks := DestroyLocks(db.locks, e.userId);
    fired := true;
  }

  /** The expiry armed with a lock fires on that lock while it is the user's current one. */
  lemma CurrentExpiryFires(locks: seq<LockedKeys>, lock: LockedKeys)
    requires FindLock(locks, lock.userId) == Some(lock)
    ensures ExpiryFires(locks, Expiry(lock.userId, lock.createdAt))
  {
  }

  /** An expiry does nothing once the user's lock was created in a different second. */
  lemma StaleExpiryIsNoOp(locks: seq<LockedKeys>, e: Expiry, lock: LockedKeys)
    requires FindLock(locks, e.userId) == Some(lock) && lock.createdAt / 1000 != e.createdAt / 1000
    ensures !ExpiryFires(locks, e)
  {
  }

  /** But a lock created again within the same second as the one an expiry was armed for is
      expired by that earlier expiry: checking out at 5.100 s and again at 5.900 s, the first
      timer deletes the second lock. */
  lemma SameSecondStaleExpiryFires(u: UserId)
    ensures var second := LockedKeys(u, [], 0, 5900);
            ExpiryFires([second], Expiry(u, 5100)) && second.createdAt != 5100
  {
    assert FindLock([LockedKeys(u, [], 0, 5900)], u) == Some(LockedKeys(u, [], 0, 5900));
  }

  /** The (value, productId) pairs createOrder binds to the order: each listed key value with
      the productId of its line. */
  function PairsOfLines(lines: seq<LockedLine>): set<(string, ProductId)>
  {
    if lines == [] then {}
    else
      var last := lines[|lines| - 1];
      PairsOfLines(lines[..|lines| - 1]) + (set v | v in last.productKeys :: (v, last.productId))
  }

  /** The decrement loop of createOrder on a catalog where every line's product exists:
      `pr.inStock = pr.inStock - product.quantity` per line, in order. */
  function Settled(products: Catalog, lines: seq<LockedLine>): (settled: Catalog)
    requires forall l | l in lines :: l.productId in products
    ensures settled.Keys == products.Keys
  {
    if lines == [] then products
    else
      var last := lines[|lines| - 1];
      var settled := Settled(products, lines[..|lines| - 1]);
      settled[last.productId := settled[last.productId].(inStock := settled[last.productId].inStock - last.quantity)]
  }

  /** Settling lowers every product's inStock by the quantity the lines ask of it, and
      changes nothing else. */
  lemma {:induction false} SettledSpec(products: Catalog, lines: seq<LockedLine>, p: ProductId)
    requires forall l | l in lines :: l.productId in products
    requires p in products
    ensures Settled(products, lines)[p] == products[p].(inStock := products[p].inStock - Demand(lines, p))
  {
    if lines != [] {
      SettledSpec(products, lines[..|lines| - 1], p);
    }
  }

  /** Nothing stops a lock from being settled twice (createOrder neither checks for an order
      nor deletes the lock): the second settlement takes the stock down again. */
  lemma SettledTwice(products: Catalog, lines: seq<LockedLine>, p: ProductId)
    requires forall l | l in lines :: l.productId in products
    requires p in products
    ensures Settled(Settled(products, lines), lines)[p].inStock == products[p].inStock - 2 * Demand(lines, p)
  {
    SettledSpec(products, lines, p);
    SettledSpec(Settled(products, lines), lines, p);
  }

  /** Every key value the lines list, line after line. */
  function FlatValues(lines: seq<LockedLine>): seq<string>
  {
    if lines == [] then [] else FlatValues(lines[..|lines| - 1]) + lines[|lines| - 1].productKeys
  }

  /** The values paired with product p. */
  function ValuesFor(pairs: set<(string, ProductId)>, p: ProductId): set<string>
  {
    set pr | pr in pairs && pr.1 == p :: pr.0
  }

  lemma {:induction false} PairsValues(lines: seq<LockedLine>)
    ensures forall pr | pr in PairsOfLines(lines) :: pr.0 in SetOf(FlatValues(lines))
  {
    if lines != [] {
      PairsValues(lines[..|lines| - 1]);
      SetOfConcat(FlatValues(lines[..|lines| - 1]), lines[|lines| - 1].productKeys);
    }
  }

  /** A duplicate-free concatenation has duplicate-free parts with no common element. */
  lemma DistinctSplit<T>(a: seq<T>, b: seq<T>)
    requires Distinct(a + b)
    ensures Distinct(a) && Distinct(b) && SetOf(a) !! SetOf(b)
  {
    assert forall i | 0 <= i < |a| :: (a + b)[i] == a[i];
    assert forall j | 0 <= j < |b| :: (a + b)[|a| + j] == b[j];
    forall i, j | 0 <= i < |a| && 0 <= j < |b| ensures a[i] != b[j] {
      assert (a + b)[i] == a[i] && (a + b)[|a| + j] == b[j];
    }
    forall v | v in SetOf(a) ensures v !in SetOf(b) {
      var i :| 0 <= i < |a| && a[i] == v;
      assert forall j | 0 <= j < |b| :: b[j] != v;
    }
  }

  lemma ValuesForUnion(pairs: set<(string, ProductId)>, more: set<(string, ProductId)>, p: ProductId)
    ensures ValuesFor(pairs + more, p) == ValuesFor(pairs, p) + ValuesFor(more, p)
  {
  }

  lemma ValuesForLine(line: LockedLine, p: ProductId)
    ensures ValuesFor(set v | v in line.productKeys :: (v, line.productId), p)
            == if line.productId == p then SetOf(line.productKeys) else {}
  {
    var added := set v | v in line.productKeys :: (v, line.productId);
    if line.productId == p {
      forall v | v in SetOf(line.productKeys) ensures v in ValuesFor(added, p) {
        assert (v, p) in added;
      }
    }
  }

  /** When no value is listed twice and every line lists as many values as its quantity, the
      values bound for product p are as many as the lines ask of p. */
  lemma {:induction false} PairsCount(lines: seq<LockedLine>, p: ProductId)
    requires Distinct(FlatValues(lines))
    requires forall i | 0 <= i < |lines| :: |lines[i].productKeys| == lines[i].quantity
    ensures |ValuesFor(PairsOfLines(lines), p)| == Demand(lines, p)
  {
    if lines != [] {
      var init, last := lines[..|lines| - 1], lines[|lines| - 1];
      DistinctSplit(FlatValues(init), last.productKeys);
      PairsCount(init, p);
      PairsValues(init);
      ValuesForUnion(PairsOfLines(init), set v | v in last.productKeys :: (v, last.productId), p);
      ValuesForLine(last, p);
      if last.productId == p {
        assert ValuesFor(PairsOfLines(init), p) <= SetOf(FlatValues(init));
        DistinctCard(last.productKeys);
      }
    }
  }

  /** The values of a set of rows. */
  function ValueImage(keys: KeyTable, rows: set<KeyId>): set<string>
    requires rows <= keys.Keys
  {
    set k | k in rows :: keys[k].productKey
  }

  /** Under the unique constraint on productKey, rows and their values are equally many. */
  lemma {:induction false} ValueImageCard(keys: KeyTable, rows: set<KeyId>)
    requires rows <= keys.Keys && UniqueValues(keys)
    ensures |ValueImage(keys, rows)| == |rows|
    decreases |rows|
  {
    if rows != {} {
      var x :| x in rows;
      ValueImageCard(keys, rows - {x});
      assert ValueImage(keys, rows) == ValueImage(keys, rows - {x}) + {keys[x].productKey};
      assert keys[x].productKey !in ValueImage(keys, rows - {x});
    }
  }

  /** Binding: when every value bound for product p belongs to an order-unbound key of p, the
      unbound count of p drops by the number of those values (the unique constraint makes each
      value one key). */
  lemma BindCount(keys: KeyTable, pairs: set<(string, ProductId)>, o: OrderId, p: ProductId)
    requires UniqueValues(keys)
    requires forall v | v in ValuesFor(pairs, p) :: exists k | k in UnboundOf(keys, p) :: keys[k].productKey == v
    ensures |UnboundOf(Bound(keys, pairs, o), p)| == |UnboundOf(keys, p)| - |ValuesFor(pairs, p)|
  {
    var hit := Hit(keys, pairs, p);
    BoundUnbound(keys, pairs, o, p);
    HitImage(keys, pairs, p);
    ValueImageCard(keys, hit);
    DifferenceCard(UnboundOf(keys, p), hit);
  }

  /** When every value paired with p is held by an unbound key of p, the hit keys hold exactly those values. */
  lemma HitImage(keys: KeyTable, pairs: set<(string, ProductId)>, p: ProductId)
    requires forall v | v in ValuesFor(pairs, p) :: exists k | k in UnboundOf(keys, p) :: keys[k].productKey == v
    ensures Hit(keys, pairs, p) <= keys.Keys && ValueImage(keys, Hit(keys, pairs, p)) == ValuesFor(pairs, p)
  {
    var hit := Hit(keys, pairs, p);
    forall v | v in ValuesFor(pairs, p) ensures v in ValueImage(keys, hit) {
      var k :| k in UnboundOf(keys, p) && keys[k].productKey == v;
      assert k in hit;
    }
  }

  lemma DifferenceCard<T>(a: set<T>, b: set<T>)
    requires b <= a
    ensures |a - b| == |a| - |b|
  {
    assert a == (a - b) + b;
  }

  /** The unbound keys of p whose value is paired with p. */
  function Hit(keys: KeyTable, pairs: set<(string, ProductId)>, p: ProductId): set<KeyId>
  {
    set k | k in UnboundOf(keys, p) && keys[k].productKey in ValuesFor(pairs, p)
  }

  /** Binding takes exactly the hit keys out of p's unbound keys. */
  lemma BoundUnbound(keys: KeyTable, pairs: set<(string, ProductId)>, o: OrderId, p: ProductId)
    ensures UnboundOf(Bound(keys, pairs, o), p) == UnboundOf(keys, p) - Hit(keys, pairs, p)
  {
    forall k | k in keys && keys[k].productId == p
      ensures (keys[k].productKey, keys[k].productId) in pairs <==> keys[k].productKey in ValuesFor(pairs, p)
    {
      if keys[k].productKey in ValuesFor(pairs, p) {
        var pr :| pr in pairs && pr.1 == p && pr.0 == keys[k].productKey;
      }
    }
  }


  /** createOrder keeps inStock in step with the unbound keys: for a lock whose lines list
      distinct values, as many as their quantities, each held by an order-unbound key of the
      line's product, binding lowers p's unbound count exactly as the decrement loop lowers
      p's inStock. */
  lemma SettlementInStep(keys: KeyTable, products: Catalog, lines: seq<LockedLine>, o: OrderId, p: ProductId)
    requires UniqueValues(keys) && Distinct(FlatValues(lines))
    requires forall i | 0 <= i < |lines| :: |lines[i].productKeys| == lines[i].quantity
    requires forall v | v in ValuesFor(PairsOfLines(lines), p) :: exists k | k in UnboundOf(keys, p) :: keys[k].productKey == v
    requires forall l | l in lines :: l.productId in products
    requires p in products
    ensures |UnboundOf(Bound(keys, PairsOfLines(lines), o), p)| - |UnboundOf(keys, p)|
            == Settled(products, lines)[p].inStock - products[p].inStock
  {
    PairsCount(lines, p);
    BindCount(keys, PairsOfLines(lines), o, p);
    SettledSpec(products, lines, p);
  }

  lemma {:induction false} ValuesOfConcat(keys: KeyTable, a: seq<KeyId>, b: seq<KeyId>)
    requires SetOf(a) <= keys.Keys && SetOf(b) <= keys.Keys
    ensures SetOf(a + b) <= keys.Keys
    ensures ValuesOf(keys, a + b) == ValuesOf(keys, a) + ValuesOf(keys, b)
  {
    SetOfConcat(a, b);
    if b != [] {
      var init := b[..|b| - 1];
      assert SetOf(init) <= SetOf(b);
      assert b[|b| - 1] in SetOf(b);
      assert (a + b)[..|a + b| - 1] == a + init;
      ValuesOfConcat(keys, a, init);
    } else {
      assert a + b == a;
    }
  }

  lemma {:induction false} ValuesOfDistinct(keys: KeyTable, ids: seq<KeyId>)
    requires SetOf(ids) <= keys.Keys && Distinct(ids) && UniqueValues(keys)
    ensures |ValuesOf(keys, ids)| == |ids|
    ensures forall i | 0 <= i < |ids| :: ValuesOf(keys, ids)[i] == keys[ids[i]].productKey
    ensures Distinct(ValuesOf(keys, ids))
  {
    if ids != [] {
      var init := ids[..|ids| - 1];
      assert SetOf(init) <= SetOf(ids);
      assert ids[|ids| - 1] in SetOf(ids);
      ValuesOfDistinct(keys, init);
      assert forall i | 0 <= i < |init| :: init[i] == ids[i];
    }
  }

  /** The lines of a successful claim on a table with unique values list pairwise distinct
      values, as many per line as its quantity: the form SettlementInStep asks of a lock. */
  lemma ClaimedLinesDistinct(before: KeyTable, after: KeyTable, lines: seq<LockedLine>,
                             locked: seq<LockedLine>, claimed: seq<seq<KeyId>>)
    requires ValidClaim(before, after, lines, locked, claimed) && UniqueValues(before)
    ensures forall i | 0 <= i < |locked| :: |locked[i].productKeys| == locked[i].quantity
    ensures Distinct(FlatValues(locked))
  {
    FlatClaimValues(before, lines, locked, claimed, |locked|);
    assert locked[..|locked|] == locked && claimed[..|claimed|] == claimed;
    FlattenKeys(claimed, |claimed|, lines, before);
    ValuesOfDistinct(before, Flatten(claimed));
    forall i | 0 <= i < |locked| ensures |locked[i].productKeys| == locked[i].quantity {
      assert SetOf(claimed[i]) <= before.Keys;
      ValuesOfLength(before, claimed[i]);
    }
  }

  lemma {:induction false} ValuesOfLength(keys: KeyTable, ids: seq<KeyId>)
    requires SetOf(ids) <= keys.Keys
    ensures |ValuesOf(keys, ids)| == |ids|
  {
    if ids != [] {
      assert SetOf(ids[..|ids| - 1]) <= SetOf(ids);
      ValuesOfLength(keys, ids[..|ids| - 1]);
    }
  }

  lemma {:induction false} FlattenKeys(claimed: seq<seq<KeyId>>, n: nat, lines: seq<LockedLine>, before: KeyTable)
    requires n <= |claimed| == |lines|
    requires forall i | 0 <= i < |lines| :: SetOf(claimed[i]) <= UnsoldOf(before, lines[i].productId)
    ensures SetOf(Flatten(claimed[..n])) <= before.Keys
  {
    if n > 0 {
      assert claimed[..n][..n - 1] == claimed[..n - 1];
      FlattenKeys(claimed, n - 1, lines, before);
      SetOfConcat(Flatten(claimed[..n - 1]), claimed[n - 1]);
    }
  }

  lemma {:induction false} FlatClaimValues(before: KeyTable, lines: seq<LockedLine>,
                                           locked: seq<LockedLine>, claimed: seq<seq<KeyId>>, n: nat)
    requires |claimed| == |lines| == |locked| && n <= |locked|
    requires forall i | 0 <= i < |lines| ::
               && SetOf(claimed[i]) <= UnsoldOf(before, lines[i].productId)
               && locked[i] == lines[i].(productKeys := ValuesOf(before, claimed[i]))
    ensures SetOf(Flatten(claimed[..n])) <= before.Keys
    ensures FlatValues(locked[..n]) == ValuesOf(before, Flatten(claimed[..n]))
  {
    FlattenKeys(claimed, n, lines, before);
    if n > 0 {
      assert locked[..n][..n - 1] == locked[..n - 1];
      assert claimed[..n][..n - 1] == claimed[..n - 1];
      FlatClaimValues(before, lines, locked, claimed, n - 1);
      var last := claimed[n - 1];
      assert Flatten(claimed[..n]) == Flatten(claimed[..n - 1]) + last;
      assert FlatValues(locked[..n]) == FlatValues(locked[..n - 1]) + locked[n - 1].productKeys;
      assert locked[n - 1].productKeys == ValuesOf(before, last);
      ValuesOfConcat(before, Flatten(claimed[..n - 1]), last);
    }
  }

  /** The index of the first line whose product does not exist, if any. */
  function FirstMissing(products: Catalog, lines: seq<LockedLine>): (k: nat)
    ensures k <= |lines|
    ensures forall j | 0 <= j < k :: lines[j].productId in products
    ensures k < |lines| ==> lines[k].productId !in products
  {
    if lines == [] || lines[0].productId !in products then 0
    else 1 + FirstMissing(products, lines[1..])
  }

  lemma PairsPrefixStep(lines: seq<LockedLine>, i: nat)
    requires i < |lines|
    ensures PairsOfLines(lines[..i + 1]) == PairsOfLines(lines[..i]) + (set v | v in lines[i].productKeys :: (v, lines[i].productId))
  {
    assert lines[..i + 1][..i] == lines[..i];
  }

  /** The inner loop of createOrder: one UPDATE per key value of a lock line. */
  method BindLine(db: Shop, line: LockedLine, o: OrderId)
    modifies db`keys
    ensures db.keys == Bound(old(db.keys), set v | v in line.productKeys :: (v, line.productId), o)
  {
    ghost var before := db.keys;
    BoundNothing(before, o);
    for j := 0 to |line.productKeys|
      invariant db.keys == Bound(before, set v | v in line.productKeys[..j] :: (v, line.productId), o)
    {
      BoundStep(before, set v | v in line.productKeys[..j] :: (v, line.productId), (line.productKeys[j], line.productId), o);
      assert (set v | v in line.productKeys[..j + 1] :: (v, line.productId))
          == (set v | v in line.productKeys[..j] :: (v, line.productId)) + {(line.productKeys[j], line.productId)} by {
        assert line.productKeys[..j + 1] == line.productKeys[..j] + [line.productKeys[j]];
      }
      db.keys := Bound(db.keys, {(line.productKeys[j], line.productId)}, o);
    }
    assert line.productKeys[..|line.productKeys|] == line.productKeys;
  }

  /** The key-binding loops of createOrder. */
  method BindKeys(db: Shop, lines: seq<LockedLine>, o: OrderId)
    modifies db`keys
    ensures db.keys == Bound(old(db.keys), PairsOfLines(lines), o)
  {
    ghost var before := db.keys;
    BoundNothing(before, o);
    for i := 0 to |lines|
      invariant db.keys == Bound(before, PairsOfLines(lines[..i]), o)
    {
      BindLine(db, lines[i], o);
      BoundUnion(before, PairsOfLines(lines[..i]), set v | v in lines[i].productKeys :: (v, lines[i].productId), o);
      PairsPrefixStep(lines, i);
    }
    assert lines[..|lines|] == lines;
  }

  /** The decrement loop of createOrder: it stops, with the earlier lines applied, at the first
      line whose product is gone (`pr.inStock` on null throws). */
  method DecrementStock(db: Shop, lines: seq<LockedLine>) returns (r: Result<(), Error>)
    modifies db`products
    ensures var k := FirstMissing(old(db.products), lines);
            && (r.Ok? <==> k == |lines|)
            && (r.Err? ==> r.error == ProductMissing)
            && db.products == Settled(old(db.products), lines[..k])
  {
    ghost var before := db.products;
    ghost var k := FirstMissing(before, lines);
    r := Ok(());
    for i := 0 to |lines|
      invariant i <= k
      invariant db.products == Settled(before, lines[..i])
    {
      assert db.products.Keys == before.Keys;
      if lines[i].productId !in db.products {
        return Err(ProductMissing);
      }
      assert i != k;
      assert lines[..i + 1][..i] == lines[..i];
      db.products := db.products[lines[i].productId :=
        db.products[lines[i].productId].(inStock := db.products[lines[i].productId].inStock - lines[i].quantity)];
    }
    assert lines[..|lines|] == lines;
  }

  /** createOrder: with the user's lock, record a success Order with the lock's products and
      totalPrice, bind every locked key value to it, lower the stock line by line and empty the
      cart (the cart timer runs with nothing else in between here). The lock is kept and the
      signature is not checked. */
  method CreateOrder(db: Shop, userId: UserId, orderId: OrderId, razorpayOrderId: string,
                     paymentId: string, signature: string) returns (r: Result<Order, Error>)
    modifies db`orders, db`keys, db`products, db`carts
    ensures FindLock(db.locks, userId).None? ==>
              r == Err(NoLockedKeys) && db.orders == old(db.orders) && db.keys == old(db.keys)
              && db.products == old(db.products) && db.carts == old(db.carts)
    ensures FindLock(db.locks, userId).Some? ==>
              var lock := FindLock(db.locks, userId).value;
              var order := Order(orderId, userId, razorpayOrderId, lock.products, lock.totalPrice,
                                 paymentId, signature, PaymentSuccess, NoFailureReason);
              var k := FirstMissing(old(db.products), lock.products);
              && db.orders == old(db.orders) + [order]
              && db.keys == Bound(old(db.keys), PairsOfLines(lock.products), orderId)
              && db.products == Settled(old(db.products), lock.products[..k])
              && (r.Ok? <==> k == |lock.products|)
              && (r.Ok? ==> r.value == order && (userId in old(db.carts) ==> db.carts == old(db.carts)[userId := []]))
              && (r.Ok? && userId !in old(db.carts) ==> db.carts == old(db.carts))
              && (r.Err? ==> r.error == ProductMissing && db.carts == old(db.carts))
  {
    var data := FindLock(db.locks, userId);
    if data.None? {
      return Err(NoLockedKeys);
    }
    var lock := data.value;
    var order := Order(orderId, userId, razorpayOrderId, lock.products, lock.totalPrice,
                       paymentId, signature, PaymentSuccess, NoFailureReason);
    db.orders := db.orders + [order];
    BindKeys(db, lock.products, orderId);
    var decremented := DecrementStock(db, lock.products);
    if decremented.Err? {
      return Err(decremented.error);
    }
    if userId in db.carts {
      db.carts := db.carts[userId := []];
    }
    r := Ok(order);
  }

  /** paymentFailed: with the user's lock, record a failed Order carrying the given reason;
      keys, stock and the lock are left alone. */
  method PaymentFailed(db: Shop, userId: UserId, orderId: OrderId, razorpayOrderId: string,
                       paymentId: string, signature: string, reason: string) returns (r: Result<Order, Error>)
    modifies db`orders
    ensures FindLock(db.locks, userId).None? ==> r == Err(NoLockedKeys) && db.orders == old(db.orders)
    ensures FindLock(db.locks, userId).Some? ==>
              var lock := FindLock(db.locks, userId).value;
              && r == Ok(Order(orderId, userId, razorpayOrderId, lock.products, lock.totalPrice,
                               paymentId, signature, PaymentStatus.PaymentFailed, reason))
              && db.orders == old(db.orders) + [r.value]
  {
    var data := FindLock(db.locks, userId);
    if data.None? {
      return Err(NoLockedKeys);
    }
    var lock := data.value;
    r := Ok(Order(orderId, userId, razorpayOrderId, lock.products, lock.totalPrice,
                  paymentId, signature, PaymentStatus.PaymentFailed, reason));
    db.orders := db.orders + [r.value];
  }

  /** checkPayment: 200 when the HMAC (the parameter hmac, keyed by secret) of
      `order_id + "|" + razorpay_payment_id` equals the signature sent, 400 otherwise. */
  function CheckPayment(hmac: (string, string) -> string, secret: string,
                        orderId: string, paymentId: string, signature: string): (status: int)
    ensures status == 200 || status == 400
    ensures status == 200 <==> hmac(secret, orderId + "|" + paymentId) == signature
  {
    if hmac(secret, orderId + "|" + paymentId) == signature then 200 else 400
  }

  /** The two notices checkPayment2 mails out. */
  datatype Notice = CapturedNotice | FailedNotice

  datatype WebhookReply = WebhookReply(status: int, notice: Option<Notice>)

  /** checkPayment2: the lock named by the notes is read first (none: destructuring null throws);
      then the HMAC of the serialised body must equal the x-razorpay-signature header (else 401,
      no mail); a verified "payment.captured" or "payment.failed" event mails its notice; every
      verified event answers 201. */
  function CheckPayment2(locks: seq<LockedKeys>, hmac: (string, string) -> string, secret: string,
                         body: string, signature: string, event: string, userId: UserId): (r: Result<WebhookReply, Error>)
    ensures r.Err? <==> FindLock(locks, userId).None?
    ensures r.Err? ==> r.error == NoLockedKeys
    ensures r.Ok? ==> (r.value.status == 401 <==> hmac(secret, body) != signature)
    ensures r.Ok? ==> (r.value.status == 201 <==> hmac(secret, body) == signature)
    ensures r.Ok? && r.value.notice.Some? ==> hmac(secret, body) == signature
    ensures r.Ok? && hmac(secret, body) == signature ==>
              (r.value.notice == Some(CapturedNotice) <==> event == "payment.captured")
              && (r.value.notice == Some(FailedNotice) <==> event == "payment.failed")
  {
    if FindLock(locks, userId).None? then Err(NoLockedKeys)
    else if hmac(secret, body) != signature then Ok(WebhookReply(401, None))
    else if event == "payment.captured" then Ok(WebhookReply(201, Some(CapturedNotice)))
    else if event == "payment.failed" then Ok(WebhookReply(201, Some(FailedNotice)))
    else Ok(WebhookReply(201, None))
  }

  /** The row offset getAllOrdersOfUser asks for: page counts from 1. */
  function Offset(page: int, limit: int): int
  {
    (page - 1) * limit
  }

  /** `Math.ceil(count / limit)`, with a falsy result (0, -0, NaN) made 0; a zero limit with
      orders to show divides to Infinity. */
  datatype PageCount = Pages(n: int) | Infinite

  function TotalPages(count: nat, limit: int): (pages: PageCount)
    ensures limit > 0 ==> pages.Pages? && (pages.n - 1) * limit < count <= pages.n * limit
    ensures limit == 0 ==> pages == if count == 0 then Pages(0) else Infinite
  {
    if limit > 0 then Pages((count + limit - 1) / limit)
    else if limit == 0 then (if count == 0 then Pages(0) else Infinite)
    else Pages(-(count / -limit))
  }

  /** With a positive limit, page p (from 1) starts inside the user's orders exactly when it is
      no later than the last page. */
  lemma PageWithinOrders(count: nat, page: int, limit: int)
    requires page >= 1 && limit > 0
    ensures Offset(page, limit) < count <==> page <= TotalPages(count, limit).n
  {
    var t := TotalPages(count, limit).n;
    if page <= t {
      MulMonotone(page - 1, t - 1, limit);
    } else {
      MulMonotone(t, page - 1, limit);
    }
  }

  lemma MulMonotone(a: int, b: int, c: int)
    requires a <= b && c > 0
    ensures a * c <= b * c
  {
  }
}
