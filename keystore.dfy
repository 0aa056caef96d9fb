/**
 * The productKeys table seen as a map from productKeyId to row, and the three
 * bulk updates the core runs on it: the claim of getProductKeys, the release of
 * unlockKeys and the order binding of createOrder.
 */
module KeyStore {
  import opened Wrappers
  import opened Schema

  type KeyTable = map<KeyId, ProductKey>

  predicate Distinct<T(==)>(s: seq<T>)
  {
    forall i, j | 0 <= i < j < |s| :: s[i] != s[j]
  }

  function SetOf<T>(s: seq<T>): set<T>
  {
    set x | x in s
  }

  lemma SetOfSnoc<T>(s: seq<T>, x: T)
    ensures SetOf(s + [x]) == SetOf(s) + {x}
  {
  }

  /** A duplicate-free sequence has as many elements as its set. */
  lemma {:induction false} DistinctCard<T>(s: seq<T>)
    requires Distinct(s)
    ensures |SetOf(s)| == |s|
  {
    if s != [] {
      var t := s[..|s| - 1];
      assert Distinct(t);
      DistinctCard(t);
      assert SetOf(s) == SetOf(t) + {s[|s| - 1]};
      assert s[|s| - 1] !in SetOf(t);
    }
  }

  /** Rows `WHERE "productId" = p AND "isSold" = false`. */
  function UnsoldOf(keys: KeyTable, p: ProductId): set<KeyId>
  {
    set k | k in keys && keys[k].productId == p && !keys[k].isSold
  }

  /** Keys of product p not yet delivered with an order (`orderId IS NULL`). */
  function UnboundOf(keys: KeyTable, p: ProductId): set<KeyId>
  {
    set k | k in keys && keys[k].productId == p && keys[k].orderId.None?
  }

  /** The unique constraint on the productKey column. */
  predicate UniqueValues(keys: KeyTable)
  {
    forall a, b | a in keys && b in keys && keys[a].productKey == keys[b].productKey :: a == b
  }

  /** The UPDATE of getProductKeys: the chosen rows get isSold = true. */
  function MarkSold(keys: KeyTable, rows: set<KeyId>): KeyTable
  {
    map k | k in keys :: if k in rows then keys[k].(isSold := true) else keys[k]
  }

  /** The UPDATEs of unlockKeys: `isSold = false WHERE productKey = v AND orderId IS NULL`, for every v listed. */
  function Released(keys: KeyTable, values: set<string>): KeyTable
  {
    map k | k in keys ::
      if keys[k].productKey in values && keys[k].orderId.None? then keys[k].(isSold := false) else keys[k]
  }

  /** The UPDATEs of createOrder: `orderId = o WHERE productKey = v AND productId = p`, for every listed (v, p). */
  function Bound(keys: KeyTable, pairs: set<(string, ProductId)>, o: OrderId): KeyTable
  {
    map k | k in keys ::
      if (keys[k].productKey, keys[k].productId) in pairs then keys[k].(orderId := Some(o)) else keys[k]
  }

  /** Any n <= |pool| keys can be the rows an UPDATE ... LIMIT n touches, in some order. */
  lemma {:induction false} SomeRows(pool: set<KeyId>, n: nat)
    requires n <= |pool|
    ensures exists rows: seq<KeyId> :: |rows| == n && Distinct(rows) && SetOf(rows) <= pool
  {
    if n == 0 {
      var none: seq<KeyId> := [];
      assert |none| == 0 && Distinct(none) && SetOf(none) <= pool;
    } else {
      assert pool != {};
      var x :| x in pool;
      SomeRows(pool - {x}, n - 1);
      var rest: seq<KeyId> :| |rest| == n - 1 && Distinct(rest) && SetOf(rest) <= pool - {x};
      var rows := rest + [x];
      assert SetOf(rows) == SetOf(rest) + {x};
      assert Distinct(rows);
    }
  }

  lemma SetOfConcat<T>(a: seq<T>, b: seq<T>)
    ensures SetOf(a + b) == SetOf(a) + SetOf(b)
  {
  }

  /** Two duplicate-free sequences with no common element concatenate to a duplicate-free one. */
  lemma DistinctConcat<T>(a: seq<T>, b: seq<T>)
    requires Distinct(a) && Distinct(b) && SetOf(a) !! SetOf(b)
    ensures Distinct(a + b)
  {
    forall i, j | 0 <= i < j < |a + b| ensures (a + b)[i] != (a + b)[j] {
      if j >= |a| && i < |a| {
        assert (a + b)[i] in SetOf(a) && (a + b)[j] in SetOf(b);
      }
    }
  }

  /** Marking nothing sold changes nothing; marking twice marks the union. */
  lemma MarkSoldNothing(keys: KeyTable)
    ensures MarkSold(keys, {}) == keys
  {
    var r := MarkSold(keys, {});
    assert r.Keys == keys.Keys;
    forall k | k in r ensures r[k] == keys[k] {
    }
  }

  lemma MarkSoldUnion(keys: KeyTable, rows: set<KeyId>, more: set<KeyId>)
    ensures MarkSold(MarkSold(keys, rows), more) == MarkSold(keys, rows + more)
  {
    var lhs, rhs := MarkSold(MarkSold(keys, rows), more), MarkSold(keys, rows + more);
    assert lhs.Keys == rhs.Keys;
    forall k | k in lhs ensures lhs[k] == rhs[k] {
    }
  }

  /** Claiming rows of product p: they leave p's unsold set and the count drops by
      their number; no other product's unsold keys and no product's unbound keys change. */
  lemma ClaimEffect(keys: KeyTable, rows: set<KeyId>, p: ProductId)
    requires rows <= UnsoldOf(keys, p)
    ensures UnsoldOf(MarkSold(keys, rows), p) == UnsoldOf(keys, p) - rows
    ensures |UnsoldOf(MarkSold(keys, rows), p)| == |UnsoldOf(keys, p)| - |rows|
    ensures forall q | q != p :: UnsoldOf(MarkSold(keys, rows), q) == UnsoldOf(keys, q)
    ensures forall q :: UnboundOf(MarkSold(keys, rows), q) == UnboundOf(keys, q)
  {
    ClaimedUnsold(keys, rows, p);
    ClaimedElsewhere(keys, rows, p);
  }

  lemma ClaimedUnsold(keys: KeyTable, rows: set<KeyId>, p: ProductId)
    requires rows <= UnsoldOf(keys, p)
    ensures UnsoldOf(MarkSold(keys, rows), p) == UnsoldOf(keys, p) - rows
    ensures |UnsoldOf(MarkSold(keys, rows), p)| == |UnsoldOf(keys, p)| - |rows|
  {
    var before, after := UnsoldOf(keys, p), UnsoldOf(MarkSold(keys, rows), p);
    assert after == before - rows;
    assert before == after + rows && after !! rows;
  }

  lemma ClaimedElsewhere(keys: KeyTable, rows: set<KeyId>, p: ProductId)
    requires rows <= UnsoldOf(keys, p)
    ensures forall q | q != p :: UnsoldOf(MarkSold(keys, rows), q) == UnsoldOf(keys, q)
    ensures forall q :: UnboundOf(MarkSold(keys, rows), q) == UnboundOf(keys, q)
  {
    var t := MarkSold(keys, rows);
    forall q | q != p ensures UnsoldOf(t, q) == UnsoldOf(keys, q) {
      assert forall k | k in t :: k in keys && (t[k].productId == q && !t[k].isSold <==> keys[k].productId == q && !keys[k].isSold);
    }
    forall q ensures UnboundOf(t, q) == UnboundOf(keys, q) {
      assert forall k | k in t :: k in keys && t[k].productId == keys[k].productId && t[k].orderId == keys[k].orderId;
    }
  }

  /** Releasing one set of values and then another is releasing their union. */
  lemma ReleasedUnion(keys: KeyTable, values: set<string>, more: set<string>)
    ensures Released(Released(keys, values), more) == Released(keys, values + more)
  {
    var lhs, rhs := Released(Released(keys, values), more), Released(keys, values + more);
    assert lhs.Keys == rhs.Keys;
    forall k | k in lhs ensures lhs[k] == rhs[k] {
    }
  }

  /** Releasing nothing changes nothing. */
  lemma ReleasedNothing(keys: KeyTable)
    ensures Released(keys, {}) == keys
  {
    var r := Released(keys, {});
    assert r.Keys == keys.Keys;
    forall k | k in r ensures r[k] == keys[k] {
    }
  }

  /** unlockKeys run twice on the same lock leaves the table as one run does. */
  lemma ReleaseIdempotent(keys: KeyTable, values: set<string>)
    ensures Released(Released(keys, values), values) == Released(keys, values)
  {
    var once := Released(keys, values);
    var twice := Released(once, values);
    assert twice.Keys == once.Keys;
    forall k | k in twice ensures twice[k] == once[k] {
    }
  }

  /** What a release does to one row: a listed key not bound to an order becomes unsold,
      every other row (bound to an order, or not listed) is left as it was. */
  lemma ReleasedEffect(keys: KeyTable, values: set<string>, k: KeyId)
    requires k in keys
    ensures k in Released(keys, values)
    ensures keys[k].orderId.Some? ==> Released(keys, values)[k] == keys[k]
    ensures keys[k].productKey !in values ==> Released(keys, values)[k] == keys[k]
    ensures keys[k].productKey in values && keys[k].orderId.None? ==>
              Released(keys, values)[k] == keys[k].(isSold := false)
  {
  }

  /** Binding a further pair for the same order is binding the union. */
  lemma BoundStep(keys: KeyTable, pairs: set<(string, ProductId)>, pair: (string, ProductId), o: OrderId)
    ensures Bound(Bound(keys, pairs, o), {pair}, o) == Bound(keys, pairs + {pair}, o)
  {
    var lhs, rhs := Bound(Bound(keys, pairs, o), {pair}, o), Bound(keys, pairs + {pair}, o);
    assert lhs.Keys == rhs.Keys;
    forall k | k in lhs ensures lhs[k] == rhs[k] {
    }
  }

  lemma BoundNothing(keys: KeyTable, o: OrderId)
    ensures Bound(keys, {}, o) == keys
  {
    var r := Bound(keys, {}, o);
    assert r.Keys == keys.Keys;
    forall k | k in r ensures r[k] == keys[k] {
    }
  }

  lemma BoundUnion(keys: KeyTable, pairs: set<(string, ProductId)>, more: set<(string, ProductId)>, o: OrderId)
    ensures Bound(Bound(keys, pairs, o), more, o) == Bound(keys, pairs + more, o)
  {
    var lhs, rhs := Bound(Bound(keys, pairs, o), more, o), Bound(keys, pairs + more, o);
    assert lhs.Keys == rhs.Keys;
    forall k | k in lhs ensures lhs[k] == rhs[k] {
    }
  }
}
