/**
 * The lockedkeys table as a sequence of rows. `lockedKeys.findOne({ where: { userId } })`
 * is the first row of that user; `lockedKeys.destroy({ where: { userId } })` removes all of them.
 */
module Ledger {
  import opened Wrappers
  import opened Schema
  import opened KeyStore

  function FindLock(locks: seq<LockedKeys>, u: UserId): Option<LockedKeys>
  {
    if locks == [] then None
    else if locks[0].userId == u then Some(locks[0])
    else FindLock(locks[1..], u)
  }

  function DestroyLocks(locks: seq<LockedKeys>, u: UserId): seq<LockedKeys>
  {
    if locks == [] then []
    else (if locks[0].userId == u then [] else [locks[0]]) + DestroyLocks(locks[1..], u)
  }

  /** The bookkeeping rule initiatePayment keeps: at most one lock row per user. */
  predicate OneLockPerUser(locks: seq<LockedKeys>)
  {
    forall i, j | 0 <= i < j < |locks| :: locks[i].userId != locks[j].userId
  }

  /** Every key value listed by the given lines. */
  function ValuesOfLines(lines: seq<LockedLine>): set<string>
  {
    if lines == [] then {}
    else ValuesOfLines(lines[..|lines| - 1]) + SetOf(lines[|lines| - 1].productKeys)
  }

  /** Every key value a lock lists, over all its lines. */
  function LockedValues(lock: LockedKeys): set<string>
  {
    ValuesOfLines(lock.products)
  }

  /** A value is listed by the lines exactly when some line's productKeys holds it. */
  lemma {:induction false} ValuesOfLinesSpec(lines: seq<LockedLine>, v: string)
    ensures v in ValuesOfLines(lines) <==> exists i | 0 <= i < |lines| :: v in lines[i].productKeys
  {
    if lines != [] {
      var init := lines[..|lines| - 1];
      ValuesOfLinesSpec(init, v);
      if v in ValuesOfLines(init) {
        var i :| 0 <= i < |init| && v in init[i].productKeys;
        assert v in lines[i].productKeys;
      }
      if exists i | 0 <= i < |lines| :: v in lines[i].productKeys {
        var i :| 0 <= i < |lines| && v in lines[i].productKeys;
        if i < |init| { assert v in init[i].productKeys; }
      }
    }
  }

  /** findOne finds a row exactly when the user has one, and what it finds is that user's row. */
  lemma {:induction false} FindLockSpec(locks: seq<LockedKeys>, u: UserId)
    ensures FindLock(locks, u).Some? <==> exists i | 0 <= i < |locks| :: locks[i].userId == u
    ensures FindLock(locks, u).Some? ==> FindLock(locks, u).value in locks && FindLock(locks, u).value.userId == u
  {
    if locks != [] {
      FindLockSpec(locks[1..], u);
      if FindLock(locks[1..], u).Some? {
        var i :| 0 <= i < |locks[1..]| && locks[1..][i].userId == u;
        assert locks[i + 1].userId == u;
      }
      if exists i | 0 <= i < |locks| :: locks[i].userId == u {
        var i :| 0 <= i < |locks| && locks[i].userId == u;
        if i > 0 { assert locks[1..][i - 1].userId == u; }
      }
    }
  }

  /** destroy removes exactly the user's rows and keeps the others in order and uniqueness. */
  lemma DestroyLocksSpec(locks: seq<LockedKeys>, u: UserId)
    ensures FindLock(DestroyLocks(locks, u), u).None?
    ensures forall v | v != u :: FindLock(DestroyLocks(locks, u), v) == FindLock(locks, v)
    ensures forall l | l in DestroyLocks(locks, u) :: l in locks && l.userId != u
    ensures OneLockPerUser(locks) ==> OneLockPerUser(DestroyLocks(locks, u))
  {
    DestroyLocksRows(locks, u);
    if OneLockPerUser(locks) {
      DestroyLocksUnique(locks, u);
    }
  }

  lemma {:induction false} DestroyLocksRows(locks: seq<LockedKeys>, u: UserId)
    ensures FindLock(DestroyLocks(locks, u), u).None?
    ensures forall v | v != u :: FindLock(DestroyLocks(locks, u), v) == FindLock(locks, v)
    ensures forall l | l in DestroyLocks(locks, u) :: l in locks && l.userId != u
  {
    if locks != [] {
      DestroyLocksRows(locks[1..], u);
      var rest := DestroyLocks(locks[1..], u);
      if locks[0].userId != u {
        assert DestroyLocks(locks, u) == [locks[0]] + rest;
        assert ([locks[0]] + rest)[1..] == rest;
      } else {
        assert DestroyLocks(locks, u) == rest;
      }
    }
  }

  lemma {:induction false} DestroyLocksUnique(locks: seq<LockedKeys>, u: UserId)
    requires OneLockPerUser(locks)
    ensures OneLockPerUser(DestroyLocks(locks, u))
  {
    if locks != [] {
      assert OneLockPerUser(locks[1..]);
      DestroyLocksUnique(locks[1..], u);
      DestroyLocksRows(locks[1..], u);
      var rest := DestroyLocks(locks[1..], u);
      if locks[0].userId != u {
        var d := [locks[0]] + rest;
        assert DestroyLocks(locks, u) == d;
        forall i, j | 0 <= i < j < |d| ensures d[i].userId != d[j].userId {
          assert d[j] == rest[j - 1] && d[j] in rest;
          if i == 0 {
            var k :| 0 <= k < |locks[1..]| && locks[1..][k] == d[j];
            assert locks[k + 1] == d[j];
          } else {
            assert d[i] == rest[i - 1];
          }
        }
      } else {
        assert DestroyLocks(locks, u) == rest;
      }
    }
  }

  /** findOne on a table with one more row at the end. */
  lemma {:induction false} FindLockAppend(locks: seq<LockedKeys>, l: LockedKeys, u: UserId)
    ensures FindLock(locks + [l], u) ==
              if FindLock(locks, u).Some? then FindLock(locks, u)
              else if l.userId == u then Some(l) else None
  {
    if locks != [] {
      assert (locks + [l])[1..] == locks[1..] + [l];
      FindLockAppend(locks[1..], l, u);
    }
  }

  /** Destroying a user's rows and then creating one leaves exactly that new row for the user,
      other users' rows as they were, and at most one row per user. */
  lemma ReplaceLock(locks: seq<LockedKeys>, l: LockedKeys)
    ensures FindLock(DestroyLocks(locks, l.userId) + [l], l.userId) == Some(l)
    ensures forall v | v != l.userId :: FindLock(DestroyLocks(locks, l.userId) + [l], v) == FindLock(locks, v)
    ensures OneLockPerUser(locks) ==> OneLockPerUser(DestroyLocks(locks, l.userId) + [l])
  {
    var rest := DestroyLocks(locks, l.userId);
    DestroyLocksSpec(locks, l.userId);
    FindLockAppend(rest, l, l.userId);
    forall v | v != l.userId
      ensures FindLock(rest + [l], v) == FindLock(locks, v)
    {
      FindLockAppend(rest, l, v);
      FindLockSpec(rest, v);
      FindLockSpec(locks, v);
    }
  }

  /** Creating a row for a user who has none: findOne finds it, other users are unaffected,
      and there is still at most one row per user. */
  lemma AddLock(locks: seq<LockedKeys>, l: LockedKeys)
    requires FindLock(locks, l.userId).None?
    ensures FindLock(locks + [l], l.userId) == Some(l)
    ensures forall v | v != l.userId :: FindLock(locks + [l], v) == FindLock(locks, v)
    ensures OneLockPerUser(locks) ==> OneLockPerUser(locks + [l])
  {
    FindLockAppend(locks, l, l.userId);
    FindLockSpec(locks, l.userId);
    forall v | v != l.userId
      ensures FindLock(locks + [l], v) == FindLock(locks, v)
    {
      FindLockAppend(locks, l, v);
      FindLockSpec(locks, v);
    }
  }
}
