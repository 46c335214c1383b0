/**
 The per-stack operation lock: fail-fast acquisition, one exclusive mode, and a
 release that only the holder's own token performs, once.
 */
module OperationLock {
  import opened Wrappers

  datatype Holder = Holder(token: nat, kind: string, startedAt: int)

  class Lock {
    var locks: map<string, Holder>
    var exclusive: Option<Holder>
    /** every token handed out so far; a token is random and never handed out twice */
    var issued: nat

    constructor ()
      ensures Valid() && locks == map[] && exclusive == None
    {
      locks, exclusive, issued := map[], None, 0;
    }

    predicate Valid()
      reads this
    {
      && (exclusive.Some? ==> locks == map[] && exclusive.value.token < issued)
      && (forall id :: id in locks ==> locks[id].token < issued)
      && (forall a, b :: a in locks && b in locks && locks[a].token == locks[b].token ==> a == b)
    }

    predicate Holds(token: nat)
      reads this
    {
      (exclusive.Some? && exclusive.value.token == token) || exists id :: id in locks && locks[id].token == token
    }

    /** No token from before is holding anything it did not hold before. */
    twostate predicate NoRevival()
      reads this
    {
      forall t: nat :: t < old(issued) && Holds(t) ==> old(Holds(t))
    }

    /** Succeeds exactly when nobody holds the stack and nobody holds everything. */
    method Acquire(id: string, kind: string, now: int) returns (token: Option<nat>)
      requires Valid()
      modifies this
      ensures Valid() && NoRevival() && old(issued) <= issued && exclusive == old(exclusive)
      ensures token.Some? <==> old(exclusive) == None && id !in old(locks)
      ensures token.Some? ==> token.value == old(issued) && locks == old(locks)[id := Holder(token.value, kind, now)]
      ensures token.None? ==> locks == old(locks)
    {
      if exclusive.Some? || id in locks { return None; }
      token := Some(issued);
      locks := locks[id := Holder(issued, kind, now)];
      issued := issued + 1;
    }

    /** Succeeds exactly when nobody holds anything. */
    method AcquireExclusive(kind: string, now: int) returns (token: Option<nat>)
      requires Valid()
      modifies this
      ensures Valid() && NoRevival() && old(issued) <= issued && locks == old(locks)
      ensures token.Some? <==> old(exclusive) == None && old(locks) == map[]
      ensures token.Some? ==> token.value == old(issued) && exclusive == Some(Holder(token.value, kind, now))
      ensures token.None? ==> exclusive == old(exclusive)
    {
      if exclusive.Some? || locks != map[] { return None; }
      token := Some(issued);
      exclusive := Some(Holder(issued, kind, now));
      issued := issued + 1;
    }

    /** Only the holder's own token frees the stack; any other changes nothing. */
    method Release(id: string, token: nat)
      requires Valid()
      modifies this
      ensures Valid() && NoRevival() && issued == old(issued) && exclusive == old(exclusive)
      ensures locks == if id in old(locks) && old(locks)[id].token == token then old(locks) - {id} else old(locks)
    {
      if id in locks && locks[id].token == token { locks := locks - {id}; }
    }

    method ReleaseExclusive(token: nat)
      requires Valid()
      modifies this
      ensures Valid() && NoRevival() && issued == old(issued) && locks == old(locks)
      ensures exclusive == if old(exclusive).Some? && old(exclusive).value.token == token then None else old(exclusive)
    {
      if exclusive.Some? && exclusive.value.token == token { exclusive := None; }
    }
  }

  /** The release closure of acquireStackLock: sync.OnceFunc over Release. */
  class Releaser {
    const lock: Lock
    const id: string
    const token: nat
    var called: bool

    constructor (lock: Lock, id: string, token: nat)
      ensures this.lock == lock && this.id == id && this.token == token && !called
    {
      this.lock, this.id, this.token, called := lock, id, token, false;
    }

    /** The first call frees the stack; every later one leaves the lock alone, whoever holds it by then. */
    method Call()
      requires lock.Valid()
      modifies this, lock
      ensures called && lock.Valid() && lock.issued == old(lock.issued) && lock.exclusive == old(lock.exclusive)
      ensures old(called) ==> lock.locks == old(lock.locks)
      ensures !old(called) ==> lock.locks == if id in old(lock.locks) && old(lock.locks)[id].token == token
                                             then old(lock.locks) - {id} else old(lock.locks)
    {
      if !called {
        called := true;
        lock.Release(id, token);
      }
    }
  }
}
