/** The recycling pool behind a thread queue (fftools/objpool.c). */
module ObjectPool {
  import opened Common

  /** A packet or frame shell; None is the state after a reset. */
  class Obj<T> {
    var item: Option<T>

    constructor Alloc()
      ensures item == None
    {
      item := None;
    }
  }

  const POOL_SIZE: nat := 32

  class ObjPool<T> {
    const pool: array<Obj?<T>>
    var poolCount: nat

    // Every object ever issued is pooled, lent out or freed.
    ghost var issued: set<Obj<T>>
    ghost var lent: set<Obj<T>>
    ghost var freed: set<Obj<T>>
    // Whether the free callback was ever called on an object freed before.
    ghost var freedTwice: bool

    ghost predicate Valid()
      reads this, pool, issued
    {
      && pool.Length == POOL_SIZE && poolCount <= POOL_SIZE
      && (forall i | 0 <= i < poolCount :: pool[i] != null && pool[i] in issued && pool[i].item == None)
      && (forall i | poolCount <= i < POOL_SIZE :: pool[i] == null)
      && (forall i, j | 0 <= i < j < poolCount :: pool[i] != pool[j])
      && lent !! freed && !freedTwice
      && (forall i | 0 <= i < poolCount :: pool[i] !in lent && pool[i] !in freed)
      && issued == Pooled() + lent + freed
    }

    ghost function Pooled(): set<Obj<T>>
      requires pool.Length == POOL_SIZE && poolCount <= POOL_SIZE
      reads this, pool
    {
      set o | o in pool[..poolCount]
    }

    constructor ()
      ensures Valid() && fresh(pool)
      ensures issued == {} && lent == {} && freed == {}
    {
      pool := new Obj?<T>[POOL_SIZE](_ => null);
      poolCount := 0;
      issued, lent, freed, freedTwice := {}, {}, {}, false;
    }

    /** The free callback. */
    method CallFree(o: Obj<T>)
      modifies this`freed, this`freedTwice
      ensures freed == old(freed) + {o} && (freedTwice <==> old(freedTwice) || o in old(freed))
    {
      freedTwice := freedTwice || o in freed;
      freed := freed + {o};
    }

    /** objpool_get: a reset object, now the caller's. */
    method Get() returns (o: Obj<T>)
      requires Valid()
      modifies this, pool
      ensures Valid()
      ensures o.item == None && o !in old(lent) && o !in freed
      ensures o !in old(issued) ==> fresh(o)
      ensures lent == old(lent) + {o} && freed == old(freed) && issued == old(issued) + {o}
      ensures if old(poolCount) == 0 then fresh(o) && poolCount == 0
              else o == old(pool[poolCount - 1]) && poolCount == old(poolCount) - 1
    {
      if poolCount > 0 {
        poolCount := poolCount - 1;
        o := pool[poolCount];
        pool[poolCount] := null;
        assert old(Pooled()) == Pooled() + {o};
      } else {
        o := new Obj.Alloc();
        assert Pooled() == {};
      }
      issued := issued + {o};
      lent := lent + {o};
    }

    /** What the holder of a lent object does to it is no concern of the pool's. */
    method Fill(o: Obj<T>, item: T)
      requires Valid() && o in lent
      modifies o
      ensures Valid() && o.item == Some(item)
    {
      o.item := Some(item);
    }

    /** objpool_release: back to the pool while there is room, freed otherwise. */
    method Release(o: Obj<T>)
      requires Valid() && o in lent
      modifies this, pool, o
      ensures Valid()
      ensures lent == old(lent) - {o} && issued == old(issued)
      ensures o.item == None
      ensures old(poolCount) < 32 ==> freed == old(freed) && Pooled() == old(Pooled()) + {o}
      ensures old(poolCount) == 32 ==> freed == old(freed) + {o} && Pooled() == old(Pooled())
    {
      o.item := None;
      lent := lent - {o};
      if poolCount < POOL_SIZE {
        pool[poolCount] := o;
        poolCount := poolCount + 1;
        assert pool[..poolCount] == old(pool[..poolCount]) + [o];
      } else {
        CallFree(o);
        assert pool[..] == old(pool[..]);
      }
    }

    /** objpool_free: the pool goes away, so nothing may be lent; every object ever issued has been
        freed by then, and none twice. */
    method Free()
      requires Valid() && lent == {}
      modifies this
      ensures issued == old(issued) && freed == issued && lent == {} && !freedTwice
    {
      var i := 0;
      while i < poolCount
        invariant i <= poolCount
        invariant poolCount == old(poolCount) && issued == old(issued) && lent == {}
        invariant freed == (old(freed) + set o | o in pool[..i]) && !freedTwice
      {
        assert pool[i] !in freed;
        assert pool[..i + 1] == pool[..i] + [pool[i]];
        CallFree(pool[i]);
        i := i + 1;
      }
    }
  }
}
