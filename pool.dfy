/**
 * The buffer pool a connection borrows from (`BufferPool<ByteBuffer>`): a
 * log of `get` and `done` events, the set of outstanding borrows derived
 * from it, and the accounting invariant that every `done` returns a buffer
 * that is currently out.
 */
module Pool {
  import opened Protocol

  datatype PoolEvent = Lent(id: nat, size: int32) | Returned(id: nat)

  /** Abstract state of the pool: the next borrow id, the outstanding borrows and the event log. */
  datatype PoolState = PoolState(nextId: nat, outstanding: set<nat>, log: seq<PoolEvent>)

  /** Ids of every borrow the log records. */
  ghost function Issued(log: seq<PoolEvent>): set<nat> {
    if log == [] then {}
    else
      var init := Issued(log[..|log| - 1]);
      match log[|log| - 1]
      case Lent(id, _) => init + {id}
      case Returned(_) => init
  }

  /** Ids borrowed and not yet returned, according to the log. */
  ghost function Outstanding(log: seq<PoolEvent>): set<nat> {
    if log == [] then {}
    else
      var init := Outstanding(log[..|log| - 1]);
      match log[|log| - 1]
      case Lent(id, _) => init + {id}
      case Returned(id) => init - {id}
  }

  /** Every `get` hands out a never-used id and every `done` returns an outstanding one. */
  ghost predicate WellFormed(log: seq<PoolEvent>) {
    log == [] ||
    var init := log[..|log| - 1];
    WellFormed(init) &&
    match log[|log| - 1]
    case Lent(id, _) => id !in Issued(init)
    case Returned(id) => id in Outstanding(init)
  }

  /** The accounting invariant of the pool. */
  ghost predicate Consistent(p: PoolState) {
    WellFormed(p.log) &&
    p.outstanding == Outstanding(p.log) &&
    forall id :: id in Issued(p.log) ==> id < p.nextId
  }

  /** `bufferPool.get(size)`: lends a buffer under a fresh id. */
  function Acquire(p: PoolState, size: int32): (r: (Buffer, PoolState))
    ensures r.0.size == size && r.0.id == p.nextId
    ensures r.1.outstanding == p.outstanding + {r.0.id}
  {
    (Buffer(p.nextId, size, []),
     PoolState(p.nextId + 1, p.outstanding + {p.nextId}, p.log + [Lent(p.nextId, size)]))
  }

  /** `bufferPool.done(buffer)`: takes back an outstanding buffer. */
  function Release(p: PoolState, id: nat): (r: PoolState)
    requires id in p.outstanding
    ensures r.outstanding == p.outstanding - {id}
  {
    PoolState(p.nextId, p.outstanding - {id}, p.log + [Returned(id)])
  }

  lemma {:induction false} OutstandingWereIssued(log: seq<PoolEvent>)
    ensures Outstanding(log) <= Issued(log)
  {
    if log != [] {
      OutstandingWereIssued(log[..|log| - 1]);
    }
  }

  /** Lending a buffer keeps the accounting invariant, and the lent id is fresh. */
  lemma AcquireConsistent(p: PoolState, size: int32)
    requires Consistent(p)
    ensures p.nextId !in Issued(p.log)
    ensures Consistent(Acquire(p, size).1)
  {
    var q := Acquire(p, size).1;
    assert q.log[..|q.log| - 1] == p.log;
    assert Issued(q.log) == Issued(p.log) + {p.nextId};
  }

  /** Returning an outstanding buffer keeps the accounting invariant. */
  lemma ReleaseConsistent(p: PoolState, id: nat)
    requires Consistent(p) && id in p.outstanding
    ensures Consistent(Release(p, id))
  {
    var q := Release(p, id);
    assert q.log[..|q.log| - 1] == p.log;
  }

  /** A buffer that has been returned is never out again: it is not outstanding. */
  lemma {:induction false} ReturnedStaysReturned(log: seq<PoolEvent>, i: nat)
    requires WellFormed(log) && i < |log| && log[i].Returned?
    ensures log[i].id !in Outstanding(log)
  {
    var init := log[..|log| - 1];
    if i < |log| - 1 {
      assert init[i] == log[i];
      ReturnedStaysReturned(init, i);
      WellFormedPrefix(init, i + 1);
      assert init[..i + 1][..i] == init[..i];
      OutstandingWereIssued(init[..i]);
      IssuedGrows(init, i);
    }
  }

  /** Issued ids never disappear from the log. */
  lemma {:induction false} IssuedGrows(log: seq<PoolEvent>, n: nat)
    requires n <= |log|
    ensures Issued(log[..n]) <= Issued(log)
  {
    if n < |log| {
      assert log[..|log| - 1][..n] == log[..n];
      IssuedGrows(log[..|log| - 1], n);
    } else {
      assert log[..n] == log;
    }
  }

  /** Prefixes of a well-formed log are well formed. */
  lemma {:induction false} WellFormedPrefix(log: seq<PoolEvent>, n: nat)
    requires WellFormed(log) && n <= |log|
    ensures WellFormed(log[..n])
  {
    if n < |log| {
      assert log[..|log| - 1][..n] == log[..n];
      WellFormedPrefix(log[..|log| - 1], n);
    } else {
      assert log[..n] == log;
    }
  }

  /** No borrow is returned twice: two `done` events (`Returned`) of a well-formed log name different ids. */
  lemma {:induction false} NoDoubleRelease(log: seq<PoolEvent>, i: nat, j: nat)
    requires WellFormed(log) && i < j < |log| && log[i].Returned? && log[j].Returned?
    ensures log[i].id != log[j].id
  {
    var prefix := log[..j + 1];
    WellFormedPrefix(log, j + 1);
    assert prefix[i] == log[i];
    assert prefix[..|prefix| - 1] == log[..j];
    ReturnedStaysReturned(log[..j], i);
  }

  /**
   * The pool itself; the Java pool's buffers are identified here by borrow
   * id. Its state is ghost: the connection never inspects it.
   */
  class BufferPool {
    var nextId: nat
    ghost var outstanding: set<nat>
    ghost var log: seq<PoolEvent>

    ghost function Model(): PoolState
      reads this
    {
      PoolState(nextId, outstanding, log)
    }

    ghost predicate Valid()
      reads this
    {
      Consistent(Model())
    }

    constructor ()
      ensures Valid() && Model() == PoolState(0, {}, [])
    {
      nextId, outstanding, log := 0, {}, [];
    }

    method Get(size: int32) returns (b: Buffer)
      requires Valid()
      modifies this
      ensures Valid()
      ensures (b, Model()) == Acquire(old(Model()), size)
    {
      AcquireConsistent(Model(), size);
      b := Buffer(nextId, size, []);
      nextId, outstanding, log := nextId + 1, outstanding + {nextId}, log + [Lent(nextId, size)];
    }

    method Done(b: Buffer)
      requires Valid() && b.id in outstanding
      modifies this
      ensures Valid()
      ensures Model() == Release(old(Model()), b.id)
    {
      ReleaseConsistent(Model(), b.id);
      outstanding, log := outstanding - {b.id}, log + [Returned(b.id)];
    }
  }
}
