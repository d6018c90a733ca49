/** What a client holds: a lock that is given back exactly once, however it was passed on. */
module Locks {
  import opened Basics
  import opened SharedLocks

  ghost predicate Sound(h: Held) {
    h.shared >= 0 && (h.exclusive ==> h.shared == 0)
  }

  /** `mutex` is held for sharing or alone; both as the function that releases it was chosen. */
  class Lock {
    var mutex: SharedLock?
    var sharing: bool

    /** If this is a lock at all, then the mutex is held that way. */
    ghost predicate Valid()
      reads this, mutex
    {
      mutex != null ==> Sound(mutex.Now()) && if sharing then mutex.shared > 0 else mutex.exclusive
    }

    constructor (mutex: SharedLock, sharing: bool)
      ensures this.mutex == mutex && this.sharing == sharing
    {
      this.mutex, this.sharing := mutex, sharing;
    }

    constructor Move(from: Lock)
      modifies from
      ensures mutex == old(from.mutex) && sharing == old(from.sharing) && from.mutex == null
    {
      mutex, sharing := from.mutex, from.sharing;
      new;
      from.mutex := null;
    }

    /** Gives the lock back. A lock that was moved or given back before is none any more. */
    method Release()
      requires Valid()
      modifies this, mutex
      ensures mutex == null && sharing == old(sharing)
      ensures var m := old(mutex);
        m != null ==> m.Now() == if old(sharing) then Held(false, old(mutex.shared) - 1) else Held(false, 0)
    {
      if mutex != null {
        if sharing {
          var _ := mutex.UnlockShared();
        } else {
          mutex.Unlock();
        }
      }
      mutex := null;
    }

    /** Takes over another lock, and gives back the one it was. Assigned to itself it gives back what it holds. */
    method Assign(from: Lock)
      requires Valid()
      modifies this, mutex, from
      ensures from.mutex == null && sharing == old(from.sharing)
      ensures mutex == if from == this then null else old(from.mutex)
      ensures var m := old(mutex);
        m != null ==> m.Now() == if old(sharing) then Held(false, old(mutex.shared) - 1) else Held(false, 0)
    {
      Release();
      mutex, sharing := from.mutex, from.sharing;
      from.mutex := null;
    }

    /** No mutex is touched. */
    method Swap(other: Lock)
      modifies this, other
      ensures mutex == old(other.mutex) && sharing == old(other.sharing)
      ensures other.mutex == old(mutex) && other.sharing == old(sharing)
    {
      var tmp := new Lock.Move(this);
      Assign(other);
      other.Assign(tmp);
    }

    predicate IsSameMutex(other: SharedLock)
      reads this
    {
      mutex == other
    }
  }

  /** The lock of a writer while it commits: the writer lock and the shared lock, held alone. */
  class CommitLock {
    const exclusiveLock: Lock
    const sharedLock: Lock

    ghost predicate Valid()
      reads this, exclusiveLock, sharedLock, exclusiveLock.mutex, sharedLock.mutex
    {
      exclusiveLock != sharedLock && exclusiveLock.Valid() && sharedLock.Valid()
      && (exclusiveLock.mutex != null ==> exclusiveLock.mutex != sharedLock.mutex)
    }

    constructor (exclusive: Lock, shared: Lock)
      requires exclusive != shared && exclusive.Valid() && shared.Valid()
      requires exclusive.mutex != null ==> exclusive.mutex != shared.mutex
      modifies exclusive, shared
      ensures Valid() && fresh(exclusiveLock) && fresh(sharedLock) && exclusive.mutex == null && shared.mutex == null
      ensures exclusiveLock.mutex == old(exclusive.mutex) && exclusiveLock.sharing == old(exclusive.sharing)
      ensures sharedLock.mutex == old(shared.mutex) && sharedLock.sharing == old(shared.sharing)
    {
      var mine := new Lock.Move(exclusive);
      var other := new Lock.Move(shared);
      exclusiveLock, sharedLock := mine, other;
    }

    /** Readers may enter again; the writer lock goes back to the caller. */
    method Release() returns (writeLock: Lock)
      requires Valid()
      modifies exclusiveLock, sharedLock, sharedLock.mutex
      ensures fresh(writeLock) && writeLock.Valid()
      ensures writeLock.mutex == old(exclusiveLock.mutex) && writeLock.sharing == old(exclusiveLock.sharing)
      ensures exclusiveLock.mutex == null && sharedLock.mutex == null
      ensures var m := old(sharedLock.mutex);
        m != null ==> m.Now() == if old(sharedLock.sharing) then Held(false, old(sharedLock.mutex.shared) - 1)
          else Held(false, 0)
    {
      sharedLock.Release();
      writeLock := new Lock.Move(exclusiveLock);
    }
  }

  datatype CommitResult = Granted(commitLock: CommitLock) | Refused(writeLock: Lock) | Incompatible

  /** The forms of the protocol that do not wait. */
  class LockProtocol {
    const gate: SharedLock
    const shared: SharedLock
    const writer: SharedLock

    ghost predicate Valid()
      reads this, gate, shared, writer
    {
      && gate != shared && gate != writer && shared != writer
      && Sound(gate.Now()) && Sound(shared.Now()) && Sound(writer.Now()) && writer.shared == 0
    }

    constructor ()
      ensures Valid() && fresh(gate) && fresh(shared) && fresh(writer)
      ensures gate.Now() == shared.Now() == writer.Now() == Held(false, 0)
    {
      gate := new SharedLock();
      shared := new SharedLock();
      writer := new SharedLock();
    }

    /** The gate is open again when this returns. */
    method TryReadAccess() returns (r: Option<Lock>)
      requires Valid()
      modifies gate, shared
      ensures Valid() && gate.Now() == old(gate.Now())
      ensures r.Some? <==> CanShare(old(gate.Now())) && CanShare(old(shared.Now()))
      ensures r.Some? ==> fresh(r.value) && r.value.mutex == shared && r.value.sharing && r.value.Valid()
      ensures shared.Now() == if r.Some? then Held(false, old(shared.shared) + 1) else old(shared.Now())
    {
      var slock := gate.TryLockShared();
      if !slock {
        return None;
      }
      var ok := shared.TryLockShared();
      var _ := gate.UnlockShared();
      if !ok {
        return None;
      }
      var lock := new Lock(shared, true);
      r := Some(lock);
    }

    method TryWriteAccess() returns (r: Option<Lock>)
      requires Valid()
      modifies writer
      ensures Valid() && (r.Some? <==> !old(writer.exclusive)) && writer.exclusive
      ensures r.Some? ==> fresh(r.value) && r.value.mutex == writer && !r.value.sharing && r.value.Valid()
    {
      var ok := writer.TryLock();
      if !ok {
        return None;
      }
      var lock := new Lock(writer, false);
      r := Some(lock);
    }

    /** The writer lock becomes part of the commit lock, or comes back. */
    method TryCommitAccess(writeLock: Lock) returns (r: CommitResult)
      requires Valid() && writeLock.Valid() && !writeLock.sharing
      modifies gate, shared, writeLock
      ensures Valid() && gate.Now() == old(gate.Now())
      ensures r.Incompatible? <==> old(writeLock.mutex) != writer
      ensures r.Incompatible? ==> writeLock.mutex == old(writeLock.mutex) && shared.Now() == old(shared.Now())
      ensures r.Granted? <==> old(writeLock.mutex) == writer && CanLock(old(gate.Now())) && CanLock(old(shared.Now()))
      ensures r.Granted? ==>
        && r.commitLock.Valid() && r.commitLock.exclusiveLock.mutex == writer && r.commitLock.sharedLock.mutex == shared
        && !r.commitLock.sharedLock.sharing && shared.Now() == Held(true, 0) && writeLock.mutex == null
      ensures r.Refused? ==>
        && fresh(r.writeLock) && r.writeLock.mutex == writer && r.writeLock.Valid() && writeLock.mutex == null
        && shared.Now() == old(shared.Now())
    {
      if !writeLock.IsSameMutex(writer) {
        return Incompatible;
      }
      var ulock := gate.TryLock();
      if !ulock {
        var back := new Lock.Move(writeLock);
        return Refused(back);
      }
      var ok := shared.TryLock();
      gate.Unlock();
      if !ok {
        var back := new Lock.Move(writeLock);
        return Refused(back);
      }
      var mine := new Lock(shared, false);
      var commitLock := new CommitLock(writeLock, mine);
      r := Granted(commitLock);
    }
  }
}
