/**
 * Which of many clients feeds the one avatar observer: a lease with a mutex-guarded truth and
 * atomics that let clients which cannot own it leave without the mutex.
 */
module ObserverSessions {
  import opened Clock
  import opened Packets
  import opened ObserverSequences
  import opened AvatarObservers

  const LEASE_TIMEOUT := 6 * SECOND

  /** Client index and connection generation. */
  type Key = (nat, int)

  datatype Lease = Lease(owner: Option<Key>, everOwned: bool, lastPacketAt: Option<int>)

  /** What clients read without the mutex. */
  datatype Atomics = Atomics(ownerIndex: nat, lastPacketMillis: nat, disabled: bool)

  const VACANT := Lease(None, false, None)

  function Millis(epoch: int, now: int): nat { Elapsed(now, epoch) / MILLISECOND }

  /** Outside critical sections the atomics say what the guarded state says. */
  predicate Mirrors(epoch: int, l: Lease, a: Atomics) {
    && a.ownerIndex == (if l.owner.Some? then l.owner.value.0 + 1 else 0)
    && a.lastPacketMillis == (if l.lastPacketAt.Some? then Millis(epoch, l.lastPacketAt.value) else 0)
    && (l.owner.Some? ==> l.lastPacketAt.Some? && l.everOwned)
    && (l.lastPacketAt.Some? ==> l.lastPacketAt.value >= epoch)
  }

  /** The owner has been heard from recently enough to keep the lease. */
  predicate Live(l: Lease, now: int) {
    l.owner.Some? && l.lastPacketAt.Some? && Elapsed(now, l.lastPacketAt.value) < LEASE_TIMEOUT
  }

  predicate Grants(l: Lease, key: Key, now: int) { l.owner == Some(key) || !Live(l, now) }

  function Later(a: Option<int>, now: int): int { if a.Some? && a.value > now then a.value else now }

  function Touched(l: Lease, now: int): Lease { l.(lastPacketAt := Some(Later(l.lastPacketAt, now))) }

  /** The lease after `claim`. */
  function Claimed(l: Lease, key: Key, now: int): Lease {
    if !Grants(l, key, now) then l else Touched(Lease(Some(key), l.everOwned || l.owner != Some(key), l.lastPacketAt), now)
  }

  /** Ownership passes to someone new, so what the observer has learnt must go. */
  predicate Displaces(l: Lease, key: Key, now: int) { Grants(l, key, now) && l.owner != Some(key) && l.everOwned }

  function Noted(l: Lease, key: Key, now: int): Lease { if l.owner == Some(key) then Touched(l, now) else l }

  function Released(l: Lease, key: Key): Lease { if l.owner == Some(key) then l.(owner := None) else l }

  /** `could_own_at`. */
  predicate CouldOwn(epoch: int, a: Atomics, index: nat, now: int) {
    var age := Elapsed(Millis(epoch, now), a.lastPacketMillis);
    !a.disabled && (a.ownerIndex == 0 || a.ownerIndex == index + 1 || age >= LEASE_TIMEOUT / MILLISECOND)
  }

  /**
   * The lock-free check never turns away a client that `claim` would accept at that instant, in
   * spite of millisecond truncation; and it lets through too many only within the last
   * millisecond of a lease or for another generation of the owning client.
   */
  lemma {:induction false} FastCheckIsSafe(epoch: int, l: Lease, a: Atomics, key: Key, now: int)
    requires Mirrors(epoch, l, a) && !a.disabled
    ensures Grants(l, key, now) ==> CouldOwn(epoch, a, key.0, now)
    ensures CouldOwn(epoch, a, key.0, now) && !Grants(l, key, now) ==>
              l.owner.value.0 == key.0 || Elapsed(now, l.lastPacketAt.value) > LEASE_TIMEOUT - MILLISECOND
  {
  }

  /** The early exits of `note_packet` and `release` skip only what would have had no effect. */
  lemma {:induction false} EarlyExitsAreTransparent(epoch: int, l: Lease, a: Atomics, key: Key, now: int)
    requires Mirrors(epoch, l, a) && !a.disabled
    ensures a.ownerIndex != key.0 + 1 ==> Noted(l, key, now) == l
    ensures !CouldOwn(epoch, a, key.0, now) ==> Released(l, key) == l
  {
  }

  /** The session as clients share it; each method body from lock to unlock is one step. */
  class ObserverSession {
    const epoch: int
    const observer: AvatarObserver
    var owner: Option<Key>
    var everOwned: bool
    var lastPacketAt: Option<int>
    var ownerIndex: nat
    var lastPacketMillis: nat
    var disabled: bool

    constructor (epoch: int, observer: AvatarObserver)
      ensures this.epoch == epoch && this.observer == observer && !disabled
      ensures Guarded() == VACANT && Mirrors(epoch, Guarded(), Shared())
    {
      this.epoch, this.observer := epoch, observer;
      owner, everOwned, lastPacketAt := None, false, None;
      ownerIndex, lastPacketMillis, disabled := 0, 0, false;
    }

    function Guarded(): Lease
      reads this
    {
      Lease(owner, everOwned, lastPacketAt)
    }

    function Shared(): Atomics
      reads this
    {
      Atomics(ownerIndex, lastPacketMillis, disabled)
    }

    ghost predicate Valid()
      reads this
    {
      Mirrors(epoch, Guarded(), Shared())
    }

    method CouldOwnAt(index: nat, now: int) returns (able: bool)
      ensures able == CouldOwn(epoch, Shared(), index, now)
    {
      var elapsed := Millis(epoch, now);
      var age := if elapsed < lastPacketMillis then 0 else elapsed - lastPacketMillis;
      var expired := age >= LEASE_TIMEOUT / MILLISECOND;
      able := !disabled && (ownerIndex == 0 || ownerIndex == index + 1 || expired);
    }

    method Touch(now: int)
      requires now >= epoch && (lastPacketAt.Some? ==> lastPacketAt.value >= epoch)
      modifies this`lastPacketAt, this`lastPacketMillis
      ensures Guarded() == Touched(old(Guarded()), now)
      ensures lastPacketMillis == Millis(epoch, lastPacketAt.value) && lastPacketAt.value >= epoch
    {
      var latest := if lastPacketAt.Some? && lastPacketAt.value > now then lastPacketAt.value else now;
      lastPacketAt := Some(latest);
      lastPacketMillis := Millis(epoch, latest);
    }

    method Claim(key: Key, now: int) returns (granted: bool)
      requires Valid() && now >= epoch
      modifies this`owner, this`everOwned, this`lastPacketAt, this`ownerIndex, this`lastPacketMillis, observer
      ensures Valid() && Guarded() == Claimed(old(Guarded()), key, now)
      ensures granted == Grants(old(Guarded()), key, now)
      ensures observer.peers == if Displaces(old(Guarded()), key, now) then Forget(old(observer.peers)) else old(observer.peers)
    {
      if owner.Some? {
        if owner.value == key {
          Touch(now);
          return true;
        }
        if lastPacketAt.Some? && Elapsed(now, lastPacketAt.value) < LEASE_TIMEOUT {
          return false;
        }
      }
      if everOwned {
        observer.MarkDiscontinuity();
      }
      everOwned := true;
      owner := Some(key);
      Touch(now);
      ownerIndex := key.0 + 1;
      return true;
    }

    /** `observe_avatar_channel`: the check without the mutex loses nothing that `claim` would grant. */
    method ObserveAvatars(codec: Codec, key: Key, bundle: Option<seq<(byte, seq<byte>)>>, now: int) returns (ghost shown: seq<Shown>)
      requires Valid() && Shaped(observer.peers) && now >= epoch
      modifies this`owner, this`everOwned, this`lastPacketAt, this`ownerIndex, this`lastPacketMillis, observer
      ensures Valid() && Shaped(observer.peers)
      ensures disabled || !Grants(old(Guarded()), key, now) ==>
                Guarded() == old(Guarded()) && observer.peers == old(observer.peers) && shown == []
      ensures !disabled && Grants(old(Guarded()), key, now) ==>
                && Guarded() == Claimed(old(Guarded()), key, now)
                && (observer.peers, shown) == ObserveAll(
                     codec, if Displaces(old(Guarded()), key, now) then Forget(old(observer.peers)) else old(observer.peers), ItemsOf(bundle), now)
    {
      shown := [];
      if !disabled {
        FastCheckIsSafe(epoch, Guarded(), Shared(), key, now);
      }
      var able := CouldOwnAt(key.0, now);
      if able {
        var granted := Claim(key, now);
        if granted {
          var malformed;
          malformed, shown := observer.ObserveBundle(codec, bundle, now);
        }
      }
    }

    method NotePacket(key: Key, now: int)
      requires Valid() && now >= epoch
      modifies this`lastPacketAt, this`lastPacketMillis
      ensures Valid() && Guarded() == if disabled then old(Guarded()) else Noted(old(Guarded()), key, now)
    {
      if ownerIndex != key.0 + 1 {
        return;
      }
      if !disabled && owner == Some(key) {
        Touch(now);
      }
    }

    method Release(key: Key, now: int)
      requires Valid()
      modifies this`owner, this`ownerIndex
      ensures Valid() && Guarded() == if disabled then old(Guarded()) else Released(old(Guarded()), key)
    {
      var able := CouldOwnAt(key.0, now);
      if !able {
        return;
      }
      if owner == Some(key) {
        owner := None;
        ownerIndex := 0;
      }
    }
  }
}
