/**
 * Change notification (src/helpers/observe_helpers.ts): an Observer keeps a
 * set of listeners and hands every change to each of them; an observed
 * object intercepts writes and deletes, applies them, then emits exactly one
 * SET or DELETE change through its observer. Listener callbacks are modelled
 * as listener ids plus the log of what was delivered to whom.
 */
module ObserveHelpers {
  import opened Wrappers

  datatype ChangeType = SET | DELETE

  /** A change: which key, its value before, its value after (none for a delete), and the kind. */
  datatype Change<K, V> = Change(key: K, oldValue: Option<V>, newValue: Option<V>, kind: ChangeType)

  type ListenerId = nat

  /** One call `l(change)` of a registered listener. */
  datatype Delivery<K, V> = Delivery(listener: ListenerId, change: Change<K, V>)

  /** `object[key]`, with None for undefined. */
  function Lookup<K, V>(m: map<K, V>, key: K): Option<V> {
    if key in m then Some(m[key]) else None
  }

  /** The event the set trap emits when `key` of `m` is written with `value`. */
  function SetChange<K, V>(m: map<K, V>, key: K, value: V): Change<K, V> {
    Change(key, Lookup(m, key), Some(value), SET)
  }

  /** The event the deleteProperty trap emits when `key` of `m` is deleted. */
  function DeleteChange<K, V>(m: map<K, V>, key: K): Change<K, V> {
    Change(key, Lookup(m, key), None, DELETE)
  }

  ghost predicate NoDuplicates<T>(xs: seq<T>) {
    forall i, j :: 0 <= i < j < |xs| ==> xs[i] != xs[j]
  }

  /** `xs` without `x`, order kept: Set.delete on an insertion-ordered set. */
  function Without(xs: seq<ListenerId>, x: ListenerId): (r: seq<ListenerId>)
    ensures forall y :: y in r <==> y in xs && y != x
    ensures NoDuplicates(xs) ==> NoDuplicates(r)
  {
    if xs == [] then []
    else if xs[0] == x then Without(xs[1..], x)
    else
      var rest := Without(xs[1..], x);
      assert NoDuplicates(xs) ==> xs[0] !in xs[1..] && NoDuplicates(xs[1..]);
      [xs[0]] + rest
  }

  /** notifyChange(c) on listeners `ls`: one delivery per listener, in registration order. */
  function Broadcast<K, V>(ls: seq<ListenerId>, c: Change<K, V>): (r: seq<Delivery<K, V>>)
    ensures |r| == |ls|
    ensures forall i :: 0 <= i < |r| ==> r[i] == Delivery(ls[i], c)
  {
    if ls == [] then [] else [Delivery(ls[0], c)] + Broadcast(ls[1..], c)
  }

  /** A change reaches listener `l` exactly when `l` is registered. */
  lemma DeliveredIffRegistered<K, V>(ls: seq<ListenerId>, c: Change<K, V>, l: ListenerId)
    ensures Delivery(l, c) in Broadcast(ls, c) <==> l in ls
  {
    var r := Broadcast(ls, c);
    if l in ls {
      var i :| 0 <= i < |ls| && ls[i] == l;
      assert r[i] == Delivery(l, c);
    }
  }

  class Observer<K, V> {
    /** The registered listeners, a Set iterated in insertion order. */
    var changeListeners: seq<ListenerId>
    /** Every delivery made so far, oldest first. */
    var delivered: seq<Delivery<K, V>>

    ghost predicate Valid()
      reads this
    {
      NoDuplicates(changeListeners)
    }

    constructor()
      ensures Valid() && changeListeners == [] && delivered == []
    {
      changeListeners := [];
      delivered := [];
    }

    /** Set.add: registering a listener that is already there changes nothing. */
    method AddListener(l: ListenerId)
      requires Valid()
      modifies this
      ensures Valid()
      ensures changeListeners == if l in old(changeListeners) then old(changeListeners) else old(changeListeners) + [l]
      ensures delivered == old(delivered)
    {
      if l !in changeListeners {
        changeListeners := changeListeners + [l];
      }
    }

    method RemoveListener(l: ListenerId)
      requires Valid()
      modifies this
      ensures Valid()
      ensures changeListeners == Without(old(changeListeners), l) && l !in changeListeners
      ensures delivered == old(delivered)
    {
      changeListeners := Without(changeListeners, l);
    }

    /** Calls every registered listener with `c`, in registration order. */
    method NotifyChange(c: Change<K, V>)
      modifies this
      ensures changeListeners == old(changeListeners)
      ensures delivered == old(delivered) + Broadcast(changeListeners, c)
    {
      var i := 0;
      while i < |changeListeners|
        invariant 0 <= i <= |changeListeners|
        invariant changeListeners == old(changeListeners)
        invariant delivered == old(delivered) + Broadcast(changeListeners[..i], c)
      {
        assert Broadcast(changeListeners[..i + 1], c) == Broadcast(changeListeners[..i], c) + [Delivery(changeListeners[i], c)];
        delivered := delivered + [Delivery(changeListeners[i], c)];
        i := i + 1;
      }
      assert changeListeners[..i] == changeListeners;
    }
  }

  /** The proxy returned by observeObject: writes and deletes go to `target`, then out through `observer`. */
  class ObservedObject<K(==), V> {
    var target: map<K, V>
    const observer: Observer<K, V>

    constructor(target: map<K, V>, observer: Observer<K, V>)
      ensures this.target == target && this.observer == observer
    {
      this.target := target;
      this.observer := observer;
    }

    /** Property read: there is no get trap, so it emits nothing. */
    function Get(key: K): Option<V>
      reads this
    {
      Lookup(target, key)
    }

    /** The set trap: store the value, then emit one SET change carrying the previous value. */
    method Set(key: K, value: V)
      modifies this, observer
      ensures target == old(target)[key := value]
      ensures observer.changeListeners == old(observer.changeListeners)
      ensures observer.delivered == old(observer.delivered) + Broadcast(observer.changeListeners, SetChange(old(target), key, value))
    {
      var c := SetChange(target, key, value);
      target := target[key := value];
      observer.NotifyChange(c);
    }

    /** The deleteProperty trap: remove the key, then emit one DELETE change carrying the old value. */
    method Delete(key: K)
      modifies this, observer
      ensures target == old(target) - {key}
      ensures observer.changeListeners == old(observer.changeListeners)
      ensures observer.delivered == old(observer.delivered) + Broadcast(observer.changeListeners, DeleteChange(old(target), key))
    {
      var c := DeleteChange(target, key);
      target := target - {key};
      observer.NotifyChange(c);
    }
  }

  /** A write is seen by a listener before the write returns (observe_helpers.spec.ts). */
  method ProxyHappensSynchronously()
  {
    var o := new Observer<string, int>();
    var x := new ObservedObject<string, int>(map[], o);
    o.AddListener(0);
    assert |o.delivered| == 0;
    x.Set("a", 4);
    assert |o.delivered| == 1;
    assert o.delivered[0] == Delivery(0, Change("a", None, Some(4), SET));
  }
}
