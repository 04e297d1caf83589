/**
 The bounded least-recently-used cache (`lru::LruCache`) behind the request
 counters, the nonce store and the key cache. `order` lists the keys from the
 most to the least recently used one.
 */
module Lru {
  import opened Wrappers

  datatype Cache<K(==), V> = Cache(capacity: nat, order: seq<K>, items: map<K, V>)

  function Empty<K, V>(capacity: nat): (c: Cache<K, V>) {
    Cache(capacity, [], map[])
  }

  ghost predicate Distinct<T>(s: seq<T>) {
    forall i, j :: 0 <= i < j < |s| ==> s[i] != s[j]
  }

  ghost predicate Valid<K, V>(c: Cache<K, V>) {
    && 1 <= c.capacity
    && Distinct(c.order)
    && |c.order| <= c.capacity
    && (forall k :: k in c.order ==> k in c.items)
    && (forall k :: k in c.items ==> k in c.order)
  }

  function IndexOf<T(==)>(s: seq<T>, x: T): (i: nat)
    requires x in s
    ensures i < |s| && s[i] == x
  {
    if s[0] == x then 0 else 1 + IndexOf(s[1..], x)
  }

  function Without<T(==)>(s: seq<T>, x: T): seq<T>
    requires x in s
  {
    var i := IndexOf(s, x);
    s[..i] + s[i + 1..]
  }

  /** `get` and `get_mut`: the entry becomes the most recently used one. */
  function Touch<K(==), V>(c: Cache<K, V>, k: K): Cache<K, V>
    requires k in c.order
  {
    c.(order := [k] + Without(c.order, k))
  }

  /** `pop`: remove an entry. */
  function Pop<K(==), V>(c: Cache<K, V>, k: K): Cache<K, V>
    requires k in c.order
  {
    c.(order := Without(c.order, k), items := c.items - {k})
  }

  /** The key that a `put` of `k` pushes out, if any. */
  function Evicted<K(==), V>(c: Cache<K, V>, k: K): Option<K> {
    if k !in c.order && c.order != [] && |c.order| >= c.capacity then
      Some(c.order[|c.order| - 1])
    else
      None
  }

  /** `put` and `push`: insert or overwrite, dropping the oldest entry when full. */
  function Put<K(==), V>(c: Cache<K, V>, k: K, v: V): Cache<K, V> {
    if k in c.order then
      Touch(c, k).(items := c.items[k := v])
    else
      match Evicted(c, k)
      case None => c.(order := [k] + c.order, items := c.items[k := v])
      case Some(last) =>
        c.(order := [k] + c.order[..|c.order| - 1], items := (c.items - {last})[k := v])
  }

  lemma WithoutSpec<T>(s: seq<T>, x: T)
    requires x in s && Distinct(s)
    ensures Distinct(Without(s, x)) && |Without(s, x)| == |s| - 1
    ensures forall y :: y in Without(s, x) <==> y in s && y != x
  {
    var i := IndexOf(s, x);
    var r := Without(s, x);
    forall y | y in s && y != x
      ensures y in r
    {
      var j :| 0 <= j < |s| && s[j] == y;
      assert r[if j < i then j else j - 1] == y;
    }
  }

  lemma TouchSpec<K, V>(c: Cache<K, V>, k: K)
    requires Valid(c) && k in c.order
    ensures Valid(Touch(c, k)) && |Touch(c, k).order| == |c.order|
  {
    WithoutSpec(c.order, k);
  }

  lemma PopSpec<K, V>(c: Cache<K, V>, k: K)
    requires Valid(c) && k in c.order
    ensures Valid(Pop(c, k)) && |Pop(c, k).order| == |c.order| - 1
  {
    WithoutSpec(c.order, k);
  }

  /** What a `put` leaves in the cache: every other entry except the evicted one. */
  lemma PutSpec<K, V>(c: Cache<K, V>, k: K, v: V)
    requires Valid(c)
    ensures Valid(Put(c, k, v))
    ensures k in Put(c, k, v).items && Put(c, k, v).items[k] == v
    ensures forall x :: x != k ==>
                        (x in Put(c, k, v).items <==> x in c.items && Evicted(c, k) != Some(x))
    ensures forall x :: x != k && x in Put(c, k, v).items ==> Put(c, k, v).items[x] == c.items[x]
    ensures |Put(c, k, v).order| ==
            |c.order| + (if k in c.order || Evicted(c, k).Some? then 0 else 1)
  {
    if k in c.order {
      WithoutSpec(c.order, k);
    } else if Evicted(c, k).Some? {
      var n := |c.order| - 1;
      assert c.order == c.order[..n] + [c.order[n]];
      assert c.order[n] !in c.order[..n];
    }
  }
}
