/**
 * The updatable min-priority queue used by the path searches of tiles.py
 * (the Python module `pqueue`, whose source is not part of this model).
 * Only what its call sites rely on is stated: one priority per item,
 * decrease-key `update`, `pop_smallest` honouring an optional tie-break
 * comparator, membership (`in`) and truthiness.
 */
module PriorityQueue {
  import opened Wrappers

  /** `tb` is a strict order on `s`: irreflexive and transitive. */
  ghost predicate StrictOrderOn<T>(tb: (T, T) -> bool, s: set<T>)
  {
    (forall a :: a in s ==> !tb(a, a)) &&
    (forall a, b, c :: a in s && b in s && c in s && tb(a, b) && tb(b, c) ==> tb(a, c))
  }

  /**
   * x leaves the queue before y: a smaller priority, or an equal priority
   * and the comparator prefers x.
   */
  predicate Before<T>(m: map<T, real>, tb: Option<(T, T) -> bool>, x: T, y: T)
    requires x in m && y in m
  {
    m[x] < m[y] || (m[x] == m[y] && tb.Some? && tb.value(x, y))
  }

  /** Nothing in s leaves the queue before x. */
  predicate Minimal<T>(m: map<T, real>, tb: Option<(T, T) -> bool>, s: set<T>, x: T)
    requires s <= m.Keys && x in m
  {
    forall y :: y in s ==> !Before(m, tb, y, x)
  }

  lemma BeforeTransitive<T>(m: map<T, real>, tb: Option<(T, T) -> bool>, x: T, y: T, z: T)
    requires x in m && y in m && z in m
    requires tb.Some? ==> StrictOrderOn(tb.value, m.Keys)
    requires Before(m, tb, x, y) && Before(m, tb, y, z)
    ensures Before(m, tb, x, z)
  {
  }

  /** Every nonempty part of the queue has an item that may leave first. */
  lemma {:induction false} MinimalExists<T>(m: map<T, real>, tb: Option<(T, T) -> bool>, s: set<T>)
    requires s != {} && s <= m.Keys
    requires tb.Some? ==> StrictOrderOn(tb.value, m.Keys)
    ensures exists x :: x in s && Minimal(m, tb, s, x)
    decreases s
  {
    var z :| z in s;
    if s == {z} {
      assert Minimal(m, tb, s, z);
    } else {
      MinimalExists(m, tb, s - {z});
      var w :| w in s - {z} && Minimal(m, tb, s - {z}, w);
      if Before(m, tb, z, w) {
        forall y | y in s
          ensures !Before(m, tb, y, z)
        {
          if y != z && Before(m, tb, y, z) {
            BeforeTransitive(m, tb, y, z, w);
          }
        }
        assert Minimal(m, tb, s, z);
      } else {
        assert Minimal(m, tb, s, w);
      }
    }
  }

  class PQueue<T(==)> {
    /** The queued items and their priorities. */
    var items: map<T, real>
    /** `tie_breaker(a, b)`: true when a should leave before b at equal priority. */
    var tieBreaker: Option<(T, T) -> bool>

    constructor ()
      ensures items == map[] && tieBreaker == None
    {
      items := map[];
      tieBreaker := None;
    }

    /** `item in queue`. */
    predicate Contains(x: T)
      reads this
    {
      x in items
    }

    /** Truthiness of the queue. */
    predicate NonEmpty()
      reads this
    {
      items != map[]
    }

    /**
     * Inserts x, or lowers its priority; returns whether it did either.
     * A priority that is not lower than the queued one changes nothing.
     */
    method Update(x: T, p: real) returns (changed: bool)
      modifies this
      ensures changed <==> (x !in old(items) || p < old(items)[x])
      ensures items == if changed then old(items)[x := p] else old(items)
      ensures tieBreaker == old(tieBreaker)
    {
      changed := x !in items || p < items[x];
      if changed {
        items := items[x := p];
      }
    }

    /**
     * Removes and returns an item of smallest priority; among equal
     * priorities, none that the comparator prefers is left behind.
     */
    method PopSmallest() returns (x: T, p: real)
      requires items != map[]
      requires tieBreaker.Some? ==> StrictOrderOn(tieBreaker.value, items.Keys)
      modifies this
      ensures x in old(items) && p == old(items)[x]
      ensures forall y :: y in old(items) ==> p <= old(items)[y]
      ensures tieBreaker.Some? ==>
                forall y :: y in old(items) && y != x && old(items)[y] == p ==> !tieBreaker.value(y, x)
      ensures items == old(items) - {x}
      ensures tieBreaker == old(tieBreaker)
    {
      MinimalExists(items, tieBreaker, items.Keys);
      x :| x in items && Minimal(items, tieBreaker, items.Keys, x);
      p := items[x];
      items := items - {x};
    }
  }
}
