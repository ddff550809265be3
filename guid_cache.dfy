/**
 * The cache from shadow project path to solution identifier, which both aggregators
 * consult while generating: a path seen before keeps its identifier, a new path gets a
 * fresh one.  Loading and saving the cache as JSON is not part of this model.
 */
module GuidCaches {
  import opened Models

  /**
   * `TryGetValue`, and on a miss `Add(key, candidate)`: the cache afterwards and the
   * identifier for `key`.
   */
  function Lookup(cache: map<string, Guid>, key: string, candidate: Guid): (r: (map<string, Guid>, Guid))
    ensures key in r.0 && r.0[key] == r.1
    ensures key in cache ==> r == (cache, cache[key])
    ensures key !in cache ==> r.1 == candidate && r.0.Keys == cache.Keys + {key}
    ensures forall k :: k in cache ==> k in r.0 && r.0[k] == cache[k]
  {
    if key in cache then (cache, cache[key]) else (cache[key := candidate], candidate)
  }

  /** Asking again for the same key returns the same identifier and changes nothing. */
  lemma LookupIdempotent(cache: map<string, Guid>, key: string, candidate: Guid, other: Guid)
    ensures var (after, g) := Lookup(cache, key, candidate);
      Lookup(after, key, other) == (after, g)
  {
  }

  /** Two lookups of different keys: each keeps the identifier it was given. */
  lemma LookupIndependent(cache: map<string, Guid>, k1: string, c1: Guid, k2: string, c2: Guid)
    requires k1 != k2
    ensures var (after1, g1) := Lookup(cache, k1, c1);
      var (after2, g2) := Lookup(after1, k2, c2);
      after2[k1] == g1 && after2[k2] == g2
  {
  }

  /** The cache dictionary, mutated in place while the solution is generated. */
  class GuidCache {
    var entries: map<string, Guid>

    constructor(initial: map<string, Guid>)
      ensures entries == initial
    {
      entries := initial;
    }

    /**
     * The identifier of a shadow path: the cached one, or a fresh one that is then
     * recorded.  A fresh identifier is drawn only on a miss.
     */
    method GetOrAdd(key: string, guids: GuidSource) returns (g: Guid)
      modifies this, guids
      ensures (entries, g) == Lookup(old(entries), key, old(guids.next))
      ensures key in old(entries) ==> guids.next == old(guids.next)
      ensures key !in old(entries) ==> !old(guids.Issued(g)) && guids.next == old(guids.next) + 1
    {
      if key in entries {
        g := entries[key];
      } else {
        g := guids.NewGuid();
        entries := entries[key := g];
      }
    }
  }
}
