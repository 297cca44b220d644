/** Bookkeeping of the colliders inside the trigger volume: each tick the
    current target list is compared with the list retained from the last tick. */
module TriggerDiff {
  import opened PathMatch

  /** `set(current).symmetric_difference(set(previous))`: the colliders that
      entered or left the trigger volume since the retained list was taken. */
  function SymmetricDifference(current: seq<Path>, previous: seq<Path>): (changed: set<Path>)
    ensures forall p :: p in changed <==> (p in current) != (p in previous)
  {
    var now := set p | p in current;
    var before := set p | p in previous;
    (now - before) + (before - now)
  }

  /** Observing the same list twice in a row reports no change the second time. */
  lemma SameListNoChange(s: seq<Path>)
    ensures SymmetricDifference(s, s) == {}
  {
  }

  /** Against an empty retained list, every current collider counts as changed. */
  lemma FromEmptyIsWholeSet(current: seq<Path>)
    ensures SymmetricDifference(current, []) == set p | p in current
  {
  }

  /** Only membership matters: order and repetitions of either list do not. */
  lemma DependsOnMembershipOnly(a: seq<Path>, a': seq<Path>, b: seq<Path>, b': seq<Path>)
    requires forall p :: p in a <==> p in a'
    requires forall p :: p in b <==> p in b'
    ensures SymmetricDifference(a, b) == SymmetricDifference(a', b')
  {
  }
}
