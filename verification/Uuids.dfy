/** Fresh identifiers: the n-th uuid ever drawn is the n-th value of a supply that never repeats. */
module Uuids {
  type Supply = nat -> string

  ghost predicate NeverRepeats(supply: Supply) {
    forall i: nat, j: nat :: supply(i) == supply(j) ==> i == j
  }

  ghost function DrawnIds(supply: Supply, n: nat): set<string> {
    set k: nat | k < n :: supply(k)
  }

  /** From the n-th on, nothing has been drawn; what was drawn stays drawn. */
  lemma NextIsFresh(supply: Supply, n: nat, k: nat, m: nat)
    requires NeverRepeats(supply) && n <= k < m
    ensures supply(k) !in DrawnIds(supply, n) && supply(k) in DrawnIds(supply, m)
    ensures DrawnIds(supply, n) <= DrawnIds(supply, m)
  {
  }
}
