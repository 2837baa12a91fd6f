/** The candidate problems the ladder is built from, and their seen-set identity. */
module Problems {
  import opened Decimal

  /**
    A fetched problem. The contest id is held as the integer the route parses
    it to; the popularity score only orders the fetched list and is not kept.
   */
  datatype Problem = Problem(contestId: int, name: string, rating: int)

  /** The seen-set entry `${contestId}:${name}`. */
  function IdentityKey(contestId: int, name: string): string {
    IntToString(contestId) + ":" + name
  }

  /** Distinct `(contestId, name)` identities get distinct seen-set entries. */
  lemma IdentityKeyInjective(c1: int, n1: string, c2: int, n2: string)
    ensures IdentityKey(c1, n1) == IdentityKey(c2, n2) <==> c1 == c2 && n1 == n2
  {
    SplitAtColon(IntToString(c1), n1, IntToString(c2), n2);
    ParseRendered(c1);
    ParseRendered(c2);
  }
}
