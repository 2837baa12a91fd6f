/**
  The dedup window of the `/ladder` route: walk the popularity-ordered
  candidates, drop every problem whose name was already seen at the same or a
  neighbouring contest id, and stop once the ladder is full.
 */
module DedupWindow {
  import opened Problems

  /** `ladderLimit`: the most problems a ladder holds. */
  const LadderLimit := 100

  /** `fetchLadderLimit`: how many candidates are fetched, leaving slack for dropped duplicates. */
  const FetchLadderLimit := 120

  /** `deltaContestIds`: the contest-id offsets probed in the seen set, in probing order. */
  const DeltaContestIds: seq<int> := [1, 0, -1]

  /** Same name, contest ids at most one apart: one problem mirrored on a neighbouring contest. */
  predicate Adjacent(p: Problem, q: Problem) {
    p.name == q.name && -1 <= p.contestId - q.contestId <= 1
  }

  /**
    `p` repeats a candidate processed before it. Every earlier candidate
    counts, kept or dropped, but never `p` itself.
   */
  predicate IsNearDuplicate(earlier: seq<Problem>, p: Problem) {
    exists j :: 0 <= j < |earlier| && Adjacent(earlier[j], p)
  }

  /** The candidates that are no near duplicate of an earlier one, in input order, without the size bound. */
  function Survivors(ps: seq<Problem>): (r: seq<Problem>)
    ensures |r| <= |ps|
    ensures forall k :: 0 <= k < |r| ==> r[k] in ps
    decreases |ps|
  {
    if ps == [] then []
    else
      var earlier, p := ps[..|ps| - 1], ps[|ps| - 1];
      Survivors(earlier) + (if IsNearDuplicate(earlier, p) then [] else [p])
  }

  /** The ladder: the survivors up to the output bound. */
  function Ladder(ps: seq<Problem>): (r: seq<Problem>)
    ensures |r| <= LadderLimit
    ensures r <= Survivors(ps)
    ensures |r| < LadderLimit ==> r == Survivors(ps)
  {
    var s := Survivors(ps);
    if |s| <= LadderLimit then s else s[..LadderLimit]
  }

  /** The input positions `Survivors` keeps. */
  ghost function KeptIndices(ps: seq<Problem>): seq<nat>
    decreases |ps|
  {
    if ps == [] then []
    else
      var earlier := ps[..|ps| - 1];
      KeptIndices(earlier) + (if IsNearDuplicate(earlier, ps[|ps| - 1]) then [] else [|ps| - 1])
  }

  /** `xs` is `ys` at the strictly increasing positions `idx`. */
  ghost predicate Embeds(idx: seq<nat>, xs: seq<Problem>, ys: seq<Problem>) {
    && |idx| == |xs|
    && (forall k :: 0 <= k < |idx| ==> idx[k] < |ys| && xs[k] == ys[idx[k]])
    && (forall a, b :: 0 <= a < b < |idx| ==> idx[a] < idx[b])
  }

  /** In addition, no picked problem repeats any candidate before its own position. */
  ghost predicate PicksFresh(idx: seq<nat>, xs: seq<Problem>, ys: seq<Problem>) {
    && Embeds(idx, xs, ys)
    && (forall k :: 0 <= k < |idx| ==> !IsNearDuplicate(ys[..idx[k]], xs[k]))
  }

  /** No two problems of a ladder are one problem mirrored on neighbouring contests. */
  ghost predicate NoAdjacentPair(xs: seq<Problem>) {
    forall a, b :: 0 <= a < b < |xs| ==> !Adjacent(xs[a], xs[b])
  }

  /** The seen set after processing `ps`: one `${contestId}:${name}` entry per candidate, in processing order. */
  ghost function SeenKeys(ps: seq<Problem>): set<string>
    decreases |ps|
  {
    if ps == [] then {}
    else SeenKeys(ps[..|ps| - 1]) + {IdentityKey(ps[|ps| - 1].contestId, ps[|ps| - 1].name)}
  }

  /** Every processed candidate's identity is in the seen set. */
  lemma {:induction false} SeenKeysRecord(ps: seq<Problem>, j: nat)
    requires j < |ps|
    ensures IdentityKey(ps[j].contestId, ps[j].name) in SeenKeys(ps)
    decreases |ps|
  {
    if j < |ps| - 1 {
      var earlier := ps[..|ps| - 1];
      SeenKeysRecord(earlier, j);
      assert earlier[j] == ps[j];
    }
  }

  /** The seen set holds nothing but identities of processed candidates. */
  lemma {:induction false} SeenKeysOrigin(ps: seq<Problem>, key: string)
    requires key in SeenKeys(ps)
    ensures exists j :: 0 <= j < |ps| && IdentityKey(ps[j].contestId, ps[j].name) == key
    decreases |ps|
  {
    var n := |ps| - 1;
    if key != IdentityKey(ps[n].contestId, ps[n].name) {
      var earlier := ps[..n];
      SeenKeysOrigin(earlier, key);
      var j :| 0 <= j < |earlier| && IdentityKey(earlier[j].contestId, earlier[j].name) == key;
      assert ps[j] == earlier[j];
    }
  }

  /** Processing candidate `i` appends it exactly when it is no near duplicate of those before it. */
  lemma SurvivorsStep(ps: seq<Problem>, i: nat)
    requires i < |ps|
    ensures Survivors(ps[..i + 1]) ==
      Survivors(ps[..i]) + (if IsNearDuplicate(ps[..i], ps[i]) then [] else [ps[i]])
  {
    assert ps[..i + 1][..i] == ps[..i];
  }

  /** Processing candidate `i` records its identity, whether or not it was kept. */
  lemma SeenKeysStep(ps: seq<Problem>, i: nat)
    requires i < |ps|
    ensures SeenKeys(ps[..i + 1]) == SeenKeys(ps[..i]) + {IdentityKey(ps[i].contestId, ps[i].name)}
  {
    assert ps[..i + 1][..i] == ps[..i];
  }

  /** An earlier candidate adjacent to `p` is found by one of the three probes. */
  lemma ProbeFindsEarlier(earlier: seq<Problem>, p: Problem, j: nat)
    requires j < |earlier| && Adjacent(earlier[j], p)
    ensures 0 <= 1 - (earlier[j].contestId - p.contestId) < |DeltaContestIds|
    ensures IdentityKey(p.contestId + DeltaContestIds[1 - (earlier[j].contestId - p.contestId)], p.name) in SeenKeys(earlier)
  {
    var c := p.contestId + DeltaContestIds[1 - (earlier[j].contestId - p.contestId)];
    assert c == earlier[j].contestId;
    SeenKeysRecord(earlier, j);
  }

  /** A probe that hits was caused by an earlier candidate adjacent to `p`. */
  lemma ProbeHitIsEarlier(earlier: seq<Problem>, p: Problem, m: nat)
    requires m < |DeltaContestIds|
    requires IdentityKey(p.contestId + DeltaContestIds[m], p.name) in SeenKeys(earlier)
    ensures IsNearDuplicate(earlier, p)
  {
    var cid := p.contestId + DeltaContestIds[m];
    SeenKeysOrigin(earlier, IdentityKey(cid, p.name));
    var j :| 0 <= j < |earlier| && IdentityKey(earlier[j].contestId, earlier[j].name) == IdentityKey(cid, p.name);
    IdentityKeyInjective(cid, p.name, earlier[j].contestId, earlier[j].name);
    assert Adjacent(earlier[j], p);
  }

  /**
    Probing the seen set at `cid + 1`, `cid` and `cid - 1` decides exactly
    whether the candidate is a near duplicate of an earlier one.
   */
  lemma NearDuplicateBySeenKeys(earlier: seq<Problem>, p: Problem)
    ensures IsNearDuplicate(earlier, p) <==>
      exists m :: 0 <= m < |DeltaContestIds| && IdentityKey(p.contestId + DeltaContestIds[m], p.name) in SeenKeys(earlier)
  {
    if IsNearDuplicate(earlier, p) {
      var j :| 0 <= j < |earlier| && Adjacent(earlier[j], p);
      ProbeFindsEarlier(earlier, p, j);
    }
    if exists m :: 0 <= m < |DeltaContestIds| && IdentityKey(p.contestId + DeltaContestIds[m], p.name) in SeenKeys(earlier) {
      var m :| 0 <= m < |DeltaContestIds| && IdentityKey(p.contestId + DeltaContestIds[m], p.name) in SeenKeys(earlier);
      ProbeHitIsEarlier(earlier, p, m);
    }
  }

  /** One iteration of the dedup loop, stated on the seen set and the ladder built so far. */
  lemma DedupStep(ps: seq<Problem>, i: nat, seen: set<string>, present: bool)
    requires i < |ps| && seen == SeenKeys(ps[..i])
    requires present <==> exists m :: 0 <= m < |DeltaContestIds| && IdentityKey(ps[i].contestId + DeltaContestIds[m], ps[i].name) in seen
    ensures seen + {IdentityKey(ps[i].contestId, ps[i].name)} == SeenKeys(ps[..i + 1])
    ensures present ==> Survivors(ps[..i + 1]) == Survivors(ps[..i])
    ensures !present ==> Survivors(ps[..i + 1]) == Survivors(ps[..i]) + [ps[i]]
  {
    NearDuplicateBySeenKeys(ps[..i], ps[i]);
    SurvivorsStep(ps, i);
    SeenKeysStep(ps, i);
    assert Survivors(ps[..i]) + [] == Survivors(ps[..i]);
  }

  /** The survivors of a prefix of the input are a prefix of the survivors of the input. */
  lemma {:induction false} SurvivorsPrefix(ps: seq<Problem>, k: nat)
    requires k <= |ps|
    ensures Survivors(ps[..k]) <= Survivors(ps)
    decreases |ps|
  {
    if k < |ps| {
      var earlier := ps[..|ps| - 1];
      assert earlier[..k] == ps[..k];
      SurvivorsPrefix(earlier, k);
    } else {
      assert ps[..k] == ps;
    }
  }

  /** Once a prefix of the input yields a full ladder, that is the ladder. */
  lemma LadderOfFullPrefix(ps: seq<Problem>, k: nat)
    requires k <= |ps| && |Survivors(ps[..k])| == LadderLimit
    ensures Ladder(ps) == Survivors(ps[..k])
  {
    SurvivorsPrefix(ps, k);
  }

  /** Candidates after the 100th survivor are never looked at: they cannot change the ladder. */
  lemma LadderIgnoresLaterCandidates(ps: seq<Problem>, rest: seq<Problem>)
    requires LadderLimit <= |Survivors(ps)|
    ensures Ladder(ps + rest) == Ladder(ps)
    ensures |Ladder(ps)| == LadderLimit
  {
    assert (ps + rest)[..|ps|] == ps;
    SurvivorsPrefix(ps + rest, |ps|);
  }

  /** A candidate that repeats nothing before it is kept, at the next free place, while the ladder has room. */
  lemma KeptWhenFresh(ps: seq<Problem>, j: nat)
    requires j < |ps| && !IsNearDuplicate(ps[..j], ps[j])
    requires |Survivors(ps[..j])| < LadderLimit
    ensures |Survivors(ps[..j])| < |Ladder(ps)| && Ladder(ps)[|Survivors(ps[..j])|] == ps[j]
  {
    SurvivorsStep(ps, j);
    SurvivorsPrefix(ps, j + 1);
  }

  lemma {:induction false} KeptIndicesPickFresh(ps: seq<Problem>)
    ensures PicksFresh(KeptIndices(ps), Survivors(ps), ps)
    decreases |ps|
  {
    if ps != [] {
      var n := |ps| - 1;
      var earlier := ps[..n];
      KeptIndicesPickFresh(earlier);
      var idx', xs' := KeptIndices(earlier), Survivors(earlier);
      var idx, xs := KeptIndices(ps), Survivors(ps);
      assert idx == idx' + (if IsNearDuplicate(earlier, ps[n]) then [] else [n]);
      assert xs == xs' + (if IsNearDuplicate(earlier, ps[n]) then [] else [ps[n]]);
      forall k | 0 <= k < |idx'|
        ensures idx[k] < n && xs[k] == ps[idx[k]] && !IsNearDuplicate(ps[..idx[k]], xs[k])
      {
        assert earlier[..idx'[k]] == ps[..idx'[k]];
      }
    }
  }

  /**
    The ladder is drawn from the candidates in their popularity order, and
    none of its problems repeats a candidate processed before it.
   */
  lemma LadderPicksFresh(ps: seq<Problem>)
    ensures exists idx :: PicksFresh(idx, Ladder(ps), ps)
  {
    KeptIndicesPickFresh(ps);
    var idx := KeptIndices(ps);
    var n := |Ladder(ps)|;
    assert PicksFresh(idx[..n], Ladder(ps), ps);
  }

  /** Picking fresh candidates in order leaves no adjacent pair. */
  lemma PicksFreshNoAdjacentPair(idx: seq<nat>, xs: seq<Problem>, ys: seq<Problem>)
    requires PicksFresh(idx, xs, ys)
    ensures NoAdjacentPair(xs)
  {
    forall a, b | 0 <= a < b < |xs|
      ensures !Adjacent(xs[a], xs[b])
    {
      var before := ys[..idx[b]];
      assert before[idx[a]] == xs[a];
    }
  }

  /** No two problems of a ladder share a name with contest ids at most one apart. */
  lemma LadderNoAdjacentPair(ps: seq<Problem>)
    ensures NoAdjacentPair(Ladder(ps))
  {
    LadderPicksFresh(ps);
    var idx :| PicksFresh(idx, Ladder(ps), ps);
    PicksFreshNoAdjacentPair(idx, Ladder(ps), ps);
  }

  /** `[(1, "A"), (2, "A"), (5, "B")]` gives `[(1, "A"), (5, "B")]`. */
  lemma MirroredProblemDropped()
    ensures Ladder([Problem(1, "A", 1200), Problem(2, "A", 1200), Problem(5, "B", 1300)])
         == [Problem(1, "A", 1200), Problem(5, "B", 1300)]
  {
    var ps := [Problem(1, "A", 1200), Problem(2, "A", 1200), Problem(5, "B", 1300)];
    SurvivorsStep(ps, 0);
    SurvivorsStep(ps, 1);
    SurvivorsStep(ps, 2);
    assert ps[..0] == [] && ps[..3] == ps;
    assert ps[..1][0] == ps[0] && Adjacent(ps[0], ps[1]);
    assert ps[..2] == [ps[0], ps[1]];
  }

  /**
    A chain `A@1, A@2, A@3` collapses to `A@1`: `A@3` is two away from the
    only kept problem, but `A@2` was recorded when it was dropped.
   */
  lemma DroppedDuplicatesStillRecorded()
    ensures Ladder([Problem(1, "A", 1200), Problem(2, "A", 1200), Problem(3, "A", 1200)])
         == [Problem(1, "A", 1200)]
    ensures !Adjacent(Problem(1, "A", 1200), Problem(3, "A", 1200))
  {
    var ps := [Problem(1, "A", 1200), Problem(2, "A", 1200), Problem(3, "A", 1200)];
    SurvivorsStep(ps, 0);
    SurvivorsStep(ps, 1);
    SurvivorsStep(ps, 2);
    assert ps[..0] == [] && ps[..3] == ps;
    assert ps[..1][0] == ps[0] && Adjacent(ps[0], ps[1]);
    assert ps[..2][1] == ps[1] && Adjacent(ps[1], ps[2]);
  }

  /**
    The dedup loop of the route, over a fetched candidate list: a seen set of
    `${contestId}:${name}` strings, three probes per candidate, the identity
    recorded after the probes, and a stop at `ladderLimit` problems.
   */
  method Dedup(problems: seq<Problem>) returns (finalRes: seq<Problem>)
    ensures finalRes == Ladder(problems)
  {
    var uniqueProblems: set<string> := {};
    finalRes := [];
    for i := 0 to |problems|
      invariant uniqueProblems == SeenKeys(problems[..i])
      invariant finalRes == Survivors(problems[..i])
      invariant |finalRes| < LadderLimit
    {
      var problem := problems[i];
      var cid, name := problem.contestId, problem.name;
      var present := false;
      for d := 0 to |DeltaContestIds|
        invariant !present
        invariant forall m :: 0 <= m < d ==> IdentityKey(cid + DeltaContestIds[m], name) !in uniqueProblems
      {
        if IdentityKey(cid + DeltaContestIds[d], name) in uniqueProblems {
          present := true;
          break;
        }
      }
      DedupStep(problems, i, uniqueProblems, present);
      uniqueProblems := uniqueProblems + {IdentityKey(cid, name)};
      if present {
        continue;
      }
      finalRes := finalRes + [problem];
      if |finalRes| == LadderLimit {
        LadderOfFullPrefix(problems, i + 1);
        break;
      }
    }
    assert problems[..|problems|] == problems;
  }
}
