/** The bounded random loop that get_random_nodes, ensure_nodes_up and
    kill_random_nodes share: draw an alias at random, remove it from the
    candidates, test it, and stop once enough tests passed or every alias was drawn.
    `random.choice` is a nondeterministic pick; every contract holds for every pick. */
module Draw {
  import opened Common

  /** Number of drawn aliases that passed `hit`. */
  function Hits(drawn: seq<string>, hit: string -> bool): nat {
    CountWhere(drawn, hit)
  }

  method DrawUntil(pool: seq<string>, target: int, hit: string -> bool)
    returns (drawn: seq<string>, hits: nat)
    ensures multiset(drawn) <= multiset(pool)
    ensures Distinct(pool) ==> Distinct(drawn)
    ensures hits == Hits(drawn, hit)
    // the loop ran until the target was reached or the candidates were used up ...
    ensures hits >= target || |drawn| == |pool|
    // ... and not a draw longer
    ensures forall k :: 0 <= k < |drawn| ==> Hits(drawn[..k], hit) < target
  {
    var candidates := pool;
    drawn, hits := [], 0;
    var tried := 0;
    while hits < target && tried < |pool|
      invariant multiset(drawn) + multiset(candidates) == multiset(pool)
      invariant tried == |drawn| && |candidates| == |pool| - tried
      invariant hits == Hits(drawn, hit)
      invariant forall k :: 0 <= k < |drawn| ==> Hits(drawn[..k], hit) < target
      decreases |pool| - tried
    {
      assert candidates[0] in candidates;
      var node :| node in candidates;
      MoveDrawn(drawn, candidates, node);
      candidates := RemoveFirst(candidates, node);
      DrawStep(drawn, node, hit, target);
      drawn := drawn + [node];
      if hit(node) {
        hits := hits + 1;
      }
      tried := tried + 1;
    }
    if Distinct(pool) {
      SubMultisetDistinct(drawn, pool);
    }
  }

  /** Moving a drawn alias from the candidates to the draw loses and adds nothing. */
  lemma MoveDrawn(drawn: seq<string>, candidates: seq<string>, node: string)
    requires node in candidates
    ensures multiset(drawn + [node]) + multiset(RemoveFirst(candidates, node)) ==
            multiset(drawn) + multiset(candidates)
  {
  }

  /** Drawing one more alias while short of the target keeps every proper
      prefix of the draw short of it, and counts the new alias once. */
  lemma DrawStep(before: seq<string>, node: string, hit: string -> bool, target: int)
    requires Hits(before, hit) < target
    requires forall k :: 0 <= k < |before| ==> Hits(before[..k], hit) < target
    ensures forall k :: 0 <= k < |before| + 1 ==> Hits((before + [node])[..k], hit) < target
    ensures Hits(before + [node], hit) == Hits(before, hit) + (if hit(node) then 1 else 0)
  {
    var drawn := before + [node];
    assert drawn[..|before|] == before;
    assert forall k :: 0 <= k < |before| ==> drawn[..k] == before[..k];
  }

  /** With a test that always passes, the loop draws exactly `min(target, |pool|)`
      aliases (none for a non-positive target). */
  lemma {:induction false} DrawAllHitLength(pool: seq<string>, target: int, drawn: seq<string>)
    requires multiset(drawn) <= multiset(pool)
    requires Hits(drawn, _ => true) >= target || |drawn| == |pool|
    requires forall k :: 0 <= k < |drawn| ==> Hits(drawn[..k], _ => true) < target
    ensures |drawn| == if target <= 0 then 0 else if target < |pool| then target else |pool|
  {
    AllHit(drawn);
    SubMultisetSize(drawn, pool);
    if |drawn| > 0 {
      var k := |drawn| - 1;
      AllHit(drawn[..k]);
    }
  }

  lemma {:induction false} AllHit(s: seq<string>)
    ensures Hits(s, _ => true) == |s|
  {
    CountWhereAll(s, _ => true);
  }

  /** The loop reports success exactly when it reached the target, which is
      impossible when the target exceeds the number of candidates. */
  lemma TargetBeyondPool(pool: seq<string>, target: int, drawn: seq<string>, hit: string -> bool)
    requires multiset(drawn) <= multiset(pool)
    requires target > |pool|
    ensures Hits(drawn, hit) < target
  {
    SubMultisetSize(drawn, pool);
  }

  /** When every candidate passes the test, the loop reaches the target exactly
      when there are at least that many candidates. */
  lemma AllHitReachTarget(pool: seq<string>, target: int, drawn: seq<string>, hit: string -> bool)
    requires multiset(drawn) <= multiset(pool)
    requires Hits(drawn, hit) >= target || |drawn| == |pool|
    requires forall x :: x in pool ==> hit(x)
    ensures Hits(drawn, hit) >= target <==> target <= |pool|
  {
    SubMultisetSize(drawn, pool);
    forall x | x in drawn ensures hit(x) {
      assert x in multiset(drawn);
    }
    CountWhereAll(drawn, hit);
  }
}
