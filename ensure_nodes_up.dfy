/** The ensure_nodes_up action: start randomly chosen genesis nodes until `count`
    of them are up or every node was tried. A node already running counts, since
    starting it succeeds. */
module EnsureNodesUp {
  import opened Common
  import opened Remote
  import Draw

  /** The loop's test: the start command exits with status 0. */
  function Up(rc: Remote): string -> bool {
    (a: string) => rc(a, START_NODE) == 0
  }

  method EnsureNodesUp(aliases: seq<string>, count: int, rc: Remote)
    returns (ok: bool, tried: seq<string>, trace: seq<Call>)
    ensures multiset(tried) <= multiset(aliases)
    ensures Distinct(aliases) ==> Distinct(tried)
    // one start per tried node, in the order they were drawn
    ensures trace == Calls(tried, START_NODE)
    ensures ok <==> Draw.Hits(tried, Up(rc)) >= count
    // the loop only stops early once enough nodes are up ...
    ensures ok || |tried| == |aliases|
    // ... and does not try a node more than it needs
    ensures forall k :: 0 <= k < |tried| ==> Draw.Hits(tried[..k], Up(rc)) < count
  {
    var alive;
    tried, alive := Draw.DrawUntil(aliases, count, Up(rc));
    trace := Calls(tried, START_NODE);
    ok := alive >= count;
  }

  /** More nodes than the genesis lists can never be up. */
  lemma CountBeyondGenesis(aliases: seq<string>, count: int, tried: seq<string>, rc: Remote)
    requires multiset(tried) <= multiset(aliases)
    requires count > |aliases|
    ensures Draw.Hits(tried, Up(rc)) < count
  {
    Draw.TargetBeyondPool(aliases, count, tried, Up(rc));
  }

  /** When every node starts, the action succeeds exactly when `count` does not
      exceed the number of genesis nodes. */
  lemma AllStart(aliases: seq<string>, count: int, tried: seq<string>, rc: Remote)
    requires multiset(tried) <= multiset(aliases)
    requires Draw.Hits(tried, Up(rc)) >= count || |tried| == |aliases|
    requires forall a :: a in aliases ==> rc(a, START_NODE) == 0
    ensures Draw.Hits(tried, Up(rc)) >= count <==> count <= |aliases|
  {
    Draw.AllHitReachTarget(aliases, count, tried, Up(rc));
  }
}
