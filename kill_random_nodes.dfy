/** The kill_random_nodes action: stop randomly chosen genesis nodes until `count`
    of them are down or every node was tried. A stop that exits with 0, or with 3
    (the service was not running), counts as a dead node. */
module KillRandomNodes {
  import opened Common
  import opened Remote
  import Draw

  /** The loop's test: the stop command exits with status 0 or 3. */
  function Down(rc: Remote): string -> bool {
    (a: string) => rc(a, STOP_NODE) == 0 || rc(a, STOP_NODE) == 3
  }

  method KillRandomNodes(aliases: seq<string>, count: int, rc: Remote)
    returns (ok: bool, tried: seq<string>, trace: seq<Call>)
    ensures multiset(tried) <= multiset(aliases)
    ensures Distinct(aliases) ==> Distinct(tried)
    ensures trace == Calls(tried, STOP_NODE)
    ensures ok <==> Draw.Hits(tried, Down(rc)) >= count
    ensures ok || |tried| == |aliases|
    ensures forall k :: 0 <= k < |tried| ==> Draw.Hits(tried[..k], Down(rc)) < count
  {
    var dead;
    tried, dead := Draw.DrawUntil(aliases, count, Down(rc));
    trace := Calls(tried, STOP_NODE);
    ok := dead >= count;
  }

  /** When every node can be stopped (or already was), the action succeeds exactly
      when `count` does not exceed the number of genesis nodes. */
  lemma AllStop(aliases: seq<string>, count: int, tried: seq<string>, rc: Remote)
    requires multiset(tried) <= multiset(aliases)
    requires Draw.Hits(tried, Down(rc)) >= count || |tried| == |aliases|
    requires forall a :: a in aliases ==> rc(a, STOP_NODE) in {0, 3}
    ensures Draw.Hits(tried, Down(rc)) >= count <==> count <= |aliases|
  {
    Draw.AllHitReachTarget(aliases, count, tried, Down(rc));
  }
}
