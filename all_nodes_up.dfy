/** The all_nodes_up probe: ask every genesis node for its service status and
    report whether all of them answered with exit status 0. */
module AllNodesUp {
  import opened Common
  import opened Remote

  method AllNodesUp(aliases: seq<string>, rc: Remote) returns (ok: bool, trace: seq<Call>)
    ensures ok <==> forall a :: a in aliases ==> rc(a, STATUS_NODE) == 0
    ensures trace == Calls(aliases, STATUS_NODE)
    ensures !ok ==> Succeeded(aliases, STATUS_NODE, rc) < |aliases|
  {
    var alive;
    alive, trace := RunEach(aliases, STATUS_NODE, rc);
    ok := alive >= |aliases|;
  }
}
