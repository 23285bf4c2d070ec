/** Node actions (chaosindy/actions/node.py): alias lookup in the genesis records,
    firewall rules, batch start/stop, random selection, and the random port-block
    experiment whose undo state lives in the `block_node_port_random` file. */
module NodeActions {
  import opened Common
  import opened Strings
  import opened Remote
  import opened StateStore
  import Draw

  /** The `txn.data.data` part of one genesis transaction. */
  datatype NodeData = NodeData(alias: string, clientIp: string, clientPort: int, nodeIp: string, nodePort: int)

  /** The aliases of the genesis records, in file order. */
  function Aliases(genesis: seq<NodeData>): (r: seq<string>)
    ensures |r| == |genesis| && forall i :: 0 <= i < |genesis| ==> r[i] == genesis[i].alias
  {
    seq(|genesis|, i requires 0 <= i < |genesis| => genesis[i].alias)
  }

  /** The first genesis record carrying `node` as its alias. */
  function InfoOf(genesis: seq<NodeData>, node: string): NodeData
    requires node in Aliases(genesis)
  {
    genesis[FirstIndex(Aliases(genesis), node)]
  }

  method GetAliases(genesis: seq<NodeData>) returns (aliases: seq<string>)
    ensures |aliases| == |genesis|
    ensures forall i :: 0 <= i < |genesis| ==> aliases[i] == genesis[i].alias
  {
    aliases := [];
    for i := 0 to |genesis|
      invariant |aliases| == i
      invariant forall k :: 0 <= k < i ==> aliases[k] == genesis[k].alias
    {
      aliases := aliases + [genesis[i].alias];
    }
  }

  method GetInfoByNodeName(genesis: seq<NodeData>, node: string) returns (r: Option<NodeData>)
    ensures r.None? <==> forall i :: 0 <= i < |genesis| ==> genesis[i].alias != node
    ensures r.Some? ==> exists i :: 0 <= i < |genesis| && r.value == genesis[i] && genesis[i].alias == node &&
                                    forall j :: 0 <= j < i ==> genesis[j].alias != node
    ensures r.Some? ==> node in Aliases(genesis) && r.value == InfoOf(genesis, node)
  {
    for i := 0 to |genesis|
      invariant forall j :: 0 <= j < i ==> genesis[j].alias != node
    {
      if genesis[i].alias == node {
        var names := Aliases(genesis);
        assert names[i] == node;
        assert FirstIndex(names, node) == i by {
          var f := FirstIndex(names, node);
          assert genesis[f].alias == names[f] == node;
        }
        return Some(genesis[i]);
      }
    }
    return None;
  }

  const SINGLE_PORT := " INPUT -p tcp --destination-port "
  const PORT_RANGE := " INPUT -p tcp --match multiport --dports "
  const DROP := " -j DROP"

  /** iptables rule appending a drop of TCP traffic to a port, or to a `lo:hi` range. */
  function BlockRule(port: string): string {
    if ':' in port then "-A" + PORT_RANGE + port + DROP
    else "-A" + SINGLE_PORT + port + DROP
  }

  /** The rule that deletes what BlockRule appended. */
  function UnblockRule(port: string): string {
    if ':' in port then "-D" + PORT_RANGE + port + DROP
    else "-D" + SINGLE_PORT + port + DROP
  }

  /** The unblock rule is the block rule with its `-A` (append) turned into `-D` (delete). */
  lemma UnblockIsBlockWithDelete(port: string)
    ensures BlockRule(port)[..2] == "-A"
    ensures UnblockRule(port) == "-D" + BlockRule(port)[2..]
  {
    var tail := RuleTail(port);
    var b := "-A" + tail;
    assert BlockRule(port) == b;
    assert b[2..] == tail;
  }

  /** What the block and unblock rules share after their two-letter action. */
  function RuleTail(port: string): string {
    (if ':' in port then PORT_RANGE else SINGLE_PORT) + port + DROP
  }

  method StartNodes(aliases: seq<string>, rc: Remote) returns (ok: bool, trace: seq<Call>)
    ensures ok <==> forall a :: a in aliases ==> rc(a, START_NODE) == 0
    ensures trace == Calls(aliases, START_NODE)
  {
    var alive;
    alive, trace := RunEach(aliases, START_NODE, rc);
    ok := alive == |aliases|;
  }

  method StopNodes(aliases: seq<string>, rc: Remote) returns (ok: bool, trace: seq<Call>)
    ensures ok <==> forall a :: a in aliases ==> rc(a, STOP_NODE) == 0
    ensures trace == Calls(aliases, STOP_NODE)
  {
    var stopped;
    stopped, trace := RunEach(aliases, STOP_NODE, rc);
    ok := stopped == |aliases|;
  }

  method StartAllButByNodeName(node: string, genesis: seq<NodeData>, rc: Remote) returns (ok: bool, trace: seq<Call>)
    ensures node !in Aliases(genesis) ==> !ok && trace == []
    ensures node in Aliases(genesis) ==>
              trace == Calls(RemoveFirst(Aliases(genesis), node), START_NODE) &&
              (ok <==> forall a :: a in RemoveFirst(Aliases(genesis), node) ==> rc(a, START_NODE) == 0)
  {
    var aliases := GetAliases(genesis);
    assert aliases == Aliases(genesis);
    if node in aliases {
      aliases := RemoveFirst(aliases, node);
      ok, trace := StartNodes(aliases, rc);
    } else {
      ok, trace := false, [];
    }
  }

  /** Removing the first occurrence leaves each other alias in place, and the
      removed alias only if it was listed twice. */
  lemma RemoveFirstKeepsOthers(aliases: seq<string>, node: string, a: string)
    requires node in aliases
    ensures a != node ==> (a in RemoveFirst(aliases, node) <==> a in aliases)
    ensures multiset(RemoveFirst(aliases, node))[node] == multiset(aliases)[node] - 1
  {
    var r := RemoveFirst(aliases, node);
    assert a in r <==> multiset(r)[a] > 0;
    assert a in aliases <==> multiset(aliases)[a] > 0;
  }

  /** node.py's all_nodes_up action: start every genesis node. */
  method AllNodesUp(genesis: seq<NodeData>, rc: Remote) returns (ok: bool, trace: seq<Call>)
    ensures ok <==> forall a :: a in Aliases(genesis) ==> rc(a, START_NODE) == 0
    ensures trace == Calls(Aliases(genesis), START_NODE)
  {
    var aliases := GetAliases(genesis);
    ok, trace := StartNodes(aliases, rc);
  }

  /** The unblock command for a genesis node's node port. */
  function UnblockGenesisCall(genesis: seq<NodeData>, node: string): Call
    requires node in Aliases(genesis)
  {
    Run(node, Iptables(UnblockRule(IntToString(InfoOf(genesis, node).nodePort))))
  }

  /** The unblock command of each genesis node, as a function of the alias. */
  function UnblockCallOf(genesis: seq<NodeData>): string --> Call {
    (node: string) requires node in Aliases(genesis) => UnblockGenesisCall(genesis, node)
  }

  /** The command each node of a list is sent, in list order. */
  function CallsOf(nodes: seq<string>, callOf: string --> Call): (r: seq<Call>)
    requires forall n :: n in nodes ==> callOf.requires(n)
    ensures |r| == |nodes| && forall i :: 0 <= i < |nodes| ==> r[i] == callOf(nodes[i])
  {
    seq(|nodes|, i requires 0 <= i < |nodes| => callOf(nodes[i]))
  }

  /** Unblocks every node's node port; a transport exception aborts with false
      unless best effort is asked for. The rules' exit statuses are ignored. */
  method UnblockNodePortAllNodes(genesis: seq<NodeData>, bestEffort: bool, exec: (string, string) -> Exec)
    returns (ok: bool, trace: seq<Call>)
    ensures var calls := CallsOf(Aliases(genesis), UnblockCallOf(genesis));
            (ok ==> trace == calls) &&
            (ok <==> bestEffort || forall k :: 0 <= k < |calls| ==> !Raises(exec, calls[k])) &&
            // an abort happens at the first node whose command raised, after its call
            (!ok ==> 1 <= |trace| <= |calls| && trace == calls[..|trace|] &&
                     Raises(exec, calls[|trace| - 1]) &&
                     forall k :: 0 <= k < |trace| - 1 ==> !Raises(exec, calls[k]))
  {
    var aliases := GetAliases(genesis);
    assert aliases == Aliases(genesis);
    ok, trace := RunUntilRaised(aliases, UnblockCallOf(genesis), bestEffort, exec);
  }

  /** The loop of unblock_node_port_all_nodes: each node's command in order; a
      transport exception ends the loop right after its call unless best effort
      is asked for. */
  method RunUntilRaised(nodes: seq<string>, callOf: string --> Call, bestEffort: bool, exec: (string, string) -> Exec)
    returns (ok: bool, trace: seq<Call>)
    requires forall n :: n in nodes ==> callOf.requires(n)
    ensures var calls := CallsOf(nodes, callOf);
            (ok ==> trace == calls) &&
            (ok <==> bestEffort || forall k :: 0 <= k < |calls| ==> !Raises(exec, calls[k])) &&
            (!ok ==> 1 <= |trace| <= |calls| && trace == calls[..|trace|] &&
                     Raises(exec, calls[|trace| - 1]) &&
                     forall k :: 0 <= k < |trace| - 1 ==> !Raises(exec, calls[k]))
  {
    ghost var calls := CallsOf(nodes, callOf);
    trace := [];
    for i := 0 to |nodes|
      invariant trace == calls[..i]
      invariant !bestEffort ==> forall k :: 0 <= k < i ==> !Raises(exec, calls[k])
    {
      var call := callOf(nodes[i]);
      assert calls[..i + 1] == calls[..i] + [call];
      trace := trace + [call];
      if exec(call.host, call.command) == Raised && !bestEffort {
        return false, trace;
      }
    }
    assert calls[..|nodes|] == calls;
    return true, trace;
  }

  /** `count` aliases drawn at random without replacement. */
  method GetRandomNodes(genesis: seq<NodeData>, count: int) returns (selected: seq<string>)
    ensures multiset(selected) <= multiset(Aliases(genesis))
    ensures Distinct(Aliases(genesis)) ==> Distinct(selected)
    ensures |selected| == if count <= 0 then 0 else if count < |genesis| then count else |genesis|
  {
    var aliases := GetAliases(genesis);
    assert aliases == Aliases(genesis);
    var hits;
    selected, hits := Draw.DrawUntil(aliases, count, _ => true);
    Draw.DrawAllHitLength(aliases, count, selected);
  }

  /** The block command for a genesis node's node port. */
  function BlockGenesisCall(genesis: seq<NodeData>, node: string): Call
    requires node in Aliases(genesis)
  {
    Run(node, Iptables(BlockRule(IntToString(InfoOf(genesis, node).nodePort))))
  }

  /** The block command of each genesis node, as a function of the alias. */
  function BlockCallOf(genesis: seq<NodeData>): string --> Call {
    (node: string) requires node in Aliases(genesis) => BlockGenesisCall(genesis, node)
  }

  /** The node port of each genesis node, as a function of the alias. */
  function PortOf(genesis: seq<NodeData>): string --> int {
    (node: string) requires node in Aliases(genesis) => InfoOf(genesis, node).nodePort
  }

  /** The node's command exited with status 0. */
  ghost function Succeeds(callOf: string --> Call, rc: Remote): string -> bool {
    (n: string) => callOf.requires(n) && rc(callOf(n).host, callOf(n).command) == 0
  }

  /** The block command on `node` exited with status 0. */
  ghost predicate Blocked(genesis: seq<NodeData>, node: string, rc: Remote) {
    Succeeds(BlockCallOf(genesis), rc)(node)
  }

  /** How many of `nodes` the block command succeeded on. */
  ghost function BlockedCount(genesis: seq<NodeData>, nodes: seq<string>, rc: Remote): nat {
    CountWhere(nodes, Succeeds(BlockCallOf(genesis), rc))
  }

  /** The loop of block_node_port_random: block each selected node's node port,
      recording the port of each node whose block succeeded. */
  method BlockEach(selected: seq<string>, callOf: string --> Call, portOf: string --> int, rc: Remote)
    returns (blocked: nat, ports: map<string, Json>, trace: seq<Call>)
    requires forall n :: n in selected ==> callOf.requires(n) && portOf.requires(n)
    ensures trace == CallsOf(selected, callOf)
    ensures blocked == CountWhere(selected, Succeeds(callOf, rc))
    ensures forall n :: n in ports <==> n in selected && Succeeds(callOf, rc)(n)
    ensures forall n :: n in ports ==> n in selected && ports[n] == JNum(portOf(n))
  {
    blocked, ports, trace := 0, map[], [];
    var tried := 0;
    for i := 0 to |selected|
      invariant trace == CallsOf(selected[..i], callOf)
      invariant blocked == CountWhere(selected[..i], Succeeds(callOf, rc))
      invariant forall n :: n in ports <==> n in selected[..i] && Succeeds(callOf, rc)(n)
      invariant forall n :: n in ports ==> n in selected && ports[n] == JNum(portOf(n))
      invariant tried == i
    {
      var node := selected[i];
      assert selected[..i + 1] == selected[..i] + [node];
      assert selected[..i + 1][..i] == selected[..i];
      var port := portOf(node);
      var call := callOf(node);
      trace := trace + [call];
      if rc(call.host, call.command) == 0 {
        ports := ports[node := JNum(port)];
        blocked := blocked + 1;
      }
      tried := tried + 1;
    }
    assert selected[..|selected|] == selected;
  }

  method BlockNodePortRandom(genesis: seq<NodeData>, count: int, store: Store, rc: Remote)
    returns (ok: bool, selected: seq<string>, trace: seq<Call>, store': Store)
    ensures multiset(selected) <= multiset(Aliases(genesis))
    ensures |selected| == if count <= 0 then 0 else if count < |genesis| then count else |genesis|
    ensures forall n :: n in selected ==> n in Aliases(genesis)
    ensures trace == CallsOf(selected, BlockCallOf(genesis))
    ensures BLOCKED_PORTS in store' && store'[BLOCKED_PORTS].Doc? && store'[BLOCKED_PORTS].json.JObj?
    ensures store' == store[BLOCKED_PORTS := store'[BLOCKED_PORTS]]
    // the record holds exactly the selected nodes whose block succeeded, each with its node port
    ensures var ports := store'[BLOCKED_PORTS].json.fields;
            forall n :: n in ports <==> n in selected && Blocked(genesis, n, rc)
    ensures var ports := store'[BLOCKED_PORTS].json.fields;
            forall n :: n in ports ==> n in Aliases(genesis) && ports[n] == JNum(InfoOf(genesis, n).nodePort)
    ensures ok <==> BlockedCount(genesis, selected, rc) >= count
  {
    selected := GetRandomNodes(genesis, count);
    forall n | n in selected ensures n in Aliases(genesis) {
      assert multiset(selected)[n] > 0;
    }
    var blocked, ports;
    blocked, ports, trace := BlockEach(selected, BlockCallOf(genesis), PortOf(genesis), rc);
    store' := store[BLOCKED_PORTS := Doc(JObj(ports))];
    ok := blocked >= count;
  }

  /** The unblock command for one entry of the `block_node_port_random` record. */
  function UnblockEntryCall(node: string, port: string): Call {
    Run(node, Iptables(UnblockRule(port)))
  }

  /** Whether the record's values all render as a port the way `str(...)` would here. */
  predicate PortsModelled(m: map<string, Json>) {
    forall n :: n in m ==> TextOf(m[n]).Ok?
  }

  /** The unblock command of each recorded entry, as a function of the alias. */
  function EntryCallOf(m: map<string, Json>): string --> Call {
    (n: string) requires n in m && TextOf(m[n]).Ok? => UnblockEntryCall(n, TextOf(m[n]).value)
  }

  /** What issuing `c` produced. */
  function Outcome(exec: (string, string) -> Exec, c: Call): Exec {
    exec(c.host, c.command)
  }

  /** Recorded nodes whose unblock command exited with status 0. */
  function Unblocked(m: map<string, Json>, callOf: string --> Call, exec: (string, string) -> Exec): set<string>
    requires forall n :: n in m ==> callOf.requires(n)
  {
    set n | n in m && Outcome(exec, callOf(n)) == Exit(0)
  }

  /** Recorded entries whose unblock command exited with a non-zero status; an
      entry whose command raised is dropped. */
  function StillBlocked(m: map<string, Json>, callOf: string --> Call, exec: (string, string) -> Exec): map<string, Json>
    requires forall n :: n in m ==> callOf.requires(n)
  {
    map n | n in m && Outcome(exec, callOf(n)).Exit? && Outcome(exec, callOf(n)).code != 0 :: m[n]
  }

  /** The loop of unblock_node_port_random over the recorded nodes, in the
      dictionary's own order, which the model leaves open (`order`). */
  method UnblockEach(m: map<string, Json>, callOf: string --> Call, exec: (string, string) -> Exec)
    returns (unblocked: nat, still: map<string, Json>, order: seq<string>, trace: seq<Call>)
    requires forall n :: n in m ==> callOf.requires(n)
    ensures Distinct(order) && (forall n :: n in order <==> n in m)
    ensures trace == CallsOf(order, callOf)
    ensures unblocked == |Unblocked(m, callOf, exec)|
    ensures still == StillBlocked(m, callOf, exec)
  {
    var remaining := m.Keys;
    unblocked, still, order, trace := 0, map[], [], [];
    ghost var okSet: set<string> := {};
    while remaining != {}
      invariant remaining <= m.Keys
      invariant Distinct(order) && forall n :: n in order <==> n in m && n !in remaining
      invariant trace == CallsOf(order, callOf)
      invariant forall n :: n in okSet <==> n in order && Outcome(exec, callOf(n)) == Exit(0)
      invariant unblocked == |okSet|
      invariant forall n :: n in still <==> n in order && Outcome(exec, callOf(n)).Exit? && Outcome(exec, callOf(n)).code != 0
      invariant forall n :: n in still ==> still[n] == m[n]
      decreases remaining
    {
      var node :| node in remaining;
      var call := callOf(node);
      ghost var before := order;
      order := order + [node];
      trace := trace + [call];
      assert forall n :: n in order <==> n in before || n == node;
      var outcome := exec(call.host, call.command);
      if outcome == Exit(0) {
        unblocked := unblocked + 1;
        okSet := okSet + {node};
      } else if outcome.Exit? {
        still := still[node := m[node]];
      }
      remaining := remaining - {node};
    }
    assert okSet == Unblocked(m, callOf, exec);
    assert still.Keys == StillBlocked(m, callOf, exec).Keys;
    assert still == StillBlocked(m, callOf, exec);
  }

  method UnblockNodePortRandom(bestEffort: bool, store: Store, exec: (string, string) -> Exec)
    returns (r: Result<bool>, trace: seq<Call>, store': Store)
    // missing or unreadable record: a no-op success under best effort, the exception otherwise
    ensures Load(store, BLOCKED_PORTS).Err? ==>
              store' == store && trace == [] &&
              r == (if bestEffort then Ok(true) else Err(Load(store, BLOCKED_PORTS).error))
    ensures Load(store, BLOCKED_PORTS).Ok? && !Load(store, BLOCKED_PORTS).value.JObj? ==>
              r == Err(AttributeError) && store' == store && trace == []
    ensures Load(store, BLOCKED_PORTS).Ok? && Load(store, BLOCKED_PORTS).value.JObj? &&
            !PortsModelled(Load(store, BLOCKED_PORTS).value.fields) ==>
              r == Err(Unmodelled) && store' == store && trace == []
    ensures Load(store, BLOCKED_PORTS).Ok? && Load(store, BLOCKED_PORTS).value.JObj? &&
            PortsModelled(Load(store, BLOCKED_PORTS).value.fields) ==>
              var m := Load(store, BLOCKED_PORTS).value.fields;
              // every recorded node is tried exactly once, in some order
              (exists order :: Distinct(order) && (forall n :: n in order <==> n in m) &&
                               trace == CallsOf(order, EntryCallOf(m))) &&
              if !bestEffort && |Unblocked(m, EntryCallOf(m), exec)| < |m| then r == Ok(false) && store' == store
              else r == Ok(true) && store' == store[BLOCKED_PORTS := Doc(JObj(StillBlocked(m, EntryCallOf(m), exec)))]
  {
    store', trace := store, [];
    var loaded := Load(store, BLOCKED_PORTS);
    if loaded.Err? {
      r := if bestEffort then Ok(true) else Err(loaded.error);
      return;
    }
    if !loaded.value.JObj? {
      r := Err(AttributeError);
      return;
    }
    var m := loaded.value.fields;
    if !PortsModelled(m) {
      r := Err(Unmodelled);
      return;
    }
    var unblocked, still, order;
    unblocked, still, order, trace := UnblockEach(m, EntryCallOf(m), exec);
    if !bestEffort && unblocked < |m| {
      r := Ok(false);
      return;
    }
    store' := store[BLOCKED_PORTS := Doc(JObj(still))];
    r := Ok(true);
  }

  /** Block and undo agree: the unblock command that unblock_node_port_random
      derives from a record written by block_node_port_random deletes exactly
      the rule that was appended for that node. */
  lemma BlockThenUnblockCommand(genesis: seq<NodeData>, node: string)
    requires node in Aliases(genesis)
    ensures TextOf(JNum(InfoOf(genesis, node).nodePort)).Ok?
    ensures var c := UnblockEntryCall(node, TextOf(JNum(InfoOf(genesis, node).nodePort)).value);
            c.host == BlockGenesisCall(genesis, node).host &&
            c.command == Iptables("-D" + BlockRule(IntToString(InfoOf(genesis, node).nodePort))[2..])
  {
    UnblockIsBlockWithDelete(IntToString(InfoOf(genesis, node).nodePort));
  }

  method KillRandomNodes(genesis: seq<NodeData>, count: int, rc: Remote)
    returns (ok: bool, selected: seq<string>, trace: seq<Call>)
    ensures multiset(selected) <= multiset(Aliases(genesis))
    ensures Distinct(Aliases(genesis)) ==> Distinct(selected)
    ensures |selected| == if count <= 0 then 0 else if count < |genesis| then count else |genesis|
    ensures trace == Calls(selected, STOP_NODE)
    ensures ok <==> Succeeded(selected, STOP_NODE, rc) >= count
  {
    selected := GetRandomNodes(genesis, count);
    var dead;
    dead, trace := RunEach(selected, STOP_NODE, rc);
    ok := dead >= count;
  }
}
