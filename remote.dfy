/** The remote shell as the toolkit sees it: a fixed set of commands run on named
    hosts. A command's exit status is an input of the model (`Remote`), and every
    operation returns the commands it issued, in order, as a trace. */
module Remote {
  import opened Common

  const START_NODE := "systemctl start indy-node"
  const STOP_NODE := "systemctl stop indy-node"
  const STATUS_NODE := "systemctl status indy-node"

  /** `iptables <rule>` as run on a node. */
  function Iptables(rule: string): string {
    "iptables " + rule
  }

  /** One command issued on one host. */
  datatype Call = Run(host: string, command: string)

  /** Exit status of `command` on `host`. */
  type Remote = (string, string) -> int

  /** What a call that may also fail in transport produced: an exit status, or an
      exception from the SSH layer. */
  datatype Exec = Exit(code: int) | Raised

  /** The call ended in a transport exception. */
  predicate Raises(exec: (string, string) -> Exec, c: Call) {
    exec(c.host, c.command) == Raised
  }

  /** The same command issued on every host of a list, in list order. */
  function Calls(hosts: seq<string>, command: string): (r: seq<Call>)
    ensures |r| == |hosts| && forall i :: 0 <= i < |hosts| ==> r[i] == Run(hosts[i], command)
  {
    if hosts == [] then [] else Calls(hosts[..|hosts| - 1], command) + [Run(hosts[|hosts| - 1], command)]
  }

  /** Hosts on which `command` exits with status 0. */
  function Succeeded(hosts: seq<string>, command: string, rc: Remote): nat {
    CountWhere(hosts, (h: string) => rc(h, command) == 0)
  }

  /** Runs `command` once on each host, in order, counting exit status 0
      (the loop shared by start_nodes, stop_nodes and the all_nodes_up probe). */
  method RunEach(hosts: seq<string>, command: string, rc: Remote) returns (ok: nat, trace: seq<Call>)
    ensures ok == Succeeded(hosts, command, rc)
    ensures ok == |hosts| <==> forall h :: h in hosts ==> rc(h, command) == 0
    ensures trace == Calls(hosts, command)
  {
    ok, trace := 0, [];
    var tried := 0;
    for i := 0 to |hosts|
      invariant ok == Succeeded(hosts[..i], command, rc)
      invariant trace == Calls(hosts[..i], command)
      invariant tried == i
    {
      assert hosts[..i + 1][..i] == hosts[..i];
      trace := trace + [Run(hosts[i], command)];
      if rc(hosts[i], command) == 0 {
        ok := ok + 1;
      }
      tried := tried + 1;
    }
    assert hosts[..|hosts|] == hosts;
    CountWhereAll(hosts, (h: string) => rc(h, command) == 0);
  }
}
