/** The validator-info probe (chaosindy/probes/validator_info.py): collecting one
    snapshot file per node, then reading those snapshots to elect the primary,
    tally pool modes and check catch-up progress. */
module ValidatorInfo {
  import opened Common
  import opened Strings
  import opened StateStore

  const UNKNOWN := "Unknown"

  // ---------------------------------------------------------------------------
  // Fetching snapshots straight from the nodes
  // ---------------------------------------------------------------------------

  /** What a node answered to `validator-info -v --json`: the exit status, and its
      stdout as a later `json.load` of the saved file sees it. */
  datatype Reply = Reply(code: int, stdout: File)

  /** The store after saving the stdout of every node that answered with status
      0, in alias order. */
  function Fetched(store: Store, aliases: seq<string>, reply: string -> Reply): Store {
    if aliases == [] then store
    else
      var s := Fetched(store, aliases[..|aliases| - 1], reply);
      var a := aliases[|aliases| - 1];
      if reply(a).code == 0 then s[SnapshotFile(a) := reply(a).stdout] else s
  }

  /** Number of nodes that answered with status 0. */
  function AnsweredCount(aliases: seq<string>, reply: string -> Reply): nat {
    CountWhere(aliases, (a: string) => reply(a).code == 0)
  }

  /** get_validator_info_from_node_serial / _parallel: one query per alias, a
      snapshot saved for each status-0 answer, success iff all answered. */
  method FetchFromNodes(aliases: seq<string>, store: Store, reply: string -> Reply)
    returns (ok: bool, store': Store)
    ensures ok <==> forall a :: a in aliases ==> reply(a).code == 0
    ensures store' == Fetched(store, aliases, reply)
  {
    store' := store;
    var queried := 0;
    var tried := 0;
    for i := 0 to |aliases|
      invariant queried == AnsweredCount(aliases[..i], reply)
      invariant store' == Fetched(store, aliases[..i], reply)
      invariant tried == i
    {
      var alias := aliases[i];
      assert aliases[..i + 1][..i] == aliases[..i];
      if reply(alias).code == 0 {
        queried := queried + 1;
        store' := store'[SnapshotFile(alias) := reply(alias).stdout];
      }
      tried := tried + 1;
    }
    assert aliases[..|aliases|] == aliases;
    CountWhereAll(aliases, (a: string) => reply(a).code == 0);
    ok := queried >= |aliases|;
  }

  /** A snapshot is stored exactly for the nodes that answered with status 0,
      and every other file is left as it was. */
  lemma {:induction false} FetchedFiles(store: Store, aliases: seq<string>, reply: string -> Reply, name: string)
    ensures forall a :: a in aliases && reply(a).code == 0 ==>
              SnapshotFile(a) in Fetched(store, aliases, reply) &&
              Fetched(store, aliases, reply)[SnapshotFile(a)] == reply(a).stdout
    ensures (forall a :: a in aliases && reply(a).code == 0 ==> name != SnapshotFile(a)) ==>
              (name in Fetched(store, aliases, reply) <==> name in store) &&
              (name in store ==> Fetched(store, aliases, reply)[name] == store[name])
  {
    if aliases != [] {
      var init := aliases[..|aliases| - 1];
      var last := aliases[|aliases| - 1];
      FetchedFiles(store, init, reply, name);
      assert aliases == init + [last];
      forall a | a in aliases && reply(a).code == 0
        ensures SnapshotFile(a) in Fetched(store, aliases, reply) &&
                Fetched(store, aliases, reply)[SnapshotFile(a)] == reply(a).stdout
      {
        if a != last {
          assert a in init;
          if reply(last).code == 0 && SnapshotFile(a) == SnapshotFile(last) {
            SnapshotFileInjective(a, last);
          }
        }
      }
    }
  }

  // ---------------------------------------------------------------------------
  // Demultiplexing the single indy-cli response
  // ---------------------------------------------------------------------------

  /** The text that introduces each node's answer in indy-cli's output ... */
  const RESPONSE_MARKER := "Get validator info response for node "
  /** ... and the shorter text the node name is split off from. */
  const RESPONSE_PREFIX := "Get validator info response for node"

  predicate IsResponseLine(line: string) {
    Contains(line, RESPONSE_MARKER)
  }

  lemma ResponseLineHasPrefix(line: string)
    requires IsResponseLine(line)
    ensures Contains(line, RESPONSE_PREFIX)
  {
    var j := FindFirst(line, RESPONSE_MARKER).value;
    assert line[j..j + |RESPONSE_PREFIX|] == line[j..j + |RESPONSE_MARKER|][..|RESPONSE_PREFIX|];
    assert IsAt(line, RESPONSE_PREFIX, j);
  }

  /** The node a response line announces: the text after the marker, up to the
      first `:`, stripped. */
  function NodeName(line: string): string
    requires IsResponseLine(line)
  {
    ResponseLineHasPrefix(line);
    Strip(Before(After(line, RESPONSE_PREFIX), ":"))
  }

  /** The scan never meets a response line as the last line (which would make
      it read past the end). */
  predicate ScanInBounds(lines: seq<string>)
    decreases |lines|
  {
    lines == [] ||
    if IsResponseLine(lines[0]) then |lines| >= 2 && ScanInBounds(lines[2..])
    else ScanInBounds(lines[1..])
  }

  /** The (node, payload) pairs the scan finds: each response line taken with the
      line after it; every other line skipped. */
  function Demux(lines: seq<string>): seq<(string, string)>
    requires ScanInBounds(lines)
    decreases |lines|
  {
    if lines == [] then []
    else if IsResponseLine(lines[0]) then [(NodeName(lines[0]), lines[1])] + Demux(lines[2..])
    else Demux(lines[1..])
  }

  /** Writing each payload, in order, to its node's snapshot file. */
  function WriteAll(store: Store, pairs: seq<(string, string)>, decode: string -> File): Store
    decreases |pairs|
  {
    if pairs == [] then store
    else WriteAll(store[SnapshotFile(pairs[0].0) := decode(pairs[0].1)], pairs[1..], decode)
  }

  /** The `while i < number_of_lines` scan of get_validator_info_from_cli. The
      payload text is handed to `decode`, which stands for the later `json.load`. */
  method DemuxCliOutput(lines: seq<string>, store: Store, decode: string -> File) returns (store': Store)
    requires ScanInBounds(lines)
    ensures store' == WriteAll(store, Demux(lines), decode)
  {
    store' := store;
    var i := 0;
    while i < |lines|
      invariant 0 <= i <= |lines|
      invariant ScanInBounds(lines[i..])
      invariant WriteAll(store', Demux(lines[i..]), decode) == WriteAll(store, Demux(lines), decode)
      decreases |lines| - i
    {
      var line := lines[i];
      ScanStep(lines, i);
      if IsResponseLine(line) {
        var name := NodeName(line);
        WriteAllCons(store', (name, lines[i + 1]), Demux(lines[i + 2..]), decode);
        i := i + 1;
        var payload := lines[i];
        store' := store'[SnapshotFile(name) := decode(payload)];
      }
      i := i + 1;
    }
  }

  /** One step of the scan at line i. */
  lemma ScanStep(lines: seq<string>, i: nat)
    requires i < |lines| && ScanInBounds(lines[i..])
    ensures IsResponseLine(lines[i]) ==>
              i + 1 < |lines| && ScanInBounds(lines[i + 2..]) &&
              Demux(lines[i..]) == [(NodeName(lines[i]), lines[i + 1])] + Demux(lines[i + 2..])
    ensures !IsResponseLine(lines[i]) ==>
              ScanInBounds(lines[i + 1..]) && Demux(lines[i..]) == Demux(lines[i + 1..])
  {
    var rest := lines[i..];
    assert rest[0] == lines[i];
    if IsResponseLine(lines[i]) {
      assert rest[1] == lines[i + 1] && rest[2..] == lines[i + 2..];
      DemuxResponse(rest);
    } else {
      assert rest[1..] == lines[i + 1..];
      DemuxSkip(rest);
    }
  }

  lemma WriteAllCons(store: Store, pair: (string, string), pairs: seq<(string, string)>, decode: string -> File)
    ensures WriteAll(store, [pair] + pairs, decode) == WriteAll(store[SnapshotFile(pair.0) := decode(pair.1)], pairs, decode)
  {
    assert ([pair] + pairs)[0] == pair && ([pair] + pairs)[1..] == pairs;
  }

  /** Output without any response line yields no snapshot. */
  lemma {:induction false} DemuxNoResponse(lines: seq<string>)
    requires forall i :: 0 <= i < |lines| ==> !IsResponseLine(lines[i])
    ensures ScanInBounds(lines) && Demux(lines) == []
  {
    if lines != [] {
      DemuxNoResponse(lines[1..]);
    }
  }

  /** The line indy-cli prints before the answer of node `name`. */
  function ResponseLine(name: string): string {
    RESPONSE_MARKER + name + ":"
  }

  /** A name the scan can recover: not empty, no `:`, no surrounding whitespace. */
  predicate PlainName(name: string) {
    name != [] && ':' !in name && !IsSpace(name[0]) && !IsSpace(name[|name| - 1])
  }

  /** indy-cli output announcing each node's answer on the line before it. */
  function Transcript(pairs: seq<(string, string)>): seq<string>
    decreases |pairs|
  {
    if pairs == [] then [] else [ResponseLine(pairs[0].0), pairs[0].1] + Transcript(pairs[1..])
  }

  lemma ResponseLineName(name: string)
    requires PlainName(name)
    ensures IsResponseLine(ResponseLine(name))
    ensures NodeName(ResponseLine(name)) == name
  {
    var line := ResponseLine(name);
    assert line[..|RESPONSE_MARKER|] == RESPONSE_MARKER;
    assert IsAt(line, RESPONSE_MARKER, 0);
    assert IsAt(line, RESPONSE_PREFIX, 0) by {
      assert line[..|RESPONSE_PREFIX|] == RESPONSE_MARKER[..|RESPONSE_PREFIX|];
    }
    assert FindFirst(line, RESPONSE_PREFIX) == Some(0);
    var rest := After(line, RESPONSE_PREFIX);
    assert rest == " " + name + ":";
    forall k | 0 <= k < |name| + 1 ensures !IsAt(rest, ":", k) {
      IsAtChar(rest, ':', k);
      if k > 0 {
        assert rest[k] == name[k - 1];
      }
    }
    IsAtChar(rest, ':', |name| + 1);
    assert FindFirst(rest, ":") == Some(|name| + 1);
    assert Before(rest, ":") == " " + name;
    assert TrimStart(" " + name) == TrimStart(name) by {
      assert (" " + name)[1..] == name;
    }
    assert TrimStart(name) == name;
  }

  /** Demultiplexing gives back exactly the answers a transcript announced, in order. */
  lemma {:induction false} DemuxTranscript(pairs: seq<(string, string)>)
    requires forall i :: 0 <= i < |pairs| ==> PlainName(pairs[i].0)
    ensures ScanInBounds(Transcript(pairs))
    ensures Demux(Transcript(pairs)) == pairs
  {
    if pairs != [] {
      DemuxTranscript(pairs[1..]);
      TranscriptStep(pairs);
      assert pairs == [pairs[0]] + pairs[1..];
    }
  }

  /** The first announced answer comes out first. */
  lemma TranscriptStep(pairs: seq<(string, string)>)
    requires pairs != [] && PlainName(pairs[0].0)
    requires ScanInBounds(Transcript(pairs[1..]))
    ensures ScanInBounds(Transcript(pairs))
    ensures Demux(Transcript(pairs)) == [pairs[0]] + Demux(Transcript(pairs[1..]))
  {
    var t := Transcript(pairs);
    var head := pairs[0];
    assert t[0] == ResponseLine(head.0) && t[1] == head.1 && t[2..] == Transcript(pairs[1..]);
    assert IsResponseLine(t[0]) && NodeName(t[0]) == head.0 by {
      ResponseLineName(head.0);
    }
    DemuxResponse(t);
  }

  /** A response line and its payload open the scan. */
  lemma DemuxResponse(lines: seq<string>)
    requires |lines| >= 2 && IsResponseLine(lines[0]) && ScanInBounds(lines[2..])
    ensures ScanInBounds(lines)
    ensures Demux(lines) == [(NodeName(lines[0]), lines[1])] + Demux(lines[2..])
  {
  }

  /** Any other line is skipped. */
  lemma DemuxSkip(lines: seq<string>)
    requires |lines| >= 1 && !IsResponseLine(lines[0])
    ensures ScanInBounds(lines) == ScanInBounds(lines[1..])
    ensures ScanInBounds(lines) ==> Demux(lines) == Demux(lines[1..])
  {
  }

  // ---------------------------------------------------------------------------
  // Choosing the source
  // ---------------------------------------------------------------------------

  /** The values of ValidatorInfoSource.NODE and ValidatorInfoSource.CLI. */
  const SOURCE_NODE := 1
  const SOURCE_CLI := 2

  /** get_validator_info's dispatch. Any other source value reaches the
      comparison with ValidatorInfoSource.SDK, a member chaosindy/common does not
      define, so looking it up raises AttributeError. */
  method GetValidatorInfo(source: int, aliases: seq<string>, reply: string -> Reply,
                          cliLines: seq<string>, decode: string -> File, store: Store)
    returns (r: Result<bool>, store': Store)
    requires source == SOURCE_CLI ==> ScanInBounds(cliLines)
    ensures source == SOURCE_NODE ==>
              r == Ok(forall a :: a in aliases ==> reply(a).code == 0) && store' == Fetched(store, aliases, reply)
    ensures source == SOURCE_CLI ==> r == Ok(true) && store' == WriteAll(store, Demux(cliLines), decode)
    ensures source != SOURCE_NODE && source != SOURCE_CLI ==> r == Err(AttributeError) && store' == store
  {
    if source == SOURCE_NODE {
      var ok;
      ok, store' := FetchFromNodes(aliases, store, reply);
      r := Ok(ok);
    } else if source == SOURCE_CLI {
      store' := DemuxCliOutput(cliLines, store, decode);
      r := Ok(true);
    } else {
      r, store' := Err(AttributeError), store;
    }
  }

  // ---------------------------------------------------------------------------
  // Reading one node's snapshot
  // ---------------------------------------------------------------------------

  /** The part of a snapshot holding `Node_info`: indy-cli wraps it in `data`,
      the node's own script does not. */
  function Root(j: Json): Json {
    if j.JObj? && "data" in j.fields then j.fields["data"] else j
  }

  /** What detect_primary makes of one node's snapshot: the primary it reports
      (None for an empty report), or a failure that aborts the detection. */
  datatype Report = Reported(primary: Option<string>) | Failed

  function ReadReport(store: Store, alias: string): (r: Report)
    // a missing or unparseable snapshot is a report of "Unknown"
    ensures Load(store, SnapshotFile(alias)).Err? ==> r == Reported(Some(UNKNOWN))
    // a loaded snapshot fails without the two fields, or with a truthy primary that is not a string
    ensures r.Failed? <==>
              Load(store, SnapshotFile(alias)).Ok? &&
              var root := Root(Load(store, SnapshotFile(alias)).value);
              var p := Path(root, ["Node_info", "Replicas_status", alias + ":0", "Primary"]);
              p.Err? || Path(root, ["Node_info", "Mode"]).Err? || (Truthy(p.value) && !p.value.JStr?)
  {
    match Load(store, SnapshotFile(alias))
    case Err(_) => Reported(Some(UNKNOWN))
    case Ok(j) =>
      var root := Root(j);
      match Path(root, ["Node_info", "Replicas_status", alias + ":0", "Primary"])
      case Err(_) => Failed
      case Ok(p) =>
        if Path(root, ["Node_info", "Mode"]).Err? then Failed
        else if !Truthy(p) then Reported(None)
        else if p.JStr? then Reported(Some(Before(p.s, ":")))
        else Failed
  }

  /** A snapshot in the layout of the node's own validator-info script. */
  function Snapshot(alias: string, primary: Json, mode: Json): Json {
    JObj(map["Node_info" := JObj(map[
      "Replicas_status" := JObj(map[alias + ":0" := JObj(map["Primary" := primary])]),
      "Mode" := mode])])
  }

  /** A primary reported as `name:instance` is read as `name`; an empty report reads as None. */
  lemma ReportOfSnapshot(store: Store, alias: string, name: string, instance: string, mode: Json)
    requires ':' !in name
    ensures ReadReport(store[SnapshotFile(alias) := Doc(Snapshot(alias, JStr(name + ":" + instance), mode))], alias)
            == Reported(Some(name))
    ensures ReadReport(store[SnapshotFile(alias) := Doc(Snapshot(alias, JStr(""), mode))], alias) == Reported(None)
  {
    var p := name + ":" + instance;
    SnapshotPaths(alias, JStr(p), mode);
    SnapshotPaths(alias, JStr(""), mode);
    BeforeColon(name, instance);
  }

  /** `name:instance` read up to its first colon is `name`. */
  lemma BeforeColon(name: string, instance: string)
    requires ':' !in name
    ensures Before(name + ":" + instance, ":") == name
  {
    var p := name + ":" + instance;
    forall k | 0 <= k < |name| ensures !IsAt(p, ":", k) {
      IsAtChar(p, ':', k);
      assert p[k] == name[k];
    }
    IsAtChar(p, ':', |name|);
    assert FindFirst(p, ":") == Some(|name|);
    assert p[..|name|] == name;
  }

  /** The two paths detect_primary reads lead to the primary and the mode. */
  lemma SnapshotPaths(alias: string, primary: Json, mode: Json)
    ensures Root(Snapshot(alias, primary, mode)) == Snapshot(alias, primary, mode)
    ensures Path(Snapshot(alias, primary, mode), ["Node_info", "Replicas_status", alias + ":0", "Primary"]) == Ok(primary)
    ensures Path(Snapshot(alias, primary, mode), ["Node_info", "Mode"]) == Ok(mode)
  {
    var doc := Snapshot(alias, primary, mode);
    var ni := doc.fields["Node_info"];
    var rs := ni.fields["Replicas_status"];
    var rep := rs.fields[alias + ":0"];
    assert Path(doc, ["Node_info", "Replicas_status", alias + ":0", "Primary"]) ==
           Path(ni, ["Replicas_status", alias + ":0", "Primary"]);
    assert Path(ni, ["Replicas_status", alias + ":0", "Primary"]) == Path(rs, [alias + ":0", "Primary"]);
    assert Path(rs, [alias + ":0", "Primary"]) == Path(rep, ["Primary"]);
    assert Path(doc, ["Node_info", "Mode"]) == Path(ni, ["Mode"]);
  }

  /** The indy-cli layout, with the snapshot under `data`, reads exactly like the
      node's own layout. */
  lemma BothLayouts(store: Store, alias: string, j: Json)
    requires j.JObj? && "data" !in j.fields
    ensures ReadReport(store[SnapshotFile(alias) := Doc(JObj(map["data" := j]))], alias) ==
            ReadReport(store[SnapshotFile(alias) := Doc(j)], alias)
    ensures ModeOf(store[SnapshotFile(alias) := Doc(JObj(map["data" := j]))], alias) ==
            ModeOf(store[SnapshotFile(alias) := Doc(j)], alias)
  {
  }

  // ---------------------------------------------------------------------------
  // detect_primary
  // ---------------------------------------------------------------------------

  /** Keys that detect_primary adds beside the aliases in `primaries` (and `null`,
      the JSON name of the entry for an empty report). A node, validator or
      reported primary with one of these names makes its entries collide. */
  const RESERVED := {"node_count", "current_primary", "reported_primaries", "null"}

  predicate NoReservedNames(store: Store, aliases: seq<string>, validators: seq<string>) {
    (forall v :: v in validators ==> v !in RESERVED) &&
    forall a :: a in aliases && a in validators ==>
      a !in RESERVED &&
      (ReadReport(store, a).Reported? && ReadReport(store, a).primary.Some? ==> ReadReport(store, a).primary.value !in RESERVED)
  }

  /** Every participant's snapshot could be read (as a primary, None or "Unknown"). */
  predicate AllReported(store: Store, aliases: seq<string>, validators: seq<string>) {
    forall a :: a in aliases && a in validators ==> ReadReport(store, a).Reported?
  }

  /** Participants: genesis aliases that are currently validators, counted with repeats. */
  function NodeCount(aliases: seq<string>, validators: seq<string>): nat {
    CountWhere(aliases, (a: string) => a in validators)
  }

  /** The participants whose report names `k` as their primary; a report of
      "Unknown" counts for nobody. */
  function Voters(store: Store, aliases: seq<string>, validators: seq<string>, k: Option<string>): set<string> {
    set a | a in aliases && a in validators && k != Some(UNKNOWN) && ReadReport(store, a) == Reported(k)
  }

  function VoteCount(store: Store, aliases: seq<string>, validators: seq<string>, k: Option<string>): nat {
    |Voters(store, aliases, validators, k)|
  }

  /** The `is_primary_to` list of key `k` (empty when the key has none). */
  function ListOf(lists: map<Option<string>, seq<string>>, k: Option<string>): seq<string> {
    if k in lists then lists[k] else []
  }

  /** Validators that have a non-empty `is_primary_to` list. */
  function Listed(lists: map<Option<string>, seq<string>>, validators: seq<string>): nat {
    CountWhere(validators, (v: string) => ListOf(lists, Some(v)) != [])
  }

  /** `v` is reported as primary by a strict majority of the participants. */
  predicate Majority(store: Store, aliases: seq<string>, validators: seq<string>, v: string) {
    2 * VoteCount(store, aliases, validators, Some(v)) > NodeCount(aliases, validators)
  }

  /** The contents of `primaries`: each participant's report, the tally per
      reported primary, and the reconciled outcome. */
  datatype Tally = Tally(primaryOf: map<string, Option<string>>, isPrimaryTo: map<Option<string>, seq<string>>,
                         nodeCount: nat, currentPrimary: Option<string>, reportedPrimaries: nat)

  function OptText(p: Option<string>): Json {
    match p
    case None => JNull
    case Some(s) => JStr(s)
  }

  /** The entry of one alias or reported primary in `primaries`. */
  function Entry(t: Tally, name: string): Json {
    JObj((if name in t.primaryOf then map["primary" := OptText(t.primaryOf[name])] else map[]) +
         (if Some(name) in t.isPrimaryTo then map["is_primary_to" := StrList(t.isPrimaryTo[Some(name)])] else map[]) +
         (if t.currentPrimary == Some(name) then map["is_primary" := JBool(true)] else map[]))
  }

  /** `json.dumps(primary_map)`: the None key is written as `null`. */
  function EncodeTally(t: Tally): Json {
    var names := t.primaryOf.Keys + set k | k in t.isPrimaryTo && k.Some? :: k.value;
    var entries := map n | n in names :: Entry(t, n);
    var withNull := if None in t.isPrimaryTo then entries["null" := JObj(map["is_primary_to" := StrList(t.isPrimaryTo[None])])]
                    else entries;
    JObj(withNull["node_count" := JNum(t.nodeCount)] +
         (if t.currentPrimary.Some? then map["current_primary" := JStr(t.currentPrimary.value)] else map[]) +
         map["reported_primaries" := JNum(t.reportedPrimaries)])
  }

  /** The first loop of detect_primary: every participant's report is recorded,
      and each participant is appended (once) to the list of the primary it reports. */
  method TallyReports(aliases: seq<string>, validators: seq<string>, store: Store)
    returns (ok: bool, count: nat, primaryOf: map<string, Option<string>>, lists: map<Option<string>, seq<string>>)
    ensures ok <==> AllReported(store, aliases, validators)
    ensures ok ==> count == NodeCount(aliases, validators)
    ensures ok ==> forall a :: a in primaryOf <==> a in aliases && a in validators
    ensures ok ==> forall a :: a in primaryOf ==> Reported(primaryOf[a]) == ReadReport(store, a)
    ensures ok ==> forall k :: k in lists ==> lists[k] != [] && Distinct(lists[k])
    ensures ok ==> forall k, x :: x in ListOf(lists, k) <==> x in Voters(store, aliases, validators, k)
    ensures ok ==> forall k :: ListOf(lists, k) == VoterList(store, aliases, validators, k)
  {
    count, primaryOf, lists := 0, map[], map[];
    var notParticipating := 0;
    var tried := 0;
    for i := 0 to |aliases|
      invariant forall a :: a in aliases[..i] && a in validators ==> ReadReport(store, a).Reported?
      invariant count == NodeCount(aliases[..i], validators) && tried == count
      invariant forall a :: a in primaryOf <==> a in aliases[..i] && a in validators
      invariant forall a :: a in primaryOf ==> Reported(primaryOf[a]) == ReadReport(store, a)
      invariant forall k :: k in lists ==> lists[k] != []
      invariant forall k :: ListOf(lists, k) == VoterList(store, aliases[..i], validators, k)
    {
      var alias := aliases[i];
      assert aliases[..i + 1] == aliases[..i] + [alias];
      assert aliases[..i + 1][..i] == aliases[..i];
      if alias !in validators {
        notParticipating := notParticipating + 1;
        continue;
      }
      count := count + 1;
      var report := ReadReport(store, alias);
      if report.Failed? {
        return false, count, primaryOf, lists;
      }
      primaryOf := primaryOf[alias := report.primary];
      if report.primary != Some(UNKNOWN) {
        lists := RecordVote(lists, report.primary, alias);
      }
      tried := tried + 1;
    }
    assert aliases[..|aliases|] == aliases;
    forall k ensures (k in lists ==> Distinct(lists[k])) &&
                     forall x :: x in ListOf(lists, k) <==> x in Voters(store, aliases, validators, k) {
      VoterListVoters(store, aliases, validators, k);
    }
    ok := true;
  }

  /** Appends `alias` to the `is_primary_to` list of `k`, unless it is already there. */
  method RecordVote(lists: map<Option<string>, seq<string>>, k: Option<string>, alias: string)
    returns (lists': map<Option<string>, seq<string>>)
    requires forall k' :: k' in lists ==> lists[k'] != []
    ensures forall k' :: k' in lists' ==> lists'[k'] != []
    ensures ListOf(lists', k) == if alias in ListOf(lists, k) then ListOf(lists, k) else ListOf(lists, k) + [alias]
    ensures forall k' :: k' != k ==> ListOf(lists', k') == ListOf(lists, k')
  {
    var list := ListOf(lists, k);
    if alias !in list {
      list := list + [alias];
    }
    lists' := lists[k := list];
  }

  /** The `is_primary_to` list of `k` as detect_primary appends to it: the
      participants reporting `k`, in genesis order, each at its first appearance. */
  function VoterList(store: Store, aliases: seq<string>, validators: seq<string>, k: Option<string>): seq<string> {
    if aliases == [] then []
    else
      var init := VoterList(store, aliases[..|aliases| - 1], validators, k);
      var a := aliases[|aliases| - 1];
      if a in validators && k != Some(UNKNOWN) && ReadReport(store, a) == Reported(k) && a !in init
      then init + [a] else init
  }

  /** The appended list holds each voter for `k` exactly once. */
  lemma {:induction false} VoterListVoters(store: Store, aliases: seq<string>, validators: seq<string>, k: Option<string>)
    ensures Distinct(VoterList(store, aliases, validators, k))
    ensures forall x :: x in VoterList(store, aliases, validators, k) <==> x in Voters(store, aliases, validators, k)
  {
    if aliases != [] {
      var prefix, alias := aliases[..|aliases| - 1], aliases[|aliases| - 1];
      VoterListVoters(store, prefix, validators, k);
      assert aliases == prefix + [alias];
      VotersStep(store, prefix, alias, validators, k);
    }
  }

  lemma VotersStep(store: Store, prefix: seq<string>, alias: string, validators: seq<string>, k: Option<string>)
    ensures Voters(store, prefix + [alias], validators, k) ==
            Voters(store, prefix, validators, k) +
            (if alias in validators && k != Some(UNKNOWN) && ReadReport(store, alias) == Reported(k) then {alias} else {})
  {
    assert forall a :: a in prefix + [alias] <==> a in prefix || a == alias;
  }

  /** A participant backs one primary only, so two different keys together
      collect no more votes than there are participants. */
  lemma UniqueMajority(store: Store, aliases: seq<string>, validators: seq<string>, k1: Option<string>, k2: Option<string>)
    requires k1 != k2
    ensures VoteCount(store, aliases, validators, k1) + VoteCount(store, aliases, validators, k2) <= NodeCount(aliases, validators)
  {
    var v1 := Voters(store, aliases, validators, k1);
    var v2 := Voters(store, aliases, validators, k2);
    assert v1 !! v2;
    assert v1 + v2 <= ParticipantSet(aliases, validators);
    assert |v1 + v2| == |v1| + |v2|;
    SubsetCard(v1 + v2, ParticipantSet(aliases, validators));
    ParticipantSetBound(aliases, validators);
  }

  /** Hence no two validators can both hold a strict majority. */
  lemma AtMostOnePrimary(store: Store, aliases: seq<string>, validators: seq<string>, v: string, w: string)
    requires Majority(store, aliases, validators, v) && Majority(store, aliases, validators, w)
    ensures v == w
  {
    if v != w {
      UniqueMajority(store, aliases, validators, Some(v), Some(w));
    }
  }

  function ParticipantSet(aliases: seq<string>, validators: seq<string>): set<string> {
    set a | a in aliases && a in validators
  }

  lemma SubsetCard(a: set<string>, b: set<string>)
    requires a <= b
    ensures |a| <= |b|
  {
    assert b == a + (b - a);
  }

  lemma {:induction false} ParticipantSetBound(aliases: seq<string>, validators: seq<string>)
    ensures |ParticipantSet(aliases, validators)| <= NodeCount(aliases, validators)
  {
    if aliases != [] {
      var init := aliases[..|aliases| - 1];
      var last := aliases[|aliases| - 1];
      ParticipantSetBound(init, validators);
      assert aliases == init + [last];
      var p := ParticipantSet(aliases, validators);
      var q := ParticipantSet(init, validators);
      if last in validators {
        assert p == q + {last};
      } else {
        assert p == q;
      }
    }
  }

  /** The second loop of detect_primary: the validator whose list holds a strict
      majority of the participants becomes current_primary. */
  method Reconcile(validators: seq<string>, count: nat, lists: map<Option<string>, seq<string>>)
    returns (current: Option<string>, reported: nat)
    requires forall v, w :: (v in validators && w in validators &&
                            2 * |ListOf(lists, Some(v))| > count && 2 * |ListOf(lists, Some(w))| > count) ==> v == w
    ensures forall v :: current == Some(v) <==> v in validators && 2 * |ListOf(lists, Some(v))| > count
    ensures reported == Listed(lists, validators)
  {
    current, reported := None, 0;
    for i := 0 to |validators|
      invariant reported == Listed(lists, validators[..i])
      invariant current.Some? ==> current.value in validators[..i] && 2 * |ListOf(lists, current)| > count
      invariant forall v :: v in validators[..i] && 2 * |ListOf(lists, Some(v))| > count ==> current.Some?
    {
      var alias := validators[i];
      assert validators[..i + 1][..i] == validators[..i];
      assert validators[..i + 1] == validators[..i] + [alias];
      var masterCount := |ListOf(lists, Some(alias))|;
      if masterCount > 0 {
        reported := reported + 1;
      }
      if 2 * masterCount > count {
        current := Some(alias);
      }
    }
    assert validators[..|validators|] == validators;
  }

  /** detect_primary, over the snapshots already fetched (its fetch result is ignored). */
  method DetectPrimary(aliases: seq<string>, validators: seq<string>, store: Store)
    returns (r: Result<bool>, t: Tally, store': Store)
    ensures !NoReservedNames(store, aliases, validators) ==> r == Err(Unmodelled) && store' == store
    ensures NoReservedNames(store, aliases, validators) ==> r == Ok(AllReported(store, aliases, validators))
    ensures r != Ok(true) ==> store' == store
    ensures r == Ok(true) ==>
              store' == store[PRIMARIES := Doc(EncodeTally(t))] &&
              t.nodeCount == NodeCount(aliases, validators) &&
              (forall a :: a in t.primaryOf <==> a in aliases && a in validators) &&
              (forall a :: a in t.primaryOf ==> Reported(t.primaryOf[a]) == ReadReport(store, a)) &&
              // lists: exactly the voters for each key, without repeats, in genesis order; none for "Unknown"
              (forall k, x :: x in ListOf(t.isPrimaryTo, k) <==> x in Voters(store, aliases, validators, k)) &&
              (forall k :: ListOf(t.isPrimaryTo, k) == VoterList(store, aliases, validators, k)) &&
              (forall k :: k in t.isPrimaryTo ==> t.isPrimaryTo[k] != [] && Distinct(t.isPrimaryTo[k])) &&
              (forall k :: |ListOf(t.isPrimaryTo, k)| == VoteCount(store, aliases, validators, k)) &&
              Some(UNKNOWN) !in t.isPrimaryTo &&
              // the elected primary is the validator with a strict majority, if any
              (forall v :: t.currentPrimary == Some(v) <==> v in validators && Majority(store, aliases, validators, v)) &&
              t.reportedPrimaries == Listed(t.isPrimaryTo, validators) &&
              (forall v :: ListOf(t.isPrimaryTo, Some(v)) != [] <==> VoteCount(store, aliases, validators, Some(v)) > 0)
  {
    t := Tally(map[], map[], 0, None, 0);
    store' := store;
    if !NoReservedNames(store, aliases, validators) {
      r := Err(Unmodelled);
      return;
    }
    var ok, count, primaryOf, lists := TallyReports(aliases, validators, store);
    if !ok {
      r := Ok(false);
      return;
    }
    forall k ensures |ListOf(lists, k)| == VoteCount(store, aliases, validators, k) {
      ListSize(lists, k, Voters(store, aliases, validators, k));
    }
    forall v, w | v in validators && w in validators &&
                  2 * |ListOf(lists, Some(v))| > count && 2 * |ListOf(lists, Some(w))| > count
      ensures v == w
    {
      AtMostOnePrimary(store, aliases, validators, v, w);
    }
    var current, reported := Reconcile(validators, count, lists);
    assert Some(UNKNOWN) !in lists by {
      assert Voters(store, aliases, validators, Some(UNKNOWN)) == {};
      assert |ListOf(lists, Some(UNKNOWN))| == 0;
    }
    t := Tally(primaryOf, lists, count, current, reported);
    store' := store[PRIMARIES := Doc(EncodeTally(t))];
    r := Ok(true);
  }

  /** A list without repeats that holds exactly the members of `s` is as long as `s` is large. */
  lemma ListSize(lists: map<Option<string>, seq<string>>, k: Option<string>, s: set<string>)
    requires k in lists ==> Distinct(lists[k])
    requires forall x :: x in ListOf(lists, k) <==> x in s
    ensures |ListOf(lists, k)| == |s|
  {
    var l := ListOf(lists, k);
    DistinctCard(l);
    assert Elems(l) == s;
  }

  // ---------------------------------------------------------------------------
  // detect_mode and nodes_in_mode
  // ---------------------------------------------------------------------------

  /** The mode one node reports: "Unknown" for a missing snapshot, an error (that
      makes detect_mode return False) for an unparseable one or a missing field. */
  function ModeOf(store: Store, alias: string): (r: Result<Json>)
    ensures SnapshotFile(alias) !in store ==> r == Ok(JStr(UNKNOWN))
    ensures SnapshotFile(alias) in store && store[SnapshotFile(alias)].Corrupt? ==> r.Err?
  {
    match Load(store, SnapshotFile(alias))
    case Err(e) => if e == FileNotFound then Ok(JStr(UNKNOWN)) else Err(e)
    case Ok(j) => Path(Root(j), ["Node_info", "Mode"])
  }

  predicate AllModesRead(store: Store, aliases: seq<string>) {
    forall a :: a in aliases ==> ModeOf(store, a).Ok?
  }

  /** The `mode` document: `{alias: {"mode": mode}}` for every alias. */
  function ModeDoc(store: Store, aliases: seq<string>): Json
    requires AllModesRead(store, aliases)
  {
    JObj(map a | a in aliases :: JObj(map["mode" := ModeOf(store, a).value]))
  }

  method DetectMode(aliases: seq<string>, store: Store) returns (ok: bool, store': Store)
    ensures ok <==> AllModesRead(store, aliases)
    ensures !ok ==> store' == store
    ensures ok ==> store' == store[MODE := Doc(ModeDoc(store, aliases))]
  {
    store' := store;
    var modeMap: map<string, Json> := map[];
    var tried := 0;
    for i := 0 to |aliases|
      invariant forall a :: a in aliases[..i] ==> ModeOf(store, a).Ok?
      invariant forall a :: a in modeMap <==> a in aliases[..i]
      invariant forall a :: a in modeMap ==> ModeOf(store, a).Ok? && modeMap[a] == JObj(map["mode" := ModeOf(store, a).value])
      invariant tried == i
    {
      var alias := aliases[i];
      assert aliases[..i + 1] == aliases[..i] + [alias];
      var mode := ModeOf(store, alias);
      if mode.Err? {
        return false, store;
      }
      modeMap := modeMap[alias := JObj(map["mode" := mode.value])];
      tried := tried + 1;
    }
    assert aliases[..|aliases|] == aliases;
    assert modeMap == ModeDoc(store, aliases).fields;
    store' := store[MODE := Doc(JObj(modeMap))];
    ok := true;
  }

  /** The distinct aliases reporting `mode`. */
  function InMode(store: Store, aliases: seq<string>, mode: string): set<string>
    requires AllModesRead(store, aliases)
  {
    set a | a in aliases && ModeOf(store, a).value == JStr(mode)
  }

  /** The entries of the `mode` document whose `mode` field equals `mode`. */
  function ModeMatches(nodeMode: map<string, Json>, mode: string): set<string> {
    set a | a in nodeMode && Path(nodeMode[a], ["mode"]) == Ok(JStr(mode))
  }

  /** The `ncount` loop of nodes_in_mode over the keys of the `mode` document. */
  method CountMode(nodeMode: map<string, Json>, mode: string) returns (ncount: nat)
    ensures ncount == |ModeMatches(nodeMode, mode)|
  {
    var remaining := nodeMode.Keys;
    ncount := 0;
    ghost var seen: set<string> := {};
    ghost var matched: set<string> := {};
    while remaining != {}
      invariant remaining + seen == nodeMode.Keys && remaining !! seen
      invariant forall a :: a in matched <==> a in seen && Path(nodeMode[a], ["mode"]) == Ok(JStr(mode))
      invariant ncount == |matched|
      decreases remaining
    {
      var alias :| alias in remaining;
      var nmode := Path(nodeMode[alias], ["mode"]);
      if nmode == Ok(JStr(mode)) {
        ncount := ncount + 1;
        matched := matched + {alias};
      }
      remaining := remaining - {alias};
      seen := seen + {alias};
    }
    assert matched == ModeMatches(nodeMode, mode);
  }

  /** Exactly `count` nodes (not at least) are in `mode`. */
  method NodesInMode(aliases: seq<string>, mode: string, count: int, store: Store) returns (ok: bool, store': Store)
    ensures ok <==> AllModesRead(store, aliases) && |InMode(store, aliases, mode)| == count
    ensures !AllModesRead(store, aliases) ==> store' == store
    ensures AllModesRead(store, aliases) ==> store' == store[MODE := Doc(ModeDoc(store, aliases))]
  {
    var detected;
    detected, store' := DetectMode(aliases, store);
    if !detected {
      return false, store';
    }
    var loaded := Load(store', MODE);
    var nodeMode := loaded.value.fields;
    var ncount := CountMode(nodeMode, mode);
    assert ModeMatches(nodeMode, mode) == InMode(store, aliases, mode) by {
      forall a | a in nodeMode ensures Path(nodeMode[a], ["mode"]) == Ok(ModeOf(store, a).value) {
      }
    }
    ok := count == ncount;
  }

  // ---------------------------------------------------------------------------
  // resurrected_nodes_are_caught_up
  // ---------------------------------------------------------------------------

  /** How one node's snapshot fares in the catch-up check. */
  datatype Outcome =
    | Matched         // synced, with a count inside the range
    | Unmatched       // recorded in not_matching
    | Abort           // the snapshot could not be read: return False at once
    | Raise(e: Error) // `int(...)` or the comparison raised

  /** A JSON value compared with an int: integers, and booleans as 0 and 1. */
  function AsNumber(c: Json): Option<int> {
    match c
    case JNum(n) => Some(n)
    case JBool(b) => Some(if b then 1 else 0)
    case _ => None
  }

  const RANGE_SEP := " to "

  /** `int(transactions.split(" to ")[0])`. */
  function LowBound(transactions: string): Option<int> {
    ParseInt(Split(transactions, RANGE_SEP)[0])
  }

  /** `int(transactions.split(" to ")[-1])`. */
  function HighBound(transactions: string): Option<int> {
    var pieces := Split(transactions, RANGE_SEP);
    ParseInt(pieces[|pieces| - 1])
  }

  /** The test `status == 'synced' and low <= count <= high`, evaluated
      left to right with Python's short-circuiting; `low` and `high` are the
      first and last pieces of `transactions.split(" to ")`. */
  function RangeOutcome(count: Json, status: Json, transactions: string): (r: Outcome)
    ensures r != Abort
    ensures status != JStr("synced") ==> r == Unmatched
    ensures r == Matched <==>
              status == JStr("synced") && AsNumber(count).Some? &&
              LowBound(transactions).Some? && HighBound(transactions).Some? &&
              LowBound(transactions).value <= AsNumber(count).value <= HighBound(transactions).value
  {
    RangeCheck(count, status, LowBound(transactions), HighBound(transactions))
  }

  /** The same test on the parsed bounds; `None` is a bound `int(...)` rejects,
      which raises only once the comparison reaches it. */
  function RangeCheck(count: Json, status: Json, low: Option<int>, high: Option<int>): (r: Outcome)
    ensures r != Abort
    ensures status != JStr("synced") ==> r == Unmatched
    ensures r == Matched <==>
              status == JStr("synced") && AsNumber(count).Some? && low.Some? && high.Some? &&
              low.value <= AsNumber(count).value <= high.value
  {
    if status != JStr("synced") then Unmatched
    else
      match low
      case None => Raise(ValueError)
      case Some(lo) =>
        match AsNumber(count)
        case None => Raise(TypeError)
        case Some(n) =>
          if n < lo then Unmatched
          else
            match high
            case None => Raise(ValueError)
            case Some(hi) => if n <= hi then Matched else Unmatched
  }

  const CATCHUP_STATUS := ["data", "Node_info", "Catchup_status"]

  /** One node: a missing snapshot leaves count None and status "Unknown", which
      never matches; an unreadable one, or one without the fields, aborts. */
  function CatchupOutcome(store: Store, alias: string, transactions: string): Outcome {
    match Load(store, SnapshotFile(alias))
    case Err(e) => if e == FileNotFound then RangeOutcome(JNull, JStr(UNKNOWN), transactions) else Abort
    case Ok(j) =>
      var count := Path(j, CATCHUP_STATUS + ["Number_txns_in_catchup", "1"]);
      var status := Path(j, CATCHUP_STATUS + ["Ledger_statuses", "1"]);
      if count.Err? || status.Err? then Abort
      else RangeOutcome(count.value, status.value, transactions)
  }

  /** A node that did not match turns a later success into False, but not a later exception. */
  function AfterMiss(r: Result<bool>): Result<bool> {
    if r.Ok? then Ok(false) else r
  }

  /** The catch-up verdict over the killed nodes, in their stored order. */
  function CaughtUpFrom(store: Store, selected: seq<string>, transactions: string): Result<bool>
    decreases |selected|
  {
    if selected == [] then Ok(true)
    else
      match CatchupOutcome(store, selected[0], transactions)
      case Abort => Ok(false)
      case Raise(e) => Err(e)
      case Matched => CaughtUpFrom(store, selected[1..], transactions)
      case Unmatched => AfterMiss(CaughtUpFrom(store, selected[1..], transactions))
  }

  /** The loop of resurrected_nodes_are_caught_up over the stored list of killed nodes. */
  method ResurrectedNodesAreCaughtUp(selected: seq<string>, transactions: string, store: Store)
    returns (r: Result<bool>)
    ensures r == CaughtUpFrom(store, selected, transactions)
  {
    var matching: seq<string> := [];
    var notMatching: map<string, Json> := map[];
    for i := 0 to |selected|
      invariant CaughtUpFrom(store, selected, transactions) ==
                (if notMatching == map[] then CaughtUpFrom(store, selected[i..], transactions)
                 else AfterMiss(CaughtUpFrom(store, selected[i..], transactions)))
    {
      var alias := selected[i];
      assert selected[i..][0] == alias && selected[i..][1..] == selected[i + 1..];
      var count: Json, status: Json;
      var loaded := Load(store, SnapshotFile(alias));
      if loaded.Err? && loaded.error == FileNotFound {
        count, status := JNull, JStr(UNKNOWN);
      } else if loaded.Err? {
        return Ok(false);
      } else {
        var c := Path(loaded.value, CATCHUP_STATUS + ["Number_txns_in_catchup", "1"]);
        var st := Path(loaded.value, CATCHUP_STATUS + ["Ledger_statuses", "1"]);
        if c.Err? || st.Err? {
          return Ok(false);
        }
        count, status := c.value, st.value;
      }
      var outcome := RangeOutcome(count, status, transactions);
      assert outcome == CatchupOutcome(store, alias, transactions);
      if outcome.Raise? {
        return Err(outcome.e);
      } else if outcome == Matched {
        assert CaughtUpFrom(store, selected[i..], transactions) == CaughtUpFrom(store, selected[i + 1..], transactions);
        matching := matching + [alias];
      } else {
        assert outcome == Unmatched;
        assert CaughtUpFrom(store, selected[i..], transactions) ==
               AfterMiss(CaughtUpFrom(store, selected[i + 1..], transactions));
        var rest := CaughtUpFrom(store, selected[i + 1..], transactions);
        assert AfterMiss(AfterMiss(rest)) == AfterMiss(rest);
        notMatching := notMatching[alias := count];
        assert alias in notMatching && notMatching != map[];
      }
    }
    assert selected[|selected|..] == [];
    r := if notMatching == map[] then Ok(true) else Ok(false);
  }

  /** The verdict is true iff every killed node matched. */
  lemma {:induction false} CaughtUpIffAllMatched(store: Store, selected: seq<string>, transactions: string)
    ensures CaughtUpFrom(store, selected, transactions) == Ok(true) <==>
            forall a :: a in selected ==> CatchupOutcome(store, a, transactions) == Matched
  {
    if selected != [] {
      CaughtUpIffAllMatched(store, selected[1..], transactions);
      assert forall a :: a in selected <==> a == selected[0] || a in selected[1..];
    }
  }

  /** A killed node without a snapshot is never caught up. */
  lemma MissingSnapshotNeverMatches(store: Store, alias: string, transactions: string)
    requires SnapshotFile(alias) !in store
    ensures CatchupOutcome(store, alias, transactions) == Unmatched
  {
  }

  /** `lo to hi`, as an experiment writes the expected range. */
  function RangeText(lo: int, hi: int): string {
    IntToString(lo) + RANGE_SEP + IntToString(hi)
  }

  predicate NoSpace(s: string) {
    forall i :: 0 <= i < |s| ==> s[i] != ' '
  }

  lemma SplitNoSep(s: string)
    requires NoSpace(s)
    ensures Split(s, RANGE_SEP) == [s]
  {
    forall k ensures !IsAt(s, RANGE_SEP, k) {
      if 0 <= k && k + 4 <= |s| {
        assert s[k..k + 4][0] == s[k];
      }
    }
  }

  lemma SplitRange(a: string, b: string)
    requires NoSpace(a) && NoSpace(b)
    ensures Split(a + RANGE_SEP + b, RANGE_SEP) == [a, b]
  {
    var s := a + RANGE_SEP + b;
    assert IsAt(s, RANGE_SEP, |a|) by {
      assert s[|a|..|a| + 4] == RANGE_SEP;
    }
    forall k | 0 <= k < |a| ensures !IsAt(s, RANGE_SEP, k) {
      assert s[k..k + 4][0] == s[k] == a[k];
    }
    assert FindFirst(s, RANGE_SEP) == Some(|a|);
    assert s[..|a|] == a;
    assert s[|a| + 4..] == b;
    SplitNoSep(b);
  }

  /** `lo to hi` parses back to its two ends. */
  lemma RangeBounds(lo: int, hi: int)
    ensures LowBound(RangeText(lo, hi)) == Some(lo) && HighBound(RangeText(lo, hi)) == Some(hi)
  {
    var a, b := IntToString(lo), IntToString(hi);
    assert NoSpace(IntToString(lo));
    assert NoSpace(IntToString(hi));
    SplitRange(a, b);
    var pieces := Split(RangeText(lo, hi), RANGE_SEP);
    assert pieces == [a, b];
    ParseIntRoundTrip(lo);
    ParseIntRoundTrip(hi);
  }

  /** A synced node matches `lo to hi` exactly when its count lies in the inclusive range. */
  lemma SyncedInRange(n: int, lo: int, hi: int)
    ensures RangeOutcome(JNum(n), JStr("synced"), RangeText(lo, hi)) == if lo <= n <= hi then Matched else Unmatched
  {
    RangeBounds(lo, hi);
    RangeCheckSynced(n, lo, hi);
  }

  lemma RangeCheckSynced(n: int, lo: int, hi: int)
    ensures RangeCheck(JNum(n), JStr("synced"), Some(lo), Some(hi)) == if lo <= n <= hi then Matched else Unmatched
  {
  }

  /** A single number is both the low and the high end. */
  lemma SyncedExactly(n: int, c: int)
    ensures RangeOutcome(JNum(n), JStr("synced"), IntToString(c)) == if n == c then Matched else Unmatched
  {
    ExactBounds(c);
    RangeCheckSynced(n, c, c);
  }

  /** A number without a separator is its own low and high bound. */
  lemma ExactBounds(c: int)
    ensures LowBound(IntToString(c)) == Some(c) && HighBound(IntToString(c)) == Some(c)
  {
    assert NoSpace(IntToString(c));
    SplitNoSep(IntToString(c));
    ParseIntRoundTrip(c);
  }
}
