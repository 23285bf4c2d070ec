/** The primary-node actions: find the pool's primary, stop it (and, on request,
    up to f-1 backup primaries) while recording what was stopped, and start the
    stopped nodes again, either after a view change or at once. */
module PrimaryActions {
  import opened Common
  import opened Strings
  import opened Remote
  import opened StateStore
  import ValidatorInfo
  import NodeActions

  // ---------------------------------------------------------------------------
  // get_primary
  // ---------------------------------------------------------------------------

  const CURRENT_PRIMARY := "current_primary"

  /** `json.load` of `primaries`, then `.get("current_primary", None)`. A stored
      null reads as None; the document only ever holds a string there. */
  function ReadPrimary(store: Store): (r: Result<Option<string>>)
    ensures r.Ok? ==> PRIMARIES in store && store[PRIMARIES].Doc? && store[PRIMARIES].json.JObj?
    // opening or decoding the file raises
    ensures Load(store, PRIMARIES).Err? ==> r == Err(Load(store, PRIMARIES).error)
    // a document that is not an object has no `.get`
    ensures Load(store, PRIMARIES).Ok? && !Load(store, PRIMARIES).value.JObj? ==> r == Err(AttributeError)
    // an object: its `current_primary`, or None when that is absent or null
    ensures Load(store, PRIMARIES).Ok? && Load(store, PRIMARIES).value.JObj? ==>
              var fields := Load(store, PRIMARIES).value.fields;
              (CURRENT_PRIMARY !in fields || fields[CURRENT_PRIMARY] == JNull ==> r == Ok(None)) &&
              (CURRENT_PRIMARY in fields && fields[CURRENT_PRIMARY].JStr? ==> r == Ok(Some(fields[CURRENT_PRIMARY].s)))
  {
    match Load(store, PRIMARIES)
    case Err(e) => Err(e)
    case Ok(j) =>
      match Get(j, CURRENT_PRIMARY)
      case Err(e) => Err(e)
      case Ok(None) => Ok(None)
      case Ok(Some(JNull)) => Ok(None)
      case Ok(Some(JStr(p))) => Ok(Some(p))
      case Ok(Some(_)) => Err(Unmodelled)
  }

  /** Python truthiness of the primary that get_primary returned. */
  predicate Named(p: Option<string>) {
    p.Some? && p.value != ""
  }

  /** Two states agree on every file outside `names`. */
  ghost predicate SameExcept(s: Store, s': Store, names: set<string>) {
    forall n :: n !in names ==> (n in s <==> n in s') && (n in s ==> s[n] == s'[n])
  }

  /** `p` is the validator a strict majority of the participants report, or None
      when there is no such validator. */
  ghost predicate Elected(store: Store, aliases: seq<string>, validators: seq<string>, p: Option<string>) {
    forall v :: p == Some(v) <==> v in validators && ValidatorInfo.Majority(store, aliases, validators, v)
  }

  /** What a call of get_primary promises: with compile_stats it first runs
      detect_primary (which only rewrites `primaries`), then it reads `primaries`;
      when every participant's report was read, the answer is the elected primary. */
  ghost predicate PrimaryQueried(genesis: seq<NodeActions.NodeData>, validators: seq<string>, compileStats: bool,
                           store: Store, primary: Result<Option<string>>, detected: Store) {
    var aliases := NodeActions.Aliases(genesis);
    (!compileStats ==> detected == store) &&
    SameExcept(store, detected, {PRIMARIES}) &&
    primary == ReadPrimary(detected) &&
    (compileStats && ValidatorInfo.NoReservedNames(store, aliases, validators) &&
     ValidatorInfo.AllReported(store, aliases, validators) ==>
       primary.Ok? && Elected(store, aliases, validators, primary.value))
  }

  /** The `current_primary` entry of a freshly written tally is its reconciled primary,
      as long as no reported name is one of the tally's own keys. */
  lemma ReadDetectedPrimary(store: Store, t: ValidatorInfo.Tally)
    requires CURRENT_PRIMARY !in t.primaryOf && Some(CURRENT_PRIMARY) !in t.isPrimaryTo
    ensures ReadPrimary(store[PRIMARIES := Doc(ValidatorInfo.EncodeTally(t))]) == Ok(t.currentPrimary)
  {
    var j := ValidatorInfo.EncodeTally(t);
    var names := t.primaryOf.Keys + set k | k in t.isPrimaryTo && k.Some? :: k.value;
    assert CURRENT_PRIMARY !in names;
    if t.currentPrimary.Some? {
      assert j.fields[CURRENT_PRIMARY] == JStr(t.currentPrimary.value);
    } else {
      assert CURRENT_PRIMARY !in j.fields;
    }
  }

  method GetPrimary(genesis: seq<NodeActions.NodeData>, validators: seq<string>, compileStats: bool, store: Store)
    returns (primary: Result<Option<string>>, store': Store)
    ensures PrimaryQueried(genesis, validators, compileStats, store, primary, store')
  {
    store' := store;
    var aliases := NodeActions.Aliases(genesis);
    if compileStats {
      var detected, t;
      detected, t, store' := ValidatorInfo.DetectPrimary(aliases, validators, store);
      if detected == Ok(true) {
        forall k | k in t.isPrimaryTo && k.Some?
          ensures k.value !in ValidatorInfo.RESERVED
        {
          var x := t.isPrimaryTo[k][0];
          assert x in ValidatorInfo.ListOf(t.isPrimaryTo, k);
        }
        ReadDetectedPrimary(store, t);
      }
    }
    primary := ReadPrimary(store');
  }

  // ---------------------------------------------------------------------------
  // The stopped_primary record
  // ---------------------------------------------------------------------------

  const KEY_STOPPED_PRIMARY := "stopped_primary"
  const KEY_STOPPED_BACKUPS := "stopped_backup_primaries"
  const KEY_NEXT_PRIMARY := "next_primary"

  /** `{'stopped_primary': p}`, as stop_primary writes it. */
  function StopRecord(p: string): Json {
    JObj(map[KEY_STOPPED_PRIMARY := JStr(p)])
  }

  /** The three-key record stop_f_backup_primaries_before_primary writes. */
  function BackupsRecord(p: string, backups: seq<string>, next: string): Json {
    JObj(map[KEY_STOPPED_PRIMARY := JStr(p), KEY_STOPPED_BACKUPS := StrList(backups), KEY_NEXT_PRIMARY := JStr(next)])
  }

  /** A stopped primary and the record it was read from. */
  datatype Stop = Stop(primary: string, record: map<string, Json>)

  /** Reading `stopped_primary`: a missing file, or a falsy `stopped_primary`
      entry, gives None (the callers then return False); an unparseable file or
      one that is not an object raises. */
  function ReadStop(store: Store): (r: Result<Option<Stop>>)
    ensures r.Ok? && r.value.Some? ==> r.value.value.primary != ""
    ensures STOPPED_PRIMARY !in store ==> r == Ok(None)
  {
    match Load(store, STOPPED_PRIMARY)
    case Err(e) => if e == FileNotFound then Ok(None) else Err(e)
    case Ok(JObj(fields)) =>
      if KEY_STOPPED_PRIMARY !in fields || !Truthy(fields[KEY_STOPPED_PRIMARY]) then Ok(None)
      else if fields[KEY_STOPPED_PRIMARY].JStr? then Ok(Some(Stop(fields[KEY_STOPPED_PRIMARY].s, fields)))
      else Err(Unmodelled)
    case Ok(_) => Err(AttributeError)
  }

  /** `.get('stopped_backup_primaries', None)` when it is used: a falsy entry means
      no backups; a list of aliases is started in its order. */
  function StoppedBackups(record: map<string, Json>): Result<seq<string>> {
    if KEY_STOPPED_BACKUPS !in record || !Truthy(record[KEY_STOPPED_BACKUPS]) then Ok([])
    else AsStrList(record[KEY_STOPPED_BACKUPS])
  }

  /** The record of stop_primary reads back as its primary, with no backups. */
  lemma StopRecordRoundTrip(store: Store, p: string)
    requires p != ""
    ensures ReadStop(store[STOPPED_PRIMARY := Doc(StopRecord(p))]) == Ok(Some(Stop(p, StopRecord(p).fields)))
    ensures StoppedBackups(StopRecord(p).fields) == Ok([])
  {
  }

  /** The record of stop_f_backup_primaries_before_primary reads back as its
      primary and the backups in the order they were stopped. */
  lemma BackupsRecordRoundTrip(store: Store, p: string, backups: seq<string>, next: string)
    requires p != ""
    ensures ReadStop(store[STOPPED_PRIMARY := Doc(BackupsRecord(p, backups, next))]) ==
            Ok(Some(Stop(p, BackupsRecord(p, backups, next).fields)))
    ensures StoppedBackups(BackupsRecord(p, backups, next).fields) == Ok(backups)
  {
    StrListRoundTrip(backups);
    var fields := BackupsRecord(p, backups, next).fields;
    assert fields[KEY_STOPPED_BACKUPS] == StrList(backups);
    if backups == [] {
      assert !Truthy(StrList(backups));
    } else {
      assert Truthy(StrList(backups));
    }
  }

  // ---------------------------------------------------------------------------
  // stop_primary
  // ---------------------------------------------------------------------------

  method StopPrimary(genesis: seq<NodeActions.NodeData>, validators: seq<string>, compileStats: bool,
                     store: Store, rc: Remote)
    returns (r: Result<bool>, primary: Result<Option<string>>, detected: Store, trace: seq<Call>, store': Store)
    ensures PrimaryQueried(genesis, validators, compileStats, store, primary, detected)
    ensures primary.Err? ==> r == Err(primary.error) && trace == [] && store' == detected
    // no primary: nothing is written and nothing is stopped
    ensures primary.Ok? && !Named(primary.value) ==> r == Ok(false) && trace == [] && store' == detected
    // the record is written whatever the stop returns, and the result is the stop's
    ensures primary.Ok? && Named(primary.value) ==>
              store' == detected[STOPPED_PRIMARY := Doc(StopRecord(primary.value.value))] &&
              trace == [Run(primary.value.value, STOP_NODE)] &&
              r == Ok(rc(primary.value.value, STOP_NODE) == 0)
  {
    trace := [];
    primary, detected := GetPrimary(genesis, validators, compileStats, store);
    store' := detected;
    if primary.Err? {
      return Err(primary.error), primary, detected, trace, store';
    }
    if Named(primary.value) {
      var p := primary.value.value;
      store' := store'[STOPPED_PRIMARY := Doc(StopRecord(p))];
      trace := [Run(p, STOP_NODE)];
      r := Ok(rc(p, STOP_NODE) == 0);
    } else {
      r := Ok(false);
    }
  }

  // ---------------------------------------------------------------------------
  // Starting stopped nodes: backups in order, then the primary
  // ---------------------------------------------------------------------------

  /** The starts issued for `backups` and then `primary`: each backup in order,
      stopping at the first one that fails, and the primary only if none failed. */
  function StartOrder(backups: seq<string>, primary: string, rc: Remote): seq<Call>
    decreases |backups|
  {
    if backups == [] then [Run(primary, START_NODE)]
    else if rc(backups[0], START_NODE) != 0 then [Run(backups[0], START_NODE)]
    else [Run(backups[0], START_NODE)] + StartOrder(backups[1..], primary, rc)
  }

  /** When every backup starts, all of them are started, in order, before the primary. */
  lemma {:induction false} StartOrderAllStarted(backups: seq<string>, primary: string, rc: Remote)
    requires forall b :: b in backups ==> rc(b, START_NODE) == 0
    ensures StartOrder(backups, primary, rc) == Calls(backups, START_NODE) + [Run(primary, START_NODE)]
  {
    if backups != [] {
      StartOrderAllStarted(backups[1..], primary, rc);
      assert Calls(backups, START_NODE) == [Run(backups[0], START_NODE)] + Calls(backups[1..], START_NODE);
    }
  }

  /** When backup k is the first that fails, backups 0..k are started and
      nothing after them, the primary included. */
  lemma {:induction false} StartOrderAborts(backups: seq<string>, primary: string, rc: Remote, k: nat)
    requires k < |backups| && rc(backups[k], START_NODE) != 0
    requires forall j :: 0 <= j < k ==> rc(backups[j], START_NODE) == 0
    ensures StartOrder(backups, primary, rc) == Calls(backups[..k + 1], START_NODE)
  {
    if k > 0 {
      StartOrderAborts(backups[1..], primary, rc, k - 1);
      assert backups[1..][..k] == backups[1..k + 1];
      assert Calls(backups[..k + 1], START_NODE) == [Run(backups[0], START_NODE)] + Calls(backups[1..k + 1], START_NODE);
    }
  }

  /** The start loop: each backup in order, returning False at the first that fails
      to start, then the primary, whose start is the result. */
  method StartBackupsThenPrimary(backups: seq<string>, primary: string, rc: Remote)
    returns (ok: bool, trace: seq<Call>)
    ensures trace == StartOrder(backups, primary, rc)
    ensures ok <==> (forall b :: b in backups ==> rc(b, START_NODE) == 0) && rc(primary, START_NODE) == 0
  {
    trace := [];
    for i := 0 to |backups|
      invariant StartOrder(backups, primary, rc) == trace + StartOrder(backups[i..], primary, rc)
      invariant forall j :: 0 <= j < i ==> rc(backups[j], START_NODE) == 0
    {
      assert backups[i..][0] == backups[i] && backups[i..][1..] == backups[i + 1..];
      trace := trace + [Run(backups[i], START_NODE)];
      if rc(backups[i], START_NODE) != 0 {
        assert StartOrder(backups, primary, rc) == trace;
        return false, trace;
      }
    }
    assert backups[|backups|..] == [];
    trace := trace + [Run(primary, START_NODE)];
    assert forall b :: b in backups ==> rc(b, START_NODE) == 0 by {
      forall b | b in backups ensures rc(b, START_NODE) == 0 {
        var j :| 0 <= j < |backups| && backups[j] == b;
      }
    }
    ok := rc(primary, START_NODE) == 0;
  }

  // ---------------------------------------------------------------------------
  // start_stopped_primary_after_view_change
  // ---------------------------------------------------------------------------

  /** A view change shows once some primary is reported and it is not the stopped one. */
  predicate ViewChanged(current: Option<string>, stopped: string) {
    Named(current) && current.value != stopped
  }

  /** The polling loop from check `tries` on: `poll(t)` is what the t-th call of
      get_primary answers. Its value is the number of checks that saw no view
      change; a raising get_primary ends the loop with its error. */
  function Watch(poll: nat -> Result<Option<string>>, stopped: string, tries: nat, maxChecks: int): Result<nat>
    decreases maxChecks - tries
  {
    if tries >= maxChecks then Ok(tries)
    else match poll(tries)
      case Err(e) => Err(e)
      case Ok(current) => if ViewChanged(current, stopped) then Ok(tries) else Watch(poll, stopped, tries + 1, maxChecks)
  }

  predicate ChangeSeenAt(poll: nat -> Result<Option<string>>, stopped: string, t: nat) {
    poll(t).Ok? && ViewChanged(poll(t).value, stopped)
  }

  predicate QuietAt(poll: nat -> Result<Option<string>>, stopped: string, t: nat) {
    poll(t).Ok? && !ViewChanged(poll(t).value, stopped)
  }

  /** The loop polls at most `maxChecks` times; it stops early exactly at the first
      check that saw a view change, and each earlier check saw none. */
  lemma {:induction false} WatchSpec(poll: nat -> Result<Option<string>>, stopped: string, tries: nat, maxChecks: int)
    ensures Watch(poll, stopped, tries, maxChecks).Ok? ==>
              var n := Watch(poll, stopped, tries, maxChecks).value;
              tries <= n && (tries <= maxChecks ==> n <= maxChecks) &&
              (forall t :: tries <= t < n ==> QuietAt(poll, stopped, t)) &&
              (n < maxChecks ==> ChangeSeenAt(poll, stopped, n))
    ensures Watch(poll, stopped, tries, maxChecks).Err? ==>
              exists t :: tries <= t < maxChecks && poll(t) == Err(Watch(poll, stopped, tries, maxChecks).error) &&
                          forall u :: tries <= u < t ==> QuietAt(poll, stopped, u)
    decreases maxChecks - tries
  {
    if tries < maxChecks && poll(tries).Ok? && !ViewChanged(poll(tries).value, stopped) {
      WatchSpec(poll, stopped, tries + 1, maxChecks);
      var w := Watch(poll, stopped, tries + 1, maxChecks);
      if w.Err? {
        var t :| tries + 1 <= t < maxChecks && poll(t) == Err(w.error) &&
                 forall u :: tries + 1 <= u < t ==> QuietAt(poll, stopped, u);
        assert forall u :: tries <= u < t ==> QuietAt(poll, stopped, u);
      }
    } else if tries < maxChecks && poll(tries).Err? {
      assert poll(tries) == Err(Watch(poll, stopped, tries, maxChecks).error);
    }
  }

  /** The waiting loop of start_stopped_primary_after_view_change. */
  method AwaitViewChange(poll: nat -> Result<Option<string>>, stopped: string, maxChecks: int)
    returns (r: Result<nat>)
    ensures r == Watch(poll, stopped, 0, maxChecks)
  {
    var tries: nat := 0;
    while tries < maxChecks
      invariant Watch(poll, stopped, 0, maxChecks) == Watch(poll, stopped, tries, maxChecks)
      decreases maxChecks - tries
    {
      var current := poll(tries);
      if current.Err? {
        return Err(current.error);
      }
      if ViewChanged(current.value, stopped) {
        break;
      }
      tries := tries + 1;
    }
    r := Ok(tries);
  }

  /** The nodes to start before the primary: the recorded backups, if asked to. */
  function BackupsToStart(s: Stop, startBackups: bool): Result<seq<string>> {
    if startBackups then StoppedBackups(s.record) else Ok([])
  }

  method StartStoppedPrimaryAfterViewChange(store: Store, maxChecks: int, startBackups: bool,
                                            poll: nat -> Result<Option<string>>, rc: Remote)
    returns (r: Result<bool>, trace: seq<Call>)
    ensures ReadStop(store).Err? ==> r == Err(ReadStop(store).error) && trace == []
    ensures ReadStop(store) == Ok(None) ==> r == Ok(false) && trace == []
    ensures ReadStop(store).Ok? && ReadStop(store).value.Some? ==>
              var s := ReadStop(store).value.value;
              var w := Watch(poll, s.primary, 0, maxChecks);
              (w.Err? ==> r == Err(w.error) && trace == []) &&
              // no node is started unless a view change was seen within maxChecks checks
              (w.Ok? && w.value >= maxChecks ==> r == Ok(false) && trace == []) &&
              (w.Ok? && w.value < maxChecks && BackupsToStart(s, startBackups).Err? ==>
                 r == Err(BackupsToStart(s, startBackups).error) && trace == []) &&
              (w.Ok? && w.value < maxChecks && BackupsToStart(s, startBackups).Ok? ==>
                 var backups := BackupsToStart(s, startBackups).value;
                 trace == StartOrder(backups, s.primary, rc) &&
                 r == Ok((forall b :: b in backups ==> rc(b, START_NODE) == 0) && rc(s.primary, START_NODE) == 0))
  {
    trace := [];
    var stop := ReadStop(store);
    if stop.Err? {
      return Err(stop.error), trace;
    }
    if stop.value.None? {
      return Ok(false), trace;
    }
    var s := stop.value.value;
    var w := AwaitViewChange(poll, s.primary, maxChecks);
    if w.Err? {
      return Err(w.error), trace;
    }
    if w.value < maxChecks {
      var backups := BackupsToStart(s, startBackups);
      if backups.Err? {
        return Err(backups.error), trace;
      }
      var ok;
      ok, trace := StartBackupsThenPrimary(backups.value, s.primary, rc);
      r := Ok(ok);
    } else {
      r := Ok(false);
    }
  }

  // ---------------------------------------------------------------------------
  // start_stopped_primary
  // ---------------------------------------------------------------------------

  /** The starts start_stopped_primary issues as written: every backup, whatever
      each returns, then the primary only if the last backup started. */
  function StartOrderAsWritten(backups: seq<string>, primary: string, rc: Remote): seq<Call> {
    if backups == [] then [Run(primary, START_NODE)]
    else Calls(backups, START_NODE) +
         (if rc(backups[|backups| - 1], START_NODE) == 0 then [Run(primary, START_NODE)] else [])
  }

  /** start_stopped_primary as written: the test of `started` sits after the loop. */
  method StartStoppedPrimaryAsWritten(store: Store, rc: Remote) returns (r: Result<bool>, trace: seq<Call>)
    ensures ReadStop(store).Err? ==> r == Err(ReadStop(store).error) && trace == []
    ensures ReadStop(store) == Ok(None) ==> r == Ok(false) && trace == []
    ensures ReadStop(store).Ok? && ReadStop(store).value.Some? ==>
              var s := ReadStop(store).value.value;
              (StoppedBackups(s.record).Err? ==> r == Err(StoppedBackups(s.record).error) && trace == []) &&
              (StoppedBackups(s.record).Ok? ==>
                 var backups := StoppedBackups(s.record).value;
                 trace == StartOrderAsWritten(backups, s.primary, rc) &&
                 r == Ok((backups == [] || rc(backups[|backups| - 1], START_NODE) == 0) && rc(s.primary, START_NODE) == 0))
  {
    trace := [];
    var stop := ReadStop(store);
    if stop.Err? {
      return Err(stop.error), trace;
    }
    if stop.value.None? {
      return Ok(false), trace;
    }
    var s := stop.value.value;
    var backups := StoppedBackups(s.record);
    if backups.Err? {
      return Err(backups.error), trace;
    }
    var bs := backups.value;
    if bs != [] {
      var started := false;
      for i := 0 to |bs|
        invariant trace == Calls(bs[..i], START_NODE)
        invariant i > 0 ==> started == (rc(bs[i - 1], START_NODE) == 0)
      {
        assert bs[..i + 1][..i] == bs[..i];
        trace := trace + [Run(bs[i], START_NODE)];
        started := rc(bs[i], START_NODE) == 0;
      }
      assert bs[..|bs|] == bs;
      if !started {
        return Ok(false), trace;
      }
    }
    trace := trace + [Run(s.primary, START_NODE)];
    r := Ok(rc(s.primary, START_NODE) == 0);
  }

  /** As written, a backup that fails to start before the last one does not keep
      the primary from being started. */
  lemma AsWrittenStartsPrimaryAfterFailedBackup()
    ensures var rc: Remote := (h: string, c: string) => if h == "Node2" then 1 else 0;
            Run("Node1", START_NODE) in StartOrderAsWritten(["Node2", "Node3"], "Node1", rc) &&
            StartOrder(["Node2", "Node3"], "Node1", rc) == [Run("Node2", START_NODE)]
  {
    var rc: Remote := (h: string, c: string) => if h == "Node2" then 1 else 0;
    var t := StartOrderAsWritten(["Node2", "Node3"], "Node1", rc);
    assert t == [Run("Node2", START_NODE), Run("Node3", START_NODE), Run("Node1", START_NODE)];
    assert t[2] == Run("Node1", START_NODE);
  }

  /** start_stopped_primary with the start test inside the loop, as in
      start_stopped_primary_after_view_change: the first backup that fails aborts. */
  method StartStoppedPrimary(store: Store, rc: Remote) returns (r: Result<bool>, trace: seq<Call>)
    ensures ReadStop(store).Err? ==> r == Err(ReadStop(store).error) && trace == []
    ensures ReadStop(store) == Ok(None) ==> r == Ok(false) && trace == []
    ensures ReadStop(store).Ok? && ReadStop(store).value.Some? ==>
              var s := ReadStop(store).value.value;
              (StoppedBackups(s.record).Err? ==> r == Err(StoppedBackups(s.record).error) && trace == []) &&
              (StoppedBackups(s.record).Ok? ==>
                 var backups := StoppedBackups(s.record).value;
                 trace == StartOrder(backups, s.primary, rc) &&
                 r == Ok((forall b :: b in backups ==> rc(b, START_NODE) == 0) && rc(s.primary, START_NODE) == 0))
  {
    trace := [];
    var stop := ReadStop(store);
    if stop.Err? {
      return Err(stop.error), trace;
    }
    if stop.value.None? {
      return Ok(false), trace;
    }
    var s := stop.value.value;
    var backups := StoppedBackups(s.record);
    if backups.Err? {
      return Err(backups.error), trace;
    }
    var ok;
    ok, trace := StartBackupsThenPrimary(backups.value, s.primary, rc);
    r := Ok(ok);
  }

  // ---------------------------------------------------------------------------
  // start_all_but_primary
  // ---------------------------------------------------------------------------

  method StartAllButPrimary(genesis: seq<NodeActions.NodeData>, validators: seq<string>, compileStats: bool,
                            store: Store, rc: Remote)
    returns (r: Result<bool>, primary: Result<Option<string>>, trace: seq<Call>, store': Store)
    ensures PrimaryQueried(genesis, validators, compileStats, store, primary, store')
    ensures primary.Err? ==> r == Err(primary.error) && trace == []
    ensures primary.Ok? && !Named(primary.value) ==> r == Ok(false) && trace == []
    ensures primary.Ok? && Named(primary.value) ==>
              var p := primary.value.value;
              (p !in NodeActions.Aliases(genesis) ==> r == Ok(false) && trace == []) &&
              (p in NodeActions.Aliases(genesis) ==>
                 var others := RemoveFirst(NodeActions.Aliases(genesis), p);
                 trace == Calls(others, START_NODE) &&
                 r == Ok(forall a :: a in others ==> rc(a, START_NODE) == 0))
  {
    trace := [];
    primary, store' := GetPrimary(genesis, validators, compileStats, store);
    if primary.Err? {
      return Err(primary.error), primary, trace, store';
    }
    if Named(primary.value) {
      var ok;
      ok, trace := NodeActions.StartAllButByNodeName(primary.value.value, genesis, rc);
      r := Ok(ok);
    } else {
      r := Ok(false);
    }
  }

  // ---------------------------------------------------------------------------
  // stop_f_backup_primaries_before_primary
  // ---------------------------------------------------------------------------

  /** `validator_info['Node_info']['Replicas_status']["<primary>:<i>"]['Primary'].split(":")[0]`;
      a value that is not a string has no `split`. */
  function ReplicaPrimary(info: Json, primary: string, i: int): Result<string> {
    match Path(info, ["Node_info", "Replicas_status", primary + ":" + IntToString(i), "Primary"])
    case Err(e) => Err(e)
    case Ok(JStr(s)) => Ok(Before(s, ":"))
    case Ok(_) => Err(AttributeError)
  }

  /** The f to use: a given (truthy) f, else `min(Count_of_replicas, f_value)` of
      the primary's snapshot, both integers. */
  function ChooseF(f: int, info: Json): (r: Result<int>)
    ensures f != 0 ==> r == Ok(f)
  {
    if f != 0 then Ok(f)
    else
      match Path(info, ["Node_info", "Count_of_replicas"])
      case Err(e) => Err(e)
      case Ok(replicas) =>
        match Path(info, ["Pool_info", "f_value"])
        case Err(e) => Err(e)
        case Ok(fValue) =>
          if replicas.JNum? && fValue.JNum? then Ok(if replicas.n < fValue.n then replicas.n else fValue.n)
          else Err(Unmodelled)
  }

  /** With no f given, the chosen f is the smaller of the two counts. */
  lemma ChooseFDefault(info: Json, replicas: int, fValue: int)
    requires Path(info, ["Node_info", "Count_of_replicas"]) == Ok(JNum(replicas))
    requires Path(info, ["Pool_info", "f_value"]) == Ok(JNum(fValue))
    ensures ChooseF(0, info) == Ok(if replicas <= fValue then replicas else fValue)
    ensures ChooseF(0, info).Ok? ==> ChooseF(0, info).value <= replicas && ChooseF(0, info).value <= fValue
  {
  }

  /** The primary of each replica of `primary`'s snapshot, by index. */
  function ReplicasOf(info: Json, primary: string): int -> Result<string> {
    (i: int) => ReplicaPrimary(info, primary, i)
  }

  /** The loop over replicas 1..f-1: each replica's primary is recorded and stopped
      (the stop's result is ignored); a replica that cannot be read raises, after
      the stops already issued. */
  method StopBackups(replicaOf: int -> Result<string>, f: int, rc: Remote)
    returns (r: Result<bool>, backups: seq<string>, trace: seq<Call>)
    ensures trace == Calls(backups, STOP_NODE)
    ensures forall j :: 0 <= j < |backups| ==> replicaOf(j + 1) == Ok(backups[j])
    ensures r.Ok? <==> ReplicasReadable(replicaOf, f)
    ensures r.Ok? ==> |backups| == (if f > 1 then f - 1 else 0)
    ensures r.Err? ==> |backups| < f - 1 && replicaOf(|backups| + 1) == Err(r.error)
  {
    backups, trace := [], [];
    if f > 1 {
      for i := 1 to f
        invariant |backups| == i - 1
        invariant trace == Calls(backups, STOP_NODE)
        invariant forall j :: 0 <= j < |backups| ==> replicaOf(j + 1) == Ok(backups[j])
        invariant ReplicasReadable(replicaOf, i)
      {
        var replica := replicaOf(i);
        if replica.Err? {
          return Err(replica.error), backups, trace;
        }
        assert Calls(backups + [replica.value], STOP_NODE)[..|backups|] == Calls(backups, STOP_NODE);
        backups := backups + [replica.value];
        trace := trace + [Run(replica.value, STOP_NODE)];
      }
    }
    r := Ok(true);
  }

  /** Replica f names the next primary; with f <= 1 the index stays at 1, so it is replica 2. */
  function NextIndex(f: int): int {
    if f > 1 then f else 2
  }

  predicate ReplicasReadable(replicaOf: int -> Result<string>, f: int) {
    forall i :: 1 <= i < f ==> replicaOf(i).Ok?
  }

  /** The run once f is chosen: the backups are stopped, the next primary is read,
      then the primary is stopped; the first replica that cannot be read raises. */
  method StopReplicasThenPrimary(replicaOf: int -> Result<string>, f: int, primary: string, rc: Remote)
    returns (next: Result<string>, backups: seq<string>, trace: seq<Call>)
    ensures forall j :: 0 <= j < |backups| ==> replicaOf(j + 1) == Ok(backups[j])
    ensures next.Ok? <==> ReplicasReadable(replicaOf, f) && replicaOf(NextIndex(f)).Ok?
    ensures next.Ok? ==>
              next == replicaOf(NextIndex(f)) && |backups| == (if f > 1 then f - 1 else 0) &&
              trace == Calls(backups, STOP_NODE) + [Run(primary, STOP_NODE)]
    ensures next.Err? ==> trace == Calls(backups, STOP_NODE)
    ensures next.Err? && |backups| < f - 1 ==> replicaOf(|backups| + 1) == Err(next.error)
    ensures next.Err? && |backups| >= f - 1 ==>
              |backups| == (if f > 1 then f - 1 else 0) && replicaOf(NextIndex(f)) == Err(next.error)
  {
    var stopped;
    stopped, backups, trace := StopBackups(replicaOf, f, rc);
    if stopped.Err? {
      return Err(stopped.error), backups, trace;
    }
    next := replicaOf(NextIndex(f));
    if next.Err? {
      return;
    }
    trace := trace + [Run(primary, STOP_NODE)];
  }

  method StopFBackupPrimariesBeforePrimary(genesis: seq<NodeActions.NodeData>, validators: seq<string>, f: int,
                                           compileStats: bool, store: Store, rc: Remote)
    returns (r: Result<bool>, primary: Result<Option<string>>, detected: Store,
             backups: seq<string>, trace: seq<Call>, store': Store)
    ensures PrimaryQueried(genesis, validators, compileStats, store, primary, detected)
    // the action never reports success
    ensures r != Ok(true)
    // a raising run writes nothing; the stops it issued are those of the backups read so far
    ensures r.Err? ==> store' == detected && trace == Calls(backups, STOP_NODE)
    ensures primary.Err? ==> r == Err(primary.error) && trace == []
    ensures primary.Ok? && !Named(primary.value) ==> r == Ok(false) && trace == [] && store' == detected
    ensures primary.Ok? && Named(primary.value) ==>
              var p := primary.value.value;
              var info := Load(detected, SnapshotFile(p));
              (info.Err? ==> r == Err(info.error) && trace == []) &&
              (info.Ok? && ChooseF(f, info.value).Err? ==> r == Err(ChooseF(f, info.value).error) && trace == []) &&
              (info.Ok? && ChooseF(f, info.value).Ok? ==>
                 var fv := ChooseF(f, info.value).value;
                 // backups are the primaries of replicas 1..f-1, in index order
                 var replicaOf := ReplicasOf(info.value, p);
                 var next := NextIndex(fv);
                 (forall j :: 0 <= j < |backups| ==> replicaOf(j + 1) == Ok(backups[j])) &&
                 // the run completes exactly when every replica it reads can be read
                 (r == Ok(false) <==> ReplicasReadable(replicaOf, fv) && replicaOf(next).Ok?) &&
                 // otherwise it raises the error of the first replica that cannot be read
                 (r.Err? && |backups| < fv - 1 ==> replicaOf(|backups| + 1) == Err(r.error)) &&
                 (r.Err? && |backups| >= fv - 1 ==>
                    |backups| == (if fv > 1 then fv - 1 else 0) && replicaOf(next) == Err(r.error)) &&
                 (r.Ok? ==>
                    |backups| == (if fv > 1 then fv - 1 else 0) &&
                    // the next primary is read from replica f, or from replica 2 when f <= 1
                    replicaOf(next).Ok? &&
                    trace == Calls(backups, STOP_NODE) + [Run(p, STOP_NODE)] &&
                    store' == detected[STOPPED_PRIMARY := Doc(BackupsRecord(p, backups,
                                replicaOf(next).value))]))
  {
    backups, trace := [], [];
    primary, detected := GetPrimary(genesis, validators, compileStats, store);
    store' := detected;
    if primary.Err? {
      return Err(primary.error), primary, detected, backups, trace, store';
    }
    if !Named(primary.value) {
      return Ok(false), primary, detected, backups, trace, store';
    }
    var p := primary.value.value;
    var info := Load(detected, SnapshotFile(p));
    if info.Err? {
      return Err(info.error), primary, detected, backups, trace, store';
    }
    var chosen := ChooseF(f, info.value);
    if chosen.Err? {
      return Err(chosen.error), primary, detected, backups, trace, store';
    }
    var fv := chosen.value;
    var next;
    next, backups, trace := StopReplicasThenPrimary(ReplicasOf(info.value, p), fv, p, rc);
    if next.Err? {
      return Err(next.error), primary, detected, backups, trace, store';
    }
    store' := detected[STOPPED_PRIMARY := Doc(BackupsRecord(p, backups, next.value))];
    r := Ok(false);
  }
}
