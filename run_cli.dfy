/** The experiment runner's command line: argument converters, the default
    experiment set found in the scripts directory, which experiments a run
    executes, and when the job directory is cleaned up. */
module RunCli {
  import opened Common
  import opened Strings
  import opened StateStore

  // ---------------------------------------------------------------------------
  // Argument converters
  // ---------------------------------------------------------------------------

  const TRUE_WORDS := {"yes", "true", "t", "y", "1"}
  const FALSE_WORDS := {"no", "false", "f", "n", "0"}

  /** str2bool: a yes-word is True, a no-word False, anything else is rejected. */
  function Str2Bool(v: string): (r: Result<bool>)
    ensures r == Ok(true) <==> Lower(v) in TRUE_WORDS
    ensures r == Ok(false) <==> Lower(v) in FALSE_WORDS
    ensures r.Err? ==> r.error == ArgumentTypeError
  {
    if Lower(v) in TRUE_WORDS then Ok(true)
    else if Lower(v) in FALSE_WORDS then Ok(false)
    else Err(ArgumentTypeError)
  }

  lemma LowerIdempotent(s: string)
    ensures Lower(Lower(s)) == Lower(s)
  {
  }

  /** The converters ignore case: a word and its lower-case form convert alike. */
  lemma Str2BoolIgnoresCase(v: string)
    ensures Str2Bool(Lower(v)) == Str2Bool(v)
  {
    LowerIdempotent(v);
  }

  /** The logging levels by name, with their numeric values. */
  const LEVELS: map<string, int> :=
    map["notset" := 0, "debug" := 10, "info" := 20, "warning" := 30, "error" := 40, "critical" := 50]

  const DEFAULT_LEVEL := "info"

  /** log_level: a level name in any case, or rejected. */
  function LogLevel(v: string): (r: Result<int>)
    ensures r.Ok? <==> Lower(v) in LEVELS
    ensures r.Ok? ==> r.value == LEVELS[Lower(v)]
    ensures r.Err? ==> r.error == ArgumentTypeError
  {
    if Lower(v) in LEVELS then Ok(LEVELS[Lower(v)]) else Err(ArgumentTypeError)
  }

  lemma LogLevelIgnoresCase(v: string)
    ensures LogLevel(Lower(v)) == LogLevel(v)
  {
    LowerIdempotent(v);
  }

  /** Every level name converts to its own value, and `info`, the name of the
      level argparse uses when `--log-level` is absent (`logging.INFO` itself,
      so no conversion happens then), is 20. */
  lemma LogLevelNames()
    ensures forall k :: k in LEVELS ==> LogLevel(k) == Ok(LEVELS[k])
    ensures LEVELS[DEFAULT_LEVEL] == 20 && LogLevel(DEFAULT_LEVEL) == Ok(20)
  {
    LevelNamesLower();
    assert DEFAULT_LEVEL in LEVELS;
  }

  lemma LevelNamesLower()
    ensures forall k :: k in LEVELS ==> Lower(k) == k
  {
    forall k | k in LEVELS ensures Lower(k) == k {
      NoUpperCase(k);
    }
  }

  /** A word without upper-case letters is its own lower-case form. */
  lemma NoUpperCase(s: string)
    requires forall i :: 0 <= i < |s| ==> !('A' <= s[i] <= 'Z')
    ensures Lower(s) == s
  {
  }

  // ---------------------------------------------------------------------------
  // Experiments
  // ---------------------------------------------------------------------------

  /** An experiment name with its parameter overrides, in dictionary order. */
  type Experiments = seq<(string, Json)>

  function Names(exps: Experiments): (r: seq<string>)
    ensures |r| == |exps| && forall i :: 0 <= i < |exps| ==> r[i] == exps[i].0
  {
    seq(|exps|, i requires 0 <= i < |exps| => exps[i].0)
  }

  const SCRIPT_PREFIX := "run-"

  /** A file of the scripts directory that runs an experiment: `run-<name>`. */
  predicate IsScript(file: string) {
    |file| >= 4 && file[..4] == SCRIPT_PREFIX
  }

  /** default_experiments over a listing of the scripts directory: one entry with
      no parameters per `run-` script, named without the prefix, in listing order. */
  method DefaultExperiments(files: seq<string>) returns (exps: Experiments)
    ensures forall e :: e in Names(exps) <==> SCRIPT_PREFIX + e in files
    ensures Distinct(Names(exps))
    ensures forall i :: 0 <= i < |exps| ==> exps[i].1 == JObj(map[])
  {
    exps := [];
    for i := 0 to |files|
      invariant forall e :: e in Names(exps) <==> SCRIPT_PREFIX + e in files[..i]
      invariant Distinct(Names(exps))
      invariant forall j :: 0 <= j < |exps| ==> exps[j].1 == JObj(map[])
    {
      var file := files[i];
      assert files[..i + 1] == files[..i] + [file];
      if IsScript(file) {
        var e := file[4..];
        assert file == SCRIPT_PREFIX + e;
        forall e' ensures SCRIPT_PREFIX + e' == file <==> e' == e {
          if SCRIPT_PREFIX + e' == file {
            assert e' == (SCRIPT_PREFIX + e')[4..];
          }
        }
        if e !in Names(exps) {
          assert Names(exps + [(e, JObj(map[]))]) == Names(exps) + [e];
          exps := exps + [(e, JObj(map[]))];
        }
      } else {
        forall e' ensures SCRIPT_PREFIX + e' != file {
          assert (SCRIPT_PREFIX + e')[..4] == SCRIPT_PREFIX;
        }
      }
    }
    assert files[..|files|] == files;
  }

  /** The test that flags a name as not being a default experiment. */
  function Unknown(known: seq<string>): string -> bool {
    (name: string) => name !in known
  }

  /** The loop shared by experiment_dict and experiment_exclude_list: the names
      that are not default experiments, in order. */
  method InvalidExperiments(names: seq<string>, defaults: Experiments) returns (invalid: seq<string>)
    ensures invalid == Filter(names, Unknown(Names(defaults)))
    ensures invalid == [] <==> forall n :: n in names ==> n in Names(defaults)
  {
    invalid := [];
    for i := 0 to |names|
      invariant invalid == Filter(names[..i], Unknown(Names(defaults)))
    {
      assert names[..i + 1][..i] == names[..i];
      if names[i] !in Names(defaults) {
        invalid := invalid + [names[i]];
      }
    }
    assert names[..|names|] == names;
    if invalid != [] {
      assert invalid[0] in invalid;
    }
  }

  /** What `json.loads` makes of the `--experiments` text: an object with its
      entries in order, a list with its items, a string, or a number, boolean
      or null. */
  datatype Parsed = NotJson | Object(entries: Experiments) | Array(items: seq<Json>) | Text(s: string) | Scalar

  /** Iterating a string yields its characters, each as a one-character string. */
  function Chars(s: string): (r: seq<string>)
    ensures |r| == |s| && forall i :: 0 <= i < |s| ==> r[i] == [s[i]]
  {
    seq(|s|, i requires 0 <= i < |s| => [s[i]])
  }

  /** `item not in de` needs a hashable item: a list or an object raises TypeError. */
  predicate Unhashable(j: Json) {
    j.JArr? || j.JObj?
  }

  /** A list item is a default experiment only as that name in a string; a
      number, boolean or null is never a key of the defaults. */
  predicate NamesDefault(j: Json, defaults: Experiments) {
    j.JStr? && j.s in Names(defaults)
  }

  function NotDefault(defaults: Experiments): Json -> bool {
    (j: Json) => !NamesDefault(j, defaults)
  }

  /** experiment_dict's loop over a JSON list: an unhashable item raises at once;
      otherwise the items that are not default experiments, in order. */
  method InvalidItems(items: seq<Json>, defaults: Experiments) returns (r: Result<seq<Json>>)
    ensures r.Err? <==> exists i :: 0 <= i < |items| && Unhashable(items[i])
    ensures r.Err? ==> r.error == TypeError
    ensures r.Ok? ==> r.value == Filter(items, NotDefault(defaults))
    ensures r == Ok([]) <==> forall i :: 0 <= i < |items| ==> NamesDefault(items[i], defaults)
  {
    var invalid: seq<Json> := [];
    for i := 0 to |items|
      invariant forall j :: 0 <= j < i ==> !Unhashable(items[j])
      invariant invalid == Filter(items[..i], NotDefault(defaults))
    {
      assert items[..i + 1][..i] == items[..i];
      if Unhashable(items[i]) {
        assert !NamesDefault(items[i], defaults);
        return Err(TypeError);
      }
      if !NamesDefault(items[i], defaults) {
        invalid := invalid + [items[i]];
      }
    }
    assert items[..|items|] == items;
    FilterEmpty(items, NotDefault(defaults));
    r := Ok(invalid);
  }

  /** experiment_dict: text that is not JSON is rejected; the names found by
      iterating the parsed value (an object's keys, a list's items, a string's
      characters) must all be default experiments, and the parsed value is then
      returned as it is; a number, boolean or null cannot be iterated. */
  method ExperimentDict(v: string, decode: string -> Parsed, defaults: Experiments) returns (r: Result<Parsed>)
    ensures decode(v).NotJson? ==> r == Err(ArgumentTypeError)
    ensures decode(v).Scalar? ==> r == Err(TypeError)
    ensures decode(v).Object? ==>
              (r.Ok? <==> forall e :: e in Names(decode(v).entries) ==> e in Names(defaults)) &&
              (r.Err? ==> r.error == ArgumentTypeError)
    ensures decode(v).Array? ==>
              var items := decode(v).items;
              ((exists i :: 0 <= i < |items| && Unhashable(items[i])) ==> r == Err(TypeError)) &&
              (r.Ok? <==> forall i :: 0 <= i < |items| ==> NamesDefault(items[i], defaults)) &&
              (r.Err? && r.error != TypeError ==> r.error == ArgumentTypeError)
    ensures decode(v).Text? ==>
              (r.Ok? <==> forall i :: 0 <= i < |decode(v).s| ==> [decode(v).s[i]] in Names(defaults)) &&
              (r.Err? ==> r.error == ArgumentTypeError)
    // an accepted value is returned as parsed
    ensures r.Ok? ==> r.value == decode(v)
  {
    var parsed := decode(v);
    match parsed
    case NotJson => r := Err(ArgumentTypeError);
    case Scalar => r := Err(TypeError);
    case Object(entries) =>
      var invalid := InvalidExperiments(Names(entries), defaults);
      r := if invalid != [] then Err(ArgumentTypeError) else Ok(parsed);
    case Array(items) =>
      var invalid := InvalidItems(items, defaults);
      if invalid.Err? {
        r := Err(invalid.error);
      } else {
        r := if invalid.value != [] then Err(ArgumentTypeError) else Ok(parsed);
      }
    case Text(text) =>
      var invalid := InvalidExperiments(Chars(text), defaults);
      if invalid == [] {
        forall i | 0 <= i < |text| ensures [text[i]] in Names(defaults) {
          assert Chars(text)[i] in Chars(text);
        }
      } else {
        var n :| n in Chars(text) && n !in Names(defaults);
        var i :| 0 <= i < |text| && Chars(text)[i] == n;
      }
      r := if invalid != [] then Err(ArgumentTypeError) else Ok(parsed);
  }

  /** experiment_exclude_list: the comma-separated names, all of them default experiments. */
  method ExperimentExcludeList(v: string, defaults: Experiments) returns (r: Result<seq<string>>)
    ensures r.Ok? <==> forall e :: e in Split(v, ",") ==> e in Names(defaults)
    ensures r.Ok? ==> r.value == Split(v, ",")
    ensures r.Err? ==> r.error == ArgumentTypeError
  {
    var experiments := Split(v, ",");
    var invalid := InvalidExperiments(experiments, defaults);
    if invalid != [] {
      r := Err(ArgumentTypeError);
    } else {
      r := Ok(experiments);
    }
  }

  /** Joining the default names with commas gives an exclude list that splits back
      into exactly those names, so every default experiment is accepted. */
  lemma ExcludeAllDefaults(defaults: Experiments)
    requires |defaults| >= 1
    requires forall i :: 0 <= i < |defaults| ==> ',' !in defaults[i].0
    ensures Split(Join(Names(defaults), ","), ",") == Names(defaults)
    ensures forall e :: e in Split(Join(Names(defaults), ","), ",") ==> e in Names(defaults)
  {
    SplitJoin(Names(defaults), ',');
  }

  /** The test that keeps an experiment off the exclude list. */
  function Kept(exclude: seq<string>): ((string, Json)) -> bool {
    (p: (string, Json)) => p.0 !in exclude
  }

  /** The experiments run_experiments works through. main passes `{}` when
      `--experiments` is absent or empty, and an empty value means the defaults;
      a non-empty list or string reaches `experiments.items()` and raises. */
  function Plan(experiments: Parsed, defaults: Experiments): (r: Result<Experiments>)
    requires experiments.Object? || experiments.Array? || experiments.Text?
    ensures r.Err? <==> (experiments.Array? && experiments.items != []) || (experiments.Text? && experiments.s != "")
    ensures r.Err? ==> r.error == AttributeError
    ensures r.Ok? && experiments.Object? && experiments.entries != [] ==> r.value == experiments.entries
    ensures r.Ok? && !(experiments.Object? && experiments.entries != []) ==> r.value == defaults
  {
    match experiments
    case Object(entries) => Ok(if entries == [] then defaults else entries)
    case Array(items) => if items == [] then Ok(defaults) else Err(AttributeError)
    case Text(text) => if text == "" then Ok(defaults) else Err(AttributeError)
  }

  /** What one experiment's parameters raise before its script is started, if
      anything. A value that is not an object has no `keys()`: run_experiments
      calls it on a truthy value, and run_experiment's debug message on any
      value. run_experiment's `for k, v in parameters:` unpacks every key into
      two names, so a key that is not exactly two characters long raises
      ValueError. */
  function ParameterError(parameters: Json): (r: Option<Error>)
    ensures r == Some(AttributeError) <==> !parameters.JObj?
    ensures r == Some(ValueError) <==> parameters.JObj? && exists k :: k in parameters.fields && |k| != 2
    ensures r.None? <==> Harmless(parameters)
  {
    if !parameters.JObj? then Some(AttributeError)
    else if exists k :: k in parameters.fields && |k| != 2 then Some(ValueError)
    else None
  }

  /** Every key unpacks into exactly two names. */
  predicate TwoLetterKeys(m: map<string, Json>) {
    forall k :: k in m ==> |k| == 2
  }

  /** Parameters that neither `keys()` nor the unpacking loop reject. */
  predicate Harmless(parameters: Json) {
    parameters.JObj? && TwoLetterKeys(parameters.fields)
  }

  /** run_experiments (with main's choice of the plan): each experiment of the
      plan that is not excluded is run, in order, until one whose parameters
      raise; `ran` lists the experiments whose run returned, and `raised` the
      exception that ended the run, if any. */
  method RunExperiments(experiments: Parsed, exclude: seq<string>, defaults: Experiments)
    returns (ran: Experiments, raised: Option<Error>)
    requires experiments.Object? || experiments.Array? || experiments.Text?
    ensures Plan(experiments, defaults).Err? ==> ran == [] && raised == Some(AttributeError)
    ensures Plan(experiments, defaults).Ok? ==>
              RanUntilRaised(Plan(experiments, defaults).value, exclude, ran, raised)
    ensures Plan(experiments, defaults).Ok? && raised.None? ==>
              forall p :: p in ran <==> p in Plan(experiments, defaults).value && p.0 !in exclude
  {
    var chosen := Plan(experiments, defaults);
    if chosen.Err? {
      ran, raised := [], Some(chosen.error);
      return;
    }
    ran, raised := RunPlan(chosen.value, exclude);
  }

  /** The kept experiments of `plan` up to the first one whose parameters raise:
      without a raise, all of them in order; otherwise those before it, with its
      exception. */
  predicate RanUntilRaised(plan: Experiments, exclude: seq<string>, ran: Experiments, raised: Option<Error>) {
    (raised.None? <==> forall i :: 0 <= i < |plan| && plan[i].0 !in exclude ==> Harmless(plan[i].1)) &&
    (raised.None? ==> ran == Filter(plan, Kept(exclude))) &&
    (raised.Some? ==> exists i :: 0 <= i < |plan| && plan[i].0 !in exclude &&
                         raised == ParameterError(plan[i].1) &&
                         ran == Filter(plan[..i], Kept(exclude)) &&
                         forall j :: 0 <= j < i && plan[j].0 !in exclude ==> Harmless(plan[j].1))
  }

  /** The loop of run_experiments over its plan. */
  method RunPlan(plan: Experiments, exclude: seq<string>) returns (ran: Experiments, raised: Option<Error>)
    ensures RanUntilRaised(plan, exclude, ran, raised)
  {
    ran, raised := [], None;
    for i := 0 to |plan|
      invariant ran == Filter(plan[..i], Kept(exclude))
      invariant forall j :: 0 <= j < i && plan[j].0 !in exclude ==> Harmless(plan[j].1)
    {
      assert plan[..i + 1][..i] == plan[..i];
      var experiment, parameters := plan[i].0, plan[i].1;
      if experiment !in exclude {
        if !Harmless(parameters) {
          raised := ParameterError(parameters);
          assert !Harmless(plan[i].1);
          return;
        }
        ran := ran + [plan[i]];
      }
    }
    assert plan[..|plan|] == plan;
  }

  /** Excluding every experiment of the plan runs none of them. */
  lemma {:induction false} ExcludeEverything(plan: Experiments, exclude: seq<string>)
    requires forall i :: 0 <= i < |plan| ==> plan[i].0 in exclude
    ensures Filter(plan, Kept(exclude)) == []
  {
    if plan != [] {
      ExcludeEverything(plan[..|plan| - 1], exclude);
    }
  }

  /** The cleanup flag main acts on: forced off when no S3 bucket is given, so the
      results stay on disk. */
  function CleanupOnExit(s3bucket: Option<string>, cleanup: bool): (r: bool)
    ensures r ==> cleanup
    ensures r <==> cleanup && s3bucket.Some? && s3bucket.value != ""
  {
    if (s3bucket.None? || s3bucket.value == "") && cleanup then false else cleanup
  }
}
