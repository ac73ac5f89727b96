/** The lesshint runner: it checks every path given on the command line
    and turns the findings into an exit code. The loader of the
    configuration file, the per-path checker and the reporter lookup are
    collaborators whose answers the model takes as inputs. */
module Runner {
  import opened LintTypes
  import opened JsNumbers

  // The exit codes of the runner.
  const OK := 0
  const WARNING := 1
  const ERROR := 2
  const NOINPUT := 66
  const SOFTWARE := 70
  const CONFIG := 78

  /** The parsed command line: the paths, `--exclude` (empty when not
      given), `--linters`, `--reporter` and `--max-warnings` (absent when
      not given). */
  datatype Program = Program(args: seq<string>, exclude: string, linters: Option<seq<string>>,
                             reporter: string, maxWarnings: Option<string>)

  /** One finding of one linter in one file. */
  datatype Finding = Finding(file: string, linter: string, severity: string, message: string)

  /** What checking one path settles to: its findings, or the error it was
      rejected with. */
  datatype PathResult = Checked(findings: seq<Finding>) | CheckFailed(lesshintFile: string, stack: string)

  /** How the promise `run` returns settles. */
  datatype Exit = Resolved(code: int) | Rejected(code: int, errors: Option<seq<string>>)

  /** The settled exit and what the reporter was handed, if it was called. */
  datatype Settlement = Settlement(exit: Exit, reported: Option<seq<Finding>>)

  /** Whether the configuration loader threw, or returned (the object it
      returned is handed to `Run` separately). */
  datatype ConfigLoad = LoaderThrew(message: string) | LoaderReturned

  /** The two fields of the loaded configuration object the runner
      touches; `None` stands for a missing (falsy) value. */
  class Config {
    var excludedFiles: Option<seq<string>>
    var linters: Option<seq<string>>

    constructor (excludedFiles: Option<seq<string>>, linters: Option<seq<string>>)
      ensures this.excludedFiles == excludedFiles && this.linters == linters
    {
      this.excludedFiles := excludedFiles;
      this.linters := linters;
    }
  }

  /** `list || []`. */
  function OrEmpty(list: Option<seq<string>>): seq<string>
  {
    if list.Some? then list.value else []
  }

  /** The `--exclude` pattern as the list of entries it adds. */
  function ExcludeArgs(exclude: string): seq<string>
  {
    if exclude != "" then [exclude] else []
  }

  /** Command-line entries appended after the configured ones. */
  function Merged(configured: Option<seq<string>>, extra: seq<string>): seq<string>
  {
    OrEmpty(configured) + extra
  }

  /** Merging keeps every configured entry, in order, and adds the
      command-line entries after them. */
  lemma MergedKeepsBoth(configured: Option<seq<string>>, extra: seq<string>)
    ensures |Merged(configured, extra)| == |OrEmpty(configured)| + |extra|
    ensures Merged(configured, extra)[..|OrEmpty(configured)|] == OrEmpty(configured)
    ensures Merged(configured, extra)[|OrEmpty(configured)|..] == extra
    ensures configured.None? ==> Merged(configured, extra) == extra
  {
  }

  /** The `try` block of `run`: the loaded object (`null` becomes `{}`)
      has both lists defaulted to `[]` and the command-line exclude pattern
      and linters pushed onto them, in place. */
  method PrepareConfig(program: Program, loaded: Config?) returns (config: Config)
    modifies loaded
    ensures loaded != null ==> config == loaded
    ensures loaded == null ==> fresh(config)
    ensures config.excludedFiles ==
              Some(Merged(if loaded == null then None else old(loaded.excludedFiles), ExcludeArgs(program.exclude)))
    ensures config.linters ==
              Some(Merged(if loaded == null then None else old(loaded.linters), OrEmpty(program.linters)))
    ensures program.exclude != "" ==>
              |config.excludedFiles.value| > 0 &&
              config.excludedFiles.value[|config.excludedFiles.value| - 1] == program.exclude
    ensures program.exclude == "" ==>
              config.excludedFiles == Some(OrEmpty(if loaded == null then None else old(loaded.excludedFiles)))
  {
    ghost var excluded0 := if loaded == null then None else loaded.excludedFiles;
    ghost var linters0 := if loaded == null then None else loaded.linters;
    if loaded == null {
      config := new Config(None, None);
    } else {
      config := loaded;
    }
    if config.excludedFiles.None? {
      config.excludedFiles := Some([]);
    }
    if config.linters.None? {
      config.linters := Some([]);
    }
    if program.exclude != "" {
      config.excludedFiles := Some(config.excludedFiles.value + [program.exclude]);
    }
    if program.linters.Some? {
      config.linters := Some(config.linters.value + program.linters.value);
    }
    assert OrEmpty(excluded0) + [] == OrEmpty(excluded0);
    assert OrEmpty(linters0) + [] == OrEmpty(linters0);
  }

  /** `program.args.map(checkPath)` after `lesshint.configure(config)`:
      every path is checked under the configured `excludedFiles` and
      `linters`. */
  function CheckAll(args: seq<string>, excluded: seq<string>, linters: seq<string>,
                    check: (seq<string>, seq<string>, string) -> PathResult): (r: seq<PathResult>)
    ensures |r| == |args| && forall i :: 0 <= i < |args| ==> r[i] == check(excluded, linters, args[i])
  {
    if args == [] then [] else [check(excluded, linters, args[0])] + CheckAll(args[1..], excluded, linters, check)
  }

  /** The rejection `Vow.all` passes on, taken as the first failed path in
      argument order. */
  function FirstFailure(results: seq<PathResult>): (r: Option<nat>)
    ensures r.Some? ==> r.value < |results| && results[r.value].CheckFailed? &&
                        forall j :: 0 <= j < r.value ==> results[j].Checked?
    ensures r.None? ==> forall j :: 0 <= j < |results| ==> results[j].Checked?
  {
    if results == [] then None
    else if results[0].CheckFailed? then Some(0)
    else
      match FirstFailure(results[1..])
      case None => None
      case Some(j) => Some(j + 1)
  }

  /** `[].concat.apply([], results)`: the per-path lists, one after the
      other. */
  function Flatten(lists: seq<seq<Finding>>): (r: seq<Finding>)
  {
    if lists == [] then [] else lists[0] + Flatten(lists[1..])
  }

  lemma {:induction false} FlattenAppend(a: seq<seq<Finding>>, b: seq<seq<Finding>>)
    ensures Flatten(a + b) == Flatten(a) + Flatten(b)
  {
    if a != [] {
      assert (a + b)[1..] == a[1..] + b;
      FlattenAppend(a[1..], b);
    } else {
      assert a + b == b;
    }
  }

  /** The findings of the `i`-th path sit after those of the paths before
      it and before those of the paths after it: argument order. */
  lemma FlattenPosition(lists: seq<seq<Finding>>, i: nat)
    requires i < |lists|
    ensures Flatten(lists) == Flatten(lists[..i]) + lists[i] + Flatten(lists[i + 1..])
  {
    var tail := lists[i..];
    assert lists == lists[..i] + tail;
    FlattenAppend(lists[..i], tail);
    assert tail[0] == lists[i] && tail[1..] == lists[i + 1..];
  }

  /** Nothing is lost or invented by flattening. */
  lemma {:induction false} FlattenContents(lists: seq<seq<Finding>>, f: Finding)
    ensures f in Flatten(lists) <==> exists i :: 0 <= i < |lists| && f in lists[i]
  {
    if lists != [] {
      FlattenContents(lists[1..], f);
      if f in Flatten(lists[1..]) {
        var i :| 0 <= i < |lists[1..]| && f in lists[1..][i];
        assert f in lists[i + 1];
      }
      if exists i :: 0 <= i < |lists| && f in lists[i] {
        var i :| 0 <= i < |lists| && f in lists[i];
        if i > 0 {
          assert f in lists[1..][i - 1];
        }
      }
    }
  }

  /** The findings of all paths, once every path was checked. */
  function Findings(results: seq<PathResult>): seq<seq<Finding>>
    requires forall j :: 0 <= j < |results| ==> results[j].Checked?
  {
    seq(|results|, i requires 0 <= i < |results| => results[i].findings)
  }

  predicate HasError(results: seq<Finding>)
  {
    exists i :: 0 <= i < |results| && results[i].severity == "error"
  }

  /** The `reduce` that counts warnings, from the left. */
  function CountWarnings(results: seq<Finding>): nat
  {
    if results == [] then 0
    else CountWarnings(results[..|results| - 1]) + (if results[|results| - 1].severity == "warning" then 1 else 0)
  }

  /** The positions of the warnings. */
  ghost function WarningPositions(results: seq<Finding>): set<nat>
  {
    set i: nat | i < |results| && results[i].severity == "warning"
  }

  /** The count is the number of warnings. */
  lemma {:induction false} CountWarningsIsCardinality(results: seq<Finding>)
    ensures CountWarnings(results) == |WarningPositions(results)|
  {
    if results != [] {
      var n := |results| - 1;
      var prefix := results[..n];
      CountWarningsIsCardinality(prefix);
      if results[n].severity == "warning" {
        assert WarningPositions(results) == WarningPositions(prefix) + {n};
      } else {
        assert WarningPositions(results) == WarningPositions(prefix);
      }
    }
  }

  /** `parseInt(program.maxWarnings, 10) || 0`: NaN and zero become 0. */
  function Budget(maxWarnings: Option<string>): int
  {
    var parsed := if maxWarnings.Some? then ParseInt10(maxWarnings.value) else None;
    if parsed.Some? && parsed.value != 0 then parsed.value else 0
  }

  /** The `then` callback on the flattened findings, with `hasReporter`
      telling whether `getReporter` found the named reporter. */
  function Settle(program: Program, results: seq<Finding>, hasReporter: bool): Settlement
  {
    if !hasReporter then
      Settlement(Rejected(ERROR, Some(["Could not find reporter " + program.reporter + "."])), None)
    else
      var exit :=
        if results == [] then Resolved(OK)
        else if HasError(results) then Rejected(ERROR, None)
        else if Budget(program.maxWarnings) == -1 then Resolved(OK)
        else if CountWarnings(results) > Budget(program.maxWarnings) then Rejected(WARNING, None)
        else Resolved(OK);
      Settlement(exit, Some(results))
  }

  /** The message the `fail` callback rejects with for a path whose check
      failed. */
  function SoftwareErrors(lesshintFile: string, stack: string): seq<string>
  {
    ["An unknown error occurred when checking \"" + lesshintFile + "\", please file an issue with this info:",
     stack]
  }

  /** `Vow.all(promises).then(...).fail(...)`: a failed path rejects with
      the software exit code and the reporter is not called; otherwise the
      flattened findings are settled. */
  function AfterChecks(program: Program, results: seq<PathResult>, hasReporter: bool): Settlement
  {
    match FirstFailure(results)
    case Some(i) =>
      Settlement(Rejected(SOFTWARE, Some(SoftwareErrors(results[i].lesshintFile, results[i].stack))), None)
    case None => Settle(program, Flatten(Findings(results)), hasReporter)
  }

  /** `Runner.prototype.run`. `load` and `loaded` are what the configuration
      loader did, `check` what checking a path settles to under given
      `excludedFiles` and `linters`, and
      `hasReporter` whether the reporter is found; besides the exit, the
      method returns the configuration handed to `lesshint.configure` and
      what the reporter was handed. */
  method Run(program: Program, load: ConfigLoad, loaded: Config?,
             check: (seq<string>, seq<string>, string) -> PathResult, hasReporter: bool)
    returns (exit: Exit, configured: Config?, reported: Option<seq<Finding>>)
    modifies loaded
    ensures program.args == [] ==>
              exit == Rejected(NOINPUT, Some(["No files to lint were passed. See lesshint -h"])) &&
              configured == null && reported == None
    ensures program.args != [] && load.LoaderThrew? ==>
              exit == Rejected(CONFIG, Some(["Something's wrong with the config file. Error: " + load.message])) &&
              configured == null && reported == None
    ensures program.args == [] || load.LoaderThrew? ==>
              loaded == null || (loaded.excludedFiles == old(loaded.excludedFiles) && loaded.linters == old(loaded.linters))
    ensures program.args != [] && load.LoaderReturned? ==>
              && configured != null
              && (loaded != null ==> configured == loaded)
              && configured.excludedFiles ==
                   Some(Merged(if loaded == null then None else old(loaded.excludedFiles), ExcludeArgs(program.exclude)))
              && configured.linters ==
                   Some(Merged(if loaded == null then None else old(loaded.linters), OrEmpty(program.linters)))
              && Settlement(exit, reported) ==
                   AfterChecks(program, CheckAll(program.args, configured.excludedFiles.value,
                                                 configured.linters.value, check), hasReporter)
  {
    if program.args == [] {
      return Rejected(NOINPUT, Some(["No files to lint were passed. See lesshint -h"])), null, None;
    }
    if load.LoaderThrew? {
      return Rejected(CONFIG, Some(["Something's wrong with the config file. Error: " + load.message])), null, None;
    }
    var config := PrepareConfig(program, loaded);
    configured := config;
    var settlement := AfterChecks(program, CheckAll(program.args, config.excludedFiles.value,
                                                    config.linters.value, check), hasReporter);
    exit, reported := settlement.exit, settlement.reported;
  }

  // What the verdict promises.

  /** A settled run resolves only with OK and rejects only with WARNING or
      ERROR; the reporter, when found, is handed every finding. */
  lemma SettleCodes(program: Program, results: seq<Finding>, hasReporter: bool)
    ensures Settle(program, results, hasReporter).exit.Resolved? ==> Settle(program, results, hasReporter).exit.code == OK
    ensures Settle(program, results, hasReporter).exit.Rejected? ==>
              Settle(program, results, hasReporter).exit.code in {WARNING, ERROR}
    ensures hasReporter <==> Settle(program, results, hasReporter).reported == Some(results)
    ensures !hasReporter ==> Settle(program, results, hasReporter).reported == None
  {
  }

  /** A missing reporter is an ERROR even when there is nothing to report. */
  lemma MissingReporter(program: Program, results: seq<PathResult>)
    requires FirstFailure(results).None?
    ensures AfterChecks(program, results, false) ==
              Settlement(Rejected(ERROR, Some(["Could not find reporter " + program.reporter + "."])), None)
  {
  }

  /** A failed path rejects the run with SOFTWARE, naming the first failed
      path, whether or not the reporter exists, and nothing is reported. */
  lemma FailedPath(program: Program, results: seq<PathResult>, hasReporter: bool, i: nat)
    requires i < |results| && results[i].CheckFailed?
    requires forall j :: 0 <= j < i ==> results[j].Checked?
    ensures AfterChecks(program, results, hasReporter) ==
              Settlement(Rejected(SOFTWARE, Some(SoftwareErrors(results[i].lesshintFile, results[i].stack))), None)
  {
  }

  /** Any failed path, whichever one the promise machinery reports first,
      makes the run exit with SOFTWARE with nothing reported. */
  lemma AnyFailedPath(program: Program, results: seq<PathResult>, hasReporter: bool, i: nat)
    requires i < |results| && results[i].CheckFailed?
    ensures AfterChecks(program, results, hasReporter).exit.Rejected?
    ensures AfterChecks(program, results, hasReporter).exit.code == SOFTWARE
    ensures AfterChecks(program, results, hasReporter).reported == None
  {
  }

  /** When every path was checked and the reporter exists, the reporter is
      handed exactly the findings of all paths. */
  lemma EverythingReported(program: Program, results: seq<PathResult>, f: Finding)
    requires forall j :: 0 <= j < |results| ==> results[j].Checked?
    ensures AfterChecks(program, results, true).reported.Some?
    ensures f in AfterChecks(program, results, true).reported.value <==>
              exists i :: 0 <= i < |results| && f in results[i].findings
  {
    FlattenContents(Findings(results), f);
    if exists i :: 0 <= i < |results| && f in results[i].findings {
      var i :| 0 <= i < |results| && f in results[i].findings;
      assert f in Findings(results)[i];
    }
  }

  /** No findings at all is OK, whatever the budget. */
  lemma NothingFound(program: Program)
    ensures Settle(program, [], true).exit == Resolved(OK)
  {
  }

  /** One error-severity finding makes the run an ERROR, whatever the
      budget, unlimited included. */
  lemma ErrorDominates(program: Program, results: seq<Finding>, i: nat)
    requires i < |results| && results[i].severity == "error"
    ensures Settle(program, results, true).exit == Rejected(ERROR, None)
  {
  }

  /** Without errors, a budget of -1 makes any number of warnings OK; any
      other budget rejects with WARNING exactly when the warnings exceed it. */
  lemma WarningBudget(program: Program, results: seq<Finding>)
    requires results != [] && !HasError(results)
    ensures Budget(program.maxWarnings) == -1 ==> Settle(program, results, true).exit == Resolved(OK)
    ensures Budget(program.maxWarnings) != -1 ==>
              (Settle(program, results, true).exit == Rejected(WARNING, None) <==>
               |WarningPositions(results)| > Budget(program.maxWarnings))
    ensures Budget(program.maxWarnings) != -1 && |WarningPositions(results)| <= Budget(program.maxWarnings) ==>
              Settle(program, results, true).exit == Resolved(OK)
  {
    CountWarningsIsCardinality(results);
  }

  /** `--max-warnings` read back as the number written. */
  lemma BudgetOfNumber(n: int)
    ensures Budget(Some(IntToString(n))) == n
  {
    ParseRoundTrip(n);
  }

  /** Without `--max-warnings`, or with a value that is not a number, the
      budget is 0. */
  lemma BudgetDefaults(text: string)
    requires text == [] || (!IsDigit(text[0]) && !IsWhite(text[0]) && text[0] != '-' && text[0] != '+')
    ensures Budget(None) == 0
    ensures Budget(Some(text)) == 0
  {
    NotANumber("", text);
    assert "" + text == text;
  }

  /** A fractional value counts by its integer part. */
  lemma BudgetOfFraction(n: int, fraction: string)
    requires fraction == [] || !IsDigit(fraction[0])
    ensures Budget(Some(IntToString(n) + fraction)) == n
  {
    ParseRenderedPrefix(n, fraction);
  }

  /** The budget boundary: with `--max-warnings w` for `w >= 0` and no
      errors, `w` warnings are OK and `w + 1` are a WARNING. */
  lemma BudgetBoundary(program: Program, results: seq<Finding>, w: nat)
    requires program.maxWarnings == Some(IntToString(w))
    requires results != [] && !HasError(results)
    ensures |WarningPositions(results)| == w ==> Settle(program, results, true).exit == Resolved(OK)
    ensures |WarningPositions(results)| == w + 1 ==> Settle(program, results, true).exit == Rejected(WARNING, None)
  {
    BudgetOfNumber(w);
    WarningBudget(program, results);
  }

  /** A budget below -1 is exceeded by any list of findings without errors,
      even one without warnings. */
  lemma NegativeBudget(program: Program, results: seq<Finding>)
    requires results != [] && !HasError(results) && Budget(program.maxWarnings) < -1
    ensures Settle(program, results, true).exit == Rejected(WARNING, None)
  {
  }

  /** Two warnings, as the commas of `rgb(255,255,255)` give under the
      `after` style, with `--max-warnings 0`: a WARNING. */
  lemma TwoWarningsOverZero(program: Program, a: Finding, b: Finding)
    requires program.maxWarnings == Some(IntToString(0))
    requires a.severity == "warning" && b.severity == "warning"
    ensures Settle(program, [a, b], true) == Settlement(Rejected(WARNING, None), Some([a, b]))
  {
    BudgetOfNumber(0);
    TwoWarnings(a, b);
  }

  lemma TwoWarnings(a: Finding, b: Finding)
    requires a.severity == "warning" && b.severity == "warning"
    ensures CountWarnings([a, b]) == 2 && !HasError([a, b])
  {
    assert [a, b][..1] == [a];
    assert [a][..0] == [];
    assert CountWarnings([a]) == 1;
    forall i | 0 <= i < 2
      ensures [a, b][i].severity != "error"
    {
    }
  }
}
