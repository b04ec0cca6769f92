/**
 * The top-level recon runner: the table of modules and their commands, the
 * per-module status table and process list that each launcher thread
 * updates, the progress count, the placeholder screenshots and the HTML
 * report assembled from the logs.
 *
 * Threads run sequentially here: a module is launched, waited for and
 * marked completed before the next one starts. Spawning the terminal,
 * reading log files and terminating processes are oracle parameters.
 */
module Orchestrator {
  import opened Common
  import opened Text
  import Utils

  // ---------------------------------------------------------------------
  // Module table, commands and paths
  // ---------------------------------------------------------------------

  /** The keys of `MODULES`, in their insertion order. */
  const Modules: seq<string> :=
    ["amass", "subfinder", "assetfinder", "httpx", "katana", "dnsscan", "aquatone", "snake"]

  /** The module names as a set: the keys of every status table. */
  const ModuleSet: set<string> := set m | m in Modules

  /** The modules that receive the target domain as their last argument. */
  const TargetModules: seq<string> := ["amass", "subfinder", "assetfinder", "httpx", "katana"]

  function OutputDir(baseDir: string): string
  {
    baseDir + "/T-SLYTHERINS-OUTPUT"
  }

  function PythonExec(baseDir: string): string
  {
    baseDir + "/venv/bin/python"
  }

  /** The command `MODULES` lists for `name`, before the target is added. */
  function BaseCommand(name: string, pythonExec: string): (cmd: seq<string>)
    requires name in Modules
    ensures cmd != [] && cmd[0] == (if name == "snake" then pythonExec else name)
  {
    if name == "amass" then ["amass", "enum", "-passive", "-d"]
    else if name == "subfinder" then ["subfinder", "-silent", "-d"]
    else if name == "assetfinder" then ["assetfinder"]
    else if name == "httpx" then ["httpx", "-l"]
    else if name == "katana" then ["katana", "-list"]
    else if name == "dnsscan" then ["dnsscan"]
    else if name == "aquatone" then ["aquatone", "-scan"]
    else [pythonExec, "snake_animation.py"]
  }

  /** The command the main loop builds for `name`. */
  function ModuleCommand(name: string, target: string, pythonExec: string): seq<string>
    requires name in Modules
  {
    var base := BaseCommand(name, pythonExec);
    if name in TargetModules then base + [target] else base
  }

  /**
   * The target is appended, once and at the end, exactly for the five
   * enumeration and probing modules; every other command is its table
   * entry unchanged.
   */
  lemma ModuleCommandSpec(name: string, target: string, pythonExec: string)
    requires name in Modules
    ensures var base := BaseCommand(name, pythonExec);
            var cmd := ModuleCommand(name, target, pythonExec);
            cmd[..|base|] == base
            && |cmd| == |base| + (if name in TargetModules then 1 else 0)
            && (name in TargetModules ==> cmd[|cmd| - 1] == target)
    ensures name in TargetModules <==> name in {"amass", "subfinder", "assetfinder", "httpx", "katana"}
  {
  }

  /** `LOG_FILES[name]`. */
  function LogFile(outputDir: string, name: string): string
  {
    outputDir + "/" + name + ".log"
  }

  /** Different modules never share a log file. */
  lemma LogFileInjective(outputDir: string, a: string, b: string)
    requires LogFile(outputDir, a) == LogFile(outputDir, b)
    ensures a == b
  {
    var pa, pb := LogFile(outputDir, a), LogFile(outputDir, b);
    var n := |outputDir| + 1;
    assert |a| == |b|;
    assert pa[n..n + |a|] == a;
    assert pb[n..n + |b|] == b;
  }

  /** `Path.stem`: the file name without its last `.suffix`. */
  function Stem(fileName: string): (r: string)
    ensures |r| <= |fileName|
  {
    var i := LastDot(fileName, |fileName|);
    if i <= 0 then fileName else fileName[..i]
  }

  /** The position of the last `.` before position `n`, or -1. */
  function LastDot(s: string, n: nat): (i: int)
    requires n <= |s|
    ensures -1 <= i < n
    ensures i >= 0 ==> s[i] == '.' && forall k :: i < k < n ==> s[k] != '.'
    ensures i == -1 ==> forall k :: 0 <= k < n ==> s[k] != '.'
  {
    if n == 0 then -1 else if s[n - 1] == '.' then n - 1 else LastDot(s, n - 1)
  }

  /** The stem of a module's log file is the module's name, for names without a dot. */
  lemma StemOfLog(name: string)
    requires name != [] && '.' !in name
    ensures Stem(name + ".log") == name
  {
    var f := name + ".log";
    assert f[|name|] == '.';
    assert f[|name| + 1..] == "log";
    assert LastDot(f, |f|) == |name|;
    assert f[..|name|] == name;
  }

  // ---------------------------------------------------------------------
  // The terminal command as written, and what the shell makes of the log path
  // ---------------------------------------------------------------------

  /** The script `bash -c` runs: the arguments joined unquoted, output sent to the log. */
  function TerminalScript(cmd: seq<string>, logfile: string): string
  {
    " " + Join(cmd, " ") + " &> " + logfile + "; exec bash"
  }

  /** The `xfce4-terminal` command line `open_terminal` spawns. */
  function TerminalCommand(name: string, cmd: seq<string>, logfile: string): seq<string>
  {
    ["xfce4-terminal", "--title", name, "--hold", "--disable-server",
     "--command", "bash -c '" + TerminalScript(cmd, logfile) + "'"]
  }

  /**
   * The script puts the log path after `&>` unquoted, so a path with a
   * blank in it (an installation directory such as `/opt/My Tools`) is
   * cut at the blank: the redirection target the shell reads is the part
   * before it, and the rest becomes an argument of the module's command.
   */
  lemma TerminalLogPathSplit(cmd: seq<string>, dirHead: string, dirTail: string)
    requires dirHead != [] && Utils.AllSafe(dirHead)
    ensures var logfile := dirHead + " " + dirTail;
            var script := TerminalScript(cmd, logfile);
            var after := |" " + Join(cmd, " ") + " &> "|;
            after <= |script|
            && Utils.ReadWord(script[after..]) == Some((dirHead, " " + dirTail + "; exec bash"))
            && dirHead != logfile
  {
    var logfile := dirHead + " " + dirTail;
    var head := " " + Join(cmd, " ") + " &> ";
    var rest := " " + dirTail + "; exec bash";
    assert TerminalScript(cmd, logfile) == head + (dirHead + rest);
    Utils.DropPrefix(head, dirHead + rest);
    Utils.ReadSafe(dirHead, rest);
  }

  /** The script with each argument and the log path quoted by `shlex.quote`. */
  function QuotedTerminalScript(cmd: seq<string>, logfile: string): string
  {
    " " + Join(Utils.QuoteAll(cmd), " ") + " &> " + Utils.ShellQuote(logfile) + "; exec bash"
  }

  /**
   * With quoting, the shell reads the log path after `&>` back as one
   * word, whatever blanks or quotes it holds, and the command part splits
   * into exactly the module's arguments.
   */
  lemma QuotedTerminalScriptReadsBack(cmd: seq<string>, logfile: string)
    requires cmd != []
    ensures var script := QuotedTerminalScript(cmd, logfile);
            var words := Join(Utils.QuoteAll(cmd), " ");
            var after := |" " + words + " &> "|;
            after <= |script|
            && script[1..1 + |words|] == words
            && Utils.Words(words) == Some(cmd)
            && Utils.ReadWord(script[after..]) == Some((logfile, "; exec bash"))
  {
    var words := Join(Utils.QuoteAll(cmd), " ");
    var q := Utils.ShellQuote(logfile);
    ScriptParts(" ", words, " &> ", q, "; exec bash");
    Utils.LogWordReadsBack(logfile, "; exec bash");
    Utils.QuotedCommandWords(cmd);
  }

  /** The slices of a script made of five parts. */
  lemma ScriptParts<T>(a: seq<T>, b: seq<T>, c: seq<T>, d: seq<T>, e: seq<T>)
    ensures var s := a + b + c + d + e;
            s[|a|..|a| + |b|] == b && |a + b + c| <= |s| && s[|a + b + c|..] == d + e
  {
    var s := a + b + c + d + e;
    assert s == a + b + c + (d + e);
  }

  // ---------------------------------------------------------------------
  // Status table, process list, launching
  // ---------------------------------------------------------------------

  datatype Status = Pending | Running | Completed

  /** An entry of `processes`: the module and the terminal process started for it. */
  datatype Proc = Proc(name: string, pid: nat, argv: seq<string>)

  /** The number of modules whose status is Completed. */
  function CompletedCount(status: map<string, Status>): (n: nat)
    ensures n <= |status.Keys|
  {
    var done := set m | m in status.Keys && status[m] == Completed;
    assert done <= status.Keys;
    SubsetCard(done, status.Keys);
    |done|
  }

  /** The status table after launching `ms` in order from `status`. */
  function StatusAfter(status: map<string, Status>, ms: seq<string>, spawn: string -> Option<nat>): map<string, Status>
    decreases |ms|
  {
    if ms == [] then status
    else
      var before := StatusAfter(status, ms[..|ms| - 1], spawn);
      var m := ms[|ms| - 1];
      if spawn(m).Some? then before[m := Completed] else before
  }

  /** The processes recorded while launching `ms` in order. */
  function Launched(ms: seq<string>, spawn: string -> Option<nat>, target: string, baseDir: string): seq<Proc>
    requires forall m :: m in ms ==> m in Modules
    decreases |ms|
  {
    if ms == [] then []
    else
      var m := ms[|ms| - 1];
      Launched(ms[..|ms| - 1], spawn, target, baseDir)
      + (if spawn(m).Some? then [Proc(m, spawn(m).value, LaunchArgv(m, target, baseDir))] else [])
  }

  /** The terminal command for module `m` with target `target`. */
  function LaunchArgv(m: string, target: string, baseDir: string): seq<string>
    requires m in Modules
  {
    TerminalCommand(m, ModuleCommand(m, target, PythonExec(baseDir)), LogFile(OutputDir(baseDir), m))
  }

  /**
   * After launching `ms`, a module of `ms` is Completed exactly when its
   * terminal started, or it already was; nothing outside `ms` changes.
   */
  lemma {:induction false} StatusAfterSpec(status: map<string, Status>, ms: seq<string>, spawn: string -> Option<nat>, m: string)
    ensures m in StatusAfter(status, ms, spawn) <==> m in status || (m in ms && spawn(m).Some?)
    ensures m in StatusAfter(status, ms, spawn) ==>
              StatusAfter(status, ms, spawn)[m] == (if m in ms && spawn(m).Some? then Completed else status[m])
    decreases |ms|
  {
    if ms != [] {
      var init := ms[..|ms| - 1];
      StatusAfterSpec(status, init, spawn, m);
      assert ms == init + [ms[|ms| - 1]];
    }
  }

  /** Every recorded process runs its module's terminal command, in module order. */
  lemma {:induction false} LaunchedSpec(ms: seq<string>, spawn: string -> Option<nat>, target: string, baseDir: string)
    requires forall m :: m in ms ==> m in Modules
    ensures var ps := Launched(ms, spawn, target, baseDir);
            |ps| <= |ms|
            && (forall p :: p in ps ==>
                  (p.name in ms && spawn(p.name) == Some(p.pid) && p.argv == LaunchArgv(p.name, target, baseDir)))
            && (forall m :: m in ms && spawn(m).Some? ==> exists p :: p in ps && p.name == m)
    decreases |ms|
  {
    if ms != [] {
      var init := ms[..|ms| - 1];
      LaunchedSpec(init, spawn, target, baseDir);
      assert ms == init + [ms[|ms| - 1]];
      var ps := Launched(ms, spawn, target, baseDir);
      forall m | m in ms && spawn(m).Some? ensures exists p :: p in ps && p.name == m {
        if m in init {
          var p :| p in Launched(init, spawn, target, baseDir) && p.name == m;
          assert p in ps;
        } else {
          assert ps[|ps| - 1].name == m;
        }
      }
    }
  }

  /** Launching one more module of `ms`. */
  lemma LaunchStep(status: map<string, Status>, acc: seq<Proc>, ms: seq<string>, i: nat,
                   spawn: string -> Option<nat>, target: string, baseDir: string)
    requires i < |ms| && forall m :: m in ms ==> m in Modules
    ensures ms[i] in Modules
    ensures forall m :: m in ms[..i] ==> m in Modules
    ensures forall m :: m in ms[..i + 1] ==> m in Modules
    ensures var before := StatusAfter(status, ms[..i], spawn);
            StatusAfter(status, ms[..i + 1], spawn) ==
              if spawn(ms[i]).Some? then before[ms[i] := Completed] else before
    ensures acc + Launched(ms[..i + 1], spawn, target, baseDir) ==
              acc + Launched(ms[..i], spawn, target, baseDir) +
              (if spawn(ms[i]).Some? then [Proc(ms[i], spawn(ms[i]).value, LaunchArgv(ms[i], target, baseDir))] else [])
  {
    assert ms[..i + 1][..i] == ms[..i];
    assert ms[..i + 1][i] == ms[i];
  }

  /** The global `module_status` table and `processes` list. */
  class Runner {
    const baseDir: string
    var status: map<string, Status>
    var processes: seq<Proc>

    ghost predicate Valid()
      reads this
    {
      forall m :: m in status <==> m in Modules
    }

    /** Every module starts Pending, with no process recorded. */
    constructor (baseDir: string)
      ensures this.baseDir == baseDir
      ensures status == map m | m in Modules :: Pending
      ensures processes == []
      ensures Valid()
    {
      this.baseDir := baseDir;
      status := map m | m in Modules :: Pending;
      processes := [];
    }

    /** The terminal process has been spawned: record it and mark the module Running. */
    method StartModule(name: string, pid: nat, argv: seq<string>)
      requires Valid() && name in Modules
      modifies this
      ensures Valid()
      ensures processes == old(processes) + [Proc(name, pid, argv)]
      ensures status == old(status)[name := Running]
    {
      processes := processes + [Proc(name, pid, argv)];
      status := status[name := Running];
    }

    /** The terminal has exited, whatever its exit status: the module is Completed. */
    method FinishModule(name: string)
      requires Valid() && name in Modules
      modifies this
      ensures Valid()
      ensures processes == old(processes)
      ensures status == old(status)[name := Completed]
    {
      status := status[name := Completed];
    }

    /**
     * `open_terminal`. `spawned` is the pid of the terminal, or None when
     * `Popen` raises; the exception then ends the launcher thread with the
     * module still in its old state and nothing recorded.
     */
    method OpenTerminal(name: string, cmd: seq<string>, spawned: Option<nat>)
      requires Valid() && name in Modules
      modifies this
      ensures Valid()
      ensures spawned.None? ==> processes == old(processes) && status == old(status)
      ensures spawned.Some? ==>
                processes == old(processes) + [Proc(name, spawned.value, TerminalCommand(name, cmd, LogFile(OutputDir(baseDir), name)))]
                && status == old(status)[name := Completed]
    {
      if spawned.None? {
        return;
      }
      var argv := TerminalCommand(name, cmd, LogFile(OutputDir(baseDir), name));
      StartModule(name, spawned.value, argv);
      FinishModule(name);
    }

    /**
     * The launch loop of the main block: every module in table order, the
     * raw input stripped into the target and appended where the table
     * says so.
     */
    method LaunchAll(rawTarget: string, spawn: string -> Option<nat>)
      requires Valid()
      modifies this
      ensures Valid()
      ensures status == StatusAfter(old(status), Modules, spawn)
      ensures processes == old(processes) + Launched(Modules, spawn, Strip(rawTarget), baseDir)
    {
      var target := Strip(rawTarget);
      var i := 0;
      while i < |Modules|
        invariant 0 <= i <= |Modules|
        invariant Valid()
        invariant status == StatusAfter(old(status), Modules[..i], spawn)
        invariant processes == old(processes) + Launched(Modules[..i], spawn, target, baseDir)
      {
        var m := Modules[i];
        LaunchStep(old(status), old(processes), Modules, i, spawn, target, baseDir);
        OpenTerminal(m, ModuleCommand(m, target, PythonExec(baseDir)), spawn(m));
        i := i + 1;
      }
      assert Modules[..i] == Modules;
    }

    /**
     * `signal_handler`: `terminate` is called on every recorded process in
     * order; an exception from it is swallowed, and the program exits with
     * status 0.
     */
    method SignalHandler() returns (terminated: seq<nat>, exitCode: int)
      ensures |terminated| == |processes|
      ensures forall k :: 0 <= k < |processes| ==> terminated[k] == processes[k].pid
      ensures exitCode == 0
    {
      terminated := [];
      var i := 0;
      while i < |processes|
        invariant 0 <= i <= |processes|
        invariant |terminated| == i
        invariant forall k :: 0 <= k < i ==> terminated[k] == processes[k].pid
      {
        terminated := terminated + [processes[i].pid];
        i := i + 1;
      }
      exitCode := 0;
    }
  }

  /**
   * A run from the initial table: a module ends Completed exactly when
   * its terminal started and stays Pending otherwise, so the progress
   * count is the number of terminals that started and at most eight.
   */
  lemma LaunchFromStart(spawn: string -> Option<nat>, m: string)
    requires m in Modules
    ensures var after := StatusAfter(map m | m in Modules :: Pending, Modules, spawn);
            m in after && after[m] == (if spawn(m).Some? then Completed else Pending)
            && CompletedCount(after) <= |Modules|
  {
    var start := map m | m in Modules :: Pending;
    var after := StatusAfter(start, Modules, spawn);
    StatusAfterSpec(start, Modules, spawn, m);
    forall k ensures k in after <==> k in Modules {
      StatusAfterSpec(start, Modules, spawn, k);
    }
    assert after.Keys == set k | k in Modules;
    SetOfSeqSize(Modules);
  }

  lemma {:induction false} SetOfSeqSize<T>(s: seq<T>)
    ensures |set x | x in s| <= |s|
    decreases |s|
  {
    if s != [] {
      var init := s[..|s| - 1];
      SetOfSeqSize(init);
      assert s == init + [s[|s| - 1]];
      assert (set x | x in s) == (set x | x in init) + {s[|s| - 1]};
    }
  }

  // ---------------------------------------------------------------------
  // Progress monitor
  // ---------------------------------------------------------------------

  /**
   * `show_progress` over the status tables it samples, one per second.
   * It stops once the Completed count reaches the number of modules
   * (for a table keyed by the modules, once every module is Completed:
   * `AllCompleted`) or the samples run out; the bar's position always
   * equals the last count it took.
   */
  method ShowProgress(samples: seq<map<string, Status>>) returns (bar: int, taken: nat)
    ensures taken <= |samples|
    ensures bar == (if taken == 0 then 0 else CompletedCount(samples[taken - 1]))
    ensures forall k :: 0 <= k < taken - 1 ==> CompletedCount(samples[k]) < |Modules|
    ensures taken < |samples| ==> taken > 0 && bar >= |Modules|
  {
    var completed := 0;
    bar := 0;
    taken := 0;
    while completed < |Modules| && taken < |samples|
      invariant taken <= |samples|
      invariant bar == completed
      invariant completed == (if taken == 0 then 0 else CompletedCount(samples[taken - 1]))
      invariant forall k :: 0 <= k < taken - 1 ==> CompletedCount(samples[k]) < |Modules|
      invariant taken > 0 ==> CompletedCount(samples[taken - 1]) == completed
      decreases |samples| - taken
    {
      var newCompleted := CompletedCount(samples[taken]);
      bar := bar + (newCompleted - completed);
      completed := newCompleted;
      taken := taken + 1;
    }
  }

  /** A table keyed by the modules whose Completed count reaches their number has every module Completed. */
  lemma AllCompleted(status: map<string, Status>)
    requires status.Keys == ModuleSet
    requires CompletedCount(status) >= |Modules|
    ensures forall m :: m in Modules ==> status[m] == Completed
  {
    var done := set m | m in status.Keys && status[m] == Completed;
    SetOfSeqSize(Modules);
    SubsetCard(done, status.Keys);
    assert done == status.Keys;
    forall m | m in Modules ensures status[m] == Completed {
      assert m in done;
    }
  }

  // ---------------------------------------------------------------------
  // Screenshots and the HTML report
  // ---------------------------------------------------------------------

  function ThumbName(name: string): string
  {
    name + "_thumb.png"
  }

  function ScreenshotPath(outputDir: string, stem: string): string
  {
    outputDir + "/screenshots/" + stem + ".png"
  }

  function ThumbPath(outputDir: string, stem: string): string
  {
    outputDir + "/thumbnails/" + ThumbName(stem)
  }

  /** The files `take_screenshots` writes for the log files `ms`, in order. */
  function ShotsWritten(outputDir: string, ms: seq<string>): seq<string>
    decreases |ms|
  {
    if ms == [] then []
    else
      var stem := Stem(ms[|ms| - 1] + ".log");
      ShotsWritten(outputDir, ms[..|ms| - 1]) + [ScreenshotPath(outputDir, stem), ThumbPath(outputDir, stem)]
  }

  /**
   * `take_screenshots`: for every log file a placeholder screenshot named
   * after the log's stem and its thumbnail. `written` lists the paths
   * saved, in order.
   */
  method TakeScreenshots(outputDir: string) returns (written: seq<string>)
    ensures written == ShotsWritten(outputDir, Modules)
  {
    written := [];
    var i := 0;
    while i < |Modules|
      invariant 0 <= i <= |Modules|
      invariant written == ShotsWritten(outputDir, Modules[..i])
    {
      assert Modules[..i + 1][..i] == Modules[..i];
      var stem := Stem(Modules[i] + ".log");
      written := written + [ScreenshotPath(outputDir, stem), ThumbPath(outputDir, stem)];
      i := i + 1;
    }
    assert Modules[..i] == Modules;
  }

  /**
   * The thumbnail `take_screenshots` saves for a module's log is the very
   * file the report looks for, so after it every module gets an image.
   */
  lemma {:induction false} ScreenshotsFeedReport(outputDir: string, ms: seq<string>, m: string)
    requires forall k :: k in ms ==> k != [] && '.' !in k
    requires m in ms
    ensures ThumbPath(outputDir, m) in ShotsWritten(outputDir, ms)
    ensures |ShotsWritten(outputDir, ms)| == 2 * |ms|
    decreases |ms|
  {
    var init := ms[..|ms| - 1];
    var last := ms[|ms| - 1];
    assert ms == init + [last];
    assert last in ms;
    StemOfLog(last);
    if m in init {
      assert forall k :: k in init ==> k in ms;
      ScreenshotsFeedReport(outputDir, init, m);
    } else if init != [] {
      ScreenshotsLength(outputDir, init);
    }
  }

  lemma {:induction false} ScreenshotsLength(outputDir: string, ms: seq<string>)
    ensures |ShotsWritten(outputDir, ms)| == 2 * |ms|
    decreases |ms|
  {
    if ms != [] { ScreenshotsLength(outputDir, ms[..|ms| - 1]); }
  }

  lemma ModulesPlain()
    ensures forall k :: k in Modules ==> k != [] && '.' !in k
  {
  }

  const ReportHead: string :=
    "<html><head><title>T-SLYTHERINS Recon Report</title></head><body>" + "<h1>T-SLYTHERINS Recon Report</h1><ul>"
  const ReportTail: string := "</ul></body></html>"

  /** The log excerpt: the first 500 characters, then `...`. */
  function Snippet(log: string): (r: string)
  {
    (if |log| <= 500 then log else log[..500]) + "..."
  }

  lemma SnippetSpec(log: string)
    ensures var r := Snippet(log);
            var n := if |log| <= 500 then |log| else 500;
            |r| == n + 3 && r[..n] == log[..n] && EndsWith(r, "...") && |r| <= 503
  {
  }

  function ImageTag(name: string): string
  {
    "<img src=\"thumbnails/" + ThumbName(name) + "\" alt=\"" + name + " thumbnail\"/><br>"
  }

  /** One list item of the report. */
  function Item(name: string, log: string, hasThumb: bool): string
  {
    "<li><h2>" + name + "</h2>" + "<pre>" + Snippet(log) + "</pre>"
    + (if hasThumb then ImageTag(name) else "") + "</li>"
  }

  /** The items for `ms`, or None when some log cannot be read. */
  function Items(outputDir: string, ms: seq<string>, logs: string -> Option<string>, thumbs: set<string>): Option<string>
    decreases |ms|
  {
    if ms == [] then Some([])
    else
      var m := ms[|ms| - 1];
      var before := Items(outputDir, ms[..|ms| - 1], logs, thumbs);
      var log := logs(LogFile(outputDir, m));
      if before.None? || log.None? then None
      else Some(before.value + Item(m, log.value, ThumbPath(outputDir, m) in thumbs))
  }

  /** The report fails exactly when some module's log cannot be read. */
  lemma {:induction false} ItemsFail(outputDir: string, ms: seq<string>, logs: string -> Option<string>, thumbs: set<string>)
    ensures Items(outputDir, ms, logs, thumbs).None? <==> exists m :: m in ms && logs(LogFile(outputDir, m)).None?
    decreases |ms|
  {
    if ms != [] {
      var init := ms[..|ms| - 1];
      ItemsFail(outputDir, init, logs, thumbs);
      assert ms == init + [ms[|ms| - 1]];
    }
  }

  /** Adding one module appends exactly its item after the others. */
  lemma ItemsStep(outputDir: string, ms: seq<string>, m: string, logs: string -> Option<string>, thumbs: set<string>)
    requires Items(outputDir, ms, logs, thumbs).Some? && logs(LogFile(outputDir, m)).Some?
    ensures Items(outputDir, ms + [m], logs, thumbs)
         == Some(Items(outputDir, ms, logs, thumbs).value
                 + Item(m, logs(LogFile(outputDir, m)).value, ThumbPath(outputDir, m) in thumbs))
  {
    assert (ms + [m])[..|ms|] == ms;
  }

  lemma Concat3(a: string, b: string, c: string)
    ensures (a + b) + c == a + (b + c)
  {
  }

  /**
   * `generate_html_report`: the report text written to `report.html`, or
   * None when reading a log raises or `report.html` cannot be written
   * (nothing is written then, and the exception escapes). `logs` gives
   * what `read_text` returns for each path, `thumbs` the thumbnail paths
   * that exist, `writable` whether `write_text` succeeds.
   */
  method GenerateHtmlReport(outputDir: string, logs: string -> Option<string>, thumbs: set<string>, writable: bool)
    returns (report: Option<string>)
    ensures report.None? <==> !writable || exists m :: m in Modules && logs(LogFile(outputDir, m)).None?
    ensures report.Some? ==> Items(outputDir, Modules, logs, thumbs).Some? && report.value == ReportHead + Items(outputDir, Modules, logs, thumbs).value + ReportTail
  {
    var html := ReportHead;
    var i := 0;
    while i < |Modules|
      invariant 0 <= i <= |Modules|
      invariant Items(outputDir, Modules[..i], logs, thumbs).Some?
      invariant html == ReportHead + Items(outputDir, Modules[..i], logs, thumbs).value
    {
      var m := Modules[i];
      var log := logs(LogFile(outputDir, m));
      assert Modules[..i + 1] == Modules[..i] + [m];
      if log.None? {
        assert m in Modules;
        return None;
      }
      ItemsStep(outputDir, Modules[..i], m, logs, thumbs);
      var item := Item(m, log.value, ThumbPath(outputDir, m) in thumbs);
      Concat3(ReportHead, Items(outputDir, Modules[..i], logs, thumbs).value, item);
      html := html + item;
      i := i + 1;
    }
    assert Modules[..i] == Modules;
    ItemsFail(outputDir, Modules, logs, thumbs);
    html := html + ReportTail;
    if !writable {
      return None;
    }
    report := Some(html);
  }
}
