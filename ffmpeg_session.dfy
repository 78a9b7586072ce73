/** The session helper around the ffmpeg engine: the log monitor that turns
    every printed line into duration, progress and completion events, the
    single-flight `run`, the filesystem bridge and the asset path mapper.

    The engine is a value that is present or absent and carries its virtual
    filesystem. What one `callMain` does (the lines it prints, the filesystem
    it leaves, whether it throws) is a parameter, and so is whether `exit()`
    throws. The promise of `run` is the `pending` flag (`runResolve !== null`);
    `run` is modelled as one synchronous step in which the printed lines are
    handled in order. */
module FFmpegSession {
  import opened Prelude
  import opened Text
  import opened FFmpegLog
  import opened VirtualFs

  // ---------------------------------------------------------------- locateFile

  const WorkerAsset := "/ffmpeg/ffmpeg.core.worker.js"
  const WasmAsset := "/ffmpeg/ffmpeg.core.wasm"

  /** Where the engine loader fetches its worker script and its module from. */
  function LocateFile(path: string): (r: string)
    ensures EndsWith(path, ".worker.js") ==> r == WorkerAsset
    ensures !EndsWith(path, ".worker.js") && EndsWith(path, ".wasm") ==> r == WasmAsset
    ensures !EndsWith(path, ".worker.js") && !EndsWith(path, ".wasm") ==> r == path
  {
    if EndsWith(path, ".worker.js") then WorkerAsset
    else if EndsWith(path, ".wasm") then WasmAsset
    else path
  }

  /** The two asset paths are fixed points, so mapping twice is mapping once. */
  lemma LocateFileIdempotent(path: string)
    ensures LocateFile(LocateFile(path)) == LocateFile(path)
  {
    assert WorkerAsset[|WorkerAsset| - 10..] == ".worker.js";
    assert WasmAsset[|WasmAsset| - 5..] == ".wasm";
    assert WasmAsset[|WasmAsset| - 10..] != ".worker.js" by {
      assert WasmAsset[|WasmAsset| - 10..][0] == '.' && ".worker.js"[0] == '.';
      assert WasmAsset[|WasmAsset| - 10..][1] == 'c' && ".worker.js"[1] == 'w';
    }
  }

  // ---------------------------------------------------------------- arguments

  const DefaultArgs: seq<string> := ["-y", "-hide_banner", "-stats_period", "0.2", "-loglevel", "info", "-nostdin"]

  /** The argument vector handed to `callMain`: the fixed flags, then the caller's. */
  function FullArgs(args: seq<string>): (r: seq<string>)
    ensures |r| == |DefaultArgs| + |args|
    ensures r[..|DefaultArgs|] == DefaultArgs && r[|DefaultArgs|..] == args
  {
    DefaultArgs + args
  }

  /** Different caller arguments give different engine invocations. */
  lemma FullArgsInjective(a: seq<string>, b: seq<string>)
    requires FullArgs(a) == FullArgs(b)
    ensures a == b
  {
    assert a == FullArgs(a)[|DefaultArgs|..];
  }

  // ---------------------------------------------------------------- log monitor

  datatype Stream = Stdout | Stderr

  /** One line the engine prints, with the stream it came from. */
  datatype LogLine = LogLine(stream: Stream, text: string)

  /** Which of the three optional handlers the caller has installed. */
  datatype Observers = Observers(onDuration: bool, onProgress: bool, onLog: bool)

  /** What the helper hands out while handling lines: a call of one of the
      handlers, or the resolution of the pending `run` promise. */
  datatype Notice =
    | Logged(stream: Stream, text: string)
    | DurationReported(seconds: real)
    | ProgressReported(value: ProgressValue)
    | RunResolved(result: bool)

  /** The fields the log handling reads and writes: `ffmpegCurrentDuration`,
      whether `runResolve` is set, and `ffmpegRunning`. */
  datatype LogMonitor = LogMonitor(duration: Option<real>, pending: bool, running: bool)

  /** The new monitor and the notices handed out, in order. */
  datatype Reaction = Reaction(monitor: LogMonitor, notices: seq<Notice>)

  /** A stored duration is never negative. */
  predicate MonitorValid(m: LogMonitor) {
    m.duration.Some? ==> m.duration.value >= 0.0
  }

  /** How many times the pending promise is resolved. */
  function Resolutions(ns: seq<Notice>): nat {
    multiset(ns)[RunResolved(true)] + multiset(ns)[RunResolved(false)]
  }

  /** `detectDuration`: report a matched duration and store it, overwriting.
      It never touches the promise or the running flag. */
  function DurationStep(m: LogMonitor, text: string, obs: Observers): (r: Reaction)
    requires MonitorValid(m)
    ensures MonitorValid(r.monitor)
    ensures r.monitor.duration == (if DurationIn(text).Some? then DurationIn(text) else m.duration)
    ensures r.monitor.pending == m.pending && r.monitor.running == m.running
    ensures Resolutions(r.notices) == 0
    ensures DurationIn(text).Some? && obs.onDuration ==> r.notices == [DurationReported(DurationIn(text).value)]
  {
    match DurationIn(text)
    case None => Reaction(m, [])
    case Some(d) => Reaction(m.(duration := Some(d)), if obs.onDuration then [DurationReported(d)] else [])
  }

  /** `detectProgress`: report the ratio of a matched elapsed time; nothing is stored. */
  function ProgressStep(m: LogMonitor, text: string, obs: Observers): (r: Reaction)
    requires MonitorValid(m)
    ensures r.monitor == m
    ensures Resolutions(r.notices) == 0
    ensures ElapsedIn(text).Some? && obs.onProgress ==>
      r.notices == [ProgressReported(ProgressValueFor(ElapsedIn(text).value, m.duration))]
    ensures ElapsedIn(text).None? || !obs.onProgress ==> r.notices == []
  {
    match ElapsedIn(text)
    case None => Reaction(m, [])
    case Some(t) => Reaction(m, if obs.onProgress then [ProgressReported(ProgressValueFor(t, m.duration))] else [])
  }

  /** `detectCompletion`: a marker settles the pending run, once, and clears the
      session; progress 100 is reported after the resolution. */
  function CompletionStep(m: LogMonitor, text: string, obs: Observers): (r: Reaction)
    ensures MonitorValid(m) ==> MonitorValid(r.monitor)
    ensures Resolutions(r.notices) == (if IsCompletionMarker(text) && m.pending then 1 else 0)
    ensures r.monitor.pending == (m.pending && !IsCompletionMarker(text))
    ensures r.monitor.running == (m.running && !(IsCompletionMarker(text) && m.pending))
    ensures IsCompletionMarker(text) && m.pending ==>
      r.monitor.duration.None? && |r.notices| > 0 && r.notices[0] == RunResolved(true) &&
      (obs.onProgress ==> r.notices[|r.notices| - 1] == ProgressReported(Percent(100)))
    ensures !(IsCompletionMarker(text) && m.pending) ==> r == Reaction(m, [])
  {
    if IsCompletionMarker(text) && m.pending then
      Reaction(LogMonitor(None, false, false),
               [RunResolved(true)] + if obs.onProgress then [ProgressReported(Percent(100))] else [])
    else Reaction(m, [])
  }

  /** `handleFFmpegOutput`: the log handler, then the three detectors in order.
      Only a marker while the run is pending settles it, and then once. */
  function Step(m: LogMonitor, line: LogLine, obs: Observers): (r: Reaction)
    requires MonitorValid(m)
    ensures MonitorValid(r.monitor)
    ensures Resolutions(r.notices) == (if IsCompletionMarker(line.text) && m.pending then 1 else 0)
    ensures r.monitor.pending == (m.pending && !IsCompletionMarker(line.text))
    ensures r.monitor.running == (m.running && !(IsCompletionMarker(line.text) && m.pending))
  {
    var logged := if obs.onLog then [Logged(line.stream, line.text)] else [];
    var r1 := DurationStep(m, line.text, obs);
    var r2 := ProgressStep(r1.monitor, line.text, obs);
    var r3 := CompletionStep(r2.monitor, line.text, obs);
    Reaction(r3.monitor, logged + r1.notices + r2.notices + r3.notices)
  }

  /** The lines handled one after another. */
  function Feed(m: LogMonitor, lines: seq<LogLine>, obs: Observers): (r: Reaction)
    requires MonitorValid(m)
    ensures MonitorValid(r.monitor)
    decreases |lines|
  {
    if lines == [] then Reaction(m, [])
    else
      var before := Feed(m, lines[..|lines| - 1], obs);
      var last := Step(before.monitor, lines[|lines| - 1], obs);
      Reaction(last.monitor, before.notices + last.notices)
  }

  /** Appending four pieces in turn is appending them at once. */
  lemma AppendInTurn<T>(s: seq<T>, a: seq<T>, b: seq<T>, c: seq<T>, d: seq<T>,
                        sa: seq<T>, sb: seq<T>, sc: seq<T>, sd: seq<T>)
    requires sa == s + a && sb == sa + b && sc == sb + c && sd == sc + d
    ensures sd == s + (a + b + c + d)
  {
  }

  lemma AppendTwo<T>(s: seq<T>, a: seq<T>, b: seq<T>)
    ensures s + a + b == s + (a + b)
  {
  }

  /** Feeding one more line is one more step. */
  lemma FeedOneMore(m: LogMonitor, lines: seq<LogLine>, i: nat, obs: Observers)
    requires MonitorValid(m) && i < |lines|
    ensures var before := Feed(m, lines[..i], obs);
      var last := Step(before.monitor, lines[i], obs);
      Feed(m, lines[..i + 1], obs) == Reaction(last.monitor, before.notices + last.notices)
  {
    assert lines[..i + 1][..i] == lines[..i];
    assert lines[..i + 1][i] == lines[i];
  }

  predicate HasMarker(lines: seq<LogLine>) {
    exists i :: 0 <= i < |lines| && IsCompletionMarker(lines[i].text)
  }

  lemma HasMarkerOfLast(lines: seq<LogLine>)
    requires lines != []
    ensures HasMarker(lines) <==> HasMarker(lines[..|lines| - 1]) || IsCompletionMarker(lines[|lines| - 1].text)
  {
    var init := lines[..|lines| - 1];
    if HasMarker(lines) {
      var i :| 0 <= i < |lines| && IsCompletionMarker(lines[i].text);
      if i < |init| {
        assert init[i] == lines[i];
      }
    }
    if HasMarker(init) {
      var i :| 0 <= i < |init| && IsCompletionMarker(init[i].text);
      assert lines[i] == init[i];
    }
  }

  /** A line carrying a duration stores it (unless the same line also settles
      the run) and reports it to an installed duration handler. */
  lemma StepOnDurationLine(m: LogMonitor, line: LogLine, obs: Observers, d: real)
    requires MonitorValid(m) && DurationIn(line.text) == Some(d)
    ensures var r := Step(m, line, obs);
      r.monitor.duration == (if IsCompletionMarker(line.text) && m.pending then None else Some(d)) &&
      (obs.onDuration ==> DurationReported(d) in r.notices)
  {
    if obs.onDuration {
      var logged := if obs.onLog then [Logged(line.stream, line.text)] else [];
      var r1 := DurationStep(m, line.text, obs);
      var r2 := ProgressStep(r1.monitor, line.text, obs);
      var r3 := CompletionStep(r2.monitor, line.text, obs);
      assert Step(m, line, obs).notices == logged + r1.notices + r2.notices + r3.notices;
      InSecond(logged, r1.notices, r2.notices, r3.notices, DurationReported(d));
    }
  }

  /** A line carrying an elapsed time reports its ratio to the duration known
      after that line's own duration, if any, has been stored. */
  lemma StepOnProgressLine(m: LogMonitor, line: LogLine, obs: Observers, t: real)
    requires MonitorValid(m) && ElapsedIn(line.text) == Some(t) && obs.onProgress
    ensures var known := if DurationIn(line.text).Some? then DurationIn(line.text) else m.duration;
      ProgressReported(ProgressValueFor(t, known)) in Step(m, line, obs).notices
  {
    var logged := if obs.onLog then [Logged(line.stream, line.text)] else [];
    var r1 := DurationStep(m, line.text, obs);
    var r2 := ProgressStep(r1.monitor, line.text, obs);
    var r3 := CompletionStep(r2.monitor, line.text, obs);
    assert Step(m, line, obs).notices == logged + r1.notices + r2.notices + r3.notices;
    assert r2.notices == [ProgressReported(ProgressValueFor(t, r1.monitor.duration))];
    InMiddle(logged + r1.notices, r2.notices, r3.notices, ProgressReported(ProgressValueFor(t, r1.monitor.duration)));
  }

  lemma InSecond<T>(a: seq<T>, b: seq<T>, c: seq<T>, d: seq<T>, x: T)
    requires b == [x]
    ensures x in a + b + c + d
  {
    assert (a + b + c + d)[|a|] == x;
  }

  lemma InMiddle<T>(a: seq<T>, b: seq<T>, c: seq<T>, x: T)
    requires b == [x]
    ensures x in a + b + c
  {
    assert (a + b + c)[|a|] == x;
  }

  /** A line that matches neither expression and holds no marker changes nothing
      and only reaches the log handler. */
  lemma StepOnOtherLine(m: LogMonitor, line: LogLine, obs: Observers)
    requires MonitorValid(m)
    requires DurationIn(line.text).None? && ElapsedIn(line.text).None? && !IsCompletionMarker(line.text)
    ensures Step(m, line, obs) == Reaction(m, if obs.onLog then [Logged(line.stream, line.text)] else [])
  {
    var logged := if obs.onLog then [Logged(line.stream, line.text)] else [];
    assert Step(m, line, obs).notices == logged + [] + [] + [];
  }

  /** A marker while a run is pending resolves it with `true`, clears the
      running flag and the duration, and reports progress 100 last. */
  lemma StepOnMarker(m: LogMonitor, line: LogLine, obs: Observers)
    requires MonitorValid(m) && m.pending && IsCompletionMarker(line.text)
    ensures var r := Step(m, line, obs);
      r.monitor == LogMonitor(None, false, false) && RunResolved(true) in r.notices &&
      (obs.onProgress ==> r.notices[|r.notices| - 1] == ProgressReported(Percent(100)))
  {
    var r1 := DurationStep(m, line.text, obs);
    var r2 := ProgressStep(r1.monitor, line.text, obs);
    var r3 := CompletionStep(r2.monitor, line.text, obs);
    var before := (if obs.onLog then [Logged(line.stream, line.text)] else []) + r1.notices + r2.notices;
    assert Step(m, line, obs).notices == before + r3.notices;
    assert Step(m, line, obs).notices[|before|] == RunResolved(true);
  }

  /** Over a whole log, the pending run is resolved once if some line holds a
      marker and never otherwise; it stays pending, and running, without one. */
  lemma {:induction false} FeedResolvesOnce(m: LogMonitor, lines: seq<LogLine>, obs: Observers)
    requires MonitorValid(m)
    ensures var r := Feed(m, lines, obs);
      Resolutions(r.notices) == (if m.pending && HasMarker(lines) then 1 else 0) &&
      r.monitor.pending == (m.pending && !HasMarker(lines)) &&
      r.monitor.running == (m.running && !(m.pending && HasMarker(lines)))
    decreases |lines|
  {
    if lines != [] {
      FeedResolvesOnce(m, lines[..|lines| - 1], obs);
      HasMarkerOfLast(lines);
    }
  }

  /** The duration of the last line that carries one, or `d` if none does. */
  function LatestDuration(d: Option<real>, lines: seq<LogLine>): Option<real>
    decreases |lines|
  {
    if lines == [] then d
    else if DurationIn(lines[|lines| - 1].text).Some? then DurationIn(lines[|lines| - 1].text)
    else LatestDuration(d, lines[..|lines| - 1])
  }

  /** Without a pending run every duration line overwrites the stored value, so
      the last one wins (not the first). */
  lemma {:induction false} FeedKeepsLatestDuration(m: LogMonitor, lines: seq<LogLine>, obs: Observers)
    requires MonitorValid(m) && !m.pending
    ensures Feed(m, lines, obs).monitor.duration == LatestDuration(m.duration, lines)
    ensures !Feed(m, lines, obs).monitor.pending
    decreases |lines|
  {
    if lines != [] {
      var init := lines[..|lines| - 1];
      FeedKeepsLatestDuration(m, init, obs);
    }
  }

  // ---------------------------------------------------------------- the helper

  /** The engine module: present once loaded, with its virtual filesystem. */
  datatype Engine = Engine(fs: FileSystem)

  /** `FFmpeg not initialized`, or an error code from the engine filesystem. */
  datatype HelperError = NotInitialized | Fs(code: FsError)

  /** How loading the engine goes: `createFFmpegCore` is missing from the page,
      its promise rejects, or it yields a module with the given filesystem. */
  datatype Boot = CoreAbsent | LoadFails | Loads(fs: FileSystem)

  datatype InitError = CoreNotLoaded | LoadFailed

  /** What one `callMain` does: the lines it prints, in order, the filesystem it
      leaves behind, and whether it ends by throwing. */
  datatype EngineRun = EngineRun(log: seq<LogLine>, fsAfter: FileSystem, throws: bool)

  datatype Failure = AlreadyRunning | CoreMissing | EngineThrew

  /** How the promise returned by `run` ends up: resolved with a value, rejected,
      or never settled (no marker was printed and nothing threw). */
  datatype RunOutcome = Resolved(value: bool) | Rejected(reason: Failure) | Unsettled

  /** Everything `run` reads or writes: the engine, the log monitor, the
      invocations of `callMain` so far and the notices handed out so far. */
  datatype HelperState = HelperState(core: Option<Engine>, monitor: LogMonitor,
                                     calls: seq<seq<string>>, notices: seq<Notice>)

  datatype RunReport = RunReport(outcome: RunOutcome, state: HelperState)

  /** The effect of `run(args)` from state `s`. */
  function RunEffect(s: HelperState, obs: Observers, args: seq<string>, engine: EngineRun, exitThrows: bool): (r: RunReport)
    requires MonitorValid(s.monitor)
    ensures MonitorValid(r.state.monitor)
  {
    if s.monitor.running then RunReport(Rejected(AlreadyRunning), s)
    else
      var started := s.monitor.(running := true, pending := true);
      match s.core
      case None =>
        // `this.ffmpegCore.callMain` throws inside the executor: the promise
        // rejects, `runResolve` stays set and `finally` finds no engine.
        RunReport(Rejected(CoreMissing), s.(monitor := started.(running := false)))
      case Some(_) =>
        var fed := Feed(started, engine.log, obs);
        var calls := s.calls + [FullArgs(args)];
        var notices := s.notices + fed.notices;
        var live := Some(Engine(engine.fsAfter));
        if fed.monitor.pending && !engine.throws then
          RunReport(Unsettled, HelperState(live, fed.monitor, calls, notices))
        else
          var outcome := if !fed.monitor.pending then Resolved(true) else Rejected(EngineThrew);
          RunReport(outcome, HelperState(if exitThrows then live else None,
                                         fed.monitor.(running := false), calls, notices))
  }

  /** A second `run` while one is in flight is refused and changes nothing. */
  lemma RunRefusedWhileRunning(s: HelperState, obs: Observers, args: seq<string>, engine: EngineRun, exitThrows: bool)
    requires MonitorValid(s.monitor) && s.monitor.running
    ensures RunEffect(s, obs, args, engine, exitThrows) == RunReport(Rejected(AlreadyRunning), s)
  {
  }

  /** An admitted run invokes the engine once, with the default flags first. */
  lemma RunInvokesEngineOnce(s: HelperState, obs: Observers, args: seq<string>, engine: EngineRun, exitThrows: bool)
    requires MonitorValid(s.monitor) && !s.monitor.running && s.core.Some?
    ensures var calls := RunEffect(s, obs, args, engine, exitThrows).state.calls;
      |calls| == |s.calls| + 1 && calls[..|s.calls|] == s.calls &&
      calls[|s.calls|] == DefaultArgs + args
  {
  }

  /** An admitted run resolves, always with `true`, exactly when the engine prints
      a marker; otherwise it is rejected if the engine throws and never settles
      if it does not. */
  lemma RunSettlesOnMarker(s: HelperState, obs: Observers, args: seq<string>, engine: EngineRun, exitThrows: bool)
    requires MonitorValid(s.monitor) && !s.monitor.running && s.core.Some?
    ensures var outcome := RunEffect(s, obs, args, engine, exitThrows).outcome;
      (outcome == Resolved(true) <==> HasMarker(engine.log)) &&
      (outcome == Rejected(EngineThrew) <==> !HasMarker(engine.log) && engine.throws) &&
      (outcome == Unsettled <==> !HasMarker(engine.log) && !engine.throws)
  {
    FeedResolvesOnce(s.monitor.(running := true, pending := true), engine.log, obs);
  }

  /** Whenever the promise settles, `finally` has cleared the running flag and
      disposed of the engine, unless `exit()` threw: then the engine is kept,
      because the assignment of null follows the call that threw. */
  lemma RunTearsDown(s: HelperState, obs: Observers, args: seq<string>, engine: EngineRun, exitThrows: bool)
    requires MonitorValid(s.monitor) && !s.monitor.running
    ensures var r := RunEffect(s, obs, args, engine, exitThrows);
      r.outcome != Unsettled ==>
        !r.state.monitor.running &&
        (r.state.core.None? <==> !exitThrows || s.core.None?)
  {
  }

  /** A run that never settles leaves the helper running with the promise
      pending, so every later `run` is refused. */
  lemma RunUnsettledBlocks(s: HelperState, obs: Observers, args: seq<string>, engine: EngineRun, exitThrows: bool,
                           args2: seq<string>, engine2: EngineRun, exitThrows2: bool)
    requires MonitorValid(s.monitor)
    requires RunEffect(s, obs, args, engine, exitThrows).outcome == Unsettled
    ensures var after := RunEffect(s, obs, args, engine, exitThrows).state;
      after.monitor.running && after.monitor.pending &&
      RunEffect(after, obs, args2, engine2, exitThrows2).outcome == Rejected(AlreadyRunning)
  {
    FeedResolvesOnce(s.monitor.(running := true, pending := true), engine.log, obs);
  }

  /** Without an engine `run` is rejected and leaves `runResolve` set, so a later
      marker line still reports progress 100 for the orphaned promise. */
  lemma RunWithoutEngine(s: HelperState, obs: Observers, args: seq<string>, engine: EngineRun, exitThrows: bool)
    requires MonitorValid(s.monitor) && !s.monitor.running && s.core.None?
    ensures var r := RunEffect(s, obs, args, engine, exitThrows);
      r.outcome == Rejected(CoreMissing) && r.state.core.None? &&
      r.state.monitor.pending && !r.state.monitor.running && r.state.calls == s.calls
  {
  }

  /** The helper object. The three handlers are modelled by which of them is
      installed (`observers`) and by the record of their calls (`notices`);
      `calls` records the argument vectors passed to `callMain`. */
  class FFmpegHelper {
    var core: Option<Engine>
    var running: bool
    var currentDuration: Option<real>
    var pending: bool
    var observers: Observers
    var calls: seq<seq<string>>
    var notices: seq<Notice>

    function Monitor(): LogMonitor
      reads this
    {
      LogMonitor(currentDuration, pending, running)
    }

    function State(): HelperState
      reads this
    {
      HelperState(core, Monitor(), calls, notices)
    }

    predicate Valid()
      reads this
    {
      MonitorValid(Monitor())
    }

    constructor ()
      ensures Valid()
      ensures core.None? && !running && currentDuration.None? && !pending
      ensures observers == Observers(false, false, false) && calls == [] && notices == []
    {
      core := None;
      running := false;
      currentDuration := None;
      pending := false;
      observers := Observers(false, false, false);
      calls := [];
      notices := [];
    }

    /** `initialzeFFmpeg`: dispose of a previous engine (keeping it when `exit()`
        throws), then load a new one. */
    method Initialize(boot: Boot, exitThrows: bool) returns (r: Result<(), InitError>)
      modifies this
      ensures r.Ok? <==> boot.Loads?
      ensures boot == CoreAbsent ==> r == Err(CoreNotLoaded)
      ensures boot == LoadFails ==> r == Err(LoadFailed)
      ensures boot.Loads? ==> core == Some(Engine(boot.fs))
      ensures !boot.Loads? ==> core == if exitThrows then old(core) else None
      ensures Monitor() == old(Monitor()) && observers == old(observers)
      ensures calls == old(calls) && notices == old(notices)
    {
      if core.Some? && !exitThrows {
        core := None;
      }
      match boot
      case CoreAbsent =>
        r := Err(CoreNotLoaded);
      case LoadFails =>
        r := Err(LoadFailed);
      case Loads(fs) =>
        core := Some(Engine(fs));
        r := Ok(());
    }

    /** `getInstance`: a fresh helper, initialised; a failed load rejects. */
    static method GetInstance(boot: Boot) returns (r: Result<FFmpegHelper, InitError>)
      ensures r.Ok? <==> boot.Loads?
      ensures r.Ok? ==> fresh(r.value) && r.value.Valid()
      ensures r.Ok? ==> r.value.core == Some(Engine(boot.fs))
      ensures r.Ok? ==> !r.value.running && !r.value.pending && r.value.currentDuration.None?
    {
      var h := new FFmpegHelper();
      var init := h.Initialize(boot, false);
      if init.Ok? {
        r := Ok(h);
      } else {
        r := Err(init.error);
      }
    }

    method DetectDuration(message: string) returns (seconds: Option<real>)
      requires Valid()
      modifies this
      ensures seconds == DurationIn(message)
      ensures var r := DurationStep(old(Monitor()), message, observers);
        Monitor() == r.monitor && notices == old(notices) + r.notices
      ensures core == old(core) && observers == old(observers) && calls == old(calls)
    {
      seconds := DurationIn(message);
      if seconds.Some? {
        if observers.onDuration {
          notices := notices + [DurationReported(seconds.value)];
        }
        currentDuration := seconds;
      }
    }

    method DetectProgress(message: string) returns (elapsed: Option<real>)
      requires Valid()
      modifies this
      ensures elapsed == ElapsedIn(message)
      ensures var r := ProgressStep(old(Monitor()), message, observers);
        Monitor() == r.monitor && notices == old(notices) + r.notices
      ensures core == old(core) && observers == old(observers) && calls == old(calls)
    {
      elapsed := ElapsedIn(message);
      if elapsed.Some? {
        var ratio := ProgressValueFor(elapsed.value, currentDuration);
        if observers.onProgress {
          notices := notices + [ProgressReported(ratio)];
        }
      }
    }

    method DetectCompletion(message: string)
      requires Valid()
      modifies this
      ensures var r := CompletionStep(old(Monitor()), message, observers);
        Monitor() == r.monitor && notices == old(notices) + r.notices
      ensures core == old(core) && observers == old(observers) && calls == old(calls)
    {
      if IsCompletionMarker(message) && pending {
        notices := notices + [RunResolved(true)];
        pending := false;
        running := false;
        currentDuration := None;
        if observers.onProgress {
          notices := notices + [ProgressReported(Percent(100))];
        }
      }
    }

    /** `handleFFmpegOutput`, installed as both `print` and `printErr`. */
    method HandleFFmpegOutput(line: LogLine)
      requires Valid()
      modifies this
      ensures Valid()
      ensures var r := Step(old(Monitor()), line, observers);
        Monitor() == r.monitor && notices == old(notices) + r.notices
      ensures core == old(core) && observers == old(observers) && calls == old(calls)
    {
      ghost var m0, n0 := Monitor(), notices;
      ghost var logged := if observers.onLog then [Logged(line.stream, line.text)] else [];
      if observers.onLog {
        notices := notices + [Logged(line.stream, line.text)];
      }
      ghost var nl := notices;
      ghost var r1 := DurationStep(m0, line.text, observers);
      var _ := DetectDuration(line.text);
      ghost var n1 := notices;
      ghost var r2 := ProgressStep(r1.monitor, line.text, observers);
      var _ := DetectProgress(line.text);
      ghost var n2 := notices;
      ghost var r3 := CompletionStep(r2.monitor, line.text, observers);
      DetectCompletion(line.text);
      AppendInTurn(n0, logged, r1.notices, r2.notices, r3.notices, nl, n1, n2, notices);
    }

    /** The lines one `callMain` prints, each handed to `handleFFmpegOutput`. */
    method HandleLines(lines: seq<LogLine>)
      requires Valid()
      modifies this
      ensures Valid()
      ensures var fed := Feed(old(Monitor()), lines, observers);
        Monitor() == fed.monitor && notices == old(notices) + fed.notices
      ensures core == old(core) && observers == old(observers) && calls == old(calls)
    {
      ghost var started := Monitor();
      var i := 0;
      while i < |lines|
        invariant 0 <= i <= |lines|
        invariant Valid()
        invariant var fed := Feed(started, lines[..i], observers);
          Monitor() == fed.monitor && notices == old(notices) + fed.notices
        invariant core == old(core) && observers == old(observers) && calls == old(calls)
      {
        ghost var before := Feed(started, lines[..i], observers);
        HandleFFmpegOutput(lines[i]);
        FeedOneMore(started, lines, i, observers);
        AppendTwo(old(notices), before.notices, Step(before.monitor, lines[i], observers).notices);
        i := i + 1;
      }
      assert lines[..i] == lines;
    }

    /** `run`, with the engine's behaviour and that of `exit()` as parameters. */
    method Run(args: seq<string>, engine: EngineRun, exitThrows: bool) returns (outcome: RunOutcome)
      requires Valid()
      modifies this
      ensures Valid()
      ensures RunReport(outcome, State()) == RunEffect(old(State()), observers, args, engine, exitThrows)
      ensures observers == old(observers)
    {
      if running {
        return Rejected(AlreadyRunning);
      }
      running := true;
      pending := true;
      if core.None? {
        running := false;
        return Rejected(CoreMissing);
      }
      calls := calls + [FullArgs(args)];
      HandleLines(engine.log);
      core := Some(Engine(engine.fsAfter));
      if pending && !engine.throws {
        return Unsettled;
      }
      outcome := if !pending then Resolved(true) else Rejected(EngineThrew);
      running := false;
      if !exitThrows {
        core := None;
      }
    }

    /** `FS()`: the engine filesystem, or `FFmpeg not initialized`. */
    function FileSystemView(): (r: Result<FileSystem, HelperError>)
      reads this
      ensures r.Err? <==> core.None?
      ensures r.Err? ==> r.error == NotInitialized
      ensures r.Ok? ==> r.value == core.value.fs
    {
      if core.None? then Err(NotInitialized) else Ok(core.value.fs)
    }

    /** `writeFile`: create each directory prefix, ignoring failures, then write.
        Returns the `mkdir` targets attempted, in order. */
    method WriteFile(path: string, data: seq<Byte>) returns (attempts: seq<string>, r: Result<(), HelperError>)
      modifies this
      ensures old(core).None? ==> attempts == [] && r == Err(NotInitialized) && core.None?
      ensures old(core).Some? ==> attempts == MkdirTargets(path)
      ensures old(core).Some? ==>
        (var prepared := MkdirAll(old(core).value.fs, attempts);
         match WriteData(prepared, path, data)
         case Ok(written) => r == Ok(()) && core == Some(Engine(written))
         case Err(code) => r == Err(Fs(code)) && core == Some(Engine(prepared)))
      ensures r.Ok? ==> ReadFile(path) == Ok(data)
      ensures Monitor() == old(Monitor()) && observers == old(observers)
      ensures calls == old(calls) && notices == old(notices)
    {
      attempts := [];
      if core.None? {
        return attempts, Err(NotInitialized);
      }
      var initial := core.value.fs;
      var dirs := DirectoryComponents(path);
      var currentPath := "";
      var i := 0;
      while i < |dirs|
        invariant 0 <= i <= |dirs|
        invariant Chain("", dirs) == attempts + Chain(currentPath, dirs[i..])
        invariant core == Some(Engine(MkdirAll(initial, attempts)))
        invariant Monitor() == old(Monitor()) && observers == old(observers)
        invariant calls == old(calls) && notices == old(notices)
      {
        ChainAdvance(dirs, i, attempts, currentPath);
        if dirs[i] != "" {
          currentPath := currentPath + "/" + dirs[i];
          MkdirAllOneMore(initial, attempts, currentPath);
          attempts := attempts + [currentPath];
          match Mkdir(core.value.fs, currentPath)
          case Ok(made) =>
            core := Some(Engine(made));
          case Err(_) =>
        }
        i := i + 1;
      }
      match WriteData(core.value.fs, path, data)
      case Ok(written) =>
        core := Some(Engine(written));
        r := Ok(());
      case Err(code) =>
        r := Err(Fs(code));
    }

    /** `readFile`: the stored bytes, or the error `FS()` or the engine raises. */
    function ReadFile(path: string): (r: Result<seq<Byte>, HelperError>)
      reads this
      ensures core.None? ==> r == Err(NotInitialized)
      ensures r.Ok? <==>
        core.Some? && path != [] && !IsDir(core.value.fs, Resolve(path)) && Resolve(path) in core.value.fs.files
      ensures r.Ok? ==> r.value == core.value.fs.files[Resolve(path)]
      ensures core.Some? && r.Err? ==> r.error == Fs(ReadData(core.value.fs, path).error)
    {
      match core
      case None => Err(NotInitialized)
      case Some(e) =>
        match ReadData(e.fs, path)
        case Ok(bytes) => Ok(bytes)
        case Err(code) => Err(Fs(code))
    }

    /** `deleteFile`: unlink, swallowing every error. */
    method DeleteFile(path: string)
      modifies this
      ensures core == (if old(core).Some? && Unlink(old(core).value.fs, path).Ok?
                       then Some(Engine(Unlink(old(core).value.fs, path).value)) else old(core))
      ensures ReadFile(path).Err?
      ensures Monitor() == old(Monitor()) && observers == old(observers)
      ensures calls == old(calls) && notices == old(notices)
    {
      if core.Some? {
        match Unlink(core.value.fs, path)
        case Ok(after) =>
          core := Some(Engine(after));
        case Err(_) =>
      }
    }
  }
}
