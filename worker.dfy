/** The execution-side worker: `compile` stages the edited files into a fresh
    in-memory volume under `/app`, runs the compiler program with a fixed argument
    vector, waits for the exit code it reports through `go.exit`, and answers
    either with the `/app/dist` subtree or with the captured diagnostics. */
module CompileWorker {
  import opened Wrappers
  import opened Text
  import opened Decimal
  import opened MemVolume

  /** What the compiler program does while `go.run` is in progress: file-system
      calls on the volume, and calls of `go.exit` with an exit code. */
  datatype Event = Fs(op: FsOp) | Exit(code: int)

  /** The compiler program, seen from outside: the events it produces when it is
      started on a volume with an argument vector. */
  type Program = (Entries, seq<string>) -> seq<Event>

  /** `CompileResult`: the output map on success, the error text on failure, and
      the elapsed time in every case. */
  datatype CompileResult = CompileResult(
    output: Option<map<string, Option<string>>>,
    error: Option<string>,
    time: real)

  /** How a call of `compile` ends: its promise resolves with a result, rejects
      (a key cannot be staged, or a standard-stream file cannot be read), or never
      settles (the program never calls `go.exit`). */
  datatype Reply = Returned(result: CompileResult) | Rejected | Pending

  const AppRoot := "/app"
  const DistRoot := "/app/dist"
  const Argv: seq<string> := ["js", "tsc"]
  const ExitCodePrefix := "Exit code: "

  /** A new WasmFs with `files` written under `/app`, and whether every key went in. */
  function Staged(files: seq<(string, string)>): Loaded {
    StageAll(FreshEntries(), files, AppRoot)
  }

  /** Every name is relative, as the editor's file names are, so it is staged at `/app/name`. */
  predicate RelativeNames(files: seq<(string, string)>) {
    forall i :: 0 <= i < |files| ==> !StartsWith(files[i].0, "/")
  }

  /** No name is a directory of another, as `dist` is of `dist/x`. */
  predicate NoNameAboveAnother(files: seq<(string, string)>) {
    forall i, j :: 0 <= i < |files| && 0 <= j < |files| ==> !StartsWith(files[j].0, files[i].0 + "/")
  }

  /** The volume after the program's file-system calls, applied in order. */
  function RunEvents(e: Entries, events: seq<Event>): Entries {
    if events == [] then e
    else
      var before := RunEvents(e, events[..|events| - 1]);
      match events[|events| - 1]
      case Fs(op) => ApplyOp(before, op)
      case Exit(_) => before
  }

  /** The value the exit promise holds after the events: the first code passed to
      `go.exit`, since a promise resolves once and ignores later calls. */
  function FirstExit(events: seq<Event>): Option<int> {
    if events == [] then None
    else
      var earlier := FirstExit(events[..|events| - 1]);
      if earlier.None? && events[|events| - 1].Exit? then Some(events[|events| - 1].code) else earlier
  }

  /** The error text of a failed compile. */
  function ErrorText(code: int, stdout: string, stderr: string): string {
    ExitCodePrefix + IntToString(code) + "\n" + stdout + "\n\n" + stderr
  }

  /** The answer once the program has run: branch on the settled exit code and
      read the standard streams and `/app/dist` out of the final volume. */
  function Answer(exit: Option<int>, final: Entries, elapsed: real): Reply {
    match exit
    case None => Pending
    case Some(code) =>
      match (ReadText(final, StdoutPath), ReadText(final, StderrPath))
      case (Some(stdout), Some(stderr)) =>
        if code != 0 then Returned(CompileResult(None, Some(ErrorText(code, stdout, stderr)), elapsed))
        else Returned(CompileResult(Some(Extract(final, DistRoot)), None, elapsed))
      case _ => Rejected
  }

  /** What one call of `compile(files)` answers, given the program and the
      elapsed time; it depends on nothing else. A key that `fromJSON` cannot
      write rejects the call before the program starts. */
  function CompileSpec(files: seq<(string, string)>, run: Program, elapsed: real): Reply {
    var staged := Staged(files);
    if !staged.ok then Rejected
    else
      var events := run(staged.volume, Argv);
      Answer(FirstExit(events), RunEvents(staged.volume, events), elapsed)
  }

  /** The resolver half of `Promise.withResolvers<number>()`: settles once. */
  class ExitSignal {
    var settled: Option<int>

    constructor ()
      ensures settled == None
    {
      settled := None;
    }

    method Resolve(code: int)
      modifies this
      ensures settled == if old(settled).None? then Some(code) else old(settled)
    {
      if settled.None? {
        settled := Some(code);
      }
    }
  }

  /** The shared `go` runtime object, whose `argv` and `exit` fields each compile overwrites. */
  class Go {
    var argv: seq<string>
    var exit: ExitSignal?

    constructor ()
      ensures argv == [] && exit == null
    {
      argv := [];
      exit := null;
    }
  }

  class Worker {
    const go: Go
    /** `globalThis.fs`, the volume the runtime's file calls go to. */
    var fs: Volume?

    constructor ()
      ensures fresh(go) && fs == null
    {
      go := new Go();
      fs := null;
    }

    /** `compile(filesJSON)`, with the parsed object given as its key/value pairs in key order. */
    method Compile(files: seq<(string, string)>, run: Program, elapsed: real) returns (reply: Reply)
      modifies this, go
      ensures reply == CompileSpec(files, run, elapsed)
      ensures fs != null && fresh(fs) && fs.Valid()
      ensures !Staged(files).ok ==>
                fs.entries == Staged(files).volume && go.argv == old(go.argv) && go.exit == old(go.exit)
      ensures Staged(files).ok ==>
                var events := run(Staged(files).volume, Argv);
                && fs.entries == RunEvents(Staged(files).volume, events)
                && go.argv == Argv
                && go.exit != null && fresh(go.exit)
                && go.exit.settled == FirstExit(events)
    {
      var wasmFs := new Volume();
      fs := wasmFs;
      var loaded := wasmFs.FromJSON(files, AppRoot);
      if !loaded {
        return Rejected;
      }
      ghost var staged := wasmFs.entries;

      var signal := new ExitSignal();
      go.exit := signal;
      go.argv := Argv;
      var events := run(wasmFs.entries, go.argv);

      var i := 0;
      while i < |events|
        invariant 0 <= i <= |events|
        invariant fs == wasmFs && go.exit == signal && go.argv == Argv
        invariant wasmFs.entries == RunEvents(staged, events[..i]) && wasmFs.Valid()
        invariant signal.settled == FirstExit(events[..i])
      {
        assert events[..i + 1][..i] == events[..i];
        match events[i] {
          case Fs(op) =>
            wasmFs.Apply(op);
          case Exit(code) =>
            go.exit.Resolve(code);
        }
        i := i + 1;
      }
      assert events[..i] == events;
      ghost var final := wasmFs.entries;

      if signal.settled.None? {
        return Pending;
      }
      var code := signal.settled.value;
      var stdout := wasmFs.ReadFileSync(StdoutPath);
      var stderr := wasmFs.ReadFileSync(StderrPath);
      if stdout.None? || stderr.None? {
        return Rejected;
      }
      if code != 0 {
        return Returned(CompileResult(None, Some(ErrorText(code, stdout.value, stderr.value)), elapsed));
      }
      var output := wasmFs.ToJSON(DistRoot);
      assert output == Extract(final, DistRoot) by {
        forall k ensures k in output <==> k in Extract(final, DistRoot) {
          ExtractCharacterised(final, DistRoot, k);
        }
        forall k | k in output ensures output[k] == Extract(final, DistRoot)[k] {
          ExtractCharacterised(final, DistRoot, k);
        }
      }
      reply := Returned(CompileResult(Some(output), None, elapsed));
    }
  }

  /** The paths of a new WasmFs all lie in `/dev`, away from anything staged under `/app`. */
  lemma FreshAwayFromApp(q: string, name: string)
    requires q in FreshEntries()
    ensures q != AppRoot + "/" + name && q !in Ancestors(AppRoot + "/" + name)
    ensures !StartsWith(q, AppRoot + "/")
  {
    var p := AppRoot + "/" + name;
    assert q[1] == 'd' && p[1] == 'a';
    AncestorsIff(p, q);
  }

  /** The standard-stream files and `/dev` lie outside `/app/dist`, so they never reach `output`. */
  lemma StreamsOutsideDist(p: string)
    requires p in FreshEntries()
    ensures !StartsWith(p, DistRoot + "/")
  {
    assert p[1] == 'd';
    assert (DistRoot + "/")[1] == 'a';
  }

  lemma AppJoinInjective(a: string, b: string)
    requires AppRoot + "/" + a == AppRoot + "/" + b
    ensures a == b
  {
    assert a == (AppRoot + "/" + a)[|AppRoot| + 1..];
    assert b == (AppRoot + "/" + b)[|AppRoot| + 1..];
  }

  /** Staged at `/app`, one name lies in the directory of another exactly when the
      other name followed by a slash starts it. */
  lemma AppAncestorIff(a: string, b: string)
    ensures AppRoot + "/" + a in Ancestors(AppRoot + "/" + b) <==> StartsWith(b, a + "/")
  {
    AncestorsIff(AppRoot + "/" + b, AppRoot + "/" + a);
    assert AppRoot + "/" + b == "/app/" + b;
    assert AppRoot + "/" + a + "/" == "/app/" + (a + "/");
    StartsWithCancel("/app/", b, a + "/");
  }

  /** The volume a program starts on holds exactly `/dev`, the three standard-stream
      files, the resolved inputs and the directories above them, so nothing from an
      earlier call is present. */
  lemma StagedVolumeKeys(files: seq<(string, string)>, p: string)
    requires Staged(files).ok
    ensures p in Staged(files).volume <==>
              p in {DevPath, StdinPath, StdoutPath, StderrPath} ||
              exists i :: 0 <= i < |files| &&
                (p == Resolve(AppRoot, files[i].0) || p in Ancestors(Resolve(AppRoot, files[i].0)))
  {
    StageAllKeys(FreshEntries(), files, AppRoot, p);
  }

  /** With relative names, staging goes through exactly when no name is a directory
      of another; otherwise `fromJSON` throws and the call is rejected. */
  lemma StagingSucceedsIff(files: seq<(string, string)>)
    requires RelativeNames(files)
    ensures Staged(files).ok <==> NoNameAboveAnother(files)
  {
    forall i, j | 0 <= i < |files| && 0 <= j < |files|
      ensures Resolve(AppRoot, files[i].0) in Ancestors(Resolve(AppRoot, files[j].0))
              <==> StartsWith(files[j].0, files[i].0 + "/")
    {
      AppAncestorIff(files[i].0, files[j].0);
    }
    if Staged(files).ok {
      FreshWellFormed();
      forall i, j | 0 <= i < |files| && 0 <= j < |files| ensures !StartsWith(files[j].0, files[i].0 + "/") {
        StageAllNoFileAboveFile(FreshEntries(), files, AppRoot, i, j);
      }
    }
    if NoNameAboveAnother(files) {
      forall i | 0 <= i < |files| ensures CanHoldFile(FreshEntries(), Resolve(AppRoot, files[i].0)) {
        var p := Resolve(AppRoot, files[i].0);
        forall q | q in FreshEntries() ensures q != p && q !in Ancestors(p) {
          FreshAwayFromApp(q, files[i].0);
        }
      }
      StageAllSucceeds(FreshEntries(), files, AppRoot);
    }
  }

  /** `dist/x` staged next to `dist` cannot go in: `/app/dist` would be both a file
      and a directory, so `fromJSON` throws and `compile` rejects, whatever the program. */
  lemma DirectoryClashRejected(run: Program, elapsed: real)
    ensures CompileSpec([("dist/x", "a"), ("dist", "b")], run, elapsed) == Rejected
  {
    var files := [("dist/x", "a"), ("dist", "b")];
    assert StartsWith(files[0].0, files[1].0 + "/");
    assert files[0].0[0] == 'd' && files[1].0[0] == 'd';
    StagingSucceedsIff(files);
  }

  /** With relative, distinct names none of which is a directory of another (as an
      editor's file list has them), every input `name ↦ content` is the file
      `/app/name` holding `content`. */
  lemma StagedInputAtApp(files: seq<(string, string)>, i: nat)
    requires i < |files|
    requires RelativeNames(files) && NoNameAboveAnother(files)
    requires forall j, k :: 0 <= j < k < |files| ==> files[j].0 != files[k].0
    ensures Staged(files).ok
    ensures AppRoot + "/" + files[i].0 in Staged(files).volume
    ensures Staged(files).volume[AppRoot + "/" + files[i].0] == File(files[i].1)
  {
    StagingSucceedsIff(files);
    forall j | i < j < |files| ensures Resolve(AppRoot, files[j].0) != Resolve(AppRoot, files[i].0) {
      if Resolve(AppRoot, files[j].0) == Resolve(AppRoot, files[i].0) {
        AppJoinInjective(files[j].0, files[i].0);
      }
    }
    StageAllEntry(FreshEntries(), files, AppRoot, i);
  }

  /** The code the result branches on is the first value passed to `go.exit`:
      `FirstExit` holds `c` exactly when some event is `Exit(c)` and no exit comes before it. */
  lemma {:induction false} FirstExitIsFirstCall(events: seq<Event>, c: int)
    ensures FirstExit(events) == Some(c) <==>
              exists i :: 0 <= i < |events| && events[i] == Exit(c) &&
                          forall j :: 0 <= j < i ==> !events[j].Exit?
  {
    if events != [] {
      var init := events[..|events| - 1];
      FirstExitIsFirstCall(init, c);
      FirstExitNoneIffNoExit(init);
      if FirstExit(events) == Some(c) {
        if FirstExit(init) == Some(c) {
          var i :| 0 <= i < |init| && init[i] == Exit(c) && forall j :: 0 <= j < i ==> !init[j].Exit?;
          assert events[i] == Exit(c) && forall j :: 0 <= j < i ==> !events[j].Exit? && events[j] == init[j];
        } else {
          var i := |events| - 1;
          assert forall j :: 0 <= j < i ==> !events[j].Exit? by {
            forall j | 0 <= j < i ensures !events[j].Exit? {
              assert events[j] == init[j];
            }
          }
        }
      }
      if exists i :: 0 <= i < |events| && events[i] == Exit(c) && forall j :: 0 <= j < i ==> !events[j].Exit? {
        var i :| 0 <= i < |events| && events[i] == Exit(c) && forall j :: 0 <= j < i ==> !events[j].Exit?;
        if i < |init| {
          assert init[i] == Exit(c) && forall j :: 0 <= j < i ==> init[j] == events[j];
        } else {
          assert forall j :: 0 <= j < |init| ==> !init[j].Exit? by {
            forall j | 0 <= j < |init| ensures !init[j].Exit? {
              assert init[j] == events[j];
            }
          }
        }
      }
    }
  }

  /** The exit promise stays unsettled exactly when the program never calls `go.exit`. */
  lemma {:induction false} FirstExitNoneIffNoExit(events: seq<Event>)
    ensures FirstExit(events).None? <==> forall j :: 0 <= j < |events| ==> !events[j].Exit?
  {
    if events != [] {
      var init := events[..|events| - 1];
      FirstExitNoneIffNoExit(init);
      assert forall j :: 0 <= j < |init| ==> init[j] == events[j];
    }
  }

  /** Every result carries the elapsed time and exactly one of `output` and
      `error`; `error` is set exactly when the first exit code is not zero. */
  lemma ResultShape(files: seq<(string, string)>, run: Program, elapsed: real)
    requires CompileSpec(files, run, elapsed).Returned?
    ensures var r := CompileSpec(files, run, elapsed).result;
            && r.time == elapsed
            && (r.output.Some? <==> r.error.None?)
            && Staged(files).ok
            && FirstExit(run(Staged(files).volume, Argv)).Some?
            && (r.error.Some? <==> FirstExit(run(Staged(files).volume, Argv)) != Some(0))
  {
  }

  /** Reads the exit code back out of an error text: the integer between
      `ExitCodePrefix` and the first line break. */
  function ErrorCode(error: string): Option<int> {
    if StartsWith(error, ExitCodePrefix) then
      var rest := error[|ExitCodePrefix|..];
      ParseInt(rest[..IndexOf(rest, '\n')])
    else None
  }

  /** The error text of a non-zero exit names the code on its first line, so the
      code can be read back from it. */
  lemma ErrorTextCarriesCode(code: int, stdout: string, stderr: string)
    ensures StartsWith(ErrorText(code, stdout, stderr), ExitCodePrefix)
    ensures ErrorCode(ErrorText(code, stdout, stderr)) == Some(code)
  {
    var digits := IntToString(code);
    var text := ErrorText(code, stdout, stderr);
    assert text == ExitCodePrefix + (digits + "\n" + (stdout + "\n\n" + stderr));
    assert text[..|ExitCodePrefix|] == ExitCodePrefix;
    var rest := text[|ExitCodePrefix|..];
    assert rest == digits + ['\n'] + (stdout + "\n\n" + stderr);
    IntToStringHasNo(code, '\n');
    IndexOfAfter(digits, '\n', stdout + "\n\n" + stderr);
    assert rest[..IndexOf(rest, '\n')] == digits;
    IntRoundTrip(code);
  }

  /** On a zero exit, `output` holds exactly the files and empty directories
      found under `/app/dist` after the run, keyed relative to `/app/dist`. */
  lemma ZeroExitOutputIsDist(files: seq<(string, string)>, run: Program, elapsed: real, k: string)
    requires CompileSpec(files, run, elapsed).Returned?
    requires CompileSpec(files, run, elapsed).result.output.Some?
    ensures var final := RunEvents(Staged(files).volume, run(Staged(files).volume, Argv));
            var out := CompileSpec(files, run, elapsed).result.output.value;
            && (k in out <==> DistRoot + "/" + k in final && Reported(final, DistRoot, DistRoot + "/" + k))
            && (k in out ==> out[k] == NodeValue(final[DistRoot + "/" + k]))
  {
    ExtractCharacterised(RunEvents(Staged(files).volume, run(Staged(files).volume, Argv)), DistRoot, k);
  }

  /** Every path a run's volume holds was there before or is named by one of its file-system calls. */
  lemma {:induction false} RunEventsKeys(e: Entries, events: seq<Event>, p: string)
    requires p in RunEvents(e, events)
    ensures p in e || exists i :: 0 <= i < |events| && events[i].Fs? && events[i].op.path == p
  {
    if events != [] {
      var init := events[..|events| - 1];
      var before := RunEvents(e, init);
      if p in before {
        RunEventsKeys(e, init, p);
        if exists i :: 0 <= i < |init| && init[i].Fs? && init[i].op.path == p {
          var i :| 0 <= i < |init| && init[i].Fs? && init[i].op.path == p;
          assert events[i] == init[i];
        }
      }
    }
  }

  /** Every call of the program keeps the volume well formed. */
  lemma {:induction false} RunEventsWellFormed(e: Entries, events: seq<Event>)
    requires WellFormed(e)
    ensures WellFormed(RunEvents(e, events))
  {
    if events != [] {
      RunEventsWellFormed(e, events[..|events| - 1]);
      if events[|events| - 1].Fs? {
        ApplyOpWellFormed(RunEvents(e, events[..|events| - 1]), events[|events| - 1].op);
      }
    }
  }

  /** Neither the staged inputs nor the directories made for them lie in
      `/app/dist` when no input resolves there. */
  lemma StagedOutsideDist(files: seq<(string, string)>, p: string)
    requires Staged(files).ok && p in Staged(files).volume
    requires forall i :: 0 <= i < |files| ==> !StartsWith(Resolve(AppRoot, files[i].0), DistRoot + "/")
    ensures !StartsWith(p, DistRoot + "/")
  {
    StagedVolumeKeys(files, p);
    if p in FreshEntries() {
      StreamsOutsideDist(p);
    } else {
      var i :| 0 <= i < |files| &&
                (p == Resolve(AppRoot, files[i].0) || p in Ancestors(Resolve(AppRoot, files[i].0)));
      AncestorsIff(Resolve(AppRoot, files[i].0), p);
      if p != Resolve(AppRoot, files[i].0) && StartsWith(p, DistRoot + "/") {
        StartsWithTrans(Resolve(AppRoot, files[i].0), p, DistRoot);
      }
    }
  }

  /** Sources staged outside `/app/dist` never show in `output`: when no input
      resolves below `/app/dist` and the program touches nothing there, a zero
      exit answers with an empty map. */
  lemma SourcesOutsideDistNotInOutput(files: seq<(string, string)>, run: Program, elapsed: real)
    requires forall i :: 0 <= i < |files| ==> !StartsWith(Resolve(AppRoot, files[i].0), DistRoot + "/")
    requires var events := run(Staged(files).volume, Argv);
             forall i :: 0 <= i < |events| && events[i].Fs? ==> !StartsWith(events[i].op.path, DistRoot + "/")
    requires CompileSpec(files, run, elapsed).Returned?
    requires CompileSpec(files, run, elapsed).result.output.Some?
    ensures CompileSpec(files, run, elapsed).result.output.value == map[]
  {
    var staged := Staged(files).volume;
    var events := run(staged, Argv);
    var final := RunEvents(staged, events);
    forall p | p in final ensures !StartsWith(p, DistRoot + "/") {
      RunEventsKeys(staged, events, p);
      if p in staged {
        StagedOutsideDist(files, p);
      }
    }
    ExtractEmpty(final, DistRoot);
  }

  /** A program that makes `/app` and `/app/dist` a level at a time, writes the one
      file `/app/dist/rel` and exits, as a compiler on success does. */
  function EmitThenExit(rel: string, text: string, code: int): Program {
    (e: Entries, argv: seq<string>) =>
      [Fs(MakeDir(AppRoot)), Fs(MakeDir(DistRoot)), Fs(WriteFile(DistRoot + "/" + rel, text)), Exit(code)]
  }

  /** What the staged volume holds at `/app` and `/app/dist` when no input is `dist`
      or lies below it: `/app` is a directory if it is there, `/app/dist` is absent
      and nothing lies below it. */
  lemma StagedAroundDist(files: seq<(string, string)>)
    requires RelativeNames(files) && Staged(files).ok
    requires forall i :: 0 <= i < |files| ==> files[i].0 != "dist" && !StartsWith(files[i].0, "dist/")
    ensures AppRoot !in Staged(files).volume || Staged(files).volume[AppRoot].Dir?
    ensures DistRoot !in Staged(files).volume
    ensures forall p :: p in Staged(files).volume ==> !StartsWith(p, DistRoot + "/")
    ensures StdoutPath in Staged(files).volume && Staged(files).volume[StdoutPath].File?
    ensures StderrPath in Staged(files).volume && Staged(files).volume[StderrPath].File?
  {
    var staged := Staged(files).volume;
    assert DistRoot == AppRoot + "/" + "dist";
    assert DistRoot + "/" == "/app/" + "dist/";
    forall i | 0 <= i < |files| ensures !StartsWith(Resolve(AppRoot, files[i].0), DistRoot + "/") {
      assert Resolve(AppRoot, files[i].0) == "/app/" + files[i].0;
      StartsWithCancel("/app/", files[i].0, "dist/");
    }
    forall p | p in staged ensures !StartsWith(p, DistRoot + "/") {
      StagedOutsideDist(files, p);
    }
    StageAllFileOrigin(FreshEntries(), files, AppRoot, AppRoot);
    StagedVolumeKeys(files, DistRoot);
    if DistRoot in staged {
      var i :| 0 <= i < |files| &&
                (DistRoot == Resolve(AppRoot, files[i].0) || DistRoot in Ancestors(Resolve(AppRoot, files[i].0)));
      AppAncestorIff("dist", files[i].0);
      if DistRoot == Resolve(AppRoot, files[i].0) {
        AppJoinInjective("dist", files[i].0);
      }
    }
    StageAllKeepsFiles(FreshEntries(), files, AppRoot, StdoutPath);
    StageAllKeepsFiles(FreshEntries(), files, AppRoot, StderrPath);
  }

  /** The program's one exit call settles the exit promise with its code. */
  lemma EmitThenExitCode(rel: string, text: string, code: int, e: Entries, argv: seq<string>)
    ensures FirstExit(EmitThenExit(rel, text, code)(e, argv)) == Some(code)
  {
    var events := EmitThenExit(rel, text, code)(e, argv);
    FirstExitNoneIffNoExit(events[..3]);
  }

  /** Three file-system calls and an exit, run in order. */
  lemma RunThreeCallsThenExit(e: Entries, a: FsOp, b: FsOp, c: FsOp, code: int)
    ensures RunEvents(e, [Fs(a), Fs(b), Fs(c), Exit(code)]) == ApplyOp(ApplyOp(ApplyOp(e, a), b), c)
  {
    var events := [Fs(a), Fs(b), Fs(c), Exit(code)];
    assert events[..3] == [Fs(a), Fs(b), Fs(c)];
    assert events[..3][..2] == [Fs(a), Fs(b)];
    assert events[..3][..2][..1] == [Fs(a)];
    assert RunEvents(e, [Fs(a)]) == ApplyOp(e, a);
    assert RunEvents(e, [Fs(a), Fs(b)]) == ApplyOp(ApplyOp(e, a), b);
  }

  /** `mkdir /app` goes through where nothing is at `/app`, and is refused, changing
      nothing, where the directory is already there. */
  lemma MakeAppDir(e: Entries)
    requires AppRoot !in e || e[AppRoot].Dir?
    ensures var e1 := ApplyOp(e, MakeDir(AppRoot));
            && e1 == (if AppRoot in e then e else e[AppRoot := Dir])
            && AppRoot in e1 && e1[AppRoot].Dir?
  {
    AncestorsTop("app");
    assert AppRoot == "/" + "app";
  }

  /** `mkdir /app/dist` goes through once `/app` is a directory and nothing is at `/app/dist`. */
  lemma MakeDistDir(e: Entries)
    requires AppRoot in e && e[AppRoot].Dir? && DistRoot !in e
    ensures ApplyOp(e, MakeDir(DistRoot)) == e[DistRoot := Dir]
  {
    AncestorsTop("app");
    assert AppRoot == "/" + "app";
    AncestorsChild(AppRoot, "dist");
    assert DistRoot == AppRoot + "/" + "dist";
  }

  /** Writing `/app/dist/rel` goes through once both directories exist and nothing is at the path. */
  lemma WriteDistFile(e: Entries, rel: string, text: string)
    requires AppRoot in e && e[AppRoot].Dir? && DistRoot in e && e[DistRoot].Dir?
    requires DistRoot + "/" + rel !in e && '/' !in rel
    ensures ApplyOp(e, WriteFile(DistRoot + "/" + rel, text)) == e[DistRoot + "/" + rel := File(text)]
  {
    AncestorsTop("app");
    assert AppRoot == "/" + "app";
    AncestorsChild(AppRoot, "dist");
    assert DistRoot == AppRoot + "/" + "dist";
    AncestorsChild(DistRoot, rel);
  }

  /** On a volume where `/app` is a directory or absent and nothing is at or below
      `/app/dist`, the program's calls all go through: they make the two directories
      and the file, which is then all there is below `/app/dist`. */
  lemma EmitThenExitRun(e0: Entries, rel: string, text: string, argv: seq<string>)
    requires AppRoot !in e0 || e0[AppRoot].Dir?
    requires DistRoot !in e0 && forall p :: p in e0 ==> !StartsWith(p, DistRoot + "/")
    requires '/' !in rel
    ensures var e2 := (if AppRoot in e0 then e0 else e0[AppRoot := Dir])[DistRoot := Dir];
            var final := RunEvents(e0, EmitThenExit(rel, text, 0)(e0, argv));
            && final == e2[DistRoot + "/" + rel := File(text)]
            && Extract(final, DistRoot) == map[rel := Some(text)]
  {
    var target := DistRoot + "/" + rel;
    RunThreeCallsThenExit(e0, MakeDir(AppRoot), MakeDir(DistRoot), WriteFile(target, text), 0);
    MakeAppDir(e0);
    var e1 := ApplyOp(e0, MakeDir(AppRoot));
    MakeDistDir(e1);
    var e2 := e1[DistRoot := Dir];
    assert StartsWith(target, DistRoot + "/") by {
      assert target[..|DistRoot| + 1] == DistRoot + "/";
    }
    WriteDistFile(e2, rel, text);
    ExtractSingle(e2, DistRoot, rel, text);
  }

  /** A zero exit with both streams readable answers with the `/app/dist` subtree. */
  lemma ZeroExitAnswer(final: Entries, elapsed: real)
    requires StdoutPath in final && final[StdoutPath].File?
    requires StderrPath in final && final[StderrPath].File?
    ensures Answer(Some(0), final, elapsed) == Returned(CompileResult(Some(Extract(final, DistRoot)), None, elapsed))
  {
  }

  /** When no input is `dist` or lies below it, a compiler that makes `/app/dist`,
      writes the one file `/app/dist/rel` and exits with 0 gets exactly that file
      back, keyed `rel`. */
  lemma EmittedFileIsTheOutput(files: seq<(string, string)>, rel: string, text: string, elapsed: real)
    requires RelativeNames(files) && NoNameAboveAnother(files)
    requires forall i :: 0 <= i < |files| ==> files[i].0 != "dist" && !StartsWith(files[i].0, "dist/")
    requires '/' !in rel
    ensures CompileSpec(files, EmitThenExit(rel, text, 0), elapsed)
            == Returned(CompileResult(Some(map[rel := Some(text)]), None, elapsed))
  {
    StagingSucceedsIff(files);
    StagedAroundDist(files);
    var e0 := Staged(files).volume;
    var events := EmitThenExit(rel, text, 0)(e0, Argv);
    EmitThenExitCode(rel, text, 0, e0, Argv);
    EmitThenExitRun(e0, rel, text, Argv);
    var final := RunEvents(e0, events);
    var target := DistRoot + "/" + rel;
    assert StartsWith(target, DistRoot + "/") by {
      assert target[..|DistRoot| + 1] == DistRoot + "/";
    }
    StreamsOutsideDist(StdoutPath);
    StreamsOutsideDist(StderrPath);
    assert StdoutPath != AppRoot && StdoutPath != DistRoot && StdoutPath != target;
    assert StderrPath != AppRoot && StderrPath != DistRoot && StderrPath != target;
    ZeroExitAnswer(final, elapsed);
  }
}
