/** The agent's executor, and the REST checks a command passes before it gets there. */
module Executor {
  import opened Wrappers
  import opened Types
  import opened Text

  datatype ArgvError = MissingFields(action: FsAction) | NotForced

  function OptionArgs(opts: string): seq<string> {
    if opts == "" then [] else ["-o", opts]
  }

  function MountArgs(spec: FsSpec, opts: string): seq<string> {
    ["mount"] + (if spec.fsType == "" then [] else ["-t", spec.fsType])
    + OptionArgs(opts) + [spec.device, spec.mountPoint]
  }

  function RemountOptions(opts: string): string {
    if opts == "" then "remount" else "remount," + opts
  }

  function Argv(spec: FsSpec): Result<seq<string>, ArgvError> {
    var opts := Join(spec.mountOptions);
    match spec.action
    case Mount =>
      if spec.device == "" || spec.mountPoint == "" then Err(MissingFields(Mount))
      else
        Ok(MountArgs(spec, opts))
    case Unmount =>
      if spec.mountPoint == "" then Err(MissingFields(Unmount)) else Ok(["umount", spec.mountPoint])
    case Remount =>
      if spec.mountPoint == "" then Err(MissingFields(Remount))
      else Ok(["mount", "-o", RemountOptions(opts), spec.mountPoint])
    case Check =>
      if spec.device == "" then Err(MissingFields(Check)) else Ok(["fsck", "-n", spec.device])
    case Format =>
      if !spec.force then Err(NotForced)
      else if spec.device == "" || spec.fsType == "" then Err(MissingFields(Format))
      else Ok(["mkfs." + spec.fsType, spec.device])
  }

  /**
   * `build_argv`: accepts exactly the complete specs, and what it builds says what was
   * asked, as `Decode` reads it.
   */
  method BuildArgv(spec: FsSpec) returns (r: Result<seq<string>, ArgvError>)
    ensures r == Argv(spec)
    ensures r.Ok? <==> Complete(spec)
    ensures r.Err? ==>
      r.error == if spec.action == Format && !spec.force then NotForced else MissingFields(spec.action)
    ensures r.Ok? ==>
      (Decode(r.value) == Some(IntentOf(spec)) <==> (UsesOptions(spec.action) ==> Recoverable(spec.mountOptions)))
  {
    var opts := Join(spec.mountOptions);
    CompleteIsBuilt(spec);
    if Argv(spec).Ok? {
      ArgvDecodes(spec);
    }
    match spec.action {
      case Mount =>
        if spec.device == "" || spec.mountPoint == "" {
          return Err(MissingFields(Mount));
        }
        var argv := BuildMount(spec, opts);
        return Ok(argv);
      case Unmount =>
        if spec.mountPoint == "" {
          return Err(MissingFields(Unmount));
        }
        return Ok(["umount", spec.mountPoint]);
      case Remount =>
        if spec.mountPoint == "" {
          return Err(MissingFields(Remount));
        }
        var remountOpts := "remount";
        if opts != "" {
          remountOpts := "remount," + opts;
        }
        return Ok(["mount", "-o", remountOpts, spec.mountPoint]);
      case Check =>
        if spec.device == "" {
          return Err(MissingFields(Check));
        }
        return Ok(["fsck", "-n", spec.device]);
      case Format =>
        if !spec.force {
          return Err(NotForced);
        }
        if spec.device == "" || spec.fsType == "" {
          return Err(MissingFields(Format));
        }
        return Ok(["mkfs." + spec.fsType, spec.device]);
    }
  }

  method BuildMount(spec: FsSpec, opts: string) returns (argv: seq<string>)
    ensures argv == MountArgs(spec, opts)
  {
    argv := ["mount"];
    if spec.fsType != "" {
      argv := argv + ["-t"];
      argv := argv + [spec.fsType];
    }
    if opts != "" {
      argv := argv + ["-o"];
      argv := argv + [opts];
    }
    argv := argv + [spec.device];
    argv := argv + [spec.mountPoint];
  }

  // --------------------------------------------------------------------------- argv decoding

  /** The action and every field it uses. */
  datatype Intent =
    | ToMount(fsType: string, options: seq<string>, device: string, mountPoint: string)
    | ToUnmount(mountPoint: string)
    | ToRemount(options: seq<string>, mountPoint: string)
    | ToCheck(device: string)
    | ToFormat(fsType: string, device: string)

  function IntentOf(spec: FsSpec): Intent {
    match spec.action
    case Mount => ToMount(spec.fsType, spec.mountOptions, spec.device, spec.mountPoint)
    case Unmount => ToUnmount(spec.mountPoint)
    case Remount => ToRemount(spec.mountOptions, spec.mountPoint)
    case Check => ToCheck(spec.device)
    case Format => ToFormat(spec.fsType, spec.device)
  }

  predicate IsMkfs(argv: seq<string>) {
    argv != [] && "mkfs." <= argv[0]
  }

  /** Reads an argv without knowing which spec it came from; every flag has to be in its place. */
  function Decode(argv: seq<string>): Option<Intent> {
    if |argv| < 2 then None
    else if IsMkfs(argv) then (if |argv| == 2 then Some(ToFormat(argv[0][5..], argv[1])) else None)
    else if argv[0] == "umount" then (if |argv| == 2 then Some(ToUnmount(argv[1])) else None)
    else if argv[0] == "fsck" then (if |argv| == 3 && argv[1] == "-n" then Some(ToCheck(argv[2])) else None)
    else if argv[0] != "mount" then None
    else if |argv| == 3 then Some(ToMount("", [], argv[1], argv[2]))
    else if |argv| == 4 && argv[1] == "-o" then DecodeRemount(argv[2], argv[3])
    else if |argv| == 5 && argv[1] == "-t" then Some(ToMount(argv[2], [], argv[3], argv[4]))
    else if |argv| == 5 && argv[1] == "-o" then Some(ToMount("", Split(argv[2]), argv[3], argv[4]))
    else if |argv| == 7 && argv[1] == "-t" && argv[3] == "-o" then
      Some(ToMount(argv[2], Split(argv[4]), argv[5], argv[6]))
    else None
  }

  function DecodeRemount(opts: string, mountPoint: string): Option<Intent> {
    if opts == "remount" then Some(ToRemount([], mountPoint))
    else if "remount," <= opts then Some(ToRemount(Split(opts[8..]), mountPoint))
    else None
  }

  predicate UsesOptions(action: FsAction) {
    action == Mount || action == Remount
  }

  /** Options survive the comma-joined form; `[""]` alone prints like no options at all. */
  predicate Recoverable(options: seq<string>) {
    options != [""] && forall o | o in options :: ',' !in o
  }

  function OptionsBack(options: seq<string>): seq<string> {
    if Join(options) == "" then [] else Split(Join(options))
  }

  lemma JoinedEmpty(options: seq<string>)
    ensures Join(options) == "" <==> options == [] || options == [""]
  {
  }

  lemma OptionsSurvive(options: seq<string>)
    ensures OptionsBack(options) == options <==> Recoverable(options)
  {
    JoinedEmpty(options);
    SplitInvertsJoin(options);
  }

  /** No other command the executor builds could be taken for a `mkfs.*`. */
  lemma MkfsIsFormat(spec: FsSpec)
    requires Argv(spec).Ok?
    ensures IsMkfs(Argv(spec).value) <==> spec.action == Format
  {
    assert "mkfs."[0] == 'm' && "mkfs."[1] == 'k';
    assert "mount"[1] == 'o' && "umount"[0] == 'u' && "fsck"[0] == 'f';
  }

  lemma MountDecodes(spec: FsSpec)
    requires Argv(spec).Ok? && spec.action == Mount
    ensures Decode(Argv(spec).value) ==
      Some(ToMount(spec.fsType, OptionsBack(spec.mountOptions), spec.device, spec.mountPoint))
  {
    MkfsIsFormat(spec);
    var opts, argv := Join(spec.mountOptions), Argv(spec).value;
    if spec.fsType == "" && opts == "" {
      assert argv == ["mount", spec.device, spec.mountPoint];
    } else if opts == "" {
      assert argv == ["mount", "-t", spec.fsType, spec.device, spec.mountPoint];
    } else if spec.fsType == "" {
      assert argv == ["mount", "-o", opts, spec.device, spec.mountPoint];
    } else {
      assert argv == ["mount", "-t", spec.fsType, "-o", opts, spec.device, spec.mountPoint];
    }
  }

  lemma RemountDecodes(spec: FsSpec)
    requires Argv(spec).Ok? && spec.action == Remount
    ensures Decode(Argv(spec).value) == Some(ToRemount(OptionsBack(spec.mountOptions), spec.mountPoint))
  {
    MkfsIsFormat(spec);
    var opts := Join(spec.mountOptions);
    if opts != "" {
      assert |RemountOptions(opts)| > 8 && RemountOptions(opts)[8..] == opts;
      assert |"remount"| == 7 && "remount," <= RemountOptions(opts);
    }
  }

  /**
   * The argv says what was asked: decoding any argv the executor accepts gives back the
   * action and every field it uses, option lists exactly when they are recoverable.
   */
  lemma ArgvDecodes(spec: FsSpec)
    requires Argv(spec).Ok?
    ensures Decode(Argv(spec).value) == Some(IntentOf(spec))
      <==> (UsesOptions(spec.action) ==> Recoverable(spec.mountOptions))
  {
    OptionsSurvive(spec.mountOptions);
    MkfsIsFormat(spec);
    match spec.action
    case Mount => MountDecodes(spec);
    case Remount => RemountDecodes(spec);
    case Format => assert ("mkfs." + spec.fsType)[5..] == spec.fsType;
    case Unmount =>
    case Check =>
  }

  // ------------------------------------------------------------------------------- execution

  /** What spawning a process came to. */
  datatype SpawnResult = Exited(code: Option<int>, stdout: string, stderr: string) | SpawnFailed

  function ArgvToSpawn(allowExec: bool, cmd: NodeCommand): Option<seq<string>> {
    if allowExec && cmd.Fs? && Argv(cmd.fs).Ok? then Some(Argv(cmd.fs).value) else None
  }

  function RunCommand(
    nodeId: NodeId, allowExec: bool, cmd: NodeCommand, result: SpawnResult, now: nat): CommandOutcome
  {
    match cmd
    case Deploy(d) =>
      CommandOutcome(d.deploymentId, nodeId, true, 0,
        Simulated(d.action, d.component, if d.version == "" then "latest" else d.version,
          if d.targetPath == "" then "<default>" else d.targetPath), "", "", now)
    case Fs(f) =>
      match Argv(f)
      case Err(_) => CommandOutcome(f.commandId, nodeId, false, -1, Refused, "", "", now)
      case Ok(argv) =>
        if !allowExec then CommandOutcome(f.commandId, nodeId, true, 0, DryRun(argv), "", "", now)
        else
          match result
          case SpawnFailed => CommandOutcome(f.commandId, nodeId, false, -1, NotSpawned(argv), "", "", now)
          case Exited(code, stdout, stderr) =>
            CommandOutcome(f.commandId, nodeId, code == Some(0), code.GetOr(-1), Ran(argv, code.GetOr(-1)),
              stdout, stderr, now)
  }

  /** `run_fs`: validates, then either reports the argv it would run or spawns it. */
  method RunFs(nodeId: NodeId, allowExec: bool, spec: FsSpec, result: SpawnResult, now: nat)
    returns (outcome: CommandOutcome, spawned: Option<seq<string>>)
    ensures outcome == RunCommand(nodeId, allowExec, Fs(spec), result, now)
    ensures spawned == ArgvToSpawn(allowExec, Fs(spec))
    ensures spawned.Some? <==> allowExec && Complete(spec)
    ensures Reports(outcome, nodeId, allowExec, Fs(spec), result, now)
  {
    CommandReports(nodeId, allowExec, Fs(spec), result, now);
    SuccessExactlyWhen(nodeId, allowExec, Fs(spec), result, now);
    spawned := None;
    var built := BuildArgv(spec);
    outcome := CommandOutcome(spec.commandId, nodeId, false, -1, Refused, "", "", now);
    if built.Err? {
      return;
    }
    var argv := built.value;
    if !allowExec {
      outcome := outcome.(success := true, exitCode := 0, message := DryRun(argv));
      return;
    }
    spawned := Some(argv);
    match result {
      case Exited(code, stdout, stderr) =>
        var exit := code.GetOr(-1);
        outcome := outcome.(success := code == Some(0), exitCode := exit, message := Ran(argv, exit));
        outcome := outcome.(stdout := stdout, stderr := stderr);
      case SpawnFailed =>
        outcome := outcome.(message := NotSpawned(argv));
    }
  }

  /** What the spec must carry before the executor will build anything. */
  predicate Complete(spec: FsSpec) {
    match spec.action
    case Mount => spec.device != "" && spec.mountPoint != ""
    case Unmount => spec.mountPoint != ""
    case Remount => spec.mountPoint != ""
    case Check => spec.device != ""
    case Format => spec.force && spec.device != "" && spec.fsType != ""
  }

  /**
   * What an outcome says of its command: whose it is, and that it is a success exactly for
   * exit code zero, and then only of a deploy or a complete spec.
   */
  predicate Answers(o: CommandOutcome, nodeId: NodeId, cmd: NodeCommand) {
    && o.commandId == cmd.CommandId() && o.nodeId == nodeId
    && (o.success <==> o.exitCode == 0)
    && (o.success ==> cmd.Deploy? || Complete(cmd.fs))
    && (cmd.Fs? && !Complete(cmd.fs) ==> o.message == Refused)
  }

  /** Code, text and output of an outcome. */
  predicate Tells(o: CommandOutcome, code: int, message: Message, stdout: string, stderr: string) {
    o.exitCode == code && o.success == (code == 0) && o.message == message && o.stdout == stdout && o.stderr == stderr
  }

  /**
   * What the outcome says, case by case: a deploy is simulated, with placeholders for what is
   * not named; an incomplete spec is refused; without permission the argv is only shown; and
   * otherwise the process's own exit code and output are passed on, a death by signal and a
   * failure to start counting as -1.
   */
  predicate Reports(
    o: CommandOutcome, nodeId: NodeId, allowExec: bool, cmd: NodeCommand, result: SpawnResult, now: nat)
  {
    && o.commandId == cmd.CommandId() && o.nodeId == nodeId && o.completedAtUnix == now
    && match cmd
       case Deploy(d) =>
         && o.message.Simulated? && o.message.action == d.action && o.message.component == d.component
         && o.message.version == (if |d.version| > 0 then d.version else "latest")
         && o.message.targetPath == (if |d.targetPath| > 0 then d.targetPath else "<default>")
         && Tells(o, 0, o.message, "", "")
       case Fs(f) =>
         if !Complete(f) then Tells(o, -1, Refused, "", "")
         else
           && Argv(f).Ok?
           && (if !allowExec then Tells(o, 0, DryRun(Argv(f).value), "", "")
               else
                 match result
                 case SpawnFailed => Tells(o, -1, NotSpawned(Argv(f).value), "", "")
                 case Exited(None, out, err) => Tells(o, -1, Ran(Argv(f).value, -1), out, err)
                 case Exited(Some(code), out, err) => Tells(o, code, Ran(Argv(f).value, code), out, err))
  }

  lemma CommandReports(nodeId: NodeId, allowExec: bool, cmd: NodeCommand, result: SpawnResult, now: nat)
    ensures Reports(RunCommand(nodeId, allowExec, cmd, result, now), nodeId, allowExec, cmd, result, now)
  {
    if cmd.Fs? {
      CompleteIsBuilt(cmd.fs);
    }
  }

  /** Success is reported exactly for exit code zero: of the process, or of a run that needs none. */
  lemma SuccessExactlyWhen(nodeId: NodeId, allowExec: bool, cmd: NodeCommand, result: SpawnResult, now: nat)
    ensures
      var o := RunCommand(nodeId, allowExec, cmd, result, now);
      && (o.success <==> o.exitCode == 0)
      && (o.success <==>
            cmd.Deploy? || (Complete(cmd.fs) && (allowExec ==> result.Exited? && result.code == Some(0))))
      && (ArgvToSpawn(allowExec, cmd).Some? <==> allowExec && cmd.Fs? && Complete(cmd.fs))
  {
    if cmd.Fs? {
      CompleteIsBuilt(cmd.fs);
    }
  }

  lemma OutcomeAnswers(nodeId: NodeId, allowExec: bool, cmd: NodeCommand, result: SpawnResult, now: nat)
    ensures Answers(RunCommand(nodeId, allowExec, cmd, result, now), nodeId, cmd)
  {
    SuccessExactlyWhen(nodeId, allowExec, cmd, result, now);
    if cmd.Fs? {
      CompleteIsBuilt(cmd.fs);
    }
  }

  lemma CompleteIsBuilt(spec: FsSpec)
    ensures Argv(spec).Ok? <==> Complete(spec)
    ensures Argv(spec).Err? ==>
      Argv(spec).error == if spec.action == Format && !spec.force then NotForced else MissingFields(spec.action)
  {
    match spec.action
    case Mount =>
    case Unmount =>
    case Remount =>
    case Check =>
    case Format =>
  }

  /** A process called `mkfs.*` is spawned exactly for a well-formed, forced format. */
  lemma MkfsOnlyWhenForced(allowExec: bool, cmd: NodeCommand)
    ensures (ArgvToSpawn(allowExec, cmd).Some? && IsMkfs(ArgvToSpawn(allowExec, cmd).value)) <==>
      allowExec && cmd.Fs? && cmd.fs.action == Format && cmd.fs.force && cmd.fs.device != "" && cmd.fs.fsType != ""
  {
    if cmd.Fs? && Argv(cmd.fs).Ok? {
      MkfsIsFormat(cmd.fs);
    }
  }

  // -------------------------------------------------------------------------------- REST gate

  datatype Request =
    | DeployRequest(
        deploymentId: Option<string>, deployAction: DeployAction, component: string, version: string,
        targetPath: string, options: map<string, string>)
    | FsRequest(
        commandId: Option<string>, fsAction: FsAction, device: string, mountPoint: string, fsType: string,
        mountOptions: seq<string>, force: bool)

  datatype ApiError = BadRequest

  /** The checks of the two POST handlers and the command they dispatch; `freshId` is newly made. */
  function Gate(req: Request, freshId: string): Result<NodeCommand, ApiError> {
    match req
    case DeployRequest(id, action, component, version, targetPath, options) =>
      if Trim(component) == "" then Err(BadRequest)
      else Ok(Deploy(DeploySpec(id.GetOr(freshId), action, component, version, targetPath, options)))
    case FsRequest(id, action, device, mountPoint, fsType, mountOptions, force) =>
      if Trim(mountPoint) == "" then Err(BadRequest)
      else if action == Format && !force then Err(BadRequest)
      else Ok(Fs(FsSpec(id.GetOr(freshId), action, device, mountPoint, fsType, mountOptions, force)))
  }

  predicate Admissible(req: Request) {
    match req
    case DeployRequest(_, _, component, _, _, _) => !Blank(component)
    case FsRequest(_, action, _, mountPoint, _, _, force) => !Blank(mountPoint) && (action == Format ==> force)
  }

  /** The checks admit exactly that, under the caller's id if given, and change no field used. */
  lemma GateAdmits(req: Request, freshId: string)
    ensures Gate(req, freshId).Ok? <==> Admissible(req)
    ensures Gate(req, freshId).Ok? ==>
      var cmd := Gate(req, freshId).value;
      match req
      case DeployRequest(id, action, component, version, targetPath, options) =>
        && cmd.Deploy? && cmd.CommandId() == id.GetOr(freshId)
        && cmd.deploy.action == action && cmd.deploy.component == component && cmd.deploy.version == version
        && cmd.deploy.targetPath == targetPath && cmd.deploy.options == options
      case FsRequest(id, action, device, mountPoint, fsType, options, force) =>
        && cmd.Fs? && cmd.fs.force == force && cmd.CommandId() == id.GetOr(freshId)
        && IntentOf(cmd.fs) == IntentOf(FsSpec("", action, device, mountPoint, fsType, options, force))
  {
    match req
    case DeployRequest(_, _, component, _, _, _) => TrimEmpty(component);
    case FsRequest(_, _, _, mountPoint, _, _, _) => TrimEmpty(mountPoint);
  }
}
