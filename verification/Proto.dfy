/** Commands and results on the wire, where protobuf carries enums as plain integers. */
module Proto {
  import opened Wrappers
  import opened Types

  datatype PbDeploy = PbDeploy(
    deploymentId: string, action: int, component: string, version: string, targetPath: string,
    options: map<string, string>)

  datatype PbFs = PbFs(
    commandId: string, action: int, device: string, mountPoint: string, fsType: string,
    mountOptions: seq<string>, force: bool)

  datatype Payload = PbDeployPayload(d: PbDeploy) | PbFsPayload(f: PbFs)

  datatype PbCommand = PbCommand(commandId: string, issuedAtUnix: nat, payload: Option<Payload>)

  function DeployActionToPb(a: DeployAction): int {
    match a
    case Install => 1
    case Upgrade => 2
    case Rollback => 3
    case Remove => 4
  }

  /** Unknown and unspecified values read as `Install`. */
  function DeployActionFromPb(v: int): DeployAction {
    if v == 2 then Upgrade else if v == 3 then Rollback else if v == 4 then Remove else Install
  }

  function FsActionToPb(a: FsAction): int {
    match a
    case Mount => 1
    case Unmount => 2
    case Remount => 3
    case Check => 4
    case Format => 5
  }

  /** Unknown and unspecified values read as `Mount`, never as anything destructive. */
  function FsActionFromPb(v: int): FsAction {
    if v == 2 then Unmount else if v == 3 then Remount else if v == 4 then Check
    else if v == 5 then Format else Mount
  }

  /** `to_pb_command`: the envelope repeats the payload's own id. */
  function ToPb(cmd: NodeCommand, now: nat): PbCommand {
    match cmd
    case Deploy(d) =>
      PbCommand(d.deploymentId, now, Some(PbDeployPayload(
        PbDeploy(d.deploymentId, DeployActionToPb(d.action), d.component, d.version, d.targetPath, d.options))))
    case Fs(f) =>
      PbCommand(f.commandId, now, Some(PbFsPayload(
        PbFs(f.commandId, FsActionToPb(f.action), f.device, f.mountPoint, f.fsType, f.mountOptions, f.force))))
  }

  /** What the agent makes of an envelope; one without a payload is skipped. */
  function FromPb(pb: PbCommand): Option<NodeCommand> {
    match pb.payload
    case None => None
    case Some(PbDeployPayload(d)) =>
      Some(Deploy(DeploySpec(
        d.deploymentId, DeployActionFromPb(d.action), d.component, d.version, d.targetPath, d.options)))
    case Some(PbFsPayload(f)) =>
      Some(Fs(FsSpec(
        f.commandId, FsActionFromPb(f.action), f.device, f.mountPoint, f.fsType, f.mountOptions, f.force)))
  }

  /** The wire loses nothing of a command, and labels it with the id its outcome will carry. */
  lemma CommandRoundTrip(cmd: NodeCommand, now: nat)
    ensures FromPb(ToPb(cmd, now)) == Some(cmd)
    ensures ToPb(cmd, now).commandId == cmd.CommandId()
  {
  }
}
