/** The domain types every crate shares, with `f64` read as an exact real. */
module Types {
  import opened Wrappers

  type NodeId = string

  datatype NodeRole = Unspecified | Storage | Compute | Metadata | Gateway

  datatype NodeStatus = Registered | Healthy | Degraded | Unreachable | Draining

  datatype NodeInfo = NodeInfo(
    nodeId: NodeId,
    hostname: string,
    ipAddress: string,
    role: NodeRole,
    cpuCores: nat,
    totalMemoryBytes: nat,
    totalDiskBytes: nat,
    agentVersion: string,
    kernelVersion: string,
    os: string,
    startedAtUnix: nat,
    labels: map<string, string>)

  datatype CpuMetrics = CpuMetrics(usagePercent: real, perCorePercent: seq<real>)

  datatype MemoryMetrics = MemoryMetrics(
    totalBytes: nat,
    usedBytes: nat,
    availableBytes: nat,
    swapTotalBytes: nat,
    swapUsedBytes: nat)
  {
    function UsedFraction(): real {
      if totalBytes == 0 then 0.0 else usedBytes as real / totalBytes as real
    }
  }

  datatype LoadMetrics = LoadMetrics(one: real, five: real, fifteen: real)

  datatype DiskMetrics = DiskMetrics(
    device: string,
    mountPoint: string,
    fsType: string,
    totalBytes: nat,
    availableBytes: nat,
    readBytesPerSec: nat,
    writeBytesPerSec: nat,
    ioUtilizationPercent: real)
  {
    function UsedFraction(): real {
      if totalBytes == 0 then 0.0
      else SatSub(totalBytes, availableBytes) as real / totalBytes as real
    }
  }

  datatype NetworkMetrics = NetworkMetrics(
    rxBytesPerSec: nat,
    txBytesPerSec: nat,
    rxErrors: nat,
    txErrors: nat)

  datatype MetricsReport = MetricsReport(
    nodeId: NodeId,
    timestampUnix: nat,
    cpu: CpuMetrics,
    memory: MemoryMetrics,
    load: LoadMetrics,
    disks: seq<DiskMetrics>,
    network: NetworkMetrics)

  /** The daemon's record for one node. */
  datatype NodeRecord = NodeRecord(
    info: NodeInfo,
    status: NodeStatus,
    lastSeen: nat,
    latestMetrics: Option<MetricsReport>)

  datatype Thresholds = Thresholds(
    cpuDegraded: real,
    memoryDegraded: real,
    diskDegraded: real,
    loadPerCoreDegraded: real)
  {
    /** The three fractions must lie in 0..=1; the load ratio is unchecked. */
    predicate Validate() {
      && 0.0 <= cpuDegraded <= 1.0
      && 0.0 <= memoryDegraded <= 1.0
      && 0.0 <= diskDegraded <= 1.0
    }
  }

  datatype DeployAction = Install | Upgrade | Rollback | Remove

  datatype DeploySpec = DeploySpec(
    deploymentId: string,
    action: DeployAction,
    component: string,
    version: string,
    targetPath: string,
    options: map<string, string>)

  datatype FsAction = Mount | Unmount | Remount | Check | Format

  datatype FsSpec = FsSpec(
    commandId: string,
    action: FsAction,
    device: string,
    mountPoint: string,
    fsType: string,
    mountOptions: seq<string>,
    force: bool)

  datatype NodeCommand = Deploy(deploy: DeploySpec) | Fs(fs: FsSpec) {
    function CommandId(): string {
      match this
      case Deploy(d) => d.deploymentId
      case Fs(f) => f.commandId
    }
  }

  /** What an outcome's message tells; the wording is left to the reader. */
  datatype Message =
    | Simulated(action: DeployAction, component: string, version: string, targetPath: string)
    | Refused
    | DryRun(argv: seq<string>)
    | Ran(argv: seq<string>, exitCode: int)
    | NotSpawned(argv: seq<string>)

  datatype CommandOutcome = CommandOutcome(
    commandId: string,
    nodeId: NodeId,
    success: bool,
    exitCode: int,
    message: Message,
    stdout: string,
    stderr: string,
    completedAtUnix: nat)
}
