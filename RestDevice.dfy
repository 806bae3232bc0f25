/**
 * The REST device manager: the adapter through which a node agent starts,
 * stops and queries the REST server process. It owns at most one process
 * handle and reports its own lifecycle state.
 */
module RestDevice {
  import opened Wrappers
  import opened Configuration
  import opened TlsBootstrap
  import opened ServerProcess

  /** The device's configured properties; `Some` means the key is present. */
  datatype DeviceProperties = DeviceProperties(port: Option<int>, sslOptions: Option<SslOptionsValue>)

  /** The signal the class monitor records for a start in a recovery context. */
  datatype MonitorReport = Success | Failure

  /** What `start` logs: the start was ignored, the process was already running, or a dead process is being replaced. */
  datatype StartEvent = AlreadyStarting(deviceName: string) | AlreadyStarted | CleaningUpOldProcess

  /** `RESTServerStatus(state, isAlive)`. */
  datatype RestServerStatus = RestServerStatus(state: State, isAlive: bool)

  /**
   * What the inherited lifecycle handler is called with, after the local
   * start or stop has been carried out; its own bookkeeping is outside this model.
   */
  datatype Delegation<M, E> = Delegation(message: M, envelope: E, stateSeen: State, processAlive: bool)

  class RestServer {
    const host: string
    const name: string
    /** The node this device runs on, as the base device manager sets it. */
    const node: string
    const properties: DeviceProperties
    var state: State
    var restServerProcess: RestServerProcess?

    /** The handle, when there is one, belongs to a process that has been started. */
    ghost predicate Valid()
      reads this, restServerProcess
    {
      restServerProcess != null ==> restServerProcess.started && restServerProcess.Valid()
    }

    /** `self.restServerProcess and self.restServerProcess.is_alive()`. */
    predicate ProcessAlive()
      reads this, restServerProcess
    {
      restServerProcess != null && restServerProcess.IsAlive()
    }

    /** `RESTServer(host, name, properties)`: no process handle yet. */
    constructor (host: string, name: string, node: string, properties: DeviceProperties, initialState: State)
      ensures this.host == host && this.name == name && this.node == node && this.properties == properties
      ensures state == initialState && restServerProcess == null
      ensures Valid() && !ProcessAlive()
    {
      this.host := host;
      this.name := name;
      this.node := node;
      this.properties := properties;
      state := initialState;
      restServerProcess := null;
    }

    /**
     * `stop()`: only a live process is terminated, joined and dropped; a
     * dead handle and the device's state are left as they are.
     */
    method Stop()
      requires Valid()
      modifies this, restServerProcess
      ensures Valid() && !ProcessAlive() && state == old(state)
      ensures old(ProcessAlive()) ==>
                restServerProcess == null
                && old(restServerProcess).started && old(restServerProcess).terminated
                && !old(restServerProcess).IsAlive()
      ensures !old(ProcessAlive()) ==>
                restServerProcess == old(restServerProcess)
                && (restServerProcess != null ==> unchanged(restServerProcess))
    {
      if restServerProcess != null && restServerProcess.IsAlive() {
        restServerProcess.Terminate();
        restServerProcess.Join();
        restServerProcess := null;
      }
    }

    /**
     * `start(isRecovery)`. A start while the state is already Starting is
     * ignored. A live process is kept and the state becomes Running.
     * Otherwise a new process is created from the node and the configured
     * port and ssl options (the process's own defaults for anything not
     * configured), started, and the state becomes Running; a start in a
     * recovery context reports whether the new process is alive right after
     * it was started, which is the caller's oracle `aliveAfterStart`. The
     * log says which of the three cases applied, and whether a dead handle
     * was there to be replaced.
     */
    method Start(isRecovery: bool, aliveAfterStart: bool) returns (report: Option<MonitorReport>, log: seq<StartEvent>)
      requires Valid()
      modifies this, restServerProcess
      ensures Valid()
      ensures old(state) == Starting ==>
                state == Starting && restServerProcess == old(restServerProcess) && report == None
                && (restServerProcess != null ==> unchanged(restServerProcess))
                && log == [AlreadyStarting(name)]
      ensures old(state) != Starting && old(ProcessAlive()) ==>
                state == Running && restServerProcess == old(restServerProcess) && report == None
                && unchanged(restServerProcess) && log == [AlreadyStarted]
      ensures old(state) != Starting && !old(ProcessAlive()) ==>
                (log == if old(restServerProcess) != null then [CleaningUpOldProcess] else [])
                &&
                state == Running && restServerProcess != null && fresh(restServerProcess)
                && restServerProcess.node == node
                && restServerProcess.port == properties.port.GetOr(DefaultPort)
                && restServerProcess.sslOptions == properties.sslOptions.GetOr(NoOptions)
                && restServerProcess.sslVersion == Some(PROTOCOL_TLSv1_2)
                && restServerProcess.started && !restServerProcess.terminated
                && restServerProcess.aliveAnswer == Some(aliveAfterStart)
                && report == (if isRecovery then Some(if aliveAfterStart then Success else Failure) else None)
                && (old(restServerProcess) != null ==> unchanged(old(restServerProcess)))
    {
      if state == Starting {
        return None, [AlreadyStarting(name)];
      }
      if restServerProcess != null && restServerProcess.IsAlive() {
        state := Running;
        return None, [AlreadyStarted];
      }
      state := Starting;
      log := [];
      if restServerProcess != null {
        log := [CleaningUpOldProcess];
        Stop();
      }
      var process: RestServerProcess;
      match (properties.port, properties.sslOptions) {
        case (Some(port), Some(sslOptions)) =>
          process := new RestServerProcess(node, port, sslOptions);
        case (Some(port), None) =>
          process := new RestServerProcess(node, port);
        case (None, Some(sslOptions)) =>
          process := new RestServerProcess(node, sslOptions := sslOptions);
        case (None, None) =>
          process := new RestServerProcess(node);
      }
      restServerProcess := process;
      process.Start(aliveAfterStart);
      report := None;
      if isRecovery {
        report := Some(if process.IsAlive() then Success else Failure);
      }
      state := Running;
    }

    /**
     * `handleStatus()`: the device's own state, and whether a process
     * handle exists whose probe answers a true `True`; an absent handle and
     * a non-boolean answer both read as not alive.
     */
    method HandleStatus() returns (status: RestServerStatus)
      ensures status.state == state
      ensures status.isAlive <==> restServerProcess != null && restServerProcess.aliveAnswer == Some(true)
    {
      var isAlive := false;
      if restServerProcess != null {
        match restServerProcess.aliveAnswer {
          case Some(answer) => isAlive := answer;
          case None => isAlive := false;
        }
      }
      status := RestServerStatus(state, isAlive);
    }

    /**
     * `handleLocalStartDeviceManager`: starts the server outside a recovery
     * context, with everything `Start` guarantees then, and defers to the
     * inherited handler.
     */
    method HandleLocalStartDeviceManager<M, E>(message: M, envelope: E, aliveAfterStart: bool)
      returns (delegated: Delegation<M, E>, log: seq<StartEvent>)
      requires Valid()
      modifies this, restServerProcess
      ensures Valid()
      ensures old(state) == Starting ==>
                state == Starting && restServerProcess == old(restServerProcess)
                && (restServerProcess != null ==> unchanged(restServerProcess))
                && log == [AlreadyStarting(name)]
      ensures old(state) != Starting && old(ProcessAlive()) ==>
                state == Running && restServerProcess == old(restServerProcess)
                && unchanged(restServerProcess) && log == [AlreadyStarted]
      ensures old(state) != Starting && !old(ProcessAlive()) ==>
                (log == if old(restServerProcess) != null then [CleaningUpOldProcess] else [])
                && state == Running && restServerProcess != null && fresh(restServerProcess)
                && restServerProcess.node == node
                && restServerProcess.port == properties.port.GetOr(DefaultPort)
                && restServerProcess.sslOptions == properties.sslOptions.GetOr(NoOptions)
                && restServerProcess.sslVersion == Some(PROTOCOL_TLSv1_2)
                && restServerProcess.started && !restServerProcess.terminated
                && restServerProcess.aliveAnswer == Some(aliveAfterStart)
                && (old(restServerProcess) != null ==> unchanged(old(restServerProcess)))
      ensures delegated == Delegation(message, envelope, state, ProcessAlive())
    {
      var _, startLog := Start(false, aliveAfterStart);
      log := startLog;
      delegated := Delegation(message, envelope, state, ProcessAlive());
    }

    /** `handleLocalStopDeviceManager`: stops the server, then defers to the inherited handler. */
    method HandleLocalStopDeviceManager<M, E>(message: M, envelope: E)
      returns (delegated: Delegation<M, E>)
      requires Valid()
      modifies this, restServerProcess
      ensures Valid() && !ProcessAlive() && state == old(state)
      ensures old(ProcessAlive()) ==>
                restServerProcess == null
                && old(restServerProcess).started && old(restServerProcess).terminated
                && !old(restServerProcess).IsAlive()
      ensures !old(ProcessAlive()) ==>
                restServerProcess == old(restServerProcess)
                && (restServerProcess != null ==> unchanged(restServerProcess))
      ensures delegated == Delegation(message, envelope, old(state), false)
    {
      Stop();
      delegated := Delegation(message, envelope, state, ProcessAlive());
    }
  }

  /** A second start while the process is alive keeps the same process, reports nothing and logs that it was already started. */
  method StartTwiceKeepsProcess(device: RestServer) returns (first: RestServerProcess?, again: Option<MonitorReport>, againLog: seq<StartEvent>)
    requires device.Valid() && device.state != Starting && !device.ProcessAlive()
    modifies device, device.restServerProcess
    ensures first != null && fresh(first) && device.restServerProcess == first
    ensures device.state == Running && device.ProcessAlive()
    ensures again == None && againLog == [AlreadyStarted]
  {
    var _, _ := device.Start(false, true);
    first := device.restServerProcess;
    again, againLog := device.Start(false, true);
  }

  /**
   * A process that ended on its own is reported dead; the next start in a
   * recovery context replaces it with a fresh live process, reports Success,
   * logs the clean-up, and the status follows.
   */
  method RestartAfterDeath(device: RestServer)
    returns (first: RestServerProcess?, before: RestServerStatus, report: Option<MonitorReport>,
             restartLog: seq<StartEvent>, after: RestServerStatus)
    requires device.Valid() && device.state != Starting && !device.ProcessAlive()
    modifies device, device.restServerProcess
    ensures first != null && fresh(first) && !first.IsAlive()
    ensures before == RestServerStatus(Running, false)
    ensures report == Some(Success) && restartLog == [CleaningUpOldProcess]
    ensures device.Valid() && device.state == Running && device.ProcessAlive()
    ensures fresh(device.restServerProcess) && device.restServerProcess != first
    ensures after == RestServerStatus(Running, true)
  {
    var _, _ := device.Start(false, true);
    first := device.restServerProcess;
    first.Exit();
    before := device.HandleStatus();
    report, restartLog := device.Start(true, true);
    after := device.HandleStatus();
  }
}
