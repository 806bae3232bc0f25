/**
 * The REST server process: its constructor defaults, the handler list it
 * installs, the body it runs (handlers, TLS decision, listener) and the
 * process-handle operations its owner uses (start, liveness probe,
 * terminate, join). The operating-system process itself is abstract: a
 * `started` flag and the answer its liveness probe gives.
 */
module ServerProcess {
  import opened Wrappers
  import opened RouteRegistry
  import opened TlsBootstrap

  /** The port the server listens on when none is configured. */
  const DefaultPort: int := 8888

  /** Why `run` ended with "Forced exiting..": an exception from the TLS block, or the listener could not bind. */
  datatype RunError = SslFailed(error: SslError) | ListenFailed(port: int)

  /** How `run` ends: serving in the event loop with these handlers and listener options, or forced to exit. */
  datatype RunOutcome =
    | Serving(handlers: seq<HandlerEntry>, port: int, tls: Option<TlsSettings>)
    | ForcedExit(error: RunError)

  /** What `run` logs, in order. */
  datatype RunEvent =
    | Registry(registryEvent: RegistryEvent)
    | HandlersListed(handlers: seq<HandlerEntry>)
    | Ssl(sslEvent: SslEvent)
    | ForcedExiting

  function RegistryEvents(events: seq<RegistryEvent>): (r: seq<RunEvent>)
    ensures |r| == |events| && forall k :: 0 <= k < |events| ==> r[k] == Registry(events[k])
  {
    seq(|events|, k requires 0 <= k < |events| => Registry(events[k]))
  }

  function SslEvents(events: seq<SslEvent>): (r: seq<RunEvent>)
    ensures |r| == |events| && forall k :: 0 <= k < |events| ==> r[k] == Ssl(events[k])
  {
    seq(|events|, k requires 0 <= k < |events| => Ssl(events[k]))
  }

  /**
   * How `run` ends once the handlers are listed and the TLS block has run:
   * serving exactly when the block raised nothing and the port could be
   * bound, with those handlers, the port and the TLS settings; otherwise
   * forced to exit with the exception or the bind failure.
   */
  function ServeOutcome(handlers: seq<HandlerEntry>, port: int, tls: Result<Option<TlsSettings>, SslError>,
                        listens: bool): (r: RunOutcome)
    ensures r.Serving? <==> tls.Ok? && listens
    ensures tls.Err? ==> r == ForcedExit(SslFailed(tls.error))
    ensures tls.Ok? && !listens ==> r == ForcedExit(ListenFailed(port))
    ensures r.Serving? ==> r.handlers == handlers && r.port == port && r.tls == tls.value
  {
    match tls
    case Err(e) => ForcedExit(SslFailed(e))
    case Ok(settings) => if listens then Serving(handlers, port, settings) else ForcedExit(ListenFailed(port))
  }

  /**
   * The log of `run`: the events of the first discovery, the handler list,
   * the events of the application's discovery, the TLS events, and
   * "Forced exiting.." when the process is forced to exit.
   */
  function RunLog(rejected: seq<RegistryEvent>, handlers: seq<HandlerEntry>, sslLog: seq<SslEvent>,
                  outcome: RunOutcome): (r: seq<RunEvent>)
    ensures |r| == 2 * |rejected| + 1 + |sslLog| + (if outcome.ForcedExit? then 1 else 0)
    ensures r[..|rejected|] == RegistryEvents(rejected)
    ensures r[|rejected|] == HandlersListed(handlers)
    ensures r[|rejected| + 1..2 * |rejected| + 1] == RegistryEvents(rejected)
    ensures r[2 * |rejected| + 1..2 * |rejected| + 1 + |sslLog|] == SslEvents(sslLog)
    ensures outcome.ForcedExit? <==> r[|r| - 1] == ForcedExiting
  {
    (RegistryEvents(rejected) + [HandlersListed(handlers)] + RegistryEvents(rejected))
    + (SslEvents(sslLog) + if outcome.ForcedExit? then [ForcedExiting] else [])
  }

  class RestServerProcess {
    const node: string
    const port: int
    const sslOptions: SslOptionsValue
    const sslVersion: Option<int>
    /** `start()` has been called. */
    var started: bool
    /** `terminate()` has been called. */
    var terminated: bool
    /** What `is_alive()` answers; `None` stands for the non-boolean answer the owner guards against. */
    var aliveAnswer: Option<bool>

    /** A process that is alive has been started. */
    ghost predicate Valid()
      reads this
    {
      IsAlive() ==> started
    }

    /** The truth of `is_alive()`. */
    predicate IsAlive()
      reads this
    {
      aliveAnswer == Some(true)
    }

    /** `RestServerProcess(node, port=8888, ssl_options=None, ssl_version=ssl.PROTOCOL_TLSv1_2)`; not started yet. */
    constructor (node: string, port: int := DefaultPort, sslOptions: SslOptionsValue := NoOptions,
                 sslVersion: Option<int> := Some(PROTOCOL_TLSv1_2))
      ensures this.node == node && this.port == port
      ensures this.sslOptions == sslOptions && this.sslVersion == sslVersion
      ensures !started && !terminated && aliveAnswer == Some(false)
      ensures Valid()
    {
      this.node := node;
      this.port := port;
      this.sslOptions := sslOptions;
      this.sslVersion := sslVersion;
      started, terminated, aliveAnswer := false, false, Some(false);
    }

    /** `start()`: a process can be started once; whether it is still alive right after is the caller's oracle. */
    method Start(aliveAfterStart: bool)
      requires !started
      modifies this
      ensures started && terminated == old(terminated)
      ensures aliveAnswer == Some(aliveAfterStart)
      ensures Valid()
    {
      started := true;
      aliveAnswer := Some(aliveAfterStart);
    }

    /** `terminate()`: sends the termination signal; the process is gone only once joined. */
    method Terminate()
      requires started
      modifies this
      ensures terminated && started && aliveAnswer == old(aliveAnswer)
    {
      terminated := true;
    }

    /** `join()`: waits until the process has exited. */
    method Join()
      requires started
      modifies this
      ensures started && terminated == old(terminated)
      ensures aliveAnswer == Some(false) && Valid()
    {
      aliveAnswer := Some(false);
    }

    /** The process ends on its own, as it does once `run` returns; it stays dead. */
    method Exit()
      requires started
      modifies this
      ensures started && terminated == old(terminated)
      ensures aliveAnswer == Some(false) && Valid()
    {
      aliveAnswer := Some(false);
    }

    /**
     * `getHandlers()`: the route map of the handler classes, sorted by route,
     * each entry with the init record of this process's node.
     */
    method GetHandlers(moduleClasses: seq<HandlerClass>, base: HandlerClass)
      returns (handlers: seq<HandlerEntry>, log: seq<RegistryEvent>)
      ensures handlers == HandlerEntries(node, Registered(Candidates(moduleClasses, base)))
      ensures log == Rejections(Candidates(moduleClasses, base))
    {
      var routeMap;
      routeMap, log := GetRouteMap(moduleClasses, base);
      handlers := HandlerEntries(node, routeMap);
    }

    /**
     * The second half of `run()`: the TLS block, then the listener on the
     * port; an exception from either is caught and logged as "Forced exiting..".
     */
    method Serve(installed: seq<HandlerEntry>, fileExists: string -> bool, resource: ResourceLookup,
                 listens: bool)
      returns (outcome: RunOutcome, log: seq<RunEvent>)
      ensures outcome == ServeOutcome(installed, port, SslDecision(sslOptions, sslVersion, fileExists, resource).outcome, listens)
      ensures log == SslEvents(SslDecision(sslOptions, sslVersion, fileExists, resource).log)
                     + (if outcome.ForcedExit? then [ForcedExiting] else [])
    {
      var tls, sslLog := ResolveSslOptions(sslOptions, sslVersion, fileExists, resource);
      log := SslEvents(sslLog);
      if tls.Err? {
        outcome := ForcedExit(SslFailed(tls.error));
        log := log + [ForcedExiting];
      } else if !listens {
        outcome := ForcedExit(ListenFailed(port));
        log := log + [ForcedExiting];
      } else {
        outcome := Serving(installed, port, tls.value);
      }
    }

    /**
     * The first half of `run()`: the handler list is computed and logged, then
     * computed again for the application, which is handed the second list.
     */
    method ListHandlers(moduleClasses: seq<HandlerClass>, base: HandlerClass)
      returns (installed: seq<HandlerEntry>, log: seq<RunEvent>)
      ensures installed == HandlerEntries(node, Registered(Candidates(moduleClasses, base)))
      ensures log == RegistryEvents(Rejections(Candidates(moduleClasses, base)))
                     + [HandlersListed(installed)] + RegistryEvents(Rejections(Candidates(moduleClasses, base)))
    {
      var handlers, registryLog := GetHandlers(moduleClasses, base);
      label Listed:
      var applicationLog;
      installed, applicationLog := GetHandlers(moduleClasses, base);
      RegistryStable@Listed(Candidates(moduleClasses, base));
      log := RegistryEvents(registryLog) + [HandlersListed(handlers)] + RegistryEvents(applicationLog);
    }

    /**
     * `run()`: lists the handlers, builds the application (which discovers
     * the routes a second time), decides on TLS and listens on the port.
     * Every exception is caught and ends the process with "Forced exiting..".
     * Whether the listener can bind is the caller's oracle `listens`.
     */
    method Run(moduleClasses: seq<HandlerClass>, base: HandlerClass,
               fileExists: string -> bool, resource: ResourceLookup, listens: bool)
      returns (outcome: RunOutcome, log: seq<RunEvent>)
      ensures outcome == ServeOutcome(HandlerEntries(node, Registered(Candidates(moduleClasses, base))), port,
                                      SslDecision(sslOptions, sslVersion, fileExists, resource).outcome, listens)
      ensures log == RunLog(Rejections(Candidates(moduleClasses, base)),
                            HandlerEntries(node, Registered(Candidates(moduleClasses, base))),
                            SslDecision(sslOptions, sslVersion, fileExists, resource).log, outcome)
    {
      var installed, listLog := ListHandlers(moduleClasses, base);
      label Installed:
      var serveLog;
      outcome, serveLog := Serve(installed, fileExists, resource, listens);
      RegistryStable@Installed(Candidates(moduleClasses, base));
      log := listLog + serveLog;
    }
  }
}
