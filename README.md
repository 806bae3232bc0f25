# c4-rest-server in Dafny

This project models the core of the C4 REST server. Three parts are covered:

- **Route discovery and start-up of the REST server process** (`c4/rest/server/tornadoserver.py`):
  - The `route` class decorator.
  - `getRouteMap`, which builds a route-to-handler map from the handler classes of the handler package. The first class that declares a route wins. Every other class is logged, either as a missing route or as a conflict.
  - `getHandlers`, the handler tuples sorted by route, each with the node's init record.
  - The constructor defaults: port 8888, no ssl options, TLS 1.2.
  - `run`: it lists the handlers, decides on TLS from `ssl_options`, listens, and turns every exception into "Forced exiting..".
- **The REST device manager** (`c4/devices/rest.py`):
  - `start`, `stop` and `handleStatus`.
  - The local start and stop message handlers.
  - The adapter owns at most one process handle and reports its own state.
- **The node handlers** (`c4/rest/handlers/nodes.py`):
  - The `includeClassInfo` query flag.
  - `Nodes.get`, which fills a `NodeMap` with one backend lookup per node name and logs the names it could not find.
  - `NodeList.get`.

Things outside the core are passed in as parameters:

- The configuration backend: its list of node names and its `getNode` lookup.
- The file system's `os.path.exists`.
- `pkg_resources.resource_filename`, which gives a file name or raises.
- What `is_alive()` answers right after a start.
- Whether the listener could bind its port.

Modules:

| file | module | role |
|---|---|---|
| `Wrappers.dfy` | Wrappers | `Option` and `Result` |
| `Text.dfy` | Text | Python's `strip()`, `lower()` and string order |
| `PosixPath.dfy` | PosixPath | `os.path.dirname` |
| `Configuration.dfy` | Configuration | the states, roles and node records the core uses |
| `RouteRegistry.dfy` | RouteRegistry | handler classes, `route`, `getRouteMap`, the sorted handler list |
| `TlsBootstrap.dfy` | TlsBootstrap | the ssl block of `run` |
| `ServerProcess.dfy` | ServerProcess | `RestServerProcess` |
| `RestDevice.dfy` | RestDevice | `RESTServer` and `RESTServerStatus` |
| `NodesHandlers.dfy` | NodesHandlers | `NodeMap`, `Nodes.get`, `NodeList.get` |

Stateful parts of the source are classes in the model:

- A handler class, whose `route` attribute the decorator sets.
- The server process, with its started, terminated and alive state.
- The device manager, with its `state` and its process handle.
- The node map.

The route map, the handler list, the TLS decision and the node map are also given as specification functions, and the methods are proved equal to those functions.

Points where the code behaves differently from what its log messages and comments suggest:

- **Dead handle on start.** When `start` finds a process handle whose process is dead, it logs "cleaning up old process" and calls `stop()`. `stop()` does nothing for a process that is not alive. So the dead process is neither terminated nor joined: the handle is simply replaced by a fresh one. `RestDevice.RestServer.Start` states exactly that: the old handle is `unchanged`.
- **Exceptions in the ssl block.** The ssl block can raise:
  - `KeyError` for a missing key.
  - A `NameError` (here `UnboundLocalError`) for a `package`, `ssl_certificate_file` or `ssl_key_file` that was never bound.
  - Whatever `pkg_resources.resource_filename` raises for a bare file name, for instance an `ImportError` for a package that cannot be imported.

  Each such exception ends the process through the "Forced exiting.." handler. TLS is not simply disabled. `TlsBootstrap.SslFailure` lists these cases in the order the statements run.
- **Python version.** The package depends on the `futures` backport, so it is Python 2.7. Query values are unicode strings: `strip()` removes Python 2.7's unicode whitespace (Unicode 5.2, which includes U+180E), after Tornado has replaced the control characters 0x00-0x08 and 0x0E-0x1F by spaces.

## Model

| member | source | states |
|---|---|---|
| RouteRegistry.Route | c4/rest/server/tornadoserver.py:163-177 | the decorator sets the class's `route` to the path and hands back the same class |
| RouteRegistry.IndexOf | c4/rest/server/tornadoserver.py:147-148 | the position `list.remove` deletes: it holds the element and no earlier position does |
| RouteRegistry.RemoveFirst | c4/rest/server/tornadoserver.py:147-148 | `list.remove(x)`: the list without the first occurrence of `x`, at the position `IndexOf` gives; its properties are proved in `CandidatesFromModule` |
| RouteRegistry.Candidates | c4/rest/server/tornadoserver.py:146-148 | the module's classes, with the base class removed once when it is among them; `CandidatesFromModule` proves it keeps exactly the other classes |
| RouteRegistry.CandidatesFromModule | c4/rest/server/tornadoserver.py:144-148 | discovery iterates over exactly the module's handler classes with one occurrence of the base class removed: every candidate is a module class, every other module class is a candidate, the multiset of candidates is the module's minus the base, and a base occurring once is gone |
| RouteRegistry.FirstIndex | c4/rest/server/tornadoserver.py:151-157 | for a declared route, the handler that registers it is the first in discovery order that declares it |
| RouteRegistry.Registered | c4/rest/server/tornadoserver.py:150-157 | the expected route map has exactly the declared routes as keys |
| RouteRegistry.Rejections | c4/rest/server/tornadoserver.py:152-159 | the log of discovery, class by class: a missing route, or a conflict naming the route, the class and its first registrant; `RejectionsReportEveryLoser`, `RejectionsCount` and `UniqueRoutesNoConflict` prove what it contains |
| RouteRegistry.RegisteredFromModule | c4/rest/server/tornadoserver.py:144-157 | each registered class declares the route it is registered under and is a module class, and never the base class when the base occurs at most once |
| RouteRegistry.GetRouteMap | c4/rest/server/tornadoserver.py:136-161 | the loop builds the first-registrant map and the log: a missing route or a conflict with the registered class, handler by handler; every entry's class declares its route |
| RouteRegistry.RegisteredFirstWins | c4/rest/server/tornadoserver.py:153-157 | the first class that declares a route is the one the map holds for it |
| RouteRegistry.LaterDuplicateRejected | c4/rest/server/tornadoserver.py:153-155 | a later class with an already registered route never replaces the registered one |
| RouteRegistry.RejectionsReportEveryLoser | c4/rest/server/tornadoserver.py:152-159 | a class without a route is logged as missing; a class that is not the first of its route is logged as a conflict with the first |
| RouteRegistry.RejectionsCount | c4/rest/server/tornadoserver.py:150-161 | the log has one entry per class that is not registered: the number of classes minus the number of routes |
| RouteRegistry.DeclaredRoutesBound | c4/rest/server/tornadoserver.py:150-161 | there are never more routes than classes |
| RouteRegistry.UniqueRoutesNoConflict | c4/rest/server/tornadoserver.py:150-161 | with unique routes nothing conflicts: only classes without a route are logged, and every declarer is registered under its route |
| RouteRegistry.RegisteredOrderIndependent | c4/rest/server/tornadoserver.py:144-161 | with unique routes, any order of the same classes gives the same route map |
| Text.LexLeTotal | c4/rest/server/tornadoserver.py:73 | Python's string order, which `sorted` uses on the routes, is total |
| Text.LexLeAntisymmetric | c4/rest/server/tornadoserver.py:73 | two strings each ordered before the other are equal |
| Text.LexLeTransitive | c4/rest/server/tornadoserver.py:73 | the string order is transitive |
| RouteRegistry.LeastExists | c4/rest/server/tornadoserver.py:73 | a nonempty set of routes has a least route |
| RouteRegistry.SortedRoutes | c4/rest/server/tornadoserver.py:73 | `sorted` on the route keys: the same routes, each once, in strictly increasing order |
| RouteRegistry.SortedEntriesAreHandlerList | c4/rest/server/tornadoserver.py:71-74 | one entry per route of a strictly sorted enumeration of the map's keys, with the map's class and the node, is a handler list |
| RouteRegistry.HandlerEntries | c4/rest/server/tornadoserver.py:71-74 | one `(route, handler, dict(node=...))` tuple per map entry, carrying that entry's class and the node, in strictly increasing route order |
| RouteRegistry.SortedSequencesEqual | c4/rest/server/tornadoserver.py:73 | two strictly sorted sequences holding the same routes are equal |
| RouteRegistry.HandlerListRoutes | c4/rest/server/tornadoserver.py:71-74 | the routes of a handler list are strictly sorted and are exactly the keys of the route map |
| RouteRegistry.HandlerListDeterministic | c4/rest/server/tornadoserver.py:71-74 | the handler list is determined by the route map and the node, whatever order discovery saw |
| ServerProcess.RestServerProcess.constructor | c4/rest/server/tornadoserver.py:56-61 | port 8888, no ssl options and TLS 1.2 by default; the process is not started |
| ServerProcess.RestServerProcess.GetHandlers | c4/rest/server/tornadoserver.py:63-74 | the statements give the handler list of the first-registrant route map with this process's node, and the discovery log of the candidates |
| ServerProcess.ServeOutcome | c4/rest/server/tornadoserver.py:84-134 | serving exactly when the TLS block raises nothing and the port can be bound, with the handlers, the port and the TLS settings; otherwise forced exit with the exception, or with the port that could not be bound |
| ServerProcess.RunLog | c4/rest/server/tornadoserver.py:70-134 | the run log is, in order, the discovery events, the handler listing, the discovery events again, the TLS events, and "Forced exiting.." exactly when the process is forced to exit |
| ServerProcess.RestServerProcess.ListHandlers | c4/rest/server/tornadoserver.py:81-83 | the handlers are discovered and logged, then discovered again for the application, which gets the same list |
| ServerProcess.RestServerProcess.Serve | c4/rest/server/tornadoserver.py:84-134 | the TLS block and the listener end as `ServeOutcome` says, and log the TLS events followed by "Forced exiting.." on failure |
| ServerProcess.RestServerProcess.Run | c4/rest/server/tornadoserver.py:76-134 | the whole run ends as `ServeOutcome` says for the sorted handler list of the route map, and logs what `RunLog` says |
| ServerProcess.RestServerProcess.Start | c4/devices/rest.py:75 | a process is started once; alive afterwards as the probe answers |
| ServerProcess.RestServerProcess.Terminate | c4/devices/rest.py:87 | sends termination; the liveness answer is unchanged until joined |
| ServerProcess.RestServerProcess.Join | c4/devices/rest.py:88 | after the join the process is no longer alive |
| ServerProcess.RestServerProcess.Exit | c4/rest/server/tornadoserver.py:130-134 | a process whose `run` returned is no longer alive |
| PosixPath.AfterLastSep | c4/rest/server/tornadoserver.py:97 | the position just after the last `/`, 0 when there is none, as `os.path.dirname` splits |
| PosixPath.Dirname | c4/rest/server/tornadoserver.py:97 | `os.path.dirname` on POSIX: everything before the last `/`, with trailing separators stripped unless it consists of separators only; `DirnameEmptyIff` proves it is empty exactly when there is no `/` |
| PosixPath.RStripSepKeepsOther | c4/rest/server/tornadoserver.py:97 | stripping trailing separators keeps a path that holds another character nonempty |
| PosixPath.DirnameEmptyIff | c4/rest/server/tornadoserver.py:97 | `os.path.dirname(f) == ""` exactly when `f` holds no `/` |
| TlsBootstrap.ResolvePathRule | c4/rest/server/tornadoserver.py:95-103 | a file name without `/` and with a true `package` is looked up in the package under `directory + name`, and only that lookup can raise; anything else is used as given |
| TlsBootstrap.ResolvePath | c4/rest/server/tornadoserver.py:97-98 | one file entry's resolution (lines 102-103 for the key file): a bare name with a bound package is looked up in the package under `directory + name`, which may raise; anything else is kept; `ResolvePathRule` states it in terms of `/` |
| TlsBootstrap.SslFailure | c4/rest/server/tornadoserver.py:88-109 | the first exception the block raises on a nonempty dictionary, in statement order: missing `package`, `directory`, `certfile`, an unbound `package` or a failed lookup for the certificate, the same for `keyfile`, then an unbound certificate or key path; `SslFailureIff` characterises when it raises |
| TlsBootstrap.SslDecision | c4/rest/server/tornadoserver.py:85-125 | the outcome and log of the block: nothing without options; the exception, after the certificate check when the key path is unbound; otherwise the three logged checks followed by the settings or the warning; `SslDecisionProperties`, `SslDecisionChecks`, `SslDecisionKeyUnbound` and `SslDecisionRaises` prove its properties, and `ResolveSslOptions` is proved equal to it |
| TlsBootstrap.SslFailureIff | c4/rest/server/tornadoserver.py:86-105 | on nonempty options the block raises exactly when a key is missing, the certificate or key entry is false, a bare file name meets a false `package`, or the package lookup of a bare file name raises |
| TlsBootstrap.SslDecisionProperties | c4/rest/server/tornadoserver.py:85-125 | no options: no TLS and no log; an exception exactly when the statements raise; otherwise TLS enabled exactly when both files exist and the version is true, with that version and both resolved paths, and every failed check logged |
| TlsBootstrap.SslDecisionKeyUnbound | c4/rest/server/tornadoserver.py:105-109 | an unbound key path raises after the certificate check has logged a missing certificate |
| TlsBootstrap.SslDecisionChecks | c4/rest/server/tornadoserver.py:105-125 | when nothing raises, the three checks all run and are logged, followed by the enabled settings or the warning |
| TlsBootstrap.ResolveEntry | c4/rest/server/tornadoserver.py:95-103 | a true file entry is bound and resolved; reading the unbound `package` for a bare name raises, and so does a failed package lookup |
| TlsBootstrap.ResolveSslOptions | c4/rest/server/tornadoserver.py:85-125 | the statements of the block produce exactly the decision and log of the specification |
| RestDevice.RestServer.constructor | c4/devices/rest.py:21-23 | a new device manager holds no process handle |
| RestDevice.RestServer.Stop | c4/devices/rest.py:81-89 | a live process is terminated, joined and dropped; a dead or missing handle is left alone; the state never changes; nothing is alive afterwards |
| RestDevice.RestServer.Start | c4/devices/rest.py:49-79 | ignored while Starting; a live process is kept and the state becomes Running; otherwise a fresh process with the node, the configured port and ssl options (defaults otherwise) and TLS 1.2 is started, the state becomes Running, and in recovery the monitor gets Success exactly when the new process is alive; a dead old handle is not touched; the log names the case, and "cleaning up old process" exactly when a dead handle is replaced |
| RestDevice.RestServer.HandleStatus | c4/devices/rest.py:91-101 | the device's own state, and alive exactly when a handle exists whose probe answers `True`; a missing handle or a non-boolean answer reads as not alive |
| RestDevice.RestServer.ProcessAlive | c4/devices/rest.py:58 | `self.restServerProcess and self.restServerProcess.is_alive()`, the guard of `start` and of `stop` (line 86): a handle exists and its probe answers `True`; `Start` and `Stop` branch on it |
| RestDevice.RestServer.HandleLocalStartDeviceManager | c4/devices/rest.py:25-35 | a start outside recovery runs first, with all three cases of `Start` (ignored, live process kept, fresh process with the configured arguments), then the inherited handler sees the message, the envelope and the resulting state |
| RestDevice.RestServer.HandleLocalStopDeviceManager | c4/devices/rest.py:37-47 | the stop runs first, with all of `Stop`'s cases (a live process terminated, joined and dropped; a dead or missing handle left alone), then the inherited handler sees the unchanged state and no live process |
| RestDevice.StartTwiceKeepsProcess | c4/devices/rest.py:58-60 | a second start while the process is alive keeps that process, reports nothing and logs that the server is already started |
| RestDevice.RestartAfterDeath | c4/devices/rest.py:58-79 | after the process exits, the status reports it dead; the next start in recovery logs the clean-up, replaces it with a fresh live process and reports Success, and the status then reports it alive |
| Text.LeadingBlanks | c4/rest/handlers/nodes.py:45 | the length of the leading whitespace run: all blanks, followed by a non-blank or the end |
| Text.TrailingBlanks | c4/rest/handlers/nodes.py:45 | the length of the trailing whitespace run |
| Text.Strip | c4/rest/handlers/nodes.py:45 | `strip()`: an infix with only whitespace outside it, starting and ending with a non-blank |
| Text.StripPadded | c4/rest/handlers/nodes.py:45 | stripping text padded by whitespace gives back the text |
| Text.LowerAt | c4/rest/handlers/nodes.py:45 | `lower()` keeps the length and lowers each character in place |
| Text.LowerLength | c4/rest/handlers/nodes.py:45 | `lower()` keeps the length |
| Text.Lower | c4/rest/handlers/nodes.py:45 | `lower()`: each character through `LowerChar`; `LowerAt` and `LowerLength` prove that it keeps the length and lowers each character in place |
| NodesHandlers.ReplaceControlChars | c4/rest/handlers/nodes.py:45 | every control character of the value becomes a space, everything else is kept |
| NodesHandlers.QueryArgument | c4/rest/handlers/nodes.py:45 | the last value given, control characters blanked and stripped, or the default when there is none |
| NodesHandlers.IncludeClassInfo | c4/rest/handlers/nodes.py:45 | the flag: the query argument with default `""`, lowered, equals "true"; `IncludeClassInfoIff` and the lemmas below prove what sets it |
| NodesHandlers.IncludeClassInfoIff | c4/rest/handlers/nodes.py:45 | the flag is set exactly when a value is given and the last one, stripped, spells "true" in any case |
| NodesHandlers.IncludeClassInfoIgnoresPadding | c4/rest/handlers/nodes.py:45 | "true" in any case, surrounded by whitespace and control characters, sets the flag |
| NodesHandlers.SpelledLetter | c4/rest/handlers/nodes.py:45 | a character that lowers to a letter of "true" is an ASCII letter, neither whitespace nor a control character |
| NodesHandlers.IncludeClassInfoReadsLast | c4/rest/handlers/nodes.py:45 | only the last of several values decides |
| NodesHandlers.IncludeClassInfoDefaultsOff | c4/rest/handlers/nodes.py:45 | without the query argument the flag is off |
| NodesHandlers.NodeMap.constructor | c4/rest/handlers/nodes.py:47 | a new node map is empty |
| NodesHandlers.NodeMap.Add | c4/rest/handlers/nodes.py:20-27 | the node is stored under its name, replacing an earlier one; all other entries are kept |
| NodesHandlers.CollectNodes | c4/rest/handlers/nodes.py:63-66 | the node map after the loop: each found node stored under its own name, a later lookup replacing an earlier one; `CollectNodesLastWins` and `CollectNodesSelfNamed` prove its contents, and `NodesGet` is proved equal to it |
| NodesHandlers.MissingNames | c4/rest/handlers/nodes.py:63-68 | the error log of the loop: the names the backend found nothing for, in order; `MissingNamesExact` proves it names exactly those |
| NodesHandlers.CollectNodesLastWins | c4/rest/handlers/nodes.py:63-66 | a name is a key of the node map exactly when some lookup returned a node of that name, and the entry is the one of the last such lookup |
| NodesHandlers.MissingNamesExact | c4/rest/handlers/nodes.py:63-68 | the error log names exactly the requested names for which the backend found nothing |
| NodesHandlers.CollectNodesSelfNamed | c4/rest/handlers/nodes.py:63-66 | for a backend that reports nodes under their own names, the node map holds exactly the found names, each with its lookup result |
| NodesHandlers.ThreeNodeCluster | tests/test_rest.py:38-53 | for the three-node cluster the map holds node1, node2 and node3 with roles active, passive and thin, all running |
| NodesHandlers.ThreeNodeClusterMissing | c4/rest/handlers/nodes.py:63-68 | asking the three-node cluster for four names logs only the unknown one |
| NodesHandlers.NodesGet | c4/rest/handlers/nodes.py:36-71 | the response carries the flag and the node map of the lookups made without devices; the error log is the names not found, in order |
| NodesHandlers.NodeListGet | c4/rest/handlers/nodes.py:80-110 | the node names in the backend's order, under the description "list of nodes" |

## Left out

- The HTTP layer is not modelled: Tornado's `Application`, `HTTPServer`, `IOLoop`, the worker pool (`ThreadPoolExecutor(10)`) and `BaseRequestHandler.executor`. Whether the listener binds is an input of `Run`, and a served request is not modelled.
- The backend calls are not modelled as such. Calls made through the worker pool are synchronous parameters of the handlers.
- The `KeyboardInterrupt` path of `run` ("Exiting..") is not modelled, because it is a signal.
- Logging is modelled as event lists for route discovery, `getHandlers`, the ssl block, `run`, `start` of the device manager and the missing names of `Nodes.get`. Message texts and log levels are not modelled, nor is the exception trace `run` logs after "Forced exiting..".
- JSON serialization is not modelled: `NodeMap.toJSON(includeClassInfo, pretty)`, `json.dumps` with sorted keys, and the Content-Type header. The handlers return the value that would be serialized.
- `int(port)` in the process constructor is not modelled. Ports are integers, so a non-numeric configured port, which raises in the adapter's `start`, is not modelled.
- `getModuleClasses` and the order `sorted` gives to class objects are not modelled. Python 2 orders classes arbitrarily, so the module's class list, in sorted order, is an input.
- In the model, a class's `route` is its own attribute. A route inherited from a decorated superclass, which `hasattr` would also see, is not modelled.
- Text.LowerChar: `lower()` maps only ASCII letters. Non-ASCII case mappings are not modelled. They cannot turn a value into "true" unless a non-ASCII character lowers to one of the letters t, r, u or e.
- The `@operation` decorator, `ClassLogger`, and the class monitor's side of `report` are not modelled, because they are framework code.
- What the base device manager does is not modelled: its constructor (which sets `node`, the initial `state` and `properties`) and its inherited lifecycle handlers. `node` and the initial state are constructor parameters. The message handlers return what the inherited handler receives.
- The parent sees the child process only through `is_alive()`. Its answer right after a start is an input, and `Exit` models a process that ended on its own.
- `c4/rest/handlers/api.py` is not part of this model.
- NodesHandlers.NodeMap.Add: `add` stores the node with `setattr` on the map object, so node names share a namespace with the object's own attributes. The model keeps nodes in a map of their own. It does not capture that a node named `add` hides the method, after which the next `add` raises `TypeError`. It does not capture that a node named `toJSON` breaks the serialization either. `setattr` also raises for a non-ASCII unicode name under Python 2.7, and the model does not capture that. The attributes `JSONSerializable` defines are not part of this model.
- NodesHandlers.NodesGet: for the node names above, the request fails in the code, while the model returns the full node map and error log.
