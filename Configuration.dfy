/**
 * The values the core borrows from the cluster's configuration package:
 * the lifecycle states, node roles and the node description the backend
 * returns. Only what the core reads or writes is kept.
 */
module Configuration {

  /**
   * A lifecycle state. The REST device manager writes only `Starting` and
   * `Running`; every other member of the enumeration (registered, deployed,
   * maintenance, ...) is set by the surrounding framework and is kept by name.
   */
  datatype State = Starting | Running | Other(name: string)

  datatype Role = Active | Passive | Thin

  /** What `configuration.getNode(name, ...)` returns for one node. */
  datatype NodeInfo = NodeInfo(name: string, address: string, role: Role, state: State)
}
