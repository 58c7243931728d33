/**
 What the handlers work on: the records, the state that holds them, and the requests. One State is
 everything a handler can read or write: the persistent store (one map per resource kind), the
 server's in-memory maps, the target's objects, and the log of remote calls.
 */
module Records {
  import opened Common
  import opened Names
  import opened Target

  datatype Subsystem = Subsystem(name: string, nqn: string, serial: string, model: string, firmware: string)
  datatype Controller = Controller(name: string, pfId: Int32, cntlid: Int32)
  datatype Namespace = Namespace(name: string, volume: string, nsid: Int32, uuid: string, nguid: string, eui64: int)
  datatype VirtioBlk = VirtioBlk(name: string, pfId: Int32, volume: string, maxIoQps: int)

  datatype State = State(
    subsystems: map<string, Subsystem>,
    controllers: map<string, Controller>,
    namespaces: map<string, Namespace>,
    nqns: map<string, bool>,
    virtioCtrls: map<string, VirtioBlk>,
    pagination: Pages,
    defaultPageSize: PageSize,
    target: Target,
    log: seq<Exchange>)

  // ---------------------------------------------------------------- requests

  // In every request, checked says that the library's checks passed: required fields are present
  // and the name or parent is a well-formed resource name. A generated ID is fresh per request.

  datatype CreateSubsystemRequest = CreateSubsystemRequest(
    checked: bool, id: string, generated: ResourceId, nqn: string, serial: string, model: string)

  datatype CreateControllerRequest = CreateControllerRequest(
    checked: bool, id: string, generated: ResourceId, parent: string, isPcie: bool, pfId: Option<Int32>)

  datatype CreateNamespaceRequest = CreateNamespaceRequest(
    checked: bool, id: string, generated: ResourceId, parent: string,
    volume: string, nsid: Int32, uuid: string, nguid: string, eui64: int)

  datatype CreateVirtioRequest = CreateVirtioRequest(
    checked: bool, id: string, generated: ResourceId, pfId: Option<Int32>, volume: string, maxIoQps: int)

  datatype DeleteRequest = DeleteRequest(checked: bool, name: string, allowMissing: bool)

  function ChooseId(id: string, generated: ResourceId): string {
    if id != "" then id else generated
  }

  const MAX_NQN := 223
  const MAX_SERIAL := 20
  const MAX_MODEL := 40

  // ---------------------------------------------------------------- records of any kind

  datatype Record =
    | Empty
    | SubsystemRecord(subsystem: Subsystem)
    | ControllerRecord(controller: Controller)
    | NamespaceRecord(namespace: Namespace)
    | VirtioRecord(virtio: VirtioBlk)

  datatype Kind = SubsystemKind | ControllerKind | NamespaceKind | VirtioKind

  function Lookup(st: State, kind: Kind, key: string): Option<Record> {
    match kind
    case SubsystemKind =>
      if key in st.subsystems then Some(SubsystemRecord(st.subsystems[key])) else None
    case ControllerKind =>
      if key in st.controllers then Some(ControllerRecord(st.controllers[key])) else None
    case NamespaceKind =>
      if key in st.namespaces then Some(NamespaceRecord(st.namespaces[key])) else None
    case VirtioKind =>
      if key in st.virtioCtrls then Some(VirtioRecord(st.virtioCtrls[key])) else None
  }
}
