/**
 The frontend's handlers as state transformers, each in the order of its store accesses, index
 lookups and remote calls. A run is a sequence of handler calls and restarts.
 */
module Protocol {
  import opened Common
  import opened Names
  import Nqn
  import opened Target
  import opened Records
  import opened Queries

  // ---------------------------------------------------------------- validation

  predicate ValidCreateSubsystem(req: CreateSubsystemRequest) {
    && req.checked
    && IsSegment(req.id)
    && |req.nqn| <= MAX_NQN
    && |req.serial| <= MAX_SERIAL
    && |req.model| <= MAX_MODEL
    && Nqn.IsNqn(req.nqn)
  }

  predicate ValidCreateController(req: CreateControllerRequest) {
    req.checked && IsSegment(req.id) && req.isPcie && req.pfId.Some?
  }

  // ---------------------------------------------------------------- handlers

  function Send(st: State, c: Command, env: Env): (State, Answer) {
    var (target, answer) := st.target.Call(c, env);
    (st.(target := target, log := st.log + [Called(c, answer)]), answer)
  }

  function SubsystemKey(req: CreateSubsystemRequest): string {
    SubsystemName(ChooseId(req.id, req.generated))
  }

  function CreateSubsystem(st: State, req: CreateSubsystemRequest, env: Env): (State, Reply<Subsystem>) {
    var name := SubsystemKey(req);
    if !ValidCreateSubsystem(req) then (st, Err(Invalid))
    else if !env.get then (st, Err(StoreError))
    else if name in st.subsystems then (st, Ok(st.subsystems[name]))
    else if req.nqn in st.nqns then (st, Err(AlreadyExists(req.nqn)))
    else
      var (sent, answer) := Send(st, SubsystemCreate(req.nqn, req.serial, req.model), env);
      if answer.NoAnswer? then (sent, Err(RpcError))
      else if !answer.ok then (sent, Err(Declined))
      else
        var asked := sent.(log := sent.log + [AskedVersion(env.version)]);
        if env.version.None? then (asked, Err(RpcError))
        else
          var record := Subsystem(name, req.nqn, req.serial, req.model, env.version.value);
          var indexed := asked.(nqns := asked.nqns[req.nqn := false]);
          if !env.write then (indexed, Err(StoreError))
          else (indexed.(subsystems := indexed.subsystems[name := record]), Ok(record))
  }

  function DeleteSubsystem(st: State, req: DeleteRequest, env: Env): (State, Reply<()>) {
    if !req.checked then (st, Err(Invalid))
    else if !env.get then (st, Err(StoreError))
    else if req.name !in st.subsystems then
      (st, if req.allowMissing then Ok(()) else Err(NotFound(req.name)))
    else
      var record := st.subsystems[req.name];
      var (sent, answer) := Send(st, SubsystemDelete(record.nqn), env);
      if answer.NoAnswer? then (sent, Err(RpcError))
      else if !answer.ok then (sent, Err(Declined))
      else
        var unindexed := sent.(nqns := sent.nqns - {record.nqn});
        if !env.write then (unindexed, Err(StoreError))
        else (unindexed.(subsystems := unindexed.subsystems - {record.name}), Ok(()))
  }

  function ControllerKey(req: CreateControllerRequest): string {
    ControllerName(GetSubsystemId(req.parent), ChooseId(req.id, req.generated))
  }

  function CreateController(st: State, req: CreateControllerRequest, env: Env): (State, Reply<Controller>) {
    var name := ControllerKey(req);
    if !ValidCreateController(req) then (st, Err(Invalid))
    else if !env.get then (st, Err(StoreError))
    else if name in st.controllers then (st, Ok(st.controllers[name]))
    else if !env.getParent then (st, Err(StoreError))
    else if req.parent !in st.subsystems then (st, Err(NotFound(req.parent)))
    else
      var c := ControllerCreate(st.subsystems[req.parent].nqn, req.pfId.value);
      var (sent, answer) := Send(st, c, env);
      if answer.NoAnswer? then (sent, Err(RpcError))
      else if answer.cntlid < 0 then (sent, Err(Declined))
      else
        var record := Controller(name, req.pfId.value, ToInt32(answer.cntlid));
        if !env.write then (sent, Err(StoreError))
        else (sent.(controllers := sent.controllers[name := record]), Ok(record))
  }

  function DeleteController(st: State, req: DeleteRequest, env: Env): (State, Reply<()>) {
    if !req.checked then (st, Err(Invalid))
    else if !env.get then (st, Err(StoreError))
    else if req.name !in st.controllers then
      (st, if req.allowMissing then Ok(()) else Err(NotFound(req.name)))
    else
      var record := st.controllers[req.name];
      var parent := ParentKey(req.name);
      if !env.getParent then (st, Err(StoreError))
      else if parent !in st.subsystems then (st, Err(NoSubsystem(parent)))
      else
        var (sent, answer) := Send(st, ControllerDelete(st.subsystems[parent].nqn, record.cntlid), env);
        if answer.NoAnswer? then (sent, Err(RpcError))
        else if !answer.ok then (sent, Err(Declined))
        else if !env.write then (sent, Err(StoreError))
        else (sent.(controllers := sent.controllers - {record.name}), Ok(()))
  }

  function NamespaceKey(req: CreateNamespaceRequest): string {
    NamespaceName(GetSubsystemId(req.parent), ChooseId(req.id, req.generated))
  }

  function CreateNamespace(st: State, req: CreateNamespaceRequest, env: Env): (State, Reply<Namespace>) {
    var name := NamespaceKey(req);
    if !req.checked || !IsSegment(req.id) then (st, Err(Invalid))
    else if !env.get then (st, Err(StoreError))
    else if name in st.namespaces then (st, Ok(st.namespaces[name]))
    else if !env.getParent then (st, Err(StoreError))
    else if req.parent !in st.subsystems then (st, Err(NotFound(req.parent)))
    else
      var c := NamespaceAttach(
        req.nsid, st.subsystems[req.parent].nqn, 0, req.volume, req.uuid, req.nguid, req.eui64);
      var (sent, answer) := Send(st, c, env);
      if answer.NoAnswer? then (sent, Err(RpcError))
      else if !answer.ok then (sent, Err(Declined))
      else
        var record := Namespace(name, req.volume, req.nsid, req.uuid, req.nguid, req.eui64);
        if !env.write then (sent, Err(StoreError))
        else (sent.(namespaces := sent.namespaces[name := record]), Ok(record))
  }

  function DeleteNamespace(st: State, req: DeleteRequest, env: Env): (State, Reply<()>) {
    if !req.checked then (st, Err(Invalid))
    else if !env.get then (st, Err(StoreError))
    else if req.name !in st.namespaces then
      (st, if req.allowMissing then Ok(()) else Err(NotFound(req.name)))
    else
      var record := st.namespaces[req.name];
      var parent := ParentKey(req.name);
      if !env.getParent then (st, Err(StoreError))
      else if parent !in st.subsystems then (st, Err(NoSubsystem(parent)))
      else
        var (sent, answer) := Send(st, NamespaceDetach(record.nsid, st.subsystems[parent].nqn, 0), env);
        if answer.NoAnswer? then (sent, Err(RpcError))
        else if !answer.ok then (sent, Err(Declined))
        else if !env.write then (sent, Err(StoreError))
        else (sent.(namespaces := sent.namespaces - {record.name}), Ok(()))
  }

  function VirtioKey(req: CreateVirtioRequest): string {
    VolumeName(ChooseId(req.id, req.generated))
  }

  function CreateVirtio(st: State, req: CreateVirtioRequest, env: Env): (State, Reply<VirtioBlk>) {
    var name := VirtioKey(req);
    if !req.checked || !IsSegment(req.id) then (st, Err(Invalid))
    else if name in st.virtioCtrls then (st, Ok(st.virtioCtrls[name]))
    else if req.pfId.None? then (st, Err(NilDereference))
    else
      var serial := ChooseId(req.id, req.generated);
      var (sent, answer) := Send(st, VirtioCreate(serial, req.volume, req.pfId.value, req.maxIoQps), env);
      if answer.NoAnswer? then (sent, Err(RpcError))
      else if answer.name == "" then (sent, Err(Declined))
      else
        var record := VirtioBlk(name, req.pfId.value, req.volume, req.maxIoQps);
        (sent.(virtioCtrls := sent.virtioCtrls[name := record]), Ok(record))
  }

  /** Unlike the other deletes, a refusal by the target is only logged: the record goes anyway. */
  function DeleteVirtio(st: State, req: DeleteRequest, env: Env): (State, Reply<()>) {
    if !req.checked then (st, Err(Invalid))
    else if req.name !in st.virtioCtrls then
      (st, if req.allowMissing then Ok(()) else Err(NotFound(req.name)))
    else
      var record := st.virtioCtrls[req.name];
      var (sent, answer) := Send(st, VirtioDelete(req.name, true), env);
      if answer.NoAnswer? then (sent, Err(RpcError))
      else (sent.(virtioCtrls := sent.virtioCtrls - {record.name}), Ok(()))
  }

  /** A new server over the same store and target: only the in-memory maps start afresh. */
  function Restarted(st: State): State {
    st.(nqns := map[], virtioCtrls := map[], pagination := map[])
  }

  // ---------------------------------------------------------------- runs

  datatype Event =
    | CreatesSubsystem(createSubsystem: CreateSubsystemRequest, env: Env)
    | DeletesSubsystem(delete: DeleteRequest, env: Env)
    | CreatesController(createController: CreateControllerRequest, env: Env)
    | DeletesController(delete: DeleteRequest, env: Env)
    | CreatesNamespace(createNamespace: CreateNamespaceRequest, env: Env)
    | DeletesNamespace(delete: DeleteRequest, env: Env)
    | CreatesVirtio(createVirtio: CreateVirtioRequest, env: Env)
    | DeletesVirtio(delete: DeleteRequest, env: Env)
    | Asks(query: Query)  // a Get, List, Stats or Update call
    | Restarts

  /** One event: the state it leaves and the reply its caller gets. */
  function Handle(st: State, e: Event): (State, Reply<Record>) {
    match e
    case CreatesSubsystem(req, env) => var (s, r) := CreateSubsystem(st, req, env); (s, r.Map(x => SubsystemRecord(x)))
    case DeletesSubsystem(req, env) => var (s, r) := DeleteSubsystem(st, req, env); (s, r.Map(_ => Empty))
    case CreatesController(req, env) => var (s, r) := CreateController(st, req, env); (s, r.Map(x => ControllerRecord(x)))
    case DeletesController(req, env) => var (s, r) := DeleteController(st, req, env); (s, r.Map(_ => Empty))
    case CreatesNamespace(req, env) => var (s, r) := CreateNamespace(st, req, env); (s, r.Map(x => NamespaceRecord(x)))
    case DeletesNamespace(req, env) => var (s, r) := DeleteNamespace(st, req, env); (s, r.Map(_ => Empty))
    case CreatesVirtio(req, env) => var (s, r) := CreateVirtio(st, req, env); (s, r.Map(x => VirtioRecord(x)))
    case DeletesVirtio(req, env) => var (s, r) := DeleteVirtio(st, req, env); (s, r.Map(_ => Empty))
    case Asks(query) => var (s, r) := Ask(st, query); (s, r.Map(_ => Empty))
    case Restarts => (Restarted(st), Ok(Empty))
  }

  function Step(st: State, e: Event): State {
    Handle(st, e).0
  }

  function Run(st: State, events: seq<Event>): State
    decreases |events|
  {
    if events == [] then st else Run(Step(st, events[0]), events[1..])
  }

  /** Nothing stored, nothing indexed; the target has no objects of ours either. */
  predicate Initial(st: State) {
    && st.subsystems == map[] && st.controllers == map[] && st.namespaces == map[]
    && st.nqns == map[] && st.virtioCtrls == map[] && st.pagination == map[]
    && st.target.nqns == {} && st.target.attached == {} && st.target.ctrls == {}
  }
}
