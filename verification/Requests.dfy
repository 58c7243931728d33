/**
 What each create and delete does, told by the fields of its request: for every possible reply, when
 it is given; what is sent to the target; and what is stored, under which name, with which fields.
 */
module Requests {
  import opened Common
  import opened Names
  import Nqn
  import opened Target
  import opened Records
  import opened Queries
  import opened Protocol
  import opened Lifecycle

  // ---------------------------------------------------------------- names

  /** The client's ID when it gives one, else the generated one. */
  function IdOf(id: string, generated: string): string {
    if id == "" then generated else id
  }

  function NamedSubsystem(req: CreateSubsystemRequest): string {
    "nvmeSubsystems/" + IdOf(req.id, req.generated)
  }

  function NamedController(req: CreateControllerRequest): string {
    "nvmeSubsystems/" + GetSubsystemId(req.parent) + "/nvmeControllers/" + IdOf(req.id, req.generated)
  }

  function NamedNamespace(req: CreateNamespaceRequest): string {
    "nvmeSubsystems/" + GetSubsystemId(req.parent) + "/nvmeNamespaces/" + IdOf(req.id, req.generated)
  }

  function NamedVirtio(req: CreateVirtioRequest): string {
    "volumes/" + IdOf(req.id, req.generated)
  }

  lemma SubsystemKeyIsName(req: CreateSubsystemRequest)
    ensures SubsystemKey(req) == NamedSubsystem(req)
  {
    NamesSpelled(IdOf(req.id, req.generated), "");
  }

  lemma ControllerKeyIsName(req: CreateControllerRequest)
    ensures ControllerKey(req) == NamedController(req)
  {
    NamesSpelled(GetSubsystemId(req.parent), IdOf(req.id, req.generated));
  }

  lemma NamespaceKeyIsName(req: CreateNamespaceRequest)
    ensures NamespaceKey(req) == NamedNamespace(req)
  {
    NamesSpelled(GetSubsystemId(req.parent), IdOf(req.id, req.generated));
  }

  lemma VirtioKeyIsName(req: CreateVirtioRequest)
    ensures VirtioKey(req) == NamedVirtio(req)
  {
    NamesSpelled(IdOf(req.id, req.generated), "");
  }

  /** Store, memory and target are as before, and nothing was sent. */
  predicate ChangesNothing(st: State, st': State) {
    st' == st
  }

  /** The first call that goes out is c. */
  predicate SendsFirst(st: State, st': State, c: Command) {
    |st.log| < |st'.log| && st'.log[..|st.log|] == st.log && st'.log[|st.log|].Called? && st'.log[|st.log|].command == c
  }

  // ---------------------------------------------------------------- subsystems

  ghost predicate MalformedSubsystem(req: CreateSubsystemRequest) {
    || !req.checked || '/' in req.id
    || |req.nqn| > 223 || |req.serial| > 20 || |req.model| > 40 || !Nqn.Matches(Nqn.NQN_REGEX, req.nqn)
  }

  /** The request is in order, its name is not stored and its NQN not indexed. */
  ghost predicate AsksForSubsystem(st: State, req: CreateSubsystemRequest, env: Env) {
    !MalformedSubsystem(req) && env.get && NamedSubsystem(req) !in st.subsystems && req.nqn !in st.nqns
  }

  /** The target creates it and says so, and its version is known. */
  predicate GetsSubsystem(st: State, req: CreateSubsystemRequest, env: Env) {
    env.rpc.Served? && !(st.target.refusesDuplicates && req.nqn in st.target.nqns) && env.version.Some?
  }

  lemma SubsystemIsValidIff(req: CreateSubsystemRequest)
    ensures ValidCreateSubsystem(req) <==> !MalformedSubsystem(req)
  {
    Nqn.ScanDecidesRegex(req.nqn);
  }

  lemma CreateSubsystemReplies(st: State, req: CreateSubsystemRequest, env: Env)
    ensures var reply := CreateSubsystem(st, req, env).1;
            var taken := st.target.refusesDuplicates && req.nqn in st.target.nqns;
            && (reply == Err(Invalid) <==> MalformedSubsystem(req))
            && (reply == Err(AlreadyExists(req.nqn)) <==>
                  && !MalformedSubsystem(req) && env.get && NamedSubsystem(req) !in st.subsystems
                  && req.nqn in st.nqns)
            && (reply == Err(Declined) <==>
                  AsksForSubsystem(st, req, env) && (env.rpc.Refused? || (env.rpc.Served? && taken)))
            && (reply == Err(RpcError) <==>
                  && AsksForSubsystem(st, req, env)
                  && (env.rpc.Failed? || env.rpc.ReplyLost? || (env.rpc.Served? && !taken && env.version.None?)))
            && (reply == Err(StoreError) <==>
                  && !MalformedSubsystem(req)
                  && (!env.get || (AsksForSubsystem(st, req, env) && GetsSubsystem(st, req, env) && !env.write)))
            && (reply.Ok? <==>
                  && !MalformedSubsystem(req) && env.get
                  && (|| NamedSubsystem(req) in st.subsystems
                      || (req.nqn !in st.nqns && GetsSubsystem(st, req, env) && env.write)))
  {
    SubsystemIsValidIff(req);
    SubsystemKeyIsName(req);
  }

  /** One call to the target, and if that is granted, the version query. */
  lemma CreateSubsystemSends(st: State, req: CreateSubsystemRequest, env: Env)
    requires AsksForSubsystem(st, req, env)
    ensures var st' := CreateSubsystem(st, req, env).0;
            var granted := env.rpc.Served? && !(st.target.refusesDuplicates && req.nqn in st.target.nqns);
            && SendsFirst(st, st', SubsystemCreate(nqn := req.nqn, serial := req.serial, model := req.model))
            && st'.log[|st.log| + 1..] == if granted then [AskedVersion(env.version)] else []
  {
    SubsystemIsValidIff(req);
    SubsystemKeyIsName(req);
  }

  /** Answered both times, the NQN is indexed; before the first call nothing is touched at all. */
  lemma CreateSubsystemIndexes(st: State, req: CreateSubsystemRequest, env: Env)
    ensures var st' := CreateSubsystem(st, req, env).0;
            && (!AsksForSubsystem(st, req, env) ==> ChangesNothing(st, st'))
            && (AsksForSubsystem(st, req, env) ==>
                  st'.nqns == if GetsSubsystem(st, req, env) then st.nqns[req.nqn := false] else st.nqns)
  {
    SubsystemIsValidIff(req);
    SubsystemKeyIsName(req);
  }

  lemma CreateSubsystemStores(st: State, req: CreateSubsystemRequest, env: Env)
    ensures var (st', reply) := CreateSubsystem(st, req, env);
            var name := NamedSubsystem(req);
            && (reply.Ok? && name in st.subsystems ==> reply.value == st.subsystems[name])
            && (reply.Ok? && name !in st.subsystems ==>
                  && env.version.Some? && st'.subsystems == st.subsystems[name := reply.value]
                  && reply.value == Subsystem(name := name, nqn := req.nqn, serial := req.serial, model := req.model,
                                              firmware := env.version.value))
            && (reply.Err? ==> st'.subsystems == st.subsystems)
  {
    SubsystemKeyIsName(req);
  }

  /** The delete finds the record it is to delete. */
  predicate AsksToDelete<V>(records: map<string, V>, req: DeleteRequest, works: bool) {
    req.checked && works && req.name in records
  }

  lemma DeleteSubsystemReplies(st: State, req: DeleteRequest, env: Env)
    ensures var reply := DeleteSubsystem(st, req, env).1;
            var held := AsksToDelete(st.subsystems, req, env.get);
            var guarded := held && st.target.guardsChildren && st.target.HasChildren(st.subsystems[req.name].nqn);
            && (reply == Err(Invalid) <==> !req.checked)
            && (reply == Err(NotFound(req.name)) <==>
                  req.checked && env.get && req.name !in st.subsystems && !req.allowMissing)
            && (reply == Err(Declined) <==> held && (env.rpc.Refused? || (env.rpc.Served? && guarded)))
            && (reply == Err(RpcError) <==> held && (env.rpc.Failed? || env.rpc.ReplyLost?))
            && (reply == Err(StoreError) <==>
                  req.checked && (!env.get || (held && env.rpc.Served? && !guarded && !env.write)))
            && (reply.Ok? <==>
                  && req.checked && env.get
                  && if req.name in st.subsystems then env.rpc.Served? && !guarded && env.write else req.allowMissing)
  {
  }

  lemma DeleteSubsystemDoes(st: State, req: DeleteRequest, env: Env)
    requires req.name in st.subsystems ==> st.subsystems[req.name].name == req.name
    ensures var (st', reply) := DeleteSubsystem(st, req, env);
            && (!AsksToDelete(st.subsystems, req, env.get) ==> ChangesNothing(st, st'))
            && (AsksToDelete(st.subsystems, req, env.get) ==>
                  && Sends(st, st', SubsystemDelete(nqn := st.subsystems[req.name].nqn))
                  && st'.subsystems == (if reply.Ok? then st.subsystems - {req.name} else st.subsystems)
                  && st'.nqns == (if reply.Ok? || reply.error.StoreError?
                                  then st.nqns - {st.subsystems[req.name].nqn} else st.nqns))
  {
  }

  // ---------------------------------------------------------------- controllers

  predicate MalformedController(req: CreateControllerRequest) {
    !req.checked || '/' in req.id || !req.isPcie || req.pfId.None?
  }

  predicate AsksForController(st: State, req: CreateControllerRequest, env: Env) {
    && !MalformedController(req) && env.get && NamedController(req) !in st.controllers
    && env.getParent && req.parent in st.subsystems
  }

  /** The target creates it under an id of 0 or more that is free under the NQN, and says so. */
  predicate GetsController(st: State, req: CreateControllerRequest, env: Env)
    requires req.parent in st.subsystems
  {
    && env.rpc.Served? && env.cntlid >= 0
    && !(st.target.refusesDuplicates && (st.subsystems[req.parent].nqn, env.cntlid) in st.target.ctrls)
  }

  lemma CreateControllerReplies(st: State, req: CreateControllerRequest, env: Env)
    ensures var reply := CreateController(st, req, env).1;
            var asks := AsksForController(st, req, env);
            && (reply == Err(Invalid) <==> MalformedController(req))
            && (reply == Err(NotFound(req.parent)) <==>
                  && !MalformedController(req) && env.get && NamedController(req) !in st.controllers
                  && env.getParent && req.parent !in st.subsystems)
            && (reply == Err(Declined) <==>
                  asks && (env.rpc.Refused? || (env.rpc.Served? && !GetsController(st, req, env))))
            && (reply == Err(RpcError) <==> asks && (env.rpc.Failed? || env.rpc.ReplyLost?))
            && (reply == Err(StoreError) <==>
                  && !MalformedController(req)
                  && (|| !env.get || (NamedController(req) !in st.controllers && !env.getParent)
                      || (asks && GetsController(st, req, env) && !env.write)))
            && (reply.Ok? <==>
                  && !MalformedController(req) && env.get
                  && (|| NamedController(req) in st.controllers
                      || (asks && GetsController(st, req, env) && env.write)))
  {
    ControllerKeyIsName(req);
  }

  lemma CreateControllerDoes(st: State, req: CreateControllerRequest, env: Env)
    ensures var (st', reply) := CreateController(st, req, env);
            var name := NamedController(req);
            && (!AsksForController(st, req, env) ==> ChangesNothing(st, st'))
            && (AsksForController(st, req, env) ==>
                  Sends(st, st', ControllerCreate(nqn := st.subsystems[req.parent].nqn, pfId := req.pfId.value)))
            && (reply.Ok? && name in st.controllers ==> reply.value == st.controllers[name])
            && (reply.Ok? && name !in st.controllers ==>
                  && req.pfId.Some? && st'.controllers == st.controllers[name := reply.value]
                  && reply.value == Controller(name := name, pfId := req.pfId.value, cntlid := ToInt32(env.cntlid)))
            && (reply.Err? ==> st'.controllers == st.controllers)
  {
    ControllerKeyIsName(req);
  }

  /** The delete of a child finds its record and, through its name, its subsystem. */
  predicate AsksToDeleteChild<V>(records: map<string, V>, st: State, req: DeleteRequest, env: Env) {
    AsksToDelete(records, req, env.get) && env.getParent && ParentKey(req.name) in st.subsystems
  }

  /** When the delete of a child gives which reply; of the target, every answer but a refusal is success. */
  predicate RepliesToChildDelete<V>(records: map<string, V>, st: State, req: DeleteRequest, env: Env, reply: Reply<()>) {
    var held := AsksToDelete(records, req, env.get);
    var asks := AsksToDeleteChild(records, st, req, env);
    && (reply == Err(Invalid) <==> !req.checked)
    && (reply == Err(NotFound(req.name)) <==> req.checked && env.get && req.name !in records && !req.allowMissing)
    && (reply == Err(NoSubsystem(ParentKey(req.name))) <==> held && env.getParent && ParentKey(req.name) !in st.subsystems)
    && (reply == Err(Declined) <==> asks && env.rpc.Refused?)
    && (reply == Err(RpcError) <==> asks && (env.rpc.Failed? || env.rpc.ReplyLost?))
    && (reply == Err(StoreError) <==>
          req.checked && (!env.get || (held && !env.getParent) || (asks && env.rpc.Served? && !env.write)))
    && (reply.Ok? <==>
          req.checked && env.get && if req.name in records then asks && env.rpc.Served? && env.write else req.allowMissing)
  }

  lemma DeleteControllerReplies(st: State, req: DeleteRequest, env: Env)
    ensures RepliesToChildDelete(st.controllers, st, req, env, DeleteController(st, req, env).1)
  {
  }

  lemma DeleteControllerDoes(st: State, req: DeleteRequest, env: Env)
    requires req.name in st.controllers ==> st.controllers[req.name].name == req.name
    ensures var (st', reply) := DeleteController(st, req, env);
            && (!AsksToDeleteChild(st.controllers, st, req, env) ==> ChangesNothing(st, st'))
            && (AsksToDeleteChild(st.controllers, st, req, env) ==>
                  && Sends(st, st', ControllerDelete(subnqn := st.subsystems[ParentKey(req.name)].nqn,
                                                     cntlid := st.controllers[req.name].cntlid))
                  && st'.controllers == if reply.Ok? then st.controllers - {req.name} else st.controllers)
  {
  }

  // ---------------------------------------------------------------- namespaces

  predicate MalformedNamespace(req: CreateNamespaceRequest) {
    !req.checked || '/' in req.id
  }

  predicate AsksForNamespace(st: State, req: CreateNamespaceRequest, env: Env) {
    && !MalformedNamespace(req) && env.get && NamedNamespace(req) !in st.namespaces
    && env.getParent && req.parent in st.subsystems
  }

  /** The target attaches it under an nsid that is free under the NQN, and says so. */
  predicate GetsNamespace(st: State, req: CreateNamespaceRequest, env: Env)
    requires req.parent in st.subsystems
  {
    && env.rpc.Served?
    && !(st.target.refusesDuplicates && (st.subsystems[req.parent].nqn, req.nsid as int) in st.target.attached)
  }

  lemma CreateNamespaceReplies(st: State, req: CreateNamespaceRequest, env: Env)
    ensures var reply := CreateNamespace(st, req, env).1;
            var asks := AsksForNamespace(st, req, env);
            && (reply == Err(Invalid) <==> MalformedNamespace(req))
            && (reply == Err(NotFound(req.parent)) <==>
                  && !MalformedNamespace(req) && env.get && NamedNamespace(req) !in st.namespaces
                  && env.getParent && req.parent !in st.subsystems)
            && (reply == Err(Declined) <==>
                  asks && (env.rpc.Refused? || (env.rpc.Served? && !GetsNamespace(st, req, env))))
            && (reply == Err(RpcError) <==> asks && (env.rpc.Failed? || env.rpc.ReplyLost?))
            && (reply == Err(StoreError) <==>
                  && !MalformedNamespace(req)
                  && (|| !env.get || (NamedNamespace(req) !in st.namespaces && !env.getParent)
                      || (asks && GetsNamespace(st, req, env) && !env.write)))
            && (reply.Ok? <==>
                  && !MalformedNamespace(req) && env.get
                  && (|| NamedNamespace(req) in st.namespaces
                      || (asks && GetsNamespace(st, req, env) && env.write)))
  {
    NamespaceKeyIsName(req);
  }

  lemma CreateNamespaceDoes(st: State, req: CreateNamespaceRequest, env: Env)
    ensures var (st', reply) := CreateNamespace(st, req, env);
            var name := NamedNamespace(req);
            && (!AsksForNamespace(st, req, env) ==> ChangesNothing(st, st'))
            && (AsksForNamespace(st, req, env) ==>
                  Sends(st, st', NamespaceAttach(nsid := req.nsid, subnqn := st.subsystems[req.parent].nqn, cntlid := 0,
                    bdev := req.volume, uuid := req.uuid, nguid := req.nguid, eui64 := req.eui64)))
            && (reply.Ok? && name in st.namespaces ==> reply.value == st.namespaces[name])
            && (reply.Ok? && name !in st.namespaces ==>
                  && st'.namespaces == st.namespaces[name := reply.value]
                  && reply.value == Namespace(name := name, volume := req.volume, nsid := req.nsid, uuid := req.uuid,
                                              nguid := req.nguid, eui64 := req.eui64))
            && (reply.Err? ==> st'.namespaces == st.namespaces)
  {
    NamespaceKeyIsName(req);
  }

  lemma DeleteNamespaceReplies(st: State, req: DeleteRequest, env: Env)
    ensures RepliesToChildDelete(st.namespaces, st, req, env, DeleteNamespace(st, req, env).1)
  {
  }

  lemma DeleteNamespaceDoes(st: State, req: DeleteRequest, env: Env)
    requires req.name in st.namespaces ==> st.namespaces[req.name].name == req.name
    ensures var (st', reply) := DeleteNamespace(st, req, env);
            && (!AsksToDeleteChild(st.namespaces, st, req, env) ==> ChangesNothing(st, st'))
            && (AsksToDeleteChild(st.namespaces, st, req, env) ==>
                  && Sends(st, st', NamespaceDetach(nsid := st.namespaces[req.name].nsid,
                                                    subnqn := st.subsystems[ParentKey(req.name)].nqn, cntlid := 0))
                  && st'.namespaces == if reply.Ok? then st.namespaces - {req.name} else st.namespaces)
  {
  }

  // ---------------------------------------------------------------- virtio devices

  predicate AsksForVirtio(st: State, req: CreateVirtioRequest) {
    req.checked && '/' !in req.id && NamedVirtio(req) !in st.virtioCtrls && req.pfId.Some?
  }

  lemma CreateVirtioReplies(st: State, req: CreateVirtioRequest, env: Env)
    ensures var reply := CreateVirtio(st, req, env).1;
            var asks := AsksForVirtio(st, req);
            && (reply == Err(Invalid) <==> !req.checked || '/' in req.id)
            && (reply == Err(NilDereference) <==>
                  req.checked && '/' !in req.id && NamedVirtio(req) !in st.virtioCtrls && req.pfId.None?)
            && (reply == Err(Declined) <==>
                  asks && (env.rpc.Refused? || (env.rpc.Served? && env.blkName == "")))
            && (reply == Err(RpcError) <==> asks && (env.rpc.Failed? || env.rpc.ReplyLost?))
            && (reply.Ok? <==>
                  && req.checked && '/' !in req.id
                  && (NamedVirtio(req) in st.virtioCtrls || (asks && env.rpc.Served? && env.blkName != "")))
  {
    VirtioKeyIsName(req);
  }

  lemma CreateVirtioDoes(st: State, req: CreateVirtioRequest, env: Env)
    ensures var (st', reply) := CreateVirtio(st, req, env);
            var name := NamedVirtio(req);
            && (!AsksForVirtio(st, req) ==> ChangesNothing(st, st'))
            && (AsksForVirtio(st, req) ==>
                  Sends(st, st', VirtioCreate(serial := IdOf(req.id, req.generated), bdev := req.volume,
                                              pfId := req.pfId.value, numQueues := req.maxIoQps)))
            && (reply.Ok? && name in st.virtioCtrls ==> reply.value == st.virtioCtrls[name])
            && (reply.Ok? && name !in st.virtioCtrls ==>
                  && req.pfId.Some? && st'.virtioCtrls == st.virtioCtrls[name := reply.value]
                  && reply.value == VirtioBlk(name := name, pfId := req.pfId.value, volume := req.volume,
                                              maxIoQps := req.maxIoQps))
            && (reply.Err? ==> st'.virtioCtrls == st.virtioCtrls)
  {
    VirtioKeyIsName(req);
  }

  lemma DeleteVirtioReplies(st: State, req: DeleteRequest, env: Env)
    ensures var reply := DeleteVirtio(st, req, env).1;
            var held := req.checked && req.name in st.virtioCtrls;
            && (reply == Err(Invalid) <==> !req.checked)
            && (reply == Err(NotFound(req.name)) <==> req.checked && req.name !in st.virtioCtrls && !req.allowMissing)
            && (reply == Err(RpcError) <==> held && (env.rpc.Failed? || env.rpc.ReplyLost?))
            && (reply.Ok? <==>
                  && req.checked
                  && if req.name in st.virtioCtrls then env.rpc.Served? || env.rpc.Refused? else req.allowMissing)
  {
  }

  /** A held device is deleted by one forced call for its name, and dropped iff that call is answered. */
  lemma DeleteVirtioDoes(st: State, req: DeleteRequest, env: Env)
    requires req.name in st.virtioCtrls ==> st.virtioCtrls[req.name].name == req.name
    ensures var (st', reply) := DeleteVirtio(st, req, env);
            var held := req.checked && req.name in st.virtioCtrls;
            && (!held ==> ChangesNothing(st, st'))
            && (held ==>
                  && Sends(st, st', VirtioDelete(name := req.name, force := true))
                  && st'.virtioCtrls == if reply.Ok? then st.virtioCtrls - {req.name} else st.virtioCtrls)
  {
  }

  // ---------------------------------------------------------------- the same client ID again

  /** The kind and name that the client itself chose, if it gave an ID. */
  function ChosenName(e: Event): Option<(Kind, string)> {
    match e
    case CreatesSubsystem(req, _) =>
      if req.id == "" then None else Some((SubsystemKind, "nvmeSubsystems/" + req.id))
    case CreatesController(req, _) =>
      if req.id == "" then None
      else Some((ControllerKind, "nvmeSubsystems/" + GetSubsystemId(req.parent) + "/nvmeControllers/" + req.id))
    case CreatesNamespace(req, _) =>
      if req.id == "" then None
      else Some((NamespaceKind, "nvmeSubsystems/" + GetSubsystemId(req.parent) + "/nvmeNamespaces/" + req.id))
    case CreatesVirtio(req, _) =>
      if req.id == "" then None else Some((VirtioKind, "volumes/" + req.id))
    case _ => None
  }

  /** The request is in order and the store answers the first Get. */
  ghost predicate IsWellFormed(e: Event) {
    match e
    case CreatesSubsystem(req, env) => !MalformedSubsystem(req) && env.get
    case CreatesController(req, env) => !MalformedController(req) && env.get
    case CreatesNamespace(req, env) => !MalformedNamespace(req) && env.get
    case CreatesVirtio(req, _) => req.checked && '/' !in req.id
    case _ => false
  }

  lemma ChosenNameIsSubject(e: Event)
    requires ChosenName(e).Some?
    ensures IsCreate(e) && Subject(e) == ChosenName(e)
  {
    match e
    case CreatesSubsystem(req, _) => SubsystemKeyIsName(req);
    case CreatesController(req, _) => ControllerKeyIsName(req);
    case CreatesNamespace(req, _) => NamespaceKeyIsName(req);
    case CreatesVirtio(req, _) => VirtioKeyIsName(req);
  }

  lemma WellFormedReachesLookup(e: Event)
    requires IsWellFormed(e)
    ensures IsCreate(e) && ReachesLookup(e)
  {
    if e.CreatesSubsystem? { SubsystemIsValidIff(e.createSubsystem); }
  }

  /**
   Two creates with one client ID (and parent), whatever IDs were generated for them: until the record is
   ended, the second gets the record of the first, changes nothing and sends nothing.
   */
  lemma SameIdSameRecord(st: State, first: Event, between: seq<Event>, second: Event)
    requires SelfKeyed(st) && Handle(st, first).1.Ok? && IsWellFormed(second)
    requires ChosenName(first).Some? && ChosenName(second) == ChosenName(first)
    requires Lasts(Step(st, first), between, ChosenName(first).value.0, ChosenName(first).value.1)
    ensures var later := Run(Step(st, first), between);
            Handle(later, second) == (later, Handle(st, first).1)
  {
    ChosenNameIsSubject(first);
    ChosenNameIsSubject(second);
    WellFormedReachesLookup(second);
    CreateIsIdempotent(st, first, between, second);
  }

  // ---------------------------------------------------------------- restarts

  /** A restart empties the index, the virtio map and the page tokens, and touches nothing else. */
  lemma RestartEmptiesMemory(st: State)
    ensures var st' := Step(st, Restarts);
            && st'.nqns == map[] && st'.virtioCtrls == map[] && st'.pagination == map[]
            && st'.(nqns := st.nqns, virtioCtrls := st.virtioCtrls, pagination := st.pagination) == st
  {
  }
}
