/**
 The life of one record, over whole runs of calls made one after another, under every fault: written
 once, found by every later create, removed only by its own delete, and detached with what it was
 attached with.
 */
module Lifecycle {
  import opened Common
  import opened Names
  import opened Target
  import opened Records
  import opened Paging
  import opened Queries
  import opened Protocol

  predicate IsCreate(e: Event) {
    e.CreatesSubsystem? || e.CreatesController? || e.CreatesNamespace? || e.CreatesVirtio?
  }

  predicate IsDelete(e: Event) {
    e.DeletesSubsystem? || e.DeletesController? || e.DeletesNamespace? || e.DeletesVirtio?
  }

  // ---------------------------------------------------------------- what each handler may touch

  /** No subsystem comes, goes or changes, here or on the target. */
  predicate SameSubsystems(st: State, st': State) {
    && st'.subsystems == st.subsystems
    && st'.nqns == st.nqns
    && st'.target.nqns == st.target.nqns
    && st'.target.refusesDuplicates == st.target.refusesDuplicates
    && st'.target.guardsChildren == st.target.guardsChildren
  }

  /** The two states differ in their page tokens at most. */
  predicate SameButTokens(st: State, st': State) {
    st' == st.(pagination := st'.pagination)
  }

  lemma CreateSubsystemEffect(st: State, req: CreateSubsystemRequest, env: Env)
    ensures var (st', reply) := CreateSubsystem(st, req, env);
            && st'.(subsystems := st.subsystems, nqns := st.nqns, target := st.target, log := st.log) == st
            && st'.subsystems == (if reply.Ok? then st.subsystems[SubsystemKey(req) := reply.value] else st.subsystems)
            && (reply.Ok? ==> ValidCreateSubsystem(req))
            && (reply.Ok? && SubsystemKey(req) !in st.subsystems ==> reply.value.name == SubsystemKey(req))
            && (reply.Ok? && SubsystemKey(req) in st.subsystems ==> st' == st && reply.value == st.subsystems[SubsystemKey(req)])
  {
  }

  lemma DeleteSubsystemEffect(st: State, req: DeleteRequest, env: Env)
    requires req.name in st.subsystems ==> st.subsystems[req.name].name == req.name
    ensures var (st', reply) := DeleteSubsystem(st, req, env);
            && st'.(subsystems := st.subsystems, nqns := st.nqns, target := st.target, log := st.log) == st
            && st'.subsystems == (if reply.Ok? then st.subsystems - {req.name} else st.subsystems)
  {
  }

  lemma CreateControllerEffect(st: State, req: CreateControllerRequest, env: Env)
    ensures var (st', reply) := CreateController(st, req, env);
            && st'.(controllers := st.controllers, target := st.target, log := st.log) == st
            && st'.controllers == (if reply.Ok? then st.controllers[ControllerKey(req) := reply.value] else st.controllers)
            && (reply.Ok? && ControllerKey(req) !in st.controllers ==> reply.value.name == ControllerKey(req))
            && (reply.Ok? && ControllerKey(req) in st.controllers ==> st' == st && reply.value == st.controllers[ControllerKey(req)])
            && SameSubsystems(st, st')
  {
  }

  lemma DeleteControllerEffect(st: State, req: DeleteRequest, env: Env)
    requires req.name in st.controllers ==> st.controllers[req.name].name == req.name
    ensures var (st', reply) := DeleteController(st, req, env);
            && st'.(controllers := st.controllers, target := st.target, log := st.log) == st
            && st'.controllers == (if reply.Ok? then st.controllers - {req.name} else st.controllers)
            && SameSubsystems(st, st')
  {
  }

  lemma CreateNamespaceEffect(st: State, req: CreateNamespaceRequest, env: Env)
    ensures var (st', reply) := CreateNamespace(st, req, env);
            && st'.(namespaces := st.namespaces, target := st.target, log := st.log) == st
            && st'.namespaces == (if reply.Ok? then st.namespaces[NamespaceKey(req) := reply.value] else st.namespaces)
            && (reply.Ok? && NamespaceKey(req) !in st.namespaces ==> reply.value.name == NamespaceKey(req))
            && (reply.Ok? && NamespaceKey(req) in st.namespaces ==> st' == st && reply.value == st.namespaces[NamespaceKey(req)])
            && SameSubsystems(st, st')
  {
  }

  lemma DeleteNamespaceEffect(st: State, req: DeleteRequest, env: Env)
    requires req.name in st.namespaces ==> st.namespaces[req.name].name == req.name
    ensures var (st', reply) := DeleteNamespace(st, req, env);
            && st'.(namespaces := st.namespaces, target := st.target, log := st.log) == st
            && st'.namespaces == (if reply.Ok? then st.namespaces - {req.name} else st.namespaces)
            && SameSubsystems(st, st')
  {
  }

  lemma CreateVirtioEffect(st: State, req: CreateVirtioRequest, env: Env)
    ensures var (st', reply) := CreateVirtio(st, req, env);
            && st'.(virtioCtrls := st.virtioCtrls, log := st.log) == st
            && st'.virtioCtrls == (if reply.Ok? then st.virtioCtrls[VirtioKey(req) := reply.value] else st.virtioCtrls)
            && (reply.Ok? && VirtioKey(req) !in st.virtioCtrls ==> reply.value.name == VirtioKey(req))
            && (reply.Ok? && VirtioKey(req) in st.virtioCtrls ==> st' == st && reply.value == st.virtioCtrls[VirtioKey(req)])
            && SameSubsystems(st, st')
  {
  }

  lemma DeleteVirtioEffect(st: State, req: DeleteRequest, env: Env)
    requires req.name in st.virtioCtrls ==> st.virtioCtrls[req.name].name == req.name
    ensures var (st', reply) := DeleteVirtio(st, req, env);
            && st'.(virtioCtrls := st.virtioCtrls, log := st.log) == st
            && st'.virtioCtrls == (if reply.Ok? then st.virtioCtrls - {req.name} else st.virtioCtrls)
            && SameSubsystems(st, st')
  {
  }

  /** Every record is held under its own name; subsystem keys have the form "nvmeSubsystems/S". */
  ghost predicate SelfKeyed(st: State) {
    && (forall k :: k in st.subsystems ==> st.subsystems[k].name == k && ParentKey(k) == k)
    && (forall k :: k in st.controllers ==> st.controllers[k].name == k)
    && (forall k :: k in st.namespaces ==> st.namespaces[k].name == k)
    && (forall k :: k in st.virtioCtrls ==> st.virtioCtrls[k].name == k)
  }

  lemma KeyOfSubsystem(req: CreateSubsystemRequest)
    requires IsSegment(req.id)
    ensures ParentKey(SubsystemKey(req)) == SubsystemKey(req)
  {
    NameRoundTrip(ChooseId(req.id, req.generated), "");
  }

  lemma SelfKeyedCreate(st: State, e: Event)
    requires SelfKeyed(st) && IsCreate(e)
    ensures SelfKeyed(Step(st, e))
  {
    match e
    case CreatesSubsystem(req, env) =>
      CreateSubsystemEffect(st, req, env);
      if ValidCreateSubsystem(req) { KeyOfSubsystem(req); }
    case CreatesController(req, env) => CreateControllerEffect(st, req, env);
    case CreatesNamespace(req, env) => CreateNamespaceEffect(st, req, env);
    case CreatesVirtio(req, env) => CreateVirtioEffect(st, req, env);
  }

  lemma SelfKeyedDelete(st: State, e: Event)
    requires SelfKeyed(st) && IsDelete(e)
    ensures SelfKeyed(Step(st, e))
  {
    match e
    case DeletesSubsystem(req, env) => DeleteSubsystemEffect(st, req, env);
    case DeletesController(req, env) => DeleteControllerEffect(st, req, env);
    case DeletesNamespace(req, env) => DeleteNamespaceEffect(st, req, env);
    case DeletesVirtio(req, env) => DeleteVirtioEffect(st, req, env);
  }

  lemma TurnEffect<R>(st: State, req: ListRequest, rows: Reply<seq<R>>, uuid: string)
    ensures SameButTokens(st, Turn(st, req, rows, uuid).0)
  {
  }

  lemma AskEffect(st: State, q: Query)
    ensures SameButTokens(st, Ask(st, q).0)
  {
    match q
    case ListsSubsystems(req, rows, uuid) => TurnEffect(st, req, Answered(rows), uuid);
    case ListsControllers(req, env, rows, uuid) => TurnEffect(st, req, ControllerRows(st, req, env, rows), uuid);
    case ListsNamespaces(req, env, nsids, uuid) => TurnEffect(st, req, NamespaceRows(st, req, env, nsids), uuid);
    case ListsVirtioBlks(req, rows, uuid) => TurnEffect(st, req, Answered(rows), uuid);
    case _ =>
  }

  /** A call that is neither create nor delete writes page tokens at most; a restart empties the maps. */
  lemma OtherEffect(st: State, e: Event)
    requires !IsCreate(e) && !IsDelete(e)
    ensures if e.Restarts? then Step(st, e) == Restarted(st) else SameButTokens(st, Step(st, e))
  {
    if e.Asks? { AskEffect(st, e.query); }
  }

  lemma SelfKeyedStep(st: State, e: Event)
    requires SelfKeyed(st)
    ensures SelfKeyed(Step(st, e))
  {
    if IsCreate(e) {
      SelfKeyedCreate(st, e);
    } else if IsDelete(e) {
      SelfKeyedDelete(st, e);
    } else {
      OtherEffect(st, e);
    }
  }

  /** Every state reachable from a self-keyed one is self-keyed, under all faults and restarts. */
  lemma {:induction false} SelfKeyedRun(st: State, events: seq<Event>)
    requires SelfKeyed(st)
    ensures SelfKeyed(Run(st, events))
    decreases |events|
  {
    if events != [] {
      SelfKeyedStep(st, events[0]);
      SelfKeyedRun(Step(st, events[0]), events[1..]);
    }
  }

  // ---------------------------------------------------------------- write-once records

  /** The kind and name of the resource that a create or delete call is about. */
  function Subject(e: Event): Option<(Kind, string)> {
    match e
    case CreatesSubsystem(req, _) => Some((SubsystemKind, SubsystemKey(req)))
    case CreatesController(req, _) => Some((ControllerKind, ControllerKey(req)))
    case CreatesNamespace(req, _) => Some((NamespaceKind, NamespaceKey(req)))
    case CreatesVirtio(req, _) => Some((VirtioKind, VirtioKey(req)))
    case DeletesSubsystem(req, _) => Some((SubsystemKind, req.name))
    case DeletesController(req, _) => Some((ControllerKind, req.name))
    case DeletesNamespace(req, _) => Some((NamespaceKind, req.name))
    case DeletesVirtio(req, _) => Some((VirtioKind, req.name))
    case _ => None
  }

  /** The event takes the record away: a delete of that name that succeeds, or the memory is lost. */
  predicate Ends(st: State, e: Event, kind: Kind, key: string) {
    || (IsDelete(e) && Subject(e) == Some((kind, key)) && Handle(st, e).1.Ok?)
    || (e.Restarts? && kind.VirtioKind?)
  }

  /** The record that the event creates under the key, if it does. */
  function Made(st: State, e: Event, kind: Kind, key: string): Option<Record> {
    if IsCreate(e) && Subject(e) == Some((kind, key)) && Handle(st, e).1.Ok?
    then Some(Handle(st, e).1.value) else None
  }

  lemma CreateLeavesOtherKinds(st: State, e: Event, kind: Kind, key: string)
    requires SelfKeyed(st) && IsCreate(e) && Subject(e).value.0 != kind
    ensures Lookup(Step(st, e), kind, key) == Lookup(st, kind, key)
  {
    match e
    case CreatesSubsystem(req, env) => CreateSubsystemEffect(st, req, env);
    case CreatesController(req, env) => CreateControllerEffect(st, req, env);
    case CreatesNamespace(req, env) => CreateNamespaceEffect(st, req, env);
    case CreatesVirtio(req, env) => CreateVirtioEffect(st, req, env);
  }

  lemma DeleteLeavesOtherKinds(st: State, e: Event, kind: Kind, key: string)
    requires SelfKeyed(st) && IsDelete(e) && Subject(e).value.0 != kind
    ensures Lookup(Step(st, e), kind, key) == Lookup(st, kind, key)
  {
    match e
    case DeletesSubsystem(req, env) => DeleteSubsystemEffect(st, req, env);
    case DeletesController(req, env) => DeleteControllerEffect(st, req, env);
    case DeletesNamespace(req, env) => DeleteNamespaceEffect(st, req, env);
    case DeletesVirtio(req, env) => DeleteVirtioEffect(st, req, env);
  }

  lemma CreateOfKindStep(st: State, e: Event, kind: Kind, key: string)
    requires SelfKeyed(st) && IsCreate(e) && Subject(e).value.0 == kind
    ensures Lookup(Step(st, e), kind, key) ==
            if Lookup(st, kind, key).Some? then Lookup(st, kind, key) else Made(st, e, kind, key)
  {
    match e
    case CreatesSubsystem(req, env) => CreateSubsystemEffect(st, req, env);
    case CreatesController(req, env) => CreateControllerEffect(st, req, env);
    case CreatesNamespace(req, env) => CreateNamespaceEffect(st, req, env);
    case CreatesVirtio(req, env) => CreateVirtioEffect(st, req, env);
  }

  lemma CreateStep(st: State, e: Event, kind: Kind, key: string)
    requires SelfKeyed(st) && IsCreate(e)
    ensures Lookup(Step(st, e), kind, key) ==
            if Lookup(st, kind, key).Some? then Lookup(st, kind, key) else Made(st, e, kind, key)
  {
    if Subject(e).value.0 == kind {
      CreateOfKindStep(st, e, kind, key);
    } else {
      CreateLeavesOtherKinds(st, e, kind, key);
    }
  }

  lemma DeleteOfKindStep(st: State, e: Event, kind: Kind, key: string)
    requires SelfKeyed(st) && IsDelete(e) && Subject(e).value.0 == kind
    ensures Lookup(Step(st, e), kind, key) ==
            if Ends(st, e, kind, key) then None else Lookup(st, kind, key)
  {
    match e
    case DeletesSubsystem(req, env) => DeleteSubsystemEffect(st, req, env);
    case DeletesController(req, env) => DeleteControllerEffect(st, req, env);
    case DeletesNamespace(req, env) => DeleteNamespaceEffect(st, req, env);
    case DeletesVirtio(req, env) => DeleteVirtioEffect(st, req, env);
  }

  lemma DeleteStep(st: State, e: Event, kind: Kind, key: string)
    requires SelfKeyed(st) && IsDelete(e)
    ensures Lookup(Step(st, e), kind, key) ==
            if Ends(st, e, kind, key) then None else Lookup(st, kind, key)
  {
    if Subject(e).value.0 == kind {
      DeleteOfKindStep(st, e, kind, key);
    } else {
      DeleteLeavesOtherKinds(st, e, kind, key);
    }
  }

  /**
   What one event does to one key. A held record survives unchanged unless the event ends it, and
   then it is gone; an unheld key gets a record only from a successful create of that very name,
   and that record is the create's reply.
   */
  lemma RecordStep(st: State, e: Event, kind: Kind, key: string)
    requires SelfKeyed(st)
    ensures Lookup(Step(st, e), kind, key) ==
            if Ends(st, e, kind, key) then None
            else if Lookup(st, kind, key).Some? then Lookup(st, kind, key)
            else Made(st, e, kind, key)
  {
    if IsCreate(e) {
      CreateStep(st, e, kind, key);
    } else if IsDelete(e) {
      DeleteStep(st, e, kind, key);
    } else {
      OtherEffect(st, e);
    }
  }

  /** Nothing in the run ends the record. */
  predicate Lasts(st: State, events: seq<Event>, kind: Kind, key: string)
    decreases |events|
  {
    events == [] || (!Ends(st, events[0], kind, key) && Lasts(Step(st, events[0]), events[1..], kind, key))
  }

  /** Write-once: until a successful delete of its name, a record keeps the value it was created with. */
  lemma {:induction false} WriteOnce(st: State, events: seq<Event>, kind: Kind, key: string)
    requires SelfKeyed(st) && Lookup(st, kind, key).Some? && Lasts(st, events, kind, key)
    ensures Lookup(Run(st, events), kind, key) == Lookup(st, kind, key)
    decreases |events|
  {
    if events != [] {
      RecordStep(st, events[0], kind, key);
      SelfKeyedStep(st, events[0]);
      WriteOnce(Step(st, events[0]), events[1..], kind, key);
    }
  }

  /** The request gets past validation and the store answers the first Get. */
  predicate ReachesLookup(e: Event)
    requires IsCreate(e)
  {
    match e
    case CreatesSubsystem(req, env) => ValidCreateSubsystem(req) && env.get
    case CreatesController(req, env) => ValidCreateController(req) && env.get
    case CreatesNamespace(req, env) => req.checked && IsSegment(req.id) && env.get
    case CreatesVirtio(req, _) => req.checked && IsSegment(req.id)
  }

  lemma CreatedIsFound(st: State, e: Event)
    requires IsCreate(e) && Handle(st, e).1.Ok?
    ensures Lookup(Step(st, e), Subject(e).value.0, Subject(e).value.1) == Some(Handle(st, e).1.value)
  {
  }

  lemma RepeatedCreate(st: State, e: Event)
    requires IsCreate(e) && ReachesLookup(e)
    requires Lookup(st, Subject(e).value.0, Subject(e).value.1).Some?
    ensures Handle(st, e) == (st, Ok(Lookup(st, Subject(e).value.0, Subject(e).value.1).value))
  {
  }

  /**
   Creating is idempotent across any run: after a successful create, and until the record is
   deleted, every create of the same name returns that same record, changes nothing, and sends
   nothing to the target, whatever else the second request asks for.
   */
  lemma CreateIsIdempotent(st: State, first: Event, between: seq<Event>, second: Event)
    requires SelfKeyed(st)
    requires IsCreate(first) && Handle(st, first).1.Ok?
    requires IsCreate(second) && Subject(second) == Subject(first) && ReachesLookup(second)
    requires Lasts(Step(st, first), between, Subject(first).value.0, Subject(first).value.1)
    ensures var later := Run(Step(st, first), between);
            Handle(later, second) == (later, Handle(st, first).1)
  {
    var (kind, key) := Subject(first).value;
    CreatedIsFound(st, first);
    SelfKeyedStep(st, first);
    WriteOnce(Step(st, first), between, kind, key);
    RepeatedCreate(Run(Step(st, first), between), second);
  }

  /** A successful delete removes its own key and no other, from the store and from VirtioCtrls. */
  lemma DeleteIsExact(st: State, e: Event, kind: Kind, key: string)
    requires SelfKeyed(st) && IsDelete(e) && Handle(st, e).1.Ok?
    ensures Lookup(Step(st, e), kind, key) ==
            if Subject(e) == Some((kind, key)) then None else Lookup(st, kind, key)
  {
    RecordStep(st, e, kind, key);
  }

  /** A virtio delete succeeds, and drops the record, even when the target refuses it. */
  lemma RefusedVirtioDeleteForgets(st: State, req: DeleteRequest, env: Env)
    requires SelfKeyed(st) && req.checked && req.name in st.virtioCtrls && env.rpc.Refused?
    ensures var (st', reply) := DeleteVirtio(st, req, env);
            reply == Ok(()) && st'.target == st.target && st'.virtioCtrls == st.virtioCtrls - {req.name}
  {
  }

  /** Deleting what is not there sends nothing, changes nothing, and succeeds iff that is allowed. */
  lemma DeleteOfMissing(st: State, e: Event)
    requires IsDelete(e) && e.delete.checked && (e.env.get || e.DeletesVirtio?)
    requires Lookup(st, Subject(e).value.0, Subject(e).value.1).None?
    ensures Handle(st, e) == (st, if e.delete.allowMissing then Ok(Empty) else Err(NotFound(e.delete.name)))
  {
  }

  predicate IsTurnedAway(reply: Reply<Record>) {
    && reply.Err?
    && (reply.error.Invalid? || reply.error.NotFound? || reply.error.NoSubsystem? || reply.error.AlreadyExists?)
  }

  lemma TurnedAwayCreate(st: State, e: Event)
    requires IsCreate(e) && IsTurnedAway(Handle(st, e).1)
    ensures Step(st, e) == st
  {
  }

  lemma TurnedAwayDelete(st: State, e: Event)
    requires IsDelete(e) && IsTurnedAway(Handle(st, e).1)
    ensures Step(st, e) == st
  {
  }

  lemma TurnedAwayPage<R>(st: State, req: ListRequest, rows: Reply<seq<R>>, uuid: string)
    requires Turn(st, req, rows, uuid).1.Err?
    ensures Turn(st, req, rows, uuid).0 == st
  {
  }

  lemma TurnedAwayQuery(st: State, q: Query)
    requires Ask(st, q).1.Err? && !Ask(st, q).1.error.NilDereference?
    ensures Ask(st, q).0 == st
  {
    match q
    case ListsSubsystems(req, rows, uuid) => TurnedAwayPage(st, req, Answered(rows), uuid);
    case ListsControllers(req, env, rows, uuid) =>
      var answer := ControllerRows(st, req, env, rows);
      if Turn(st, req, answer, uuid).1.Err? { TurnedAwayPage(st, req, answer, uuid); }
    case ListsNamespaces(req, env, nsids, uuid) =>
      TurnedAwayPage(st, req, NamespaceRows(st, req, env, nsids), uuid);
    case ListsVirtioBlks(req, rows, uuid) => TurnedAwayPage(st, req, Answered(rows), uuid);
    case _ =>
  }

  /** A call turned away for what it asks, or for what is not or already there, leaves no trace. */
  lemma TurnedAwayLeavesNoTrace(st: State, e: Event)
    requires IsTurnedAway(Handle(st, e).1)
    ensures Step(st, e) == st
  {
    if IsCreate(e) {
      TurnedAwayCreate(st, e);
    } else if IsDelete(e) {
      TurnedAwayDelete(st, e);
    } else if e.Asks? {
      TurnedAwayQuery(st, e.query);
    }
  }

  // ---------------------------------------------------------------- the forms of the keys

  predicate IsNameOf(kind: Kind, key: string) {
    match kind
    case SubsystemKind => IsSubsystemName(key)
    case ControllerKind => IsControllerName(key)
    case NamespaceKind => IsNamespaceName(key)
    case VirtioKind => IsVolumeName(key)
  }

  ghost predicate WellNamed(st: State) {
    forall kind, key :: Lookup(st, kind, key).Some? ==> IsNameOf(kind, key)
  }

  lemma MadeIsNamed(e: Event)
    requires IsCreate(e) && ReachesLookup(e)
    ensures IsNameOf(Subject(e).value.0, Subject(e).value.1)
  {
    match e
    case CreatesSubsystem(req, env) => BuiltNames(ChooseId(req.id, req.generated), "");
    case CreatesController(req, env) => BuiltNames(GetSubsystemId(req.parent), ChooseId(req.id, req.generated));
    case CreatesNamespace(req, env) => BuiltNames(GetSubsystemId(req.parent), ChooseId(req.id, req.generated));
    case CreatesVirtio(req, env) => BuiltNames(ChooseId(req.id, req.generated), "");
  }

  lemma MadeReachesLookup(st: State, e: Event)
    requires IsCreate(e) && Handle(st, e).1.Ok?
    ensures ReachesLookup(e)
  {
  }

  /**
   In every run each key has the form of its kind's names, so no key is held by two kinds: what the
   program keeps in one keyed store, a map per kind can keep.
   */
  lemma {:induction false} KeysStayApart(st: State, events: seq<Event>)
    requires SelfKeyed(st) && WellNamed(st)
    ensures WellNamed(Run(st, events))
    ensures forall kind, other, key ::
              Lookup(Run(st, events), kind, key).Some? && Lookup(Run(st, events), other, key).Some? ==> kind == other
    decreases |events|
  {
    if events != [] {
      var e, next := events[0], Step(st, events[0]);
      forall kind, key | Lookup(next, kind, key).Some? ensures IsNameOf(kind, key) {
        RecordStep(st, e, kind, key);
        if Lookup(st, kind, key).None? {
          MadeReachesLookup(st, e);
          MadeIsNamed(e);
        }
      }
      SelfKeyedStep(st, e);
      KeysStayApart(next, events[1..]);
    }
  }

  // ---------------------------------------------------------------- balanced attach and detach

  /** Exactly one call goes out, and it is c. */
  predicate Sends(st: State, st': State, c: Command) {
    |st'.log| == |st.log| + 1 && st'.log[..|st.log|] == st.log && st'.log[|st.log|].Called? && st'.log[|st.log|].command == c
  }

  /** The key that a create gives a child of a stored subsystem leads back to that subsystem. */
  lemma NamespaceKeyParent(st: State, req: CreateNamespaceRequest)
    requires SelfKeyed(st) && IsSegment(req.id) && req.parent in st.subsystems
    ensures ParentKey(NamespaceKey(req)) == req.parent
  {
    NameRoundTrip(GetSubsystemId(req.parent), ChooseId(req.id, req.generated));
  }

  lemma ControllerKeyParent(st: State, req: CreateControllerRequest)
    requires SelfKeyed(st) && IsSegment(req.id) && req.parent in st.subsystems
    ensures ParentKey(ControllerKey(req)) == req.parent
  {
    NameRoundTrip(GetSubsystemId(req.parent), ChooseId(req.id, req.generated));
  }

  lemma AttachSends(st: State, req: CreateNamespaceRequest, env: Env)
    requires CreateNamespace(st, req, env).1.Ok? && NamespaceKey(req) !in st.namespaces
    ensures req.parent in st.subsystems && IsSegment(req.id)
    ensures var (st', reply) := CreateNamespace(st, req, env);
            && Sends(st, st', NamespaceAttach(
                 req.nsid, st.subsystems[req.parent].nqn, 0, req.volume, req.uuid, req.nguid, req.eui64))
            && st'.subsystems == st.subsystems
            && NamespaceKey(req) in st'.namespaces && st'.namespaces[NamespaceKey(req)].nsid == req.nsid
  {
  }

  lemma DetachSends(st: State, del: DeleteRequest, env: Env)
    requires del.checked && env.get && env.getParent
    requires del.name in st.namespaces && ParentKey(del.name) in st.subsystems
    ensures Sends(st, DeleteNamespace(st, del, env).0,
              NamespaceDetach(st.namespaces[del.name].nsid, st.subsystems[ParentKey(del.name)].nqn, 0))
  {
  }

  /**
   A namespace's detach names the NQN, controller and nsid of its attach: whatever happens between
   create and delete, as long as neither the namespace nor its subsystem is successfully deleted.
   */
  lemma DetachMatchesAttach(
      st: State, req: CreateNamespaceRequest, env: Env, between: seq<Event>, del: DeleteRequest, delEnv: Env)
    requires SelfKeyed(st) && NamespaceKey(req) !in st.namespaces
    requires CreateNamespace(st, req, env).1.Ok?
    requires var st1 := CreateNamespace(st, req, env).0;
             && Lasts(st1, between, NamespaceKind, NamespaceKey(req))
             && Lasts(st1, between, SubsystemKind, req.parent)
    requires del.checked && del.name == NamespaceKey(req) && delEnv.get && delEnv.getParent
    ensures req.parent in st.subsystems
    ensures var nqn := st.subsystems[req.parent].nqn;
            var st1 := CreateNamespace(st, req, env).0;
            var st2 := Run(st1, between);
            && Sends(st, st1, NamespaceAttach(req.nsid, nqn, 0, req.volume, req.uuid, req.nguid, req.eui64))
            && Sends(st2, DeleteNamespace(st2, del, delEnv).0, NamespaceDetach(req.nsid, nqn, 0))
  {
    var st1 := CreateNamespace(st, req, env).0;
    AttachSends(st, req, env);
    NamespaceKeyParent(st, req);
    SelfKeyedNamespace(st, req, env);
    WriteOnce(st1, between, NamespaceKind, NamespaceKey(req));
    WriteOnce(st1, between, SubsystemKind, req.parent);
    DetachSends(Run(st1, between), del, delEnv);
  }

  lemma SelfKeyedNamespace(st: State, req: CreateNamespaceRequest, env: Env)
    requires SelfKeyed(st)
    ensures SelfKeyed(CreateNamespace(st, req, env).0)
  {
    CreateNamespaceEffect(st, req, env);
  }

  lemma ControllerCreateSends(st: State, req: CreateControllerRequest, env: Env)
    requires CreateController(st, req, env).1.Ok? && ControllerKey(req) !in st.controllers
    ensures req.parent in st.subsystems && IsSegment(req.id) && req.pfId.Some? && env.cntlid >= 0
    ensures var (st', reply) := CreateController(st, req, env);
            && Sends(st, st', ControllerCreate(st.subsystems[req.parent].nqn, req.pfId.value))
            && st'.subsystems == st.subsystems
            && ControllerKey(req) in st'.controllers
            && st'.controllers[ControllerKey(req)].cntlid == ToInt32(env.cntlid)
  {
  }

  lemma ControllerDeleteSends(st: State, del: DeleteRequest, env: Env)
    requires del.checked && env.get && env.getParent
    requires del.name in st.controllers && ParentKey(del.name) in st.subsystems
    ensures Sends(st, DeleteController(st, del, env).0,
              ControllerDelete(st.subsystems[ParentKey(del.name)].nqn, st.controllers[del.name].cntlid))
  {
  }

  lemma SelfKeyedController(st: State, req: CreateControllerRequest, env: Env)
    requires SelfKeyed(st)
    ensures SelfKeyed(CreateController(st, req, env).0)
  {
    CreateControllerEffect(st, req, env);
  }

  /**
   Likewise a controller's delete carries the NQN sent at its create and the id the target chose,
   exactly when that id fits in 31 bits.
   */
  lemma ControllerDeleteMatchesCreate(
      st: State, req: CreateControllerRequest, env: Env, between: seq<Event>, del: DeleteRequest, delEnv: Env)
    requires SelfKeyed(st) && ControllerKey(req) !in st.controllers
    requires CreateController(st, req, env).1.Ok?
    requires var st1 := CreateController(st, req, env).0;
             && Lasts(st1, between, ControllerKind, ControllerKey(req))
             && Lasts(st1, between, SubsystemKind, req.parent)
    requires del.checked && del.name == ControllerKey(req) && delEnv.get && delEnv.getParent
    ensures req.parent in st.subsystems && req.pfId.Some?
    ensures var nqn := st.subsystems[req.parent].nqn;
            var st1 := CreateController(st, req, env).0;
            var st2 := Run(st1, between);
            var st3 := DeleteController(st2, del, delEnv).0;
            && Sends(st, st1, ControllerCreate(nqn, req.pfId.value))
            && Sends(st2, st3, ControllerDelete(nqn, ToInt32(env.cntlid)))
            && (Sends(st2, st3, ControllerDelete(nqn, env.cntlid)) <==> env.cntlid < 0x8000_0000)
  {
    var st1 := CreateController(st, req, env).0;
    ControllerCreateSends(st, req, env);
    ControllerKeyParent(st, req);
    SelfKeyedController(st, req, env);
    WriteOnce(st1, between, ControllerKind, ControllerKey(req));
    WriteOnce(st1, between, SubsystemKind, req.parent);
    ControllerDeleteSends(Run(st1, between), del, delEnv);
    NarrowingIsCongruent(env.cntlid, 0);
  }
}
