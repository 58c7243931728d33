/**
 Namespaces and controllers against the target, one side at a time: what is stored is on the target
 and has a stored parent, through every fault of a create; what is on the target without being stored
 is accounted for exactly, stays there for good, and keeps its subsystem from ever being deleted.
 */
module Children {
  import opened Common
  import opened Names
  import opened Target
  import opened Records
  import opened Protocol
  import opened Lifecycle
  import opened Uniqueness

  datatype ChildKind = Namespaces | Controllers

  /** The stored children of the kind: nsids or controller ids, by name. */
  function Ids(st: State, kind: ChildKind): map<string, int> {
    match kind
    case Namespaces => Nsids(st.namespaces)
    case Controllers => Cntlids(st.controllers)
  }

  function Nsids(namespaces: map<string, Namespace>): map<string, int> {
    map k | k in namespaces :: namespaces[k].nsid as int
  }

  function Cntlids(controllers: map<string, Controller>): map<string, int> {
    map k | k in controllers :: controllers[k].cntlid as int
  }

  lemma NsidsMove(namespaces: map<string, Namespace>, key: string, record: Namespace)
    ensures Nsids(namespaces[key := record]) == Nsids(namespaces)[key := record.nsid as int]
    ensures Nsids(namespaces - {key}) == Nsids(namespaces) - {key}
  {
  }

  lemma CntlidsMove(controllers: map<string, Controller>, key: string, record: Controller)
    ensures Cntlids(controllers[key := record]) == Cntlids(controllers)[key := record.cntlid as int]
    ensures Cntlids(controllers - {key}) == Cntlids(controllers) - {key}
  {
  }

  /** The children of the kind that the target has. */
  function Provided(t: Target, kind: ChildKind): set<(string, int)> {
    match kind
    case Namespaces => t.attached
    case Controllers => t.ctrls
  }

  /** (parent's NQN, id) of every child whose parent is there. */
  function Pairs(children: map<string, int>, nqns: map<string, string>): map<string, (string, int)> {
    map k | k in children && ParentKey(k) in nqns :: (nqns[ParentKey(k)], children[k])
  }

  function PairsOf(st: State, kind: ChildKind): map<string, (string, int)> {
    Pairs(Ids(st, kind), NqnOf(st))
  }

  /** Every child has a parent and a pair of its own among the given ones. */
  ghost predicate Backed(children: map<string, int>, nqns: map<string, string>, pairs: set<(string, int)>) {
    && (forall k :: k in children ==> ParentKey(k) in nqns)
    && Injective(Pairs(children, nqns)) && Pairs(children, nqns).Values <= pairs
  }

  /** The target refuses duplicates and the deletion of a subsystem that has children; all stored ones are backed. */
  ghost predicate ChildBarrier(st: State, kind: ChildKind) {
    && st.target.refusesDuplicates && st.target.guardsChildren
    && SelfKeyed(st) && Backed(Ids(st, kind), NqnOf(st), Provided(st.target, kind))
  }

  /** Children the target has although no stored record stands for them. */
  function Leaked(st: State, kind: ChildKind): set<(string, int)> {
    Provided(st.target, kind) - PairsOf(st, kind).Values
  }

  // ---------------------------------------------------------------- how children move

  /** What one event does to the children of a kind, in the store and on the target. */
  datatype ChildMove =
    | Stays
    | Gains(key: string, id: int, actual: int)  // a record with one id, a child of the target with another or the same
    | Leaks(pair: (string, int))                // the child, but no record
    | Loses(key: string)                        // record and child
    | Strands(key: string)                      // the child, but not its record

  predicate Moved(nqns: map<string, string>, m: map<string, int>, m': map<string, int>,
                  pairs: set<(string, int)>, pairs': set<(string, int)>, move: ChildMove)
  {
    match move
    case Stays => m' == m && pairs' == pairs
    case Gains(key, id, actual) =>
      && key !in m && ParentKey(key) in nqns && m' == m[key := id]
      && (nqns[ParentKey(key)], actual) !in pairs && pairs' == pairs + {(nqns[ParentKey(key)], actual)}
    case Leaks(pair) => m' == m && pair !in pairs && pairs' == pairs + {pair}
    case Loses(key) =>
      && key in m && ParentKey(key) in nqns && m' == m - {key}
      && pairs' == pairs - {(nqns[ParentKey(key)], m[key])}
    case Strands(key) =>
      key in m && ParentKey(key) in nqns && m' == m && pairs' == pairs - {(nqns[ParentKey(key)], m[key])}
  }

  /** The target acts, given the chance to decide. */
  predicate Acts(env: Env) {
    env.rpc.Served? || env.rpc.ReplyLost?
  }

  /** The caller learns of it, and the store write succeeds. */
  predicate Settles(env: Env) {
    env.rpc.Served? && env.write
  }

  predicate Attaches(st: State, req: CreateNamespaceRequest, env: Env) {
    && req.checked && IsSegment(req.id) && env.get && NamespaceKey(req) !in st.namespaces
    && env.getParent && req.parent in st.subsystems && Acts(env)
    && (st.subsystems[req.parent].nqn, req.nsid as int) !in st.target.attached
  }

  predicate Detaches(st: State, req: DeleteRequest, env: Env) {
    && req.checked && env.get && req.name in st.namespaces
    && env.getParent && ParentKey(req.name) in st.subsystems && Acts(env)
  }

  function NamespaceMove(st: State, e: Event): ChildMove {
    match e
    case CreatesNamespace(req, env) =>
      if !Attaches(st, req, env) then Stays
      else if Settles(env) then Gains(NamespaceKey(req), req.nsid, req.nsid)
      else Leaks((st.subsystems[req.parent].nqn, req.nsid as int))
    case DeletesNamespace(req, env) =>
      if !Detaches(st, req, env) then Stays else if Settles(env) then Loses(req.name) else Strands(req.name)
    case _ => Stays
  }

  predicate Plugs(st: State, req: CreateControllerRequest, env: Env) {
    && ValidCreateController(req) && env.get && ControllerKey(req) !in st.controllers
    && env.getParent && req.parent in st.subsystems && Acts(env) && env.cntlid >= 0
    && (st.subsystems[req.parent].nqn, env.cntlid) !in st.target.ctrls
  }

  predicate Unplugs(st: State, req: DeleteRequest, env: Env) {
    && req.checked && env.get && req.name in st.controllers
    && env.getParent && ParentKey(req.name) in st.subsystems && Acts(env)
  }

  /** The stored id is the target's, narrowed to 32 bits. */
  function ControllerMove(st: State, e: Event): ChildMove {
    match e
    case CreatesController(req, env) =>
      if !Plugs(st, req, env) then Stays
      else if Settles(env) then Gains(ControllerKey(req), ToInt32(env.cntlid), env.cntlid)
      else Leaks((st.subsystems[req.parent].nqn, env.cntlid))
    case DeletesController(req, env) =>
      if !Unplugs(st, req, env) then Stays else if Settles(env) then Loses(req.name) else Strands(req.name)
    case _ => Stays
  }

  function Move(st: State, e: Event, kind: ChildKind): ChildMove {
    match kind
    case Namespaces => NamespaceMove(st, e)
    case Controllers => ControllerMove(st, e)
  }

  // ---------------------------------------------------------------- the handlers move children so

  /** Neither subsystems nor the children of the other kind are touched. */
  predicate TouchesOnly(st: State, st': State, kind: ChildKind) {
    && SameSubsystems(st, st')
    && (kind.Namespaces? ==> st'.controllers == st.controllers && st'.target.ctrls == st.target.ctrls)
    && (kind.Controllers? ==> st'.namespaces == st.namespaces && st'.target.attached == st.target.attached)
  }

  predicate MovesKind(st: State, st': State, e: Event, kind: ChildKind) {
    Moved(NqnOf(st), Ids(st, kind), Ids(st', kind), Provided(st.target, kind), Provided(st'.target, kind), Move(st, e, kind))
  }

  /** The event changes the subsystems not at all and the children of either kind as its move says. */
  predicate MovesChildren(st: State, st': State, e: Event) {
    SameSubsystems(st, st') && MovesKind(st, st', e, Namespaces) && MovesKind(st, st', e, Controllers)
  }

  /** What a create of the kind does, in the terms of its move. */
  predicate AttachDone(st: State, st': State, req: CreateNamespaceRequest, env: Env) {
    && TouchesOnly(st, st', Namespaces)
    && st'.target.attached == (if Attaches(st, req, env)
         then st.target.attached + {(st.subsystems[req.parent].nqn, req.nsid as int)} else st.target.attached)
    && if Attaches(st, req, env) && Settles(env)
       then NamespaceKey(req) in st'.namespaces && st'.namespaces[NamespaceKey(req)].nsid == req.nsid
            && st'.namespaces == st.namespaces[NamespaceKey(req) := st'.namespaces[NamespaceKey(req)]]
       else st'.namespaces == st.namespaces
  }

  predicate AttachUndone(st: State, st': State, req: DeleteRequest, env: Env) {
    && TouchesOnly(st, st', Namespaces)
    && st'.target.attached == (if Detaches(st, req, env)
         then st.target.attached - {(st.subsystems[ParentKey(req.name)].nqn, st.namespaces[req.name].nsid as int)}
         else st.target.attached)
    && st'.namespaces == (if Detaches(st, req, env) && Settles(env) then st.namespaces - {req.name} else st.namespaces)
  }

  lemma CreateNamespaceTarget(st: State, req: CreateNamespaceRequest, env: Env)
    requires st.target.refusesDuplicates
    ensures var target := CreateNamespace(st, req, env).0.target;
            target == if Attaches(st, req, env)
                      then st.target.(attached := st.target.attached + {(st.subsystems[req.parent].nqn, req.nsid as int)})
                      else st.target
  {
  }

  lemma CreateNamespaceReply(st: State, req: CreateNamespaceRequest, env: Env)
    requires st.target.refusesDuplicates && NamespaceKey(req) !in st.namespaces
    ensures var reply := CreateNamespace(st, req, env).1;
            && (reply.Ok? <==> Attaches(st, req, env) && Settles(env))
            && (reply.Ok? ==> reply.value.nsid == req.nsid)
  {
  }

  lemma CreateNamespaceDoes(st: State, req: CreateNamespaceRequest, env: Env)
    requires st.target.refusesDuplicates
    ensures AttachDone(st, CreateNamespace(st, req, env).0, req, env)
  {
    CreateNamespaceTarget(st, req, env);
    CreateNamespaceEffect(st, req, env);
    if NamespaceKey(req) !in st.namespaces { CreateNamespaceReply(st, req, env); }
  }

  lemma DeleteNamespaceTarget(st: State, req: DeleteRequest, env: Env)
    ensures var target := DeleteNamespace(st, req, env).0.target;
            target == if Detaches(st, req, env)
                      then st.target.(attached := st.target.attached -
                             {(st.subsystems[ParentKey(req.name)].nqn, st.namespaces[req.name].nsid as int)})
                      else st.target
  {
  }

  lemma DeleteNamespaceReply(st: State, req: DeleteRequest, env: Env)
    requires req.name in st.namespaces
    ensures DeleteNamespace(st, req, env).1.Ok? <==> Detaches(st, req, env) && Settles(env)
  {
  }

  lemma DeleteNamespaceDoes(st: State, req: DeleteRequest, env: Env)
    requires SelfKeyed(st)
    ensures AttachUndone(st, DeleteNamespace(st, req, env).0, req, env)
  {
    DeleteNamespaceTarget(st, req, env);
    DeleteNamespaceEffect(st, req, env);
    if req.name in st.namespaces { DeleteNamespaceReply(st, req, env); }
  }

  lemma CreateNamespaceMove(st: State, st': State, req: CreateNamespaceRequest, env: Env)
    requires SelfKeyed(st) && st.target.refusesDuplicates && AttachDone(st, st', req, env)
    ensures MovesChildren(st, st', CreatesNamespace(req, env))
  {
    if Attaches(st, req, env) {
      NamespaceKeyParent(st, req);
      if Settles(env) { NsidsMove(st.namespaces, NamespaceKey(req), st'.namespaces[NamespaceKey(req)]); }
    }
  }

  lemma DeleteNamespaceMove(st: State, st': State, req: DeleteRequest, env: Env)
    requires AttachUndone(st, st', req, env)
    ensures MovesChildren(st, st', DeletesNamespace(req, env))
  {
    if req.name in st.namespaces { NsidsMove(st.namespaces, req.name, st.namespaces[req.name]); }
  }

  /** What a create of the kind does, in the terms of its move. */
  predicate PlugDone(st: State, st': State, req: CreateControllerRequest, env: Env) {
    && TouchesOnly(st, st', Controllers)
    && st'.target.ctrls == (if Plugs(st, req, env)
         then st.target.ctrls + {(st.subsystems[req.parent].nqn, env.cntlid)} else st.target.ctrls)
    && if Plugs(st, req, env) && Settles(env)
       then ControllerKey(req) in st'.controllers && st'.controllers[ControllerKey(req)].cntlid == ToInt32(env.cntlid)
            && st'.controllers == st.controllers[ControllerKey(req) := st'.controllers[ControllerKey(req)]]
       else st'.controllers == st.controllers
  }

  predicate PlugUndone(st: State, st': State, req: DeleteRequest, env: Env) {
    && TouchesOnly(st, st', Controllers)
    && st'.target.ctrls == (if Unplugs(st, req, env)
         then st.target.ctrls - {(st.subsystems[ParentKey(req.name)].nqn, st.controllers[req.name].cntlid as int)}
         else st.target.ctrls)
    && st'.controllers == (if Unplugs(st, req, env) && Settles(env) then st.controllers - {req.name} else st.controllers)
  }

  lemma CreateControllerTarget(st: State, req: CreateControllerRequest, env: Env)
    requires st.target.refusesDuplicates
    ensures var target := CreateController(st, req, env).0.target;
            target == if Plugs(st, req, env)
                      then st.target.(ctrls := st.target.ctrls + {(st.subsystems[req.parent].nqn, env.cntlid)})
                      else st.target
  {
  }

  lemma CreateControllerReply(st: State, req: CreateControllerRequest, env: Env)
    requires st.target.refusesDuplicates && ControllerKey(req) !in st.controllers
    ensures var reply := CreateController(st, req, env).1;
            && (reply.Ok? <==> Plugs(st, req, env) && Settles(env))
            && (reply.Ok? ==> reply.value.cntlid == ToInt32(env.cntlid))
  {
  }

  lemma CreateControllerDoes(st: State, req: CreateControllerRequest, env: Env)
    requires st.target.refusesDuplicates
    ensures PlugDone(st, CreateController(st, req, env).0, req, env)
  {
    CreateControllerTarget(st, req, env);
    CreateControllerEffect(st, req, env);
    if ControllerKey(req) !in st.controllers { CreateControllerReply(st, req, env); }
  }

  lemma DeleteControllerTarget(st: State, req: DeleteRequest, env: Env)
    ensures var target := DeleteController(st, req, env).0.target;
            target == if Unplugs(st, req, env)
                      then st.target.(ctrls := st.target.ctrls -
                             {(st.subsystems[ParentKey(req.name)].nqn, st.controllers[req.name].cntlid as int)})
                      else st.target
  {
  }

  lemma DeleteControllerReply(st: State, req: DeleteRequest, env: Env)
    requires req.name in st.controllers
    ensures DeleteController(st, req, env).1.Ok? <==> Unplugs(st, req, env) && Settles(env)
  {
  }

  lemma DeleteControllerDoes(st: State, req: DeleteRequest, env: Env)
    requires SelfKeyed(st)
    ensures PlugUndone(st, DeleteController(st, req, env).0, req, env)
  {
    DeleteControllerTarget(st, req, env);
    DeleteControllerEffect(st, req, env);
    if req.name in st.controllers { DeleteControllerReply(st, req, env); }
  }

  lemma CreateControllerMove(st: State, st': State, req: CreateControllerRequest, env: Env)
    requires SelfKeyed(st) && st.target.refusesDuplicates && PlugDone(st, st', req, env)
    ensures MovesChildren(st, st', CreatesController(req, env))
  {
    if Plugs(st, req, env) {
      ControllerKeyParent(st, req);
      if Settles(env) { CntlidsMove(st.controllers, ControllerKey(req), st'.controllers[ControllerKey(req)]); }
    }
  }

  lemma DeleteControllerMove(st: State, st': State, req: DeleteRequest, env: Env)
    requires PlugUndone(st, st', req, env)
    ensures MovesChildren(st, st', DeletesController(req, env))
  {
    if req.name in st.controllers { CntlidsMove(st.controllers, req.name, st.controllers[req.name]); }
  }

  predicate MovesSubsystems(e: Event) {
    e.CreatesSubsystem? || e.DeletesSubsystem?
  }

  lemma ChildCallMove(st: State, e: Event)
    requires SelfKeyed(st) && st.target.refusesDuplicates
    requires Subject(e).Some? && (Subject(e).value.0.NamespaceKind? || Subject(e).value.0.ControllerKind?)
    ensures MovesChildren(st, Step(st, e), e)
  {
    match e
    case CreatesNamespace(req, env) =>
      CreateNamespaceDoes(st, req, env);
      CreateNamespaceMove(st, CreateNamespace(st, req, env).0, req, env);
    case DeletesNamespace(req, env) =>
      DeleteNamespaceDoes(st, req, env);
      DeleteNamespaceMove(st, DeleteNamespace(st, req, env).0, req, env);
    case CreatesController(req, env) =>
      CreateControllerDoes(st, req, env);
      CreateControllerMove(st, CreateController(st, req, env).0, req, env);
    case DeletesController(req, env) =>
      DeleteControllerDoes(st, req, env);
      DeleteControllerMove(st, DeleteController(st, req, env).0, req, env);
  }

  lemma VirtioMove(st: State, e: Event)
    requires SelfKeyed(st) && (e.CreatesVirtio? || e.DeletesVirtio?)
    ensures MovesChildren(st, Step(st, e), e)
  {
    if e.CreatesVirtio? {
      CreateVirtioEffect(st, e.createVirtio, e.env);
    } else {
      DeleteVirtioEffect(st, e.delete, e.env);
    }
  }

  lemma EventMove(st: State, e: Event)
    requires SelfKeyed(st) && st.target.refusesDuplicates && !MovesSubsystems(e) && !e.Restarts?
    ensures MovesChildren(st, Step(st, e), e)
  {
    if e.Asks? {
      OtherEffect(st, e);
    } else if e.CreatesVirtio? || e.DeletesVirtio? {
      VirtioMove(st, e);
    } else {
      ChildCallMove(st, e);
    }
  }

  /** A subsystem call moves no child; with children on the target, the subsystem stays. */
  lemma SubsystemMove(st: State, e: Event, kind: ChildKind)
    requires SelfKeyed(st) && st.target.guardsChildren && MovesSubsystems(e)
    ensures var st' := Step(st, e);
            && Ids(st', kind) == Ids(st, kind) && Provided(st'.target, kind) == Provided(st.target, kind)
            && st'.target.guardsChildren && st'.target.refusesDuplicates == st.target.refusesDuplicates
            && (|| NqnOf(st') == NqnOf(st)
                || (&& e.CreatesSubsystem? && SubsystemKey(e.createSubsystem) !in NqnOf(st)
                    && Provisioned(st, e.createSubsystem, e.env)
                    && NqnOf(st') == NqnOf(st)[SubsystemKey(e.createSubsystem) := e.createSubsystem.nqn])
                || (&& e.DeletesSubsystem? && e.delete.name in NqnOf(st)
                    && !st.target.HasChildren(NqnOf(st)[e.delete.name])
                    && NqnOf(st') == NqnOf(st) - {e.delete.name}))
  {
    if e.CreatesSubsystem? {
      CreateSubsystemEffect(st, e.createSubsystem, e.env);
      CreateKeepsChildren(st, e.createSubsystem, e.env);
      CreateNqns(st, e.createSubsystem, e.env);
    } else {
      DeleteKeepsChildren(st, e.delete, e.env);
      DeleteSubsystemEffect(st, e.delete, e.env);
      DeleteNqns(st, e.delete, e.env);
    }
  }

  lemma DeleteKeepsChildren(st: State, req: DeleteRequest, env: Env)
    requires st.target.guardsChildren
    ensures var st' := DeleteSubsystem(st, req, env).0;
            st'.target == st.target.(nqns := st'.target.nqns)
  {
  }

  // ---------------------------------------------------------------- what is stored is on the target

  /** The stored id of every gain is the target's. */
  predicate IsExact(move: ChildMove) {
    move.Gains? ==> move.id == move.actual
  }

  function LeakedByMove(move: ChildMove): set<(string, int)> {
    if move.Leaks? then {move.pair} else {}
  }

  lemma BackedGain(nqns: map<string, string>, m: map<string, int>, pairs: set<(string, int)>, key: string, id: int)
    requires Backed(m, nqns, pairs) && key !in m && ParentKey(key) in nqns && (nqns[ParentKey(key)], id) !in pairs
    ensures var pair := (nqns[ParentKey(key)], id);
            && Backed(m[key := id], nqns, pairs + {pair})
            && Pairs(m[key := id], nqns).Values == Pairs(m, nqns).Values + {pair}
  {
    var p, pair := Pairs(m, nqns), (nqns[ParentKey(key)], id);
    assert Pairs(m[key := id], nqns) == p[key := pair];
    BijectiveInsert(p, key, pair, p.Values);
  }

  lemma BackedLoss(nqns: map<string, string>, m: map<string, int>, pairs: set<(string, int)>, key: string)
    requires Backed(m, nqns, pairs) && key in m
    ensures var pair := (nqns[ParentKey(key)], m[key]);
            && Backed(m - {key}, nqns, pairs - {pair})
            && Pairs(m - {key}, nqns).Values == Pairs(m, nqns).Values - {pair} && pair in Pairs(m, nqns).Values
  {
    var p := Pairs(m, nqns);
    assert Pairs(m - {key}, nqns) == p - {key};
    BijectiveRemove(p, key, p.Values);
    assert p[key] in p.Values;
  }

  lemma BackedMove(nqns: map<string, string>, m: map<string, int>, m': map<string, int>,
                   pairs: set<(string, int)>, pairs': set<(string, int)>, move: ChildMove)
    requires Backed(m, nqns, pairs) && Moved(nqns, m, m', pairs, pairs', move) && IsExact(move) && !move.Strands?
    ensures Backed(m', nqns, pairs')
    ensures pairs' - Pairs(m', nqns).Values == pairs - Pairs(m, nqns).Values + LeakedByMove(move)
  {
    match move
    case Gains(key, id, _) => BackedGain(nqns, m, pairs, key, id);
    case Loses(key) => BackedLoss(nqns, m, pairs, key);
    case _ =>
  }

  lemma BackedNewParent(
      children: map<string, int>, nqns: map<string, string>, pairs: set<(string, int)>, key: string, nqn: string)
    requires Backed(children, nqns, pairs) && key !in nqns
    ensures Backed(children, nqns[key := nqn], pairs) && Pairs(children, nqns[key := nqn]) == Pairs(children, nqns)
  {
    assert Pairs(children, nqns[key := nqn]) == Pairs(children, nqns);
  }

  /** A parent none of whose pairs is left has no children either, so it can go. */
  lemma BackedLostParent(children: map<string, int>, nqns: map<string, string>, pairs: set<(string, int)>, key: string)
    requires Backed(children, nqns, pairs) && key in nqns && forall p :: p in pairs ==> p.0 != nqns[key]
    ensures Backed(children, nqns - {key}, pairs) && Pairs(children, nqns - {key}) == Pairs(children, nqns)
  {
    forall k | k in children ensures ParentKey(k) != key {
      assert Pairs(children, nqns)[k] in Pairs(children, nqns).Values;
    }
    assert Pairs(children, nqns - {key}) == Pairs(children, nqns);
  }

  /**
   No delete of the kind loses its reply or its store Delete, and controller ids fit in 31 bits. All
   else may fail: creates in any way, and the calls of the other kinds, subsystem deletes included.
   */
  predicate SparesChildren(e: Event, kind: ChildKind) {
    match kind
    case Namespaces => e.DeletesNamespace? ==> !e.env.rpc.ReplyLost? && e.env.write
    case Controllers =>
      && (e.DeletesController? ==> !e.env.rpc.ReplyLost? && e.env.write)
      && IdFits(e)
  }

  predicate IdFits(e: Event) {
    e.CreatesController? ==> e.env.cntlid < 0x8000_0000
  }

  /** The child an event leaves on the target without a record: its create was lost or its Set failed. */
  function LeakedBy(st: State, e: Event, kind: ChildKind): set<(string, int)> {
    LeakedByMove(Move(st, e, kind))
  }

  function LeakedDuring(st: State, events: seq<Event>, kind: ChildKind): set<(string, int)>
    decreases |events|
  {
    if events == [] then {} else LeakedBy(st, events[0], kind) + LeakedDuring(Step(st, events[0]), events[1..], kind)
  }

  lemma FittingMove(st: State, e: Event, kind: ChildKind)
    requires kind.Controllers? ==> IdFits(e)
    ensures IsExact(Move(st, e, kind))
  {
  }

  lemma SparedMove(st: State, e: Event, kind: ChildKind)
    requires SparesChildren(e, kind)
    ensures IsExact(Move(st, e, kind)) && !Move(st, e, kind).Strands?
  {
  }

  lemma SubsystemsMoveNoChild(st: State, e: Event, kind: ChildKind)
    requires MovesSubsystems(e) || e.Restarts?
    ensures Move(st, e, kind) == Stays
  {
  }

  lemma ChildStepOfSubsystem(st: State, e: Event, kind: ChildKind)
    requires ChildBarrier(st, kind) && MovesSubsystems(e)
    ensures ChildBarrier(Step(st, e), kind) && Leaked(Step(st, e), kind) == Leaked(st, kind)
  {
    SelfKeyedStep(st, e);
    SubsystemMove(st, e, kind);
    var m, nqns, pairs := Ids(st, kind), NqnOf(st), Provided(st.target, kind);
    if NqnOf(Step(st, e)) != nqns {
      if e.CreatesSubsystem? {
        BackedNewParent(m, nqns, pairs, SubsystemKey(e.createSubsystem), e.createSubsystem.nqn);
      } else {
        BackedLostParent(m, nqns, pairs, e.delete.name);
      }
    }
  }

  lemma ChildStepOfOthers(st: State, e: Event, kind: ChildKind)
    requires ChildBarrier(st, kind) && SparesChildren(e, kind) && !MovesSubsystems(e) && !e.Restarts?
    ensures ChildBarrier(Step(st, e), kind)
    ensures Leaked(Step(st, e), kind) == Leaked(st, kind) + LeakedBy(st, e, kind)
  {
    var st' := Step(st, e);
    SelfKeyedStep(st, e);
    EventMove(st, e);
    SparedMove(st, e, kind);
    BackedMove(NqnOf(st), Ids(st, kind), Ids(st', kind), Provided(st.target, kind), Provided(st'.target, kind),
               Move(st, e, kind));
  }

  lemma ChildStep(st: State, e: Event, kind: ChildKind)
    requires ChildBarrier(st, kind) && SparesChildren(e, kind)
    ensures ChildBarrier(Step(st, e), kind)
    ensures Leaked(Step(st, e), kind) == Leaked(st, kind) + LeakedBy(st, e, kind)
  {
    if MovesSubsystems(e) {
      SubsystemsMoveNoChild(st, e, kind);
      ChildStepOfSubsystem(st, e, kind);
    } else if e.Restarts? {
      SelfKeyedStep(st, e);
    } else {
      ChildStepOfOthers(st, e, kind);
    }
  }

  /**
   Over every run in which no delete of the kind is lost, creates failing in any way and restarts
   included: each stored child has a stored parent and a child of its own on the target, and the
   target has beyond these exactly the children that lost creates left behind. Nothing reclaims them.
   */
  lemma {:induction false} ChildrenStayBacked(st: State, events: seq<Event>, kind: ChildKind)
    requires ChildBarrier(st, kind) && forall i :: 0 <= i < |events| ==> SparesChildren(events[i], kind)
    ensures ChildBarrier(Run(st, events), kind)
    ensures Leaked(Run(st, events), kind) == Leaked(st, kind) + LeakedDuring(st, events, kind)
    decreases |events|
  {
    if events != [] {
      var e, next := events[0], Step(st, events[0]);
      ChildStep(st, e, kind);
      ChildrenStayBacked(next, events[1..], kind);
      assert LeakedDuring(st, events, kind) == LeakedBy(st, e, kind) + LeakedDuring(next, events[1..], kind);
    }
  }

  // ---------------------------------------------------------------- a leaked child pins its subsystem

  /** The subsystem is stored and on the target, which has a child of it that is not stored. */
  ghost predicate Pinned(st: State, key: string, pair: (string, int), kind: ChildKind) {
    && st.target.refusesDuplicates && st.target.guardsChildren && SelfKeyed(st)
    && key in st.subsystems && st.subsystems[key].nqn == pair.0
    && pair.0 in st.target.nqns && pair in Leaked(st, kind)
  }

  lemma LeakStaysLeaked(nqns: map<string, string>, m: map<string, int>, m': map<string, int>,
                        pairs: set<(string, int)>, pairs': set<(string, int)>, move: ChildMove, pair: (string, int))
    requires Moved(nqns, m, m', pairs, pairs', move) && IsExact(move)
    requires pair in pairs - Pairs(m, nqns).Values
    ensures pair in pairs' - Pairs(m', nqns).Values
  {
    var p, p' := Pairs(m, nqns), Pairs(m', nqns);
    if move.Loses? || move.Strands? { assert p[move.key] in p.Values; }
    forall k | k in p' ensures p'[k] != pair {
      if k in p && p[k] == p'[k] { assert p[k] in p.Values; }
    }
  }

  /** Parents may come with other NQNs, or go. */
  lemma LeakOutlivesParents(m: map<string, int>, nqns: map<string, string>, nqns': map<string, string>, pair: (string, int))
    requires pair !in Pairs(m, nqns).Values
    requires forall k :: k in nqns' ==> (k in nqns && nqns[k] == nqns'[k]) || nqns'[k] != pair.0
    ensures pair !in Pairs(m, nqns').Values
  {
    var p, p' := Pairs(m, nqns), Pairs(m, nqns');
    forall k | k in p' ensures p'[k] != pair {
      if k in p && p[k] == p'[k] { assert p[k] in p.Values; }
    }
  }

  lemma SubsystemIsPinned(st: State, e: Event, key: string, pair: (string, int), kind: ChildKind)
    requires Pinned(st, key, pair, kind) && MovesSubsystems(e)
    ensures Pinned(Step(st, e), key, pair, kind)
  {
    var st' := Step(st, e);
    SelfKeyedStep(st, e);
    SubsystemMove(st, e, kind);
    PinnedNqnStays(st, e, key, pair, kind);
    assert st.target.HasChildren(pair.0);
    assert NqnOf(st)[key] == pair.0 && key in NqnOf(st') && NqnOf(st')[key] == pair.0;
    LeakOutlivesParents(Ids(st, kind), NqnOf(st), NqnOf(st'), pair);
  }

  lemma PinnedNqnStays(st: State, e: Event, key: string, pair: (string, int), kind: ChildKind)
    requires Pinned(st, key, pair, kind) && MovesSubsystems(e)
    ensures pair.0 in Step(st, e).target.nqns
  {
    assert st.target.HasChildren(pair.0);
    if e.CreatesSubsystem? {
      CreateMoves(st, e.createSubsystem, e.env);
    } else {
      DeleteMoves(st, e.delete, e.env);
    }
  }

  lemma OthersLeavePinned(st: State, e: Event, key: string, pair: (string, int), kind: ChildKind)
    requires Pinned(st, key, pair, kind) && (kind.Controllers? ==> IdFits(e)) && !MovesSubsystems(e) && !e.Restarts?
    ensures Pinned(Step(st, e), key, pair, kind)
  {
    var st' := Step(st, e);
    SelfKeyedStep(st, e);
    EventMove(st, e);
    FittingMove(st, e, kind);
    LeakStaysLeaked(NqnOf(st), Ids(st, kind), Ids(st', kind), Provided(st.target, kind), Provided(st'.target, kind),
                    Move(st, e, kind), pair);
  }

  lemma PinnedStep(st: State, e: Event, key: string, pair: (string, int), kind: ChildKind)
    requires Pinned(st, key, pair, kind) && (kind.Controllers? ==> IdFits(e))
    ensures Pinned(Step(st, e), key, pair, kind)
  {
    if MovesSubsystems(e) {
      SubsystemIsPinned(st, e, key, pair, kind);
    } else if e.Restarts? {
      SelfKeyedStep(st, e);
    } else {
      OthersLeavePinned(st, e, key, pair, kind);
    }
  }

  lemma PinnedIsNotDeleted(st: State, req: DeleteRequest, env: Env, pair: (string, int), kind: ChildKind)
    requires Pinned(st, req.name, pair, kind)
    ensures DeleteSubsystem(st, req, env).1.Err?
  {
    assert st.target.HasChildren(pair.0);
  }

  /**
   Once the target has a child that no record stands for, the child stays there and every delete of
   its subsystem fails, after every run, under all faults and restarts.
   */
  lemma {:induction false} LeakedChildPinsSubsystem(
      st: State, events: seq<Event>, pair: (string, int), kind: ChildKind, req: DeleteRequest, env: Env)
    requires Pinned(st, req.name, pair, kind)
    requires kind.Controllers? ==> forall i :: 0 <= i < |events| ==> IdFits(events[i])
    ensures Pinned(Run(st, events), req.name, pair, kind)
    ensures DeleteSubsystem(Run(st, events), req, env).1.Err?
    decreases |events|
  {
    if events == [] {
      PinnedIsNotDeleted(st, req, env, pair, kind);
    } else {
      PinnedStep(st, events[0], req.name, pair, kind);
      LeakedChildPinsSubsystem(Step(st, events[0]), events[1..], pair, kind, req, env);
    }
  }

  lemma LeakPins(st: State, st': State, e: Event, kind: ChildKind, parent: string)
    requires ChildBarrier(st, kind) && MovesChildren(st, st', e) && SelfKeyed(st') && Move(st, e, kind).Leaks?
    requires parent in st.subsystems && st.subsystems[parent].nqn == Move(st, e, kind).pair.0
    requires st.subsystems[parent].nqn in st.target.nqns
    ensures Pinned(st', parent, Move(st, e, kind).pair, kind)
  {
    assert MovesKind(st, st', e, kind);
  }

  /** A lost create is enough for that, in every state whose stored children and parent are on the target. */
  lemma LostCreatePinsSubsystem(st: State, e: Event, kind: ChildKind, parent: string)
    requires ChildBarrier(st, kind) && Move(st, e, kind).Leaks?
    requires e.CreatesNamespace? ==> parent == e.createNamespace.parent
    requires e.CreatesController? ==> parent == e.createController.parent
    requires parent in st.subsystems && st.subsystems[parent].nqn in st.target.nqns
    ensures Pinned(Step(st, e), parent, Move(st, e, kind).pair, kind)
  {
    SelfKeyedStep(st, e);
    EventMove(st, e);
    LeakPins(st, Step(st, e), e, kind, parent);
  }

  // ---------------------------------------------------------------- a lost delete strands a record

  /** The child is all that the target has under its NQN. */
  ghost predicate IsOnlyChild(t: Target, pair: (string, int), kind: ChildKind) {
    forall other: ChildKind, p :: p in Provided(t, other) && p.0 == pair.0 ==> other == kind && p == pair
  }

  lemma NoneLeft(t: Target, t': Target, pair: (string, int), kind: ChildKind)
    requires IsOnlyChild(t, pair, kind) && pair !in Provided(t', kind)
    requires t'.attached <= t.attached && t'.ctrls <= t.ctrls
    ensures !t'.HasChildren(pair.0)
  {
    forall p | p in t'.attached ensures p.0 != pair.0 { assert p in Provided(t, Namespaces); }
    forall p | p in t'.ctrls ensures p.0 != pair.0 { assert p in Provided(t, Controllers); }
  }

  /** Only the kind whose child is stranded moves at all. */
  lemma OneKindMoves(st: State, e: Event, kind: ChildKind, other: ChildKind)
    requires Move(st, e, kind).Strands? && other != kind
    ensures Move(st, e, other).Stays?
  {
  }

  lemma StrandedIsChildless(st: State, st': State, e: Event, kind: ChildKind, key: string)
    requires MovesChildren(st, st', e) && Move(st, e, kind) == Strands(key)
    requires key in PairsOf(st, kind) && IsOnlyChild(st.target, PairsOf(st, kind)[key], kind)
    ensures Ids(st', kind) == Ids(st, kind) && !st'.target.HasChildren(PairsOf(st, kind)[key].0)
  {
    OneKindMoves(st, e, kind, if kind.Namespaces? then Controllers else Namespaces);
    assert MovesKind(st, st', e, kind);
    NoneLeft(st.target, st'.target, PairsOf(st, kind)[key], kind);
  }

  lemma StrandedStep(st: State, e: Event, kind: ChildKind, key: string)
    requires SelfKeyed(st) && st.target.refusesDuplicates && Move(st, e, kind) == Strands(key)
    requires key in PairsOf(st, kind) && IsOnlyChild(st.target, PairsOf(st, kind)[key], kind)
    ensures var st' := Step(st, e);
            && SelfKeyed(st') && key in Ids(st', kind) && ParentKey(key) in st'.subsystems
            && !st'.target.HasChildren(st'.subsystems[ParentKey(key)].nqn)
  {
    SelfKeyedStep(st, e);
    EventMove(st, e);
    StrandedIsChildless(st, Step(st, e), e, kind, key);
  }

  lemma ChildlessSubsystemGoes(st: State, key: string, kind: ChildKind)
    requires SelfKeyed(st) && key in st.subsystems && !st.target.HasChildren(st.subsystems[key].nqn)
    ensures var st' := DeleteSubsystem(st, DeleteRequest(true, key, false), CLEAN).0;
            key !in st'.subsystems && Ids(st', kind) == Ids(st, kind)
  {
    DeleteSubsystemEffect(st, DeleteRequest(true, key, false), CLEAN);
  }

  function RecordKind(kind: ChildKind): Kind {
    if kind.Namespaces? then NamespaceKind else ControllerKind
  }

  lemma ParentlessChildIsStuck(st: State, e: Event, kind: ChildKind, key: string)
    requires key in Ids(st, kind) && ParentKey(key) !in st.subsystems
    requires IsDelete(e) && Subject(e) == Some((RecordKind(kind), key))
    ensures Handle(st, e).1.Err? && Step(st, e) == st
  {
  }

  /**
   The children need that exclusion: when a delete takes an only child off the target and loses its
   reply or its store Delete, a delete of the subsystem goes through, and the record that stays behind
   can neither be found through its parent nor deleted.
   */
  lemma LostDeleteStrandsChild(st: State, e: Event, kind: ChildKind, key: string, again: Event)
    requires SelfKeyed(st) && st.target.refusesDuplicates && Move(st, e, kind) == Strands(key)
    requires key in PairsOf(st, kind) && IsOnlyChild(st.target, PairsOf(st, kind)[key], kind)
    requires IsDelete(again) && Subject(again) == Some((RecordKind(kind), key))
    ensures var later := Run(st, [e, DeletesSubsystem(DeleteRequest(true, ParentKey(key), false), CLEAN)]);
            && key in Ids(later, kind) && ParentKey(key) !in later.subsystems
            && Handle(later, again).1.Err? && Step(later, again) == later
  {
    var last := DeletesSubsystem(DeleteRequest(true, ParentKey(key), false), CLEAN);
    StrandedStep(st, e, kind, key);
    ChildlessSubsystemGoes(Step(st, e), ParentKey(key), kind);
    RunOfTwo(st, e, last);
    ParentlessChildIsStuck(Step(Step(st, e), last), again, kind, key);
  }

  /** And they need the guard: a target without it lets a subsystem go while its children are stored. */
  lemma UnguardedDeleteStrandsChild(st: State, kind: ChildKind, key: string)
    requires SelfKeyed(st) && !st.target.guardsChildren
    requires key in Ids(st, kind) && ParentKey(key) in st.subsystems
    ensures var later := DeleteSubsystem(st, DeleteRequest(true, ParentKey(key), false), CLEAN).0;
            key in Ids(later, kind) && ParentKey(key) !in later.subsystems
  {
    DeleteSubsystemEffect(st, DeleteRequest(true, ParentKey(key), false), CLEAN);
  }

  lemma RunOfTwo(st: State, e: Event, f: Event)
    ensures Run(st, [e, f]) == Step(Step(st, e), f)
  {
    assert [e, f][1..] == [f];
    assert Run(Step(st, e), [f]) == Run(Step(Step(st, e), f), []);
  }
}
