/**
 The store against the target. Stored children can always be deleted and found; and when nothing at
 all is lost, stored records and the target's objects are in one-to-one correspondence.
 */
module Refinement {
  import opened Common
  import opened Names
  import opened Target
  import opened Records
  import opened Protocol
  import opened Lifecycle
  import opened Uniqueness
  import opened Children

  // ---------------------------------------------------------------- deleting what is stored

  lemma StoredChildHasParent(st: State, kind: ChildKind, name: string)
    requires ChildBarrier(st, kind) && name in Ids(st, kind)
    ensures ParentKey(name) in st.subsystems
  {
    assert ParentKey(name) in NqnOf(st);
  }

  lemma NamespaceIsDeletable(st: State, req: DeleteRequest, env: Env)
    requires req.checked && req.name in st.namespaces
    requires st.namespaces[req.name].name == req.name && ParentKey(req.name) in st.subsystems
    ensures var (st', reply) := DeleteNamespace(st, req, env);
            && !(reply.Err? && reply.error.NoSubsystem?)
            && (env.get && env.getParent && env.rpc.Served? && env.write ==>
                  && reply == Ok(()) && st'.namespaces == st.namespaces - {req.name}
                  && var pair := (st.subsystems[ParentKey(req.name)].nqn, st.namespaces[req.name].nsid as int);
                  && st'.target.attached == st.target.attached - {pair})
  {
  }

  /**
   After every run in which no namespace delete was lost, deleting a stored namespace never meets a
   missing subsystem; if the target and the store answer, it succeeds and takes exactly that
   namespace's pair off the target.
   */
  lemma StoredNamespaceIsDeletable(st: State, events: seq<Event>, req: DeleteRequest, env: Env, later: State)
    requires ChildBarrier(st, Namespaces) && forall i :: 0 <= i < |events| ==> SparesChildren(events[i], Namespaces)
    requires later == Run(st, events) && req.checked && req.name in later.namespaces
    ensures ParentKey(req.name) in later.subsystems
    ensures var (after, reply) := DeleteNamespace(later, req, env);
            && !(reply.Err? && reply.error.NoSubsystem?)
            && (env.get && env.getParent && env.rpc.Served? && env.write ==>
                  && reply == Ok(()) && after.namespaces == later.namespaces - {req.name}
                  && var pair := (later.subsystems[ParentKey(req.name)].nqn, later.namespaces[req.name].nsid as int);
                  && after.target.attached == later.target.attached - {pair})
  {
    ChildrenStayBacked(st, events, Namespaces);
    StoredChildHasParent(later, Namespaces, req.name);
    NamespaceIsDeletable(later, req, env);
  }

  lemma ControllerIsDeletable(st: State, req: DeleteRequest, env: Env)
    requires req.checked && req.name in st.controllers
    requires st.controllers[req.name].name == req.name && ParentKey(req.name) in st.subsystems
    ensures var (st', reply) := DeleteController(st, req, env);
            && !(reply.Err? && reply.error.NoSubsystem?)
            && (env.get && env.getParent && env.rpc.Served? && env.write ==>
                  && reply == Ok(()) && st'.controllers == st.controllers - {req.name}
                  && var pair := (st.subsystems[ParentKey(req.name)].nqn, st.controllers[req.name].cntlid as int);
                  && st'.target.ctrls == st.target.ctrls - {pair})
  {
  }

  /** Likewise for controllers, as long as the target's ids fit in 31 bits. */
  lemma StoredControllerIsDeletable(st: State, events: seq<Event>, req: DeleteRequest, env: Env, later: State)
    requires ChildBarrier(st, Controllers) && forall i :: 0 <= i < |events| ==> SparesChildren(events[i], Controllers)
    requires later == Run(st, events) && req.checked && req.name in later.controllers
    ensures ParentKey(req.name) in later.subsystems
    ensures var (after, reply) := DeleteController(later, req, env);
            && !(reply.Err? && reply.error.NoSubsystem?)
            && (env.get && env.getParent && env.rpc.Served? && env.write ==>
                  && reply == Ok(()) && after.controllers == later.controllers - {req.name}
                  && var pair := (later.subsystems[ParentKey(req.name)].nqn, later.controllers[req.name].cntlid as int);
                  && after.target.ctrls == later.target.ctrls - {pair})
  {
    ChildrenStayBacked(st, events, Controllers);
    StoredChildHasParent(later, Controllers, req.name);
    ControllerIsDeletable(later, req, env);
  }

  // ---------------------------------------------------------------- one-to-one

  /** Every child has a parent, and the children's pairs are, one to one, the given ones. */
  ghost predicate Linked(children: map<string, int>, nqns: map<string, string>, pairs: set<(string, int)>) {
    && (forall k :: k in children ==> ParentKey(k) in nqns)
    && Bijective(Pairs(children, nqns), pairs)
  }

  ghost predicate Refines(st: State) {
    && st.target.refusesDuplicates && st.target.guardsChildren && SelfKeyed(st)
    && Bijective(NqnOf(st), st.target.nqns)
    && Linked(Ids(st, Namespaces), NqnOf(st), Provided(st.target, Namespaces))
    && Linked(Ids(st, Controllers), NqnOf(st), Provided(st.target, Controllers))
  }

  /** The stored children are backed, and the target has no others. */
  ghost predicate ChildrenMatch(st: State, kind: ChildKind) {
    ChildBarrier(st, kind) && Leaked(st, kind) == {}
  }

  lemma LinkedIffBacked(children: map<string, int>, nqns: map<string, string>, pairs: set<(string, int)>)
    ensures Linked(children, nqns, pairs) <==>
            Backed(children, nqns, pairs) && pairs - Pairs(children, nqns).Values == {}
  {
    SubsetOrDifference(Pairs(children, nqns).Values, pairs);
  }

  lemma SubsetOrDifference<T>(a: set<T>, b: set<T>)
    ensures a == b <==> a <= b && b - a == {}
  {
    if b - a == {} {
      forall x | x in b ensures x in a { assert x !in b - a; }
    }
  }

  /** Correspondence is what the one-sided invariants leave when nothing is orphaned or leaked. */
  lemma RefinesIffNothingIsLost(st: State)
    ensures Refines(st) <==>
            TargetBarrier(st) && Orphans(st) == {} && ChildrenMatch(st, Namespaces) && ChildrenMatch(st, Controllers)
  {
    SubsetOrDifference(StoredNqns(st), st.target.nqns);
    LinkedIffBacked(Ids(st, Namespaces), NqnOf(st), Provided(st.target, Namespaces));
    LinkedIffBacked(Ids(st, Controllers), NqnOf(st), Provided(st.target, Controllers));
  }

  /**
   No loss: every act of the target is reported, the version query and the store writes succeed, and
   the target's controller ids fit in 31 bits. Refusals, calls that fail without effect, failing
   store Gets, restarts, and virtio calls of any outcome are all allowed.
   */
  predicate Lossless(e: Event) {
    match e
    case CreatesSubsystem(_, env) => !env.rpc.ReplyLost? && env.version.Some? && env.write
    case CreatesController(_, env) => !env.rpc.ReplyLost? && env.write && env.cntlid < 0x8000_0000
    case CreatesNamespace(_, env) => !env.rpc.ReplyLost? && env.write
    case DeletesSubsystem(_, env) => !env.rpc.ReplyLost? && env.write
    case DeletesController(_, env) => !env.rpc.ReplyLost? && env.write
    case DeletesNamespace(_, env) => !env.rpc.ReplyLost? && env.write
    case _ => true
  }

  lemma {:induction false} NothingOrphaned(st: State, events: seq<Event>)
    requires forall i :: 0 <= i < |events| ==> Lossless(events[i])
    ensures OrphanedDuring(st, events) == {}
    decreases |events|
  {
    if events != [] { NothingOrphaned(Step(st, events[0]), events[1..]); }
  }

  lemma LosslessLeaksNothing(st: State, e: Event, kind: ChildKind)
    requires Lossless(e)
    ensures LeakedBy(st, e, kind) == {} && SparesChildren(e, kind)
  {
  }

  lemma {:induction false} NothingLeaked(st: State, events: seq<Event>, kind: ChildKind)
    requires forall i :: 0 <= i < |events| ==> Lossless(events[i])
    ensures LeakedDuring(st, events, kind) == {}
    decreases |events|
  {
    if events != [] {
      LosslessLeaksNothing(st, events[0], kind);
      NothingLeaked(Step(st, events[0]), events[1..], kind);
    }
  }

  lemma LosslessChildren(st: State, events: seq<Event>, kind: ChildKind)
    requires ChildrenMatch(st, kind) && forall i :: 0 <= i < |events| ==> Lossless(events[i])
    ensures ChildrenMatch(Run(st, events), kind)
  {
    forall i | 0 <= i < |events| ensures SparesChildren(events[i], kind) { LosslessLeaksNothing(st, events[i], kind); }
    ChildrenStayBacked(st, events, kind);
    NothingLeaked(st, events, kind);
  }

  lemma LosslessSubsystems(st: State, events: seq<Event>)
    requires TargetBarrier(st) && Orphans(st) == {}
    requires forall i :: 0 <= i < |events| ==> Lossless(events[i])
    ensures TargetBarrier(Run(st, events)) && Orphans(Run(st, events)) == {}
  {
    forall i | 0 <= i < |events| ensures SparesTarget(events[i]) {}
    UniqueByTarget(st, events);
    NothingOrphaned(st, events);
  }

  /**
   In every lossless run, restarts included, stored subsystems, namespaces and controllers stay in
   one-to-one correspondence with the target's NQNs, attached pairs and controllers, and every
   stored child has a stored parent.
   */
  lemma StoreRefinesTarget(st: State, events: seq<Event>)
    requires Refines(st) && forall i :: 0 <= i < |events| ==> Lossless(events[i])
    ensures Refines(Run(st, events))
  {
    RefinesIffNothingIsLost(st);
    LosslessSubsystems(st, events);
    LosslessChildren(st, events, Namespaces);
    LosslessChildren(st, events, Controllers);
    RefinesIffNothingIsLost(Run(st, events));
  }

  lemma InitiallyRefines(st: State)
    requires Initial(st) && st.target.refusesDuplicates && st.target.guardsChildren
    ensures Refines(st) && ChildrenMatch(st, Namespaces) && ChildrenMatch(st, Controllers)
  {
    RefinesIffNothingIsLost(st);
  }
}
