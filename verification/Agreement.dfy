/** Reading back: when Get finds on the target what is stored, and when it finds something else. */
module Agreement {
  import opened Common
  import opened Names
  import opened Target
  import opened Records
  import opened Listing
  import opened Queries
  import opened Protocol
  import opened Uniqueness
  import opened Children

  /** The subsystem list shows every NQN the target has. */
  ghost predicate ShowsSubsystems(rows: seq<SubsystemRow>, t: Target) {
    forall q :: q in t.nqns ==> ListsNqn(rows, q)
  }

  /** The controller list shows every controller the target has. */
  ghost predicate ShowsControllers(rows: seq<ControllerRow>, t: Target) {
    forall p :: p in t.ctrls ==> exists r :: r in rows && r.subnqn == p.0 && r.cntlid == p.1 && r.kind == "nvme"
  }

  /** The namespace list of each NQN shows every nsid attached to it. */
  ghost predicate ShowsNamespaces(nsids: map<string, seq<int>>, t: Target) {
    forall p :: p in t.attached ==> p.0 in nsids && p.1 in nsids[p.0]
  }

  // ---------------------------------------------------------------- in one state

  lemma ListedSubsystem(st: State, name: string, rows: seq<SubsystemRow>)
    requires StoredNqns(st) <= st.target.nqns && ShowsSubsystems(rows, st.target) && name in st.subsystems
    ensures ListsNqn(rows, st.subsystems[name].nqn)
  {
    assert NqnOf(st)[name] in NqnOf(st).Values;
  }

  lemma PairIsProvided(st: State, kind: ChildKind, name: string)
    requires ChildBarrier(st, kind) && name in Ids(st, kind)
    ensures ParentKey(name) in st.subsystems
    ensures (st.subsystems[ParentKey(name)].nqn, Ids(st, kind)[name]) in Provided(st.target, kind)
  {
    assert ParentKey(name) in NqnOf(st);
    assert PairsOf(st, kind)[name] in PairsOf(st, kind).Values;
  }

  lemma ListedController(st: State, name: string, rows: seq<ControllerRow>)
    requires ChildBarrier(st, Controllers) && ShowsControllers(rows, st.target) && name in st.controllers
    ensures ListsCntlid(rows, st.controllers[name].cntlid)
  {
    PairIsProvided(st, Controllers, name);
    var pair := (st.subsystems[ParentKey(name)].nqn, st.controllers[name].cntlid as int);
    assert pair in st.target.ctrls && pair.1 == st.controllers[name].cntlid;
  }

  lemma ListedNamespace(st: State, name: string, nsids: map<string, seq<int>>)
    requires ChildBarrier(st, Namespaces) && ShowsNamespaces(nsids, st.target) && name in st.namespaces
    ensures ParentKey(name) in st.subsystems
    ensures var nqn := st.subsystems[ParentKey(name)].nqn;
            nqn in nsids && st.namespaces[name].nsid as int in nsids[nqn]
  {
    PairIsProvided(st, Namespaces, name);
    var pair := (st.subsystems[ParentKey(name)].nqn, st.namespaces[name].nsid as int);
    assert pair in st.target.attached && pair.1 == st.namespaces[name].nsid;
  }

  lemma AskedSubsystem(st: State, get: GetRequest, env: Env, rows: seq<SubsystemRow>)
    requires get.name in st.subsystems && get.checked && env.get && ListsNqn(rows, st.subsystems[get.name].nqn)
    ensures Ask(st, GetsSubsystem(get, env, Some(rows))) == (st, Ok(()))
  {
  }

  lemma AskedController(st: State, get: GetRequest, env: Env, rows: seq<ControllerRow>)
    requires get.name in st.controllers && get.checked && env.get && ListsCntlid(rows, st.controllers[get.name].cntlid)
    ensures Ask(st, GetsController(get, env, Some(rows))) == (st, Ok(()))
  {
  }

  lemma AskedNamespace(st: State, get: GetRequest, env: Env, nsids: map<string, seq<int>>)
    requires get.name in st.namespaces && ParentKey(get.name) in st.subsystems
    requires get.checked && env.get && env.getParent
    requires var nqn := st.subsystems[ParentKey(get.name)].nqn;
             nqn in nsids && st.namespaces[get.name].nsid as int in nsids[nqn]
    ensures Ask(st, GetsNamespace(get, env, nsids)) == (st, Ok(()))
  {
  }

  lemma AskedDevice(st: State, get: GetRequest, rows: seq<ControllerRow>)
    requires get.name in st.virtioCtrls && get.checked && ListsDevice(rows, Base(get.name))
    ensures Ask(st, GetsVirtioBlk(get, Some(rows))) == (st, Ok(()))
  {
  }

  // ---------------------------------------------------------------- after every run

  /** Every stored subsystem is found by GetNvmeSubsystem, whatever creates were lost before. */
  lemma StoredSubsystemIsFound(
      st: State, events: seq<Event>, later: State, get: GetRequest, env: Env, rows: seq<SubsystemRow>)
    requires TargetBarrier(st) && forall i :: 0 <= i < |events| ==> SparesTarget(events[i])
    requires later == Run(st, events) && get.name in later.subsystems && ShowsSubsystems(rows, later.target)
    requires get.checked && env.get
    ensures Ask(later, GetsSubsystem(get, env, Some(rows))) == (later, Ok(()))
  {
    UniqueByTarget(st, events);
    ListedSubsystem(later, get.name, rows);
    AskedSubsystem(later, get, env, rows);
  }

  /** Every stored controller is found by GetNvmeController, as long as no controller delete was lost. */
  lemma StoredControllerIsFound(
      st: State, events: seq<Event>, later: State, get: GetRequest, env: Env, rows: seq<ControllerRow>)
    requires ChildBarrier(st, Controllers) && forall i :: 0 <= i < |events| ==> SparesChildren(events[i], Controllers)
    requires later == Run(st, events) && get.name in later.controllers && ShowsControllers(rows, later.target)
    requires get.checked && env.get
    ensures Ask(later, GetsController(get, env, Some(rows))) == (later, Ok(()))
  {
    ChildrenStayBacked(st, events, Controllers);
    ListedController(later, get.name, rows);
    AskedController(later, get, env, rows);
  }

  /** Every stored namespace is found by GetNvmeNamespace, as long as no namespace delete was lost. */
  lemma StoredNamespaceIsFound(
      st: State, events: seq<Event>, later: State, get: GetRequest, env: Env, nsids: map<string, seq<int>>)
    requires ChildBarrier(st, Namespaces) && forall i :: 0 <= i < |events| ==> SparesChildren(events[i], Namespaces)
    requires later == Run(st, events) && get.name in later.namespaces && ShowsNamespaces(nsids, later.target)
    requires get.checked && env.get && env.getParent
    ensures Ask(later, GetsNamespace(get, env, nsids)) == (later, Ok(()))
  {
    ChildrenStayBacked(st, events, Namespaces);
    ListedNamespace(later, get.name, nsids);
    AskedNamespace(later, get, env, nsids);
  }

  // ---------------------------------------------------------------- finding another's controller

  /** The controller list shows the target's controllers and nothing else of kind nvme. */
  ghost predicate ShowsExactly(rows: seq<ControllerRow>, t: Target) {
    && ShowsControllers(rows, t)
    && forall r :: r in rows && r.kind == "nvme" ==> (r.subnqn, r.cntlid) in t.ctrls
  }

  /** The controller is stored with a parent, and the target has it under that parent's NQN. */
  predicate IsProvided(st: State, name: string) {
    && name in st.controllers && ParentKey(name) in st.subsystems
    && (st.subsystems[ParentKey(name)].nqn, st.controllers[name].cntlid as int) in st.target.ctrls
  }

  lemma ListedIffProvided(rows: seq<ControllerRow>, t: Target, cntlid: int)
    requires ShowsExactly(rows, t)
    ensures ListsCntlid(rows, cntlid) <==> exists p :: p in t.ctrls && p.1 == cntlid
  {
    if ListsCntlid(rows, cntlid) {
      var r :| r in rows && r.cntlid == cntlid && r.kind == "nvme";
      assert (r.subnqn, r.cntlid) in t.ctrls && (r.subnqn, r.cntlid).1 == cntlid;
    }
  }

  /** Some other NQN, or any when the parent is gone, has a controller of that id on the target. */
  ghost predicate IsElsewhere(st: State, name: string)
    requires name in st.controllers
  {
    exists p :: p in st.target.ctrls && p.1 == st.controllers[name].cntlid
      && (ParentKey(name) in st.subsystems ==> p.0 != st.subsystems[ParentKey(name)].nqn)
  }

  /**
   GetNvmeController compares ids alone: it reports a stored controller exactly when the target has it,
   or has one of the same id under another NQN.
   */
  lemma GetFindsControllerIff(st: State, get: GetRequest, env: Env, rows: seq<ControllerRow>)
    requires ShowsExactly(rows, st.target) && get.name in st.controllers && get.checked && env.get
    ensures Ask(st, GetsController(get, env, Some(rows))).1.Ok? <==>
            IsProvided(st, get.name) || IsElsewhere(st, get.name)
  {
    var id := st.controllers[get.name].cntlid as int;
    ListedIffProvided(rows, st.target, id);
    if p :| p in st.target.ctrls && p.1 == id {
      assert p == (p.0, id);
    }
  }

  // ---------------------------------------------------------------- lists and single devices

  /** What a virtio listing shows under a name, Get finds when asked for that name. */
  lemma ListedDeviceIsFound(st: State, row: ControllerRow, rows: seq<ControllerRow>, get: GetRequest)
    requires row in rows && IsSegment(row.name) && row.name != ""
    requires PickVirtio(row).Some? && get.name == PickVirtio(row).value.name
    requires get.checked && get.name in st.virtioCtrls
    ensures Ask(st, GetsVirtioBlk(get, Some(rows))) == (st, Ok(()))
  {
    NameRoundTrip("", row.name);
    AskedDevice(st, get, rows);
  }
}
