/**
 No two stored subsystems share an NQN: which of the two barriers, the in-memory index and the
 target, protects which runs of calls made one after another, what either of them accumulates, and
 where both give way.
 */
module Uniqueness {
  import opened Common
  import opened Names
  import Nqn
  import opened Target
  import opened Records
  import opened Protocol
  import opened Lifecycle

  function NqnsOf(subsystems: map<string, Subsystem>): map<string, string> {
    map k | k in subsystems :: subsystems[k].nqn
  }

  function NqnOf(st: State): map<string, string> {
    NqnsOf(st.subsystems)
  }

  /** Pairwise distinct NQNs. */
  ghost predicate Unique(st: State) {
    Injective(NqnOf(st))
  }

  function StoredNqns(st: State): set<string> {
    NqnOf(st).Values
  }

  // ---------------------------------------------------------------- the two NQN-moving handlers

  // How far a create gets: the command leaves, the target acts on it, the NQN is indexed, the
  // record is stored.

  predicate Sent(st: State, req: CreateSubsystemRequest, env: Env) {
    ValidCreateSubsystem(req) && env.get && SubsystemKey(req) !in st.subsystems && req.nqn !in st.nqns
  }

  predicate Provisioned(st: State, req: CreateSubsystemRequest, env: Env) {
    && Sent(st, req, env)
    && (env.rpc.Served? || env.rpc.ReplyLost?)
    && !(st.target.refusesDuplicates && req.nqn in st.target.nqns)
  }

  predicate Indexed(st: State, req: CreateSubsystemRequest, env: Env) {
    Provisioned(st, req, env) && env.rpc.Served? && env.version.Some?
  }

  predicate Stored(st: State, req: CreateSubsystemRequest, env: Env) {
    Indexed(st, req, env) && env.write
  }

  lemma CreateMoves(st: State, req: CreateSubsystemRequest, env: Env)
    ensures var (st', reply) := CreateSubsystem(st, req, env);
            && st'.target.refusesDuplicates == st.target.refusesDuplicates
            && st'.target.nqns == (if Provisioned(st, req, env) then st.target.nqns + {req.nqn} else st.target.nqns)
            && st'.nqns == (if Indexed(st, req, env) then st.nqns[req.nqn := false] else st.nqns)
            && (Stored(st, req, env) ==>
                  reply == Ok(Subsystem(SubsystemKey(req), req.nqn, req.serial, req.model, env.version.value)))
            && st'.subsystems == (if Stored(st, req, env) then st.subsystems[SubsystemKey(req) := reply.value]
                                  else st.subsystems)
  {
    if Sent(st, req, env) {
      var (sent, answer) := Send(st, SubsystemCreate(req.nqn, req.serial, req.model), env);
      assert answer == (if Indexed(st, req, env.(version := Some(""))) then Answer(true, env.cntlid, env.blkName)
                        else if env.rpc.Failed? || env.rpc.ReplyLost? then NoAnswer else Answer(false, -1, ""));
    }
  }

  /** Of the target, a subsystem create moves the NQNs alone. */
  lemma CreateKeepsChildren(st: State, req: CreateSubsystemRequest, env: Env)
    ensures var st' := CreateSubsystem(st, req, env).0;
            st'.target == st.target.(nqns := st'.target.nqns)
  {
  }

  predicate Deprovisioned(st: State, req: DeleteRequest, env: Env) {
    && req.checked && env.get && req.name in st.subsystems
    && (env.rpc.Served? || env.rpc.ReplyLost?)
    && !(st.target.guardsChildren && st.target.HasChildren(st.subsystems[req.name].nqn))
  }

  predicate Unindexed(st: State, req: DeleteRequest, env: Env) {
    Deprovisioned(st, req, env) && env.rpc.Served?
  }

  lemma DeleteMoves(st: State, req: DeleteRequest, env: Env)
    requires req.name in st.subsystems ==> st.subsystems[req.name].name == req.name
    ensures var st' := DeleteSubsystem(st, req, env).0;
            && st'.target.refusesDuplicates == st.target.refusesDuplicates
            && st'.target.nqns == (if Deprovisioned(st, req, env)
                                   then st.target.nqns - {st.subsystems[req.name].nqn} else st.target.nqns)
            && st'.nqns == (if Unindexed(st, req, env) then st.nqns - {st.subsystems[req.name].nqn} else st.nqns)
            && st'.subsystems == (if Unindexed(st, req, env) && env.write
                                  then st.subsystems - {req.name} else st.subsystems)
  {
  }

  predicate MovesNqns(e: Event) {
    e.CreatesSubsystem? || e.DeletesSubsystem? || e.Restarts?
  }

  lemma OthersMoveNothing(st: State, e: Event)
    requires SelfKeyed(st) && !MovesNqns(e)
    ensures SameSubsystems(st, Step(st, e))
  {
    match e
    case CreatesController(req, env) => CreateControllerEffect(st, req, env);
    case DeletesController(req, env) => DeleteControllerEffect(st, req, env);
    case CreatesNamespace(req, env) => CreateNamespaceEffect(st, req, env);
    case DeletesNamespace(req, env) => DeleteNamespaceEffect(st, req, env);
    case CreatesVirtio(req, env) => CreateVirtioEffect(st, req, env);
    case DeletesVirtio(req, env) => DeleteVirtioEffect(st, req, env);
    case Asks(q) => AskEffect(st, q);
  }

  lemma NqnsInsert(subsystems: map<string, Subsystem>, key: string, record: Subsystem)
    ensures NqnsOf(subsystems[key := record]) == NqnsOf(subsystems)[key := record.nqn]
  {
  }

  lemma NqnsRemove(subsystems: map<string, Subsystem>, key: string)
    ensures NqnsOf(subsystems - {key}) == NqnsOf(subsystems) - {key}
  {
  }

  lemma CreateNqns(st: State, req: CreateSubsystemRequest, env: Env)
    ensures var st' := CreateSubsystem(st, req, env).0;
            NqnOf(st') == if Stored(st, req, env) then NqnOf(st)[SubsystemKey(req) := req.nqn] else NqnOf(st)
  {
    CreateMoves(st, req, env);
    if Stored(st, req, env) {
      NqnsInsert(st.subsystems, SubsystemKey(req), CreateSubsystem(st, req, env).1.value);
    }
  }

  lemma DeleteNqns(st: State, req: DeleteRequest, env: Env)
    requires SelfKeyed(st)
    ensures var st' := DeleteSubsystem(st, req, env).0;
            NqnOf(st') == if Unindexed(st, req, env) && env.write then NqnOf(st) - {req.name} else NqnOf(st)
  {
    DeleteMoves(st, req, env);
    NqnsRemove(st.subsystems, req.name);
  }

  /** A create breaks uniqueness exactly when it stores an NQN that is stored already. */
  lemma CreateBreaksUniquenessIff(st: State, req: CreateSubsystemRequest, env: Env)
    requires Unique(st)
    ensures Unique(CreateSubsystem(st, req, env).0) <==>
            !(Stored(st, req, env) && req.nqn in StoredNqns(st))
  {
    var m, k := NqnOf(st), SubsystemKey(req);
    CreateNqns(st, req, env);
    if Stored(st, req, env) {
      if req.nqn in m.Values {
        var l :| l in m && m[l] == req.nqn;
        var m' := m[k := req.nqn];
        assert l != k && m'[l] == m'[k];
      } else {
        BijectiveInsert(m, k, req.nqn, m.Values);
      }
    }
  }

  // ---------------------------------------------------------------- the index as barrier

  ghost predicate IndexBarrier(st: State) {
    SelfKeyed(st) && Unique(st) && StoredNqns(st) <= st.nqns.Keys
  }

  /** No restart, and no store Delete of a subsystem fails; every other fault is allowed. */
  predicate SparesIndex(e: Event) {
    !e.Restarts? && (e.DeletesSubsystem? ==> e.env.write)
  }

  /** NQNs the index holds although no stored subsystem has them. */
  function Reserved(st: State): set<string> {
    st.nqns.Keys - StoredNqns(st)
  }

  /** The NQN a create leaves reserved: it was indexed, and then its store Set failed. */
  function ReservedBy(st: State, e: Event): set<string> {
    if e.CreatesSubsystem? && Indexed(st, e.createSubsystem, e.env) && !e.env.write
    then {e.createSubsystem.nqn} else {}
  }

  function ReservedDuring(st: State, events: seq<Event>): set<string>
    decreases |events|
  {
    if events == [] then {} else ReservedBy(st, events[0]) + ReservedDuring(Step(st, events[0]), events[1..])
  }

  lemma IndexCreate(st: State, req: CreateSubsystemRequest, env: Env)
    requires Unique(st) && StoredNqns(st) <= st.nqns.Keys
    ensures var st' := CreateSubsystem(st, req, env).0;
            && Unique(st') && StoredNqns(st') <= st'.nqns.Keys
            && Reserved(st') == Reserved(st) + ReservedBy(st, CreatesSubsystem(req, env))
  {
    var m := NqnOf(st);
    CreateMoves(st, req, env);
    CreateNqns(st, req, env);
    if Stored(st, req, env) { BijectiveInsert(m, SubsystemKey(req), req.nqn, m.Values); }
  }

  lemma IndexDelete(st: State, req: DeleteRequest, env: Env)
    requires SelfKeyed(st) && Unique(st) && StoredNqns(st) <= st.nqns.Keys && env.write
    ensures var st' := DeleteSubsystem(st, req, env).0;
            Unique(st') && StoredNqns(st') <= st'.nqns.Keys && Reserved(st') == Reserved(st)
  {
    var m := NqnOf(st);
    DeleteMoves(st, req, env);
    DeleteNqns(st, req, env);
    if Unindexed(st, req, env) { BijectiveRemove(m, req.name, m.Values); }
  }

  lemma IndexStep(st: State, e: Event)
    requires IndexBarrier(st) && SparesIndex(e)
    ensures IndexBarrier(Step(st, e))
    ensures Reserved(Step(st, e)) == Reserved(st) + ReservedBy(st, e)
  {
    SelfKeyedStep(st, e);
    if e.CreatesSubsystem? {
      IndexCreate(st, e.createSubsystem, e.env);
    } else if e.DeletesSubsystem? {
      IndexDelete(st, e.delete, e.env);
    } else {
      OthersMoveNothing(st, e);
    }
  }

  /**
   By the index alone, whatever the target does with duplicates, and with calls made one after
   another: without restarts and without failing store Deletes, under any remote faults and failing
   store Sets, stored NQNs stay pairwise distinct. The index exceeds the stored NQNs by exactly the ones whose store Set failed.
   */
  lemma {:induction false} UniqueByIndex(st: State, events: seq<Event>)
    requires IndexBarrier(st) && forall i :: 0 <= i < |events| ==> SparesIndex(events[i])
    ensures IndexBarrier(Run(st, events))
    ensures Reserved(Run(st, events)) == Reserved(st) + ReservedDuring(st, events)
    decreases |events|
  {
    if events != [] {
      IndexStep(st, events[0]);
      UniqueByIndex(Step(st, events[0]), events[1..]);
    }
  }

  predicate NoStoreFault(e: Event) {
    !e.Restarts? && (e.CreatesSubsystem? || e.DeletesSubsystem? ==> e.env.write)
  }

  lemma {:induction false} NothingReserved(st: State, events: seq<Event>)
    requires forall i :: 0 <= i < |events| ==> NoStoreFault(events[i])
    ensures ReservedDuring(st, events) == {}
    decreases |events|
  {
    if events != [] { NothingReserved(Step(st, events[0]), events[1..]); }
  }

  /** Without store faults and restarts the index is exactly the set of stored NQNs, whatever the RPCs do. */
  lemma IndexAgreement(st: State, events: seq<Event>)
    requires Initial(st) && forall i :: 0 <= i < |events| ==> NoStoreFault(events[i])
    ensures var later := Run(st, events); later.nqns.Keys == StoredNqns(later)
  {
    InitiallyAllHolds(st);
    UniqueByIndex(st, events);
    NothingReserved(st, events);
    var later := Run(st, events);
    assert later.nqns.Keys - StoredNqns(later) == {};
  }

  lemma ReservedStep(st: State, e: Event, nqn: string)
    requires SelfKeyed(st) && !e.Restarts? && nqn in Reserved(st)
    ensures nqn in Reserved(Step(st, e))
  {
    if e.CreatesSubsystem? {
      CreateMoves(st, e.createSubsystem, e.env);
      CreateNqns(st, e.createSubsystem, e.env);
    } else if e.DeletesSubsystem? {
      DeleteMoves(st, e.delete, e.env);
      DeleteNqns(st, e.delete, e.env);
      assert e.delete.name in st.subsystems ==> NqnOf(st)[e.delete.name] in StoredNqns(st);
    } else {
      OthersMoveNothing(st, e);
    }
  }

  /**
   A reserved NQN stays reserved under every fault, and every attempt to create it is turned away:
   nothing but a restart frees it.
   */
  lemma {:induction false} ReservedUntilRestart(st: State, events: seq<Event>, req: CreateSubsystemRequest, env: Env)
    requires SelfKeyed(st) && forall i :: 0 <= i < |events| ==> !events[i].Restarts?
    requires req.nqn in Reserved(st)
    ensures req.nqn in Reserved(Run(st, events))
    ensures var later := Run(st, events);
            ValidCreateSubsystem(req) && env.get && SubsystemKey(req) !in later.subsystems ==>
              CreateSubsystem(later, req, env) == (later, Err(AlreadyExists(req.nqn)))
    ensures req.nqn !in Reserved(Restarted(Run(st, events)))
    decreases |events|
  {
    if events != [] {
      ReservedStep(st, events[0], req.nqn);
      SelfKeyedStep(st, events[0]);
      ReservedUntilRestart(Step(st, events[0]), events[1..], req, env);
    }
  }

  // ---------------------------------------------------------------- the target as barrier

  ghost predicate TargetBarrier(st: State) {
    && st.target.refusesDuplicates
    && SelfKeyed(st) && Unique(st) && StoredNqns(st) <= st.target.nqns
  }

  /** No reply to a subsystem delete is lost and no store Delete of a subsystem fails. */
  predicate SparesTarget(e: Event) {
    e.DeletesSubsystem? ==> !e.env.rpc.ReplyLost? && e.env.write
  }

  /** NQNs the target holds although no stored subsystem has them. */
  function Orphans(st: State): set<string> {
    st.target.nqns - StoredNqns(st)
  }

  /** The orphan a create leaves: the target acted, then the reply, the version or the store Set failed. */
  function OrphanedBy(st: State, e: Event): set<string> {
    if && e.CreatesSubsystem? && Provisioned(st, e.createSubsystem, e.env)
       && (e.env.rpc.ReplyLost? || e.env.version.None? || !e.env.write)
    then {e.createSubsystem.nqn} else {}
  }

  function OrphanedDuring(st: State, events: seq<Event>): set<string>
    decreases |events|
  {
    if events == [] then {} else OrphanedBy(st, events[0]) + OrphanedDuring(Step(st, events[0]), events[1..])
  }

  lemma TargetCreate(st: State, req: CreateSubsystemRequest, env: Env)
    requires st.target.refusesDuplicates && Unique(st) && StoredNqns(st) <= st.target.nqns
    ensures var st' := CreateSubsystem(st, req, env).0;
            && st'.target.refusesDuplicates && Unique(st') && StoredNqns(st') <= st'.target.nqns
            && Orphans(st') == Orphans(st) + OrphanedBy(st, CreatesSubsystem(req, env))
  {
    var m := NqnOf(st);
    CreateMoves(st, req, env);
    CreateNqns(st, req, env);
    if Stored(st, req, env) { BijectiveInsert(m, SubsystemKey(req), req.nqn, m.Values); }
  }

  lemma TargetDelete(st: State, req: DeleteRequest, env: Env)
    requires TargetBarrier(st) && !env.rpc.ReplyLost? && env.write
    ensures var st' := DeleteSubsystem(st, req, env).0;
            && st'.target.refusesDuplicates && Unique(st') && StoredNqns(st') <= st'.target.nqns
            && Orphans(st') == Orphans(st)
  {
    var m := NqnOf(st);
    DeleteMoves(st, req, env);
    DeleteNqns(st, req, env);
    if Deprovisioned(st, req, env) { BijectiveRemove(m, req.name, m.Values); }
  }

  lemma TargetStep(st: State, e: Event)
    requires TargetBarrier(st) && SparesTarget(e)
    ensures TargetBarrier(Step(st, e))
    ensures Orphans(Step(st, e)) == Orphans(st) + OrphanedBy(st, e)
    ensures OrphanedBy(st, e) !! st.target.nqns
  {
    SelfKeyedStep(st, e);
    if e.CreatesSubsystem? {
      TargetCreate(st, e.createSubsystem, e.env);
    } else if e.DeletesSubsystem? {
      TargetDelete(st, e.delete, e.env);
    } else if !e.Restarts? {
      OthersMoveNothing(st, e);
    }
  }

  /**
   By the target alone, across any number of restarts: when no delete reply is lost and no store
   Delete fails, stored NQNs stay pairwise distinct, and the target's NQNs are the stored ones plus
   the orphans, of which there are exactly those made by a lost create reply, a failed version
   query or a failed store Set. Nothing ever reclaims an orphan.
   */
  lemma {:induction false} UniqueByTarget(st: State, events: seq<Event>)
    requires TargetBarrier(st) && forall i :: 0 <= i < |events| ==> SparesTarget(events[i])
    ensures TargetBarrier(Run(st, events))
    ensures Run(st, events).target.nqns == StoredNqns(Run(st, events)) + Orphans(Run(st, events))
    ensures Orphans(Run(st, events)) == Orphans(st) + OrphanedDuring(st, events)
    decreases |events|
  {
    if events != [] {
      TargetStep(st, events[0]);
      UniqueByTarget(Step(st, events[0]), events[1..]);
    }
  }

  lemma OrphanStep(st: State, e: Event, nqn: string)
    requires SelfKeyed(st) && st.target.refusesDuplicates && nqn in Orphans(st)
    ensures nqn in Orphans(Step(st, e)) && Step(st, e).target.refusesDuplicates
  {
    if e.CreatesSubsystem? {
      CreateMoves(st, e.createSubsystem, e.env);
      CreateNqns(st, e.createSubsystem, e.env);
    } else if e.DeletesSubsystem? {
      DeleteMoves(st, e.delete, e.env);
      DeleteNqns(st, e.delete, e.env);
      assert e.delete.name in st.subsystems ==> NqnOf(st)[e.delete.name] in StoredNqns(st);
    } else if !e.Restarts? {
      OthersMoveNothing(st, e);
    }
  }

  /**
   Under every fault and across restarts, an orphaned NQN is never stored again and never leaves the
   target: every create of it fails, in every later state.
   */
  lemma {:induction false} OrphanForever(st: State, events: seq<Event>, req: CreateSubsystemRequest, env: Env)
    requires SelfKeyed(st) && st.target.refusesDuplicates && req.nqn in Orphans(st)
    ensures req.nqn in Orphans(Run(st, events))
    ensures var later := Run(st, events);
            SubsystemKey(req) !in later.subsystems ==> CreateSubsystem(later, req, env).1.Err?
    decreases |events|
  {
    if events != [] {
      OrphanStep(st, events[0], req.nqn);
      SelfKeyedStep(st, events[0]);
      OrphanForever(Step(st, events[0]), events[1..], req, env);
    }
  }

  // ---------------------------------------------------------------- validated forever

  predicate ValidNqn(nqn: string) {
    Nqn.IsNqn(nqn) && |nqn| <= MAX_NQN
  }

  ghost predicate AllValid(st: State) {
    && SelfKeyed(st)
    && (forall q :: q in StoredNqns(st) + st.nqns.Keys ==> ValidNqn(q))
    && (forall k :: k in st.subsystems ==>
          |st.subsystems[k].serial| <= MAX_SERIAL && |st.subsystems[k].model| <= MAX_MODEL)
  }

  lemma ValidCreate(st: State, req: CreateSubsystemRequest, env: Env)
    requires AllValid(st) && SelfKeyed(CreateSubsystem(st, req, env).0)
    ensures AllValid(CreateSubsystem(st, req, env).0)
  {
    CreateMoves(st, req, env);
    CreateNqns(st, req, env);
  }

  lemma ValidStep(st: State, e: Event)
    requires AllValid(st)
    ensures AllValid(Step(st, e))
  {
    SelfKeyedStep(st, e);
    if e.CreatesSubsystem? {
      ValidCreate(st, e.createSubsystem, e.env);
    } else if e.DeletesSubsystem? {
      DeleteMoves(st, e.delete, e.env);
      DeleteNqns(st, e.delete, e.env);
    } else if !e.Restarts? {
      OthersMoveNothing(st, e);
    }
  }

  /**
   Under every fault and any restarts, each stored or indexed NQN is in the grammar, is 15 to 223
   characters long, and has at most 106 dot and colon groups together; stored serial and model
   numbers keep their bounds.
   */
  lemma {:induction false} ValidatedForever(st: State, events: seq<Event>)
    requires AllValid(st)
    ensures AllValid(Run(st, events))
    ensures forall q :: q in StoredNqns(Run(st, events)) + Run(st, events).nqns.Keys ==>
              && 15 <= |q| <= 223 && Nqn.Parse(q).Some?
              && |Nqn.Parse(q).value.labels| + |Nqn.Parse(q).value.parts| <= 106
    ensures forall k :: k in Run(st, events).subsystems ==>
              |Run(st, events).subsystems[k].serial| <= 20 && |Run(st, events).subsystems[k].model| <= 40
    decreases |events|
  {
    if events == [] {
      forall q | q in StoredNqns(st) + st.nqns.Keys
        ensures && 15 <= |q| <= 223 && Nqn.Parse(q).Some?
                && |Nqn.Parse(q).value.labels| + |Nqn.Parse(q).value.parts| <= 106
      {
        Nqn.NqnBounds(q);
      }
    } else {
      ValidStep(st, events[0]);
      ValidatedForever(Step(st, events[0]), events[1..]);
    }
  }

  /** The empty start satisfies every invariant above. */
  lemma InitiallyAllHolds(st: State)
    requires Initial(st)
    ensures IndexBarrier(st) && Reserved(st) == {} && AllValid(st) && WellNamed(st)
    ensures st.target.refusesDuplicates ==> TargetBarrier(st)
    ensures Orphans(st) == {}
  {
  }

  // ---------------------------------------------------------------- both barriers are needed

  const CLEAN := Env(true, true, Served, Some(""), 0, "", true)

  function EmptyState(refusesDuplicates: bool): State {
    State(map[], map[], map[], map[], map[], map[], 1, Target({}, {}, {}, refusesDuplicates, false), [])
  }

  function Creates(req: CreateSubsystemRequest): Event {
    CreatesSubsystem(req, CLEAN)
  }

  function Deletes(req: CreateSubsystemRequest, env: Env): Event {
    DeletesSubsystem(DeleteRequest(true, SubsystemKey(req), false), env)
  }

  /** Two valid requests for different names and the same NQN. */
  predicate Rivals(a: CreateSubsystemRequest, b: CreateSubsystemRequest) {
    ValidCreateSubsystem(a) && ValidCreateSubsystem(b) && a.nqn == b.nqn && SubsystemKey(a) != SubsystemKey(b)
  }

  lemma RivalsExist() returns (a: CreateSubsystemRequest, b: CreateSubsystemRequest)
    ensures Rivals(a, b)
  {
    var t := Nqn.Tree("2022", "09", ["io"], ["opi"]);
    var nqn := Nqn.Print(t);
    assert Nqn.IsTree(t);
    Nqn.ParsePrint(t);
    Nqn.ScanAgreesWithParse(nqn);
    a := CreateSubsystemRequest(true, "a", "x", nqn, "", "");
    b := CreateSubsystemRequest(true, "b", "x", nqn, "", "");
    NamesAreInjective("a", "", "b", "");
  }

  /** Only the given subsystem is stored. */
  predicate Alone(st: State, req: CreateSubsystemRequest) {
    var key := SubsystemKey(req);
    st.subsystems.Keys == {key} && st.subsystems[key].nqn == req.nqn && st.subsystems[key].name == key
  }

  lemma AfterFirstCreate(refusesDuplicates: bool, a: CreateSubsystemRequest)
    requires ValidCreateSubsystem(a)
    ensures var st := Step(EmptyState(refusesDuplicates), Creates(a));
            && Alone(st, a)
            && st.target.refusesDuplicates == refusesDuplicates && !st.target.guardsChildren
  {
  }

  lemma SecondCreateDuplicates(st: State, a: CreateSubsystemRequest, b: CreateSubsystemRequest)
    requires Rivals(a, b) && Alone(st, a)
    requires a.nqn !in st.nqns && !(st.target.refusesDuplicates && a.nqn in st.target.nqns)
    ensures !Unique(Step(st, Creates(b)))
  {
    CreateMoves(st, b, CLEAN);
    var m := NqnOf(Step(st, Creates(b)));
    assert m[SubsystemKey(a)] == m[SubsystemKey(b)];
  }

  lemma RunOfThree(st: State, e: Event, f: Event, g: Event)
    ensures Run(st, [e, f, g]) == Step(Step(Step(st, e), f), g)
  {
    var one, two := Step(st, e), Step(Step(st, e), f);
    assert [e, f, g][1..] == [f, g];
    assert [f, g][1..] == [g];
    assert Run(two, [g]) == Step(two, g);
    assert Run(one, [f, g]) == Run(two, [g]);
  }

  /**
   The index needs the exclusion of restarts: on a target that tolerates duplicates, a restart
   between two creates always lets the second store the NQN again.
   */
  lemma RestartDefeatsIndex(a: CreateSubsystemRequest, b: CreateSubsystemRequest)
    requires Rivals(a, b)
    ensures !Unique(Run(EmptyState(false), [Creates(a), Restarts, Creates(b)]))
  {
    AfterFirstCreate(false, a);
    SecondCreateDuplicates(Step(Step(EmptyState(false), Creates(a)), Restarts), a, b);
    RunOfThree(EmptyState(false), Creates(a), Restarts, Creates(b));
  }

  /** Both barriers need the exclusion of failing store Deletes. */
  lemma FailedStoreDeleteDefeatsBoth(a: CreateSubsystemRequest, b: CreateSubsystemRequest)
    requires Rivals(a, b)
    ensures !Unique(Run(EmptyState(true), [Creates(a), Deletes(a, CLEAN.(write := false)), Creates(b)]))
  {
    var e := Deletes(a, CLEAN.(write := false));
    var st := Step(EmptyState(true), Creates(a));
    AfterFirstCreate(true, a);
    DeleteMoves(st, e.delete, e.env);
    SecondCreateDuplicates(Step(st, e), a, b);
    RunOfThree(EmptyState(true), Creates(a), e, Creates(b));
  }

  /** The target needs the exclusion of lost delete replies, once a restart has emptied the index. */
  lemma LostDeleteReplyDefeatsTarget(a: CreateSubsystemRequest, b: CreateSubsystemRequest)
    requires Rivals(a, b)
    ensures var st := Step(EmptyState(true), Creates(a));
            !Unique(Run(st, [Deletes(a, CLEAN.(rpc := ReplyLost)), Restarts, Creates(b)]))
  {
    var e := Deletes(a, CLEAN.(rpc := ReplyLost));
    var st := Step(EmptyState(true), Creates(a));
    AfterFirstCreate(true, a);
    DeleteMoves(st, e.delete, e.env);
    SecondCreateDuplicates(Restarted(Step(st, e)), a, b);
    RunOfThree(st, e, Restarts, Creates(b));
  }
}
