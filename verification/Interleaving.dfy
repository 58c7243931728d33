/**
 Subsystem calls in flight at the same time. Each access to the store, the index or the target is
 one atomic tick; between two ticks of a call any number of other calls may move.
 */
module Interleaving {
  import opened Common
  import opened Target
  import opened Records
  import opened Protocol
  import opened Uniqueness

  // ---------------------------------------------------------------- calls in small steps

  /** What a create call does next. */
  datatype CreatePhase =
    | Looking
    | Checking
    | Sending
    | Asking
    | Indexing(version: string)
    | Storing(version: string)
    | Created(reply: Reply<Subsystem>)

  /** What a delete call does next, once it has read the record it is to delete. */
  datatype DeletePhase =
    | Fetching
    | Revoking(record: Subsystem)
    | Unindexing(record: Subsystem)
    | Erasing(record: Subsystem)
    | Deleted(reply: Reply<()>)

  datatype Call =
    | Create(create: CreateSubsystemRequest, creating: CreatePhase)
    | Delete(delete: DeleteRequest, deleting: DeletePhase)

  function AdvanceCreate(st: State, req: CreateSubsystemRequest, phase: CreatePhase, env: Env): (State, CreatePhase) {
    match phase
    case Looking =>
      (st, if !ValidCreateSubsystem(req) then Created(Err(Invalid))
           else if !env.get then Created(Err(StoreError))
           else if SubsystemKey(req) in st.subsystems then Created(Ok(st.subsystems[SubsystemKey(req)]))
           else Checking)
    case Checking =>
      (st, if req.nqn in st.nqns then Created(Err(AlreadyExists(req.nqn))) else Sending)
    case Sending =>
      var (sent, answer) := Send(st, SubsystemCreate(req.nqn, req.serial, req.model), env);
      (sent, if answer.NoAnswer? then Created(Err(RpcError)) else if !answer.ok then Created(Err(Declined)) else Asking)
    case Asking =>
      (st.(log := st.log + [AskedVersion(env.version)]),
       if env.version.None? then Created(Err(RpcError)) else Indexing(env.version.value))
    case Indexing(version) =>
      (st.(nqns := st.nqns[req.nqn := false]), Storing(version))
    case Storing(version) =>
      var record := Subsystem(SubsystemKey(req), req.nqn, req.serial, req.model, version);
      if !env.write then (st, Created(Err(StoreError)))
      else (st.(subsystems := st.subsystems[SubsystemKey(req) := record]), Created(Ok(record)))
    case Created(_) => (st, phase)
  }

  function AdvanceDelete(st: State, req: DeleteRequest, phase: DeletePhase, env: Env): (State, DeletePhase) {
    match phase
    case Fetching =>
      (st, if !req.checked then Deleted(Err(Invalid))
           else if !env.get then Deleted(Err(StoreError))
           else if req.name !in st.subsystems then
             Deleted(if req.allowMissing then Ok(()) else Err(NotFound(req.name)))
           else Revoking(st.subsystems[req.name]))
    case Revoking(record) =>
      var (sent, answer) := Send(st, SubsystemDelete(record.nqn), env);
      (sent, if answer.NoAnswer? then Deleted(Err(RpcError))
             else if !answer.ok then Deleted(Err(Declined)) else Unindexing(record))
    case Unindexing(record) =>
      (st.(nqns := st.nqns - {record.nqn}), Erasing(record))
    case Erasing(record) =>
      if !env.write then (st, Deleted(Err(StoreError)))
      else (st.(subsystems := st.subsystems - {record.name}), Deleted(Ok(())))
    case Deleted(_) => (st, phase)
  }

  function CreateStepsLeft(phase: CreatePhase): nat {
    match phase
    case Looking => 6
    case Checking => 5
    case Sending => 4
    case Asking => 3
    case Indexing(_) => 2
    case Storing(_) => 1
    case Created(_) => 0
  }

  /** The call runs to its end with nothing in between. */
  function CreateAlone(st: State, req: CreateSubsystemRequest, phase: CreatePhase, env: Env): (State, Reply<Subsystem>)
    decreases CreateStepsLeft(phase)
  {
    if phase.Created? then (st, phase.reply)
    else var (next, after) := AdvanceCreate(st, req, phase, env); CreateAlone(next, req, after, env)
  }

  function DeleteStepsLeft(phase: DeletePhase): nat {
    match phase
    case Fetching => 4
    case Revoking(_) => 3
    case Unindexing(_) => 2
    case Erasing(_) => 1
    case Deleted(_) => 0
  }

  function DeleteAlone(st: State, req: DeleteRequest, phase: DeletePhase, env: Env): (State, Reply<()>)
    decreases DeleteStepsLeft(phase)
  {
    if phase.Deleted? then (st, phase.reply)
    else var (next, after) := AdvanceDelete(st, req, phase, env); DeleteAlone(next, req, after, env)
  }

  lemma OneStepCreate(st: State, req: CreateSubsystemRequest, phase: CreatePhase, env: Env)
    requires !phase.Created?
    ensures var (next, after) := AdvanceCreate(st, req, phase, env);
            CreateAlone(st, req, phase, env) == CreateAlone(next, req, after, env)
  {
  }

  lemma AnsweredCreateAlone(st: State, req: CreateSubsystemRequest, version: string, env: Env)
    ensures var record := Subsystem(SubsystemKey(req), req.nqn, req.serial, req.model, version);
            var indexed := st.(nqns := st.nqns[req.nqn := false]);
            CreateAlone(st, req, Indexing(version), env) ==
            if env.write
            then (indexed.(subsystems := indexed.subsystems[SubsystemKey(req) := record]), Ok(record))
            else (indexed, Err(StoreError))
  {
    var indexed := st.(nqns := st.nqns[req.nqn := false]);
    OneStepCreate(st, req, Indexing(version), env);
    OneStepCreate(indexed, req, Storing(version), env);
  }

  /** The small steps are the handler: a create that nobody interrupts does what CreateSubsystem says. */
  lemma UninterruptedCreate(st: State, req: CreateSubsystemRequest, env: Env)
    ensures CreateAlone(st, req, Looking, env) == CreateSubsystem(st, req, env)
  {
    OneStepCreate(st, req, Looking, env);
    if ValidCreateSubsystem(req) && env.get && SubsystemKey(req) !in st.subsystems {
      OneStepCreate(st, req, Checking, env);
      if req.nqn !in st.nqns {
        OneStepCreate(st, req, Sending, env);
        var (sent, answer) := Send(st, SubsystemCreate(req.nqn, req.serial, req.model), env);
        if answer.Answer? && answer.ok {
          OneStepCreate(sent, req, Asking, env);
          if env.version.Some? {
            AnsweredCreateAlone(sent.(log := sent.log + [AskedVersion(env.version)]), req, env.version.value, env);
          }
        }
      }
    }
  }

  lemma OneStepDelete(st: State, req: DeleteRequest, phase: DeletePhase, env: Env)
    requires !phase.Deleted?
    ensures var (next, after) := AdvanceDelete(st, req, phase, env);
            DeleteAlone(st, req, phase, env) == DeleteAlone(next, req, after, env)
  {
  }

  /** Likewise for DeleteSubsystem. */
  lemma UninterruptedDelete(st: State, req: DeleteRequest, env: Env)
    ensures DeleteAlone(st, req, Fetching, env) == DeleteSubsystem(st, req, env)
  {
    OneStepDelete(st, req, Fetching, env);
    if req.checked && env.get && req.name in st.subsystems {
      var record := st.subsystems[req.name];
      OneStepDelete(st, req, Revoking(record), env);
      var (sent, answer) := Send(st, SubsystemDelete(record.nqn), env);
      if answer.Answer? && answer.ok {
        OneStepDelete(sent, req, Unindexing(record), env);
        OneStepDelete(sent.(nqns := sent.nqns - {record.nqn}), req, Erasing(record), env);
      }
    }
  }

  // ---------------------------------------------------------------- schedules

  datatype System = System(st: State, calls: seq<Call>)

  datatype Tick =
    | Arrive(call: Call)            // a new call, not yet started
    | Advance(who: nat, env: Env)   // one atomic access by one call
    | Crash                         // the server dies with its calls and restarts

  function Next(sys: System, tick: Tick): System {
    match tick
    case Arrive(call) => sys.(calls := sys.calls + [call])
    case Advance(who, env) =>
      if who >= |sys.calls| then sys
      else
        (match sys.calls[who]
         case Create(req, phase) =>
           var (st, next) := AdvanceCreate(sys.st, req, phase, env);
           System(st, sys.calls[who := Create(req, next)])
         case Delete(req, phase) =>
           var (st, next) := AdvanceDelete(sys.st, req, phase, env);
           System(st, sys.calls[who := Delete(req, next)]))
    case Crash => System(Restarted(sys.st), [])
  }

  function Interleave(sys: System, ticks: seq<Tick>): System
    decreases |ticks|
  {
    if ticks == [] then sys else Interleave(Next(sys, ticks[0]), ticks[1..])
  }

  lemma {:induction false} InterleaveConcat(sys: System, a: seq<Tick>, b: seq<Tick>)
    ensures Interleave(sys, a + b) == Interleave(Interleave(sys, a), b)
    decreases |a|
  {
    if a == [] {
      assert a + b == b;
    } else {
      assert (a + b)[1..] == a[1..] + b;
      InterleaveConcat(Next(sys, a[0]), a[1..], b);
    }
  }

  // ---------------------------------------------------------------- which ticks break uniqueness

  /** The tick's store Set gives its name an NQN that another name holds. */
  predicate Duplicates(sys: System, tick: Tick) {
    && tick.Advance? && tick.who < |sys.calls| && tick.env.write
    && sys.calls[tick.who].Create? && sys.calls[tick.who].creating.Storing?
    && var req := sys.calls[tick.who].create;
    && exists k :: k in sys.st.subsystems && k != SubsystemKey(req) && sys.st.subsystems[k].nqn == req.nqn
  }

  lemma SetBreaksUniquenessIff(m: map<string, string>, key: string, nqn: string)
    requires Injective(m)
    ensures Injective(m[key := nqn]) <==> !exists k :: k in m && k != key && m[k] == nqn
  {
    var m' := m[key := nqn];
    if k :| k in m && k != key && m[k] == nqn {
      assert k in m' && key in m' && m'[k] == m'[key];
    }
  }

  lemma AdvanceCreateNqns(st: State, req: CreateSubsystemRequest, phase: CreatePhase, env: Env)
    ensures NqnOf(AdvanceCreate(st, req, phase, env).0) ==
            if phase.Storing? && env.write then NqnOf(st)[SubsystemKey(req) := req.nqn] else NqnOf(st)
  {
  }

  lemma AdvanceDeleteNqns(st: State, req: DeleteRequest, phase: DeletePhase, env: Env)
    ensures NqnOf(AdvanceDelete(st, req, phase, env).0) ==
            if phase.Erasing? && env.write then NqnOf(st) - {phase.record.name} else NqnOf(st)
  {
    if phase.Erasing? { NqnsRemove(st.subsystems, phase.record.name); }
  }

  /**
   Of all ticks of all calls, whatever is in flight and whatever fails, one breaks uniqueness exactly
   when it is a store Set of an NQN that another name holds; no tick of a delete ever does.
   */
  lemma TickBreaksUniquenessIff(sys: System, tick: Tick)
    requires Unique(sys.st)
    ensures Unique(Next(sys, tick).st) <==> !Duplicates(sys, tick)
  {
    if tick.Advance? && tick.who < |sys.calls| {
      match sys.calls[tick.who]
      case Create(req, phase) =>
        AdvanceCreateNqns(sys.st, req, phase, tick.env);
        SetBreaksUniquenessIff(NqnOf(sys.st), SubsystemKey(req), req.nqn);
        assert forall k :: k in sys.st.subsystems ==> NqnOf(sys.st)[k] == sys.st.subsystems[k].nqn;
      case Delete(req, phase) =>
        AdvanceDeleteNqns(sys.st, req, phase, tick.env);
    }
  }

  /** The system after n ticks. */
  function At(sys: System, ticks: seq<Tick>, n: nat): System
    requires n <= |ticks|
  {
    Interleave(sys, ticks[..n])
  }

  lemma AtNext(sys: System, ticks: seq<Tick>, n: nat)
    requires n < |ticks|
    ensures At(sys, ticks, n + 1) == Next(At(sys, ticks, n), ticks[n])
  {
    assert ticks[..n + 1] == ticks[..n] + [ticks[n]];
    InterleaveConcat(sys, ticks[..n], [ticks[n]]);
    assert Interleave(Next(At(sys, ticks, n), ticks[n]), []) == Next(At(sys, ticks, n), ticks[n]);
  }

  lemma {:induction false} UniqueUpTo(sys: System, ticks: seq<Tick>, n: nat)
    requires n <= |ticks| && Unique(sys.st)
    requires forall i | 0 <= i < n :: !Duplicates(At(sys, ticks, i), ticks[i])
    ensures Unique(At(sys, ticks, n).st)
  {
    if n > 0 {
      UniqueUpTo(sys, ticks, n - 1);
      AtNext(sys, ticks, n - 1);
      TickBreaksUniquenessIff(At(sys, ticks, n - 1), ticks[n - 1]);
    }
  }

  /** Every moment of a schedule is free of duplicates exactly when none of its ticks stores one. */
  lemma AlwaysUniqueIff(sys: System, ticks: seq<Tick>)
    ensures (forall n | 0 <= n <= |ticks| :: Unique(At(sys, ticks, n).st)) <==>
            Unique(sys.st) && forall n | 0 <= n < |ticks| :: !Duplicates(At(sys, ticks, n), ticks[n])
  {
    assert At(sys, ticks, 0) == sys;
    if forall n | 0 <= n <= |ticks| :: Unique(At(sys, ticks, n).st) {
      forall n | 0 <= n < |ticks| ensures !Duplicates(At(sys, ticks, n), ticks[n]) {
        AtNext(sys, ticks, n);
        TickBreaksUniquenessIff(At(sys, ticks, n), ticks[n]);
      }
    }
    if Unique(sys.st) && forall n | 0 <= n < |ticks| :: !Duplicates(At(sys, ticks, n), ticks[n]) {
      forall n | 0 <= n <= |ticks| ensures Unique(At(sys, ticks, n).st) { UniqueUpTo(sys, ticks, n); }
    }
  }

  /** A crash is a restart that no call in flight survives. */
  lemma CrashIsRestart(sys: System)
    ensures Next(sys, Crash).st == Step(sys.st, Restarts) && Next(sys, Crash).calls == []
  {
  }

  /** Calls arrive unstarted. */
  predicate ArrivesFresh(tick: Tick) {
    tick.Arrive? ==> if tick.call.Create? then tick.call.creating.Looking? else tick.call.deleting.Fetching?
  }

  /** Only creates arrive. */
  predicate CreatesOnly(tick: Tick) {
    tick.Arrive? ==> tick.call.Create? && tick.call.creating.Looking?
  }

  // ---------------------------------------------------------------- racing creates

  /** The target has accepted the call's NQN, and the call has not finished. */
  predicate Owns(call: Call) {
    call.Create? && (call.creating.Asking? || call.creating.Indexing? || call.creating.Storing?)
  }

  ghost predicate OwnersApart(calls: seq<Call>) {
    forall i, j :: 0 <= i < j < |calls| && Owns(calls[i]) && Owns(calls[j]) ==>
      calls[i].create.nqn != calls[j].create.nqn
  }

  /** Stored NQNs are distinct; those and the NQNs owned in flight are on the target and never coincide. */
  ghost predicate RaceFree(sys: System) {
    && sys.st.target.refusesDuplicates
    && Unique(sys.st) && StoredNqns(sys.st) <= sys.st.target.nqns
    && (forall i :: 0 <= i < |sys.calls| ==> sys.calls[i].Create?)
    && (forall i :: 0 <= i < |sys.calls| && Owns(sys.calls[i]) ==>
          sys.calls[i].create.nqn in sys.st.target.nqns - StoredNqns(sys.st))
    && OwnersApart(sys.calls)
  }

  /** Every stored NQN is indexed, and so is that of every call about to store. */
  ghost predicate AllIndexed(sys: System) {
    && StoredNqns(sys.st) <= sys.st.nqns.Keys
    && forall i :: 0 <= i < |sys.calls| && sys.calls[i].Create? && sys.calls[i].creating.Storing? ==>
         sys.calls[i].create.nqn in sys.st.nqns
  }

  /** Overwriting or adding one record: the old NQN of that name goes, the new one comes. */
  lemma StoreNqn(st: State, st': State, record: Subsystem, key: string)
    requires Unique(st) && record.nqn !in StoredNqns(st)
    requires st'.subsystems == st.subsystems[key := record]
    ensures Unique(st') && StoredNqns(st') <= StoredNqns(st) + {record.nqn}
  {
    var m, m' := NqnOf(st), NqnOf(st');
    assert forall k :: k in m && k != key ==> m'[k] == m[k] && m[k] in m.Values;
    assert m'[key] == record.nqn;
  }

  lemma RaceFreeStore(sys: System, who: nat, env: Env)
    requires RaceFree(sys) && who < |sys.calls| && sys.calls[who].creating.Storing? && env.write
    ensures RaceFree(Next(sys, Advance(who, env)))
  {
    var req := sys.calls[who].create;
    var st' := Next(sys, Advance(who, env)).st;
    StoreNqn(sys.st, st', st'.subsystems[SubsystemKey(req)], SubsystemKey(req));
  }

  /** A tick that stores nothing can only make its own call an owner, and then of an NQN new to the target. */
  lemma AdvanceKeepsStore(st: State, req: CreateSubsystemRequest, phase: CreatePhase, env: Env)
    requires !(phase.Storing? && env.write)
    ensures var (st', next) := AdvanceCreate(st, req, phase, env);
            && st'.subsystems == st.subsystems && st.target.nqns <= st'.target.nqns
            && st'.target.refusesDuplicates == st.target.refusesDuplicates
            && st.nqns.Keys <= st'.nqns.Keys && (next.Storing? && !phase.Storing? ==> req.nqn in st'.nqns)
            && (Owns(Create(req, next)) && !Owns(Create(req, phase)) ==>
                  && req.nqn in st'.target.nqns
                  && (st.target.refusesDuplicates ==> req.nqn !in st.target.nqns))
  {
  }

  lemma RaceFreeAdvance(sys: System, who: nat, env: Env)
    requires RaceFree(sys) && who < |sys.calls|
    ensures RaceFree(Next(sys, Advance(who, env)))
  {
    var Create(req, phase) := sys.calls[who];
    if phase.Storing? && env.write {
      RaceFreeStore(sys, who, env);
    } else {
      AdvanceKeepsStore(sys.st, req, phase, env);
    }
  }

  lemma RaceFreeNext(sys: System, tick: Tick)
    requires RaceFree(sys) && CreatesOnly(tick)
    ensures RaceFree(Next(sys, tick))
  {
    if tick.Advance? && tick.who < |sys.calls| {
      RaceFreeAdvance(sys, tick.who, tick.env);
    }
  }

  /**
   Any number of creates in flight, in any interleaving, with any faults and crashes: a target that
   refuses duplicates keeps the stored NQNs pairwise distinct, even when two calls race on one name
   and the later store Set overwrites the earlier.
   */
  lemma {:induction false} RacingCreatesStayUnique(sys: System, ticks: seq<Tick>)
    requires RaceFree(sys) && forall i :: 0 <= i < |ticks| ==> CreatesOnly(ticks[i])
    ensures RaceFree(Interleave(sys, ticks)) && Unique(Interleave(sys, ticks).st)
    decreases |ticks|
  {
    if ticks != [] {
      RaceFreeNext(sys, ticks[0]);
      RacingCreatesStayUnique(Next(sys, ticks[0]), ticks[1..]);
    }
  }

  lemma AllIndexedNext(sys: System, tick: Tick)
    requires AllIndexed(sys) && RaceFree(sys) && CreatesOnly(tick) && !tick.Crash?
    ensures AllIndexed(Next(sys, tick))
  {
    if tick.Advance? && tick.who < |sys.calls| {
      var Create(req, phase) := sys.calls[tick.who];
      if phase.Storing? && tick.env.write {
        var st' := Next(sys, tick).st;
        StoreNqn(sys.st, st', st'.subsystems[SubsystemKey(req)], SubsystemKey(req));
      } else {
        AdvanceKeepsStore(sys.st, req, phase, tick.env);
      }
    }
  }

  /** Without crashes, every stored NQN is in the index as well, after every tick. */
  lemma {:induction false} RacingCreatesStayIndexed(sys: System, ticks: seq<Tick>)
    requires RaceFree(sys) && AllIndexed(sys)
    requires forall i :: 0 <= i < |ticks| ==> CreatesOnly(ticks[i]) && !ticks[i].Crash?
    ensures StoredNqns(Interleave(sys, ticks).st) <= Interleave(sys, ticks).st.nqns.Keys
    decreases |ticks|
  {
    if ticks != [] {
      RaceFreeNext(sys, ticks[0]);
      AllIndexedNext(sys, ticks[0]);
      RacingCreatesStayIndexed(Next(sys, ticks[0]), ticks[1..]);
    }
  }

  /** The start of every such run: an idle server whose stored NQNs are distinct and known. */
  lemma IdleIsRaceFree(st: State)
    requires TargetBarrier(st)
    ensures RaceFree(System(st, []))
    ensures IndexBarrier(st) ==> AllIndexed(System(st, []))
  {
  }

  // ---------------------------------------------------------------- one delete in flight

  function Repeat(tick: Tick, n: nat): seq<Tick> {
    if n == 0 then [] else [tick] + Repeat(tick, n - 1)
  }

  /** A call that alone keeps moving does, to the system, what the uninterrupted call does. */
  lemma {:induction false} CreateToEnd(sys: System, who: nat, env: Env, n: nat)
    requires who < |sys.calls| && sys.calls[who].Create? && CreateStepsLeft(sys.calls[who].creating) <= n
    ensures var req := sys.calls[who].create;
            var (st, reply) := CreateAlone(sys.st, req, sys.calls[who].creating, env);
            Interleave(sys, Repeat(Advance(who, env), n)) == System(st, sys.calls[who := Create(req, Created(reply))])
    decreases n
  {
    var req := sys.calls[who].create;
    var reply := CreateAlone(sys.st, req, sys.calls[who].creating, env).1;
    if n > 0 {
      var next := Next(sys, Advance(who, env));
      CreateToEnd(next, who, env, n - 1);
      assert Repeat(Advance(who, env), n)[1..] == Repeat(Advance(who, env), n - 1);
      var last := Create(req, Created(reply));
      assert next.calls[who := last] == sys.calls[who := last];
    }
  }

  lemma {:induction false} DeleteToEnd(sys: System, who: nat, env: Env, n: nat)
    requires who < |sys.calls| && sys.calls[who].Delete? && DeleteStepsLeft(sys.calls[who].deleting) <= n
    ensures var req := sys.calls[who].delete;
            var (st, reply) := DeleteAlone(sys.st, req, sys.calls[who].deleting, env);
            Interleave(sys, Repeat(Advance(who, env), n)) == System(st, sys.calls[who := Delete(req, Deleted(reply))])
    decreases n
  {
    var req := sys.calls[who].delete;
    var reply := DeleteAlone(sys.st, req, sys.calls[who].deleting, env).1;
    if n > 0 {
      var next := Next(sys, Advance(who, env));
      DeleteToEnd(next, who, env, n - 1);
      assert Repeat(Advance(who, env), n)[1..] == Repeat(Advance(who, env), n - 1);
      var last := Delete(req, Deleted(reply));
      assert next.calls[who := last] == sys.calls[who := last];
    }
  }

  /** A create that arrives and then moves alone does what CreateSubsystem says. */
  lemma CreateFromArrival(sys: System, req: CreateSubsystemRequest, env: Env)
    ensures var (st, reply) := CreateSubsystem(sys.st, req, env);
            Interleave(sys, [Arrive(Create(req, Looking))] + Repeat(Advance(|sys.calls|, env), 6))
            == System(st, sys.calls + [Create(req, Created(reply))])
  {
    var ticks := [Arrive(Create(req, Looking))] + Repeat(Advance(|sys.calls|, env), 6);
    assert ticks[1..] == Repeat(Advance(|sys.calls|, env), 6);
    var next := Next(sys, ticks[0]);
    CreateToEnd(next, |sys.calls|, env, 6);
    UninterruptedCreate(sys.st, req, env);
    var last := Create(req, Created(CreateSubsystem(sys.st, req, env).1));
    assert next.calls[|sys.calls| := last] == sys.calls + [last];
  }

  /** The target would let the NQN go. */
  predicate Childless(st: State, nqn: string) {
    !(st.target.guardsChildren && st.target.HasChildren(nqn))
  }

  /** The delete of key has removed the NQN from the target and the index, but not yet the record. */
  function HalfDeleted(st: State, key: string): State
    requires key in st.subsystems
  {
    var nqn := st.subsystems[key].nqn;
    var sent := Send(st, SubsystemDelete(nqn), CLEAN).0;
    sent.(nqns := sent.nqns - {nqn})
  }

  lemma DeleteHalfWay(st: State, req: DeleteRequest)
    requires req.checked && req.name in st.subsystems
    requires Childless(st, st.subsystems[req.name].nqn)
    ensures Interleave(System(st, []), [Arrive(Delete(req, Fetching))] + Repeat(Advance(0, CLEAN), 3)) ==
            System(HalfDeleted(st, req.name), [Delete(req, Erasing(st.subsystems[req.name]))])
  {
    var go, record := Advance(0, CLEAN), st.subsystems[req.name];
    var sent := Send(st, SubsystemDelete(record.nqn), CLEAN).0;
    var one := System(st, [Delete(req, Fetching)]);
    var two := System(st, [Delete(req, Revoking(record))]);
    var three := System(sent, [Delete(req, Unindexing(record))]);
    var four := System(HalfDeleted(st, req.name), [Delete(req, Erasing(record))]);
    assert Next(one, go) == two && Next(two, go) == three && Next(three, go) == four;
    assert Interleave(three, Repeat(go, 1)) == four by { assert Repeat(go, 1)[1..] == []; }
    assert Interleave(two, Repeat(go, 2)) == four by { assert Repeat(go, 2)[1..] == Repeat(go, 1); }
    assert Interleave(one, Repeat(go, 3)) == four by { assert Repeat(go, 3)[1..] == Repeat(go, 2); }
    var ticks := [Arrive(Delete(req, Fetching))] + Repeat(go, 3);
    assert ticks[1..] == Repeat(go, 3);
    assert Next(System(st, []), ticks[0]) == one;
  }

  /**
   One delete in flight is enough to break uniqueness, with no fault at all: while a stored
   subsystem's delete stands between the index and the store, any create of its NQN under another
   name runs to the end and stores the NQN a second time.
   */
  lemma DeleteInFlightBreaksUniqueness(st: State, del: DeleteRequest, b: CreateSubsystemRequest)
    requires Unique(st) && del.checked && del.name in st.subsystems
    requires Childless(st, st.subsystems[del.name].nqn)
    requires ValidCreateSubsystem(b) && b.nqn == st.subsystems[del.name].nqn && SubsystemKey(b) !in st.subsystems
    ensures var deleting := [Arrive(Delete(del, Fetching))] + Repeat(Advance(0, CLEAN), 3);
            var creating := [Arrive(Create(b, Looking))] + Repeat(Advance(1, CLEAN), 6);
            !Unique(Interleave(System(st, []), deleting + creating).st)
  {
    var deleting := [Arrive(Delete(del, Fetching))] + Repeat(Advance(0, CLEAN), 3);
    var creating := [Arrive(Create(b, Looking))] + Repeat(Advance(1, CLEAN), 6);
    var half := HalfDeleted(st, del.name);
    var mid := System(half, [Delete(del, Erasing(st.subsystems[del.name]))]);
    DeleteHalfWay(st, del);
    InterleaveConcat(System(st, []), deleting, creating);
    CreateFromArrival(mid, b, CLEAN);
    assert NqnOf(half) == NqnOf(st) && NqnOf(st)[del.name] == b.nqn;
    CreateBreaksUniquenessIff(half, b, CLEAN);
  }
}
