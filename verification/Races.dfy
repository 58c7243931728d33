/**
 Creates racing with creates. Both may pass the search of the index before either is in it: where the
 target tolerates duplicates one NQN is then stored twice, and on one name the later record replaces
 the earlier. What such races leave on the target without a record is accounted for exactly.
 */
module Races {
  import opened Common
  import opened Target
  import opened Records
  import opened Protocol
  import opened Uniqueness
  import opened Interleaving

  // ---------------------------------------------------------------- two creates, both past the index

  /** Two creates arrive, and each looks its name up and searches the index. */
  function BothCheck(a: CreateSubsystemRequest, b: CreateSubsystemRequest): seq<Tick> {
    [Arrive(Create(a, Looking)), Arrive(Create(b, Looking))]
    + (Repeat(Advance(0, CLEAN), 2) + Repeat(Advance(1, CLEAN), 2))
  }

  /** The one and then the other runs to its end. */
  function BothFinish(): seq<Tick> {
    Repeat(Advance(0, CLEAN), 4) + Repeat(Advance(1, CLEAN), 4)
  }

  /** The request is valid, and neither its name is stored nor its NQN indexed. */
  predicate PassesCheck(st: State, req: CreateSubsystemRequest) {
    ValidCreateSubsystem(req) && SubsystemKey(req) !in st.subsystems && req.nqn !in st.nqns
  }

  lemma TwoTicks(sys: System, tick: Tick)
    ensures Interleave(sys, Repeat(tick, 2)) == Next(Next(sys, tick), tick)
  {
    var one := Next(sys, tick);
    assert Repeat(tick, 1)[1..] == [] && Repeat(tick, 2)[1..] == Repeat(tick, 1);
    assert Interleave(one, Repeat(tick, 1)) == Next(one, tick);
  }

  lemma CheckRuns(sys: System, who: nat, req: CreateSubsystemRequest)
    requires who < |sys.calls| && sys.calls[who] == Create(req, Looking) && PassesCheck(sys.st, req)
    ensures Interleave(sys, Repeat(Advance(who, CLEAN), 2)) == sys.(calls := sys.calls[who := Create(req, Sending)])
  {
    TwoTicks(sys, Advance(who, CLEAN));
    var one := sys.(calls := sys.calls[who := Create(req, Checking)]);
    assert Next(sys, Advance(who, CLEAN)) == one;
    assert one.calls[who := Create(req, Sending)] == sys.calls[who := Create(req, Sending)];
  }

  lemma BothCheckRuns(st: State, a: CreateSubsystemRequest, b: CreateSubsystemRequest)
    requires PassesCheck(st, a) && PassesCheck(st, b)
    ensures Interleave(System(st, []), BothCheck(a, b)) == System(st, [Create(a, Sending), Create(b, Sending)])
  {
    var arrivals := [Arrive(Create(a, Looking)), Arrive(Create(b, Looking))];
    var here := System(st, [Create(a, Looking), Create(b, Looking)]);
    assert arrivals[1..] == [arrivals[1]];
    assert [] + [Create(a, Looking)] == [Create(a, Looking)];
    assert Next(System(st, []), arrivals[0]) == System(st, [Create(a, Looking)]);
    assert Next(System(st, [Create(a, Looking)]), arrivals[1]) == here;
    assert Interleave(System(st, [Create(a, Looking)]), [arrivals[1]]) == here;
    InterleaveConcat(System(st, []), arrivals, Repeat(Advance(0, CLEAN), 2) + Repeat(Advance(1, CLEAN), 2));
    InterleaveConcat(here, Repeat(Advance(0, CLEAN), 2), Repeat(Advance(1, CLEAN), 2));
    CheckRuns(here, 0, a);
    var half := System(st, [Create(a, Sending), Create(b, Looking)]);
    assert here.calls[0 := Create(a, Sending)] == half.calls;
    CheckRuns(half, 1, b);
    assert half.calls[1 := Create(b, Sending)] == [Create(a, Sending), Create(b, Sending)];
  }

  /** What a create that has passed its check does from there on, when everything answers. */
  function Finished(st: State, req: CreateSubsystemRequest): State {
    CreateAlone(st, req, Sending, CLEAN).0
  }

  function NewRecord(req: CreateSubsystemRequest): Subsystem {
    Subsystem(SubsystemKey(req), req.nqn, req.serial, req.model, "")
  }

  /** The target would take the NQN. */
  predicate IsFree(st: State, nqn: string) {
    !(st.target.refusesDuplicates && nqn in st.target.nqns)
  }

  lemma FinishAlone(st: State, req: CreateSubsystemRequest)
    requires IsFree(st, req.nqn)
    ensures CreateAlone(st, req, Sending, CLEAN).1 == Ok(NewRecord(req))
    ensures var st' := Finished(st, req);
            && st'.subsystems == st.subsystems[SubsystemKey(req) := NewRecord(req)]
            && st'.nqns == st.nqns[req.nqn := false]
            && st'.target == st.target.(nqns := st.target.nqns + {req.nqn})
  {
    var sent := Send(st, SubsystemCreate(req.nqn, req.serial, req.model), CLEAN).0;
    OneStepCreate(st, req, Sending, CLEAN);
    OneStepCreate(sent, req, Asking, CLEAN);
    AnsweredCreateAlone(sent.(log := sent.log + [AskedVersion(CLEAN.version)]), req, "", CLEAN);
  }

  lemma BothFinishRuns(st: State, a: CreateSubsystemRequest, b: CreateSubsystemRequest)
    requires IsFree(st, a.nqn) && IsFree(Finished(st, a), b.nqn)
    ensures Interleave(System(st, [Create(a, Sending), Create(b, Sending)]), BothFinish()) ==
            System(Finished(Finished(st, a), b), [Create(a, Created(Ok(NewRecord(a)))), Create(b, Created(Ok(NewRecord(b))))])
  {
    var start := System(st, [Create(a, Sending), Create(b, Sending)]);
    var half := System(Finished(st, a), [Create(a, Created(Ok(NewRecord(a)))), Create(b, Sending)]);
    InterleaveConcat(start, Repeat(Advance(0, CLEAN), 4), Repeat(Advance(1, CLEAN), 4));
    FinishAlone(st, a);
    CreateToEnd(start, 0, CLEAN, 4);
    assert start.calls[0 := half.calls[0]] == half.calls;
    FinishAlone(half.st, b);
    CreateToEnd(half, 1, CLEAN, 4);
    assert half.calls[1 := Create(b, Created(Ok(NewRecord(b))))] ==
           [Create(a, Created(Ok(NewRecord(a)))), Create(b, Created(Ok(NewRecord(b))))];
  }

  lemma BothCreate(st: State, a: CreateSubsystemRequest, b: CreateSubsystemRequest)
    requires PassesCheck(st, a) && PassesCheck(st, b) && IsFree(st, a.nqn)
    requires IsFree(st, b.nqn) && (st.target.refusesDuplicates ==> a.nqn != b.nqn)
    ensures var end := Interleave(Interleave(System(st, []), BothCheck(a, b)), BothFinish());
            && end.calls == [Create(a, Created(Ok(NewRecord(a)))), Create(b, Created(Ok(NewRecord(b))))]
            && end.st.subsystems == st.subsystems[SubsystemKey(a) := NewRecord(a)][SubsystemKey(b) := NewRecord(b)]
            && end.st.nqns.Keys == st.nqns.Keys + {a.nqn, b.nqn}
            && end.st.target.nqns == st.target.nqns + {a.nqn, b.nqn}
  {
    BothCheckRuns(st, a, b);
    FinishAlone(st, a);
    BothFinishRuns(st, a, b);
    FinishAlone(Finished(st, a), b);
  }

  /**
   On a target that tolerates duplicates the index alone does not protect overlapping calls: without
   any fault, restart or delete, two creates of one NQN that both search the index before either is in
   it both succeed, and the NQN is stored twice.
   */
  lemma TwoCreatesBreakUniqueness(st: State, a: CreateSubsystemRequest, b: CreateSubsystemRequest)
    requires Rivals(a, b) && PassesCheck(st, a) && PassesCheck(st, b) && !st.target.refusesDuplicates
    ensures var end := Interleave(Interleave(System(st, []), BothCheck(a, b)), BothFinish());
            && !Unique(end.st)
            && end.calls == [Create(a, Created(Ok(NewRecord(a)))), Create(b, Created(Ok(NewRecord(b))))]
  {
    BothCreate(st, a, b);
    var end := Interleave(Interleave(System(st, []), BothCheck(a, b)), BothFinish());
    assert NqnOf(end.st)[SubsystemKey(a)] == NqnOf(end.st)[SubsystemKey(b)];
  }

  /**
   On one name the later of two racing creates replaces the record that the earlier has returned as
   created, without any fault; the replaced NQN stays on the target and in the index.
   */
  lemma TwoCreatesOverwrite(st: State, a: CreateSubsystemRequest, b: CreateSubsystemRequest)
    requires PassesCheck(st, a) && PassesCheck(st, b) && SubsystemKey(a) == SubsystemKey(b) && a.nqn != b.nqn
    requires IsFree(st, a.nqn) && IsFree(st, b.nqn) && a.nqn !in StoredNqns(st)
    ensures var end := Interleave(Interleave(System(st, []), BothCheck(a, b)), BothFinish());
            && end.calls == [Create(a, Created(Ok(NewRecord(a)))), Create(b, Created(Ok(NewRecord(b))))]
            && end.st.subsystems == st.subsystems[SubsystemKey(a) := NewRecord(b)]
            && a.nqn in Orphans(end.st) && a.nqn in Reserved(end.st)
  {
    BothCreate(st, a, b);
    StillNotStored(st.subsystems, SubsystemKey(a), NewRecord(b), a.nqn);
  }

  lemma StillNotStored(subsystems: map<string, Subsystem>, key: string, record: Subsystem, nqn: string)
    requires nqn !in NqnsOf(subsystems).Values && nqn != record.nqn
    ensures nqn !in NqnsOf(subsystems[key := record]).Values
  {
    var m := NqnsOf(subsystems);
    NqnsInsert(subsystems, key, record);
    assert forall k :: k in m ==> m[k] in m.Values;
  }

  // ---------------------------------------------------------------- which ticks touch a record

  /** The record that the tick's store Set puts under the key, if it does. */
  function Written(sys: System, tick: Tick, key: string): Option<Subsystem> {
    if tick.Advance? && tick.who < |sys.calls| && tick.env.write
       && sys.calls[tick.who].Create? && sys.calls[tick.who].creating.Storing?
       && SubsystemKey(sys.calls[tick.who].create) == key
    then Some(NewRecord(sys.calls[tick.who].create).(firmware := sys.calls[tick.who].creating.version))
    else None
  }

  /** The tick's store Delete is of the key. */
  predicate Erases(sys: System, tick: Tick, key: string) {
    && tick.Advance? && tick.who < |sys.calls| && tick.env.write
    && sys.calls[tick.who].Delete? && sys.calls[tick.who].deleting.Erasing?
    && sys.calls[tick.who].deleting.record.name == key
  }

  lemma CreateTickRecords(st: State, req: CreateSubsystemRequest, phase: CreatePhase, env: Env)
    ensures AdvanceCreate(st, req, phase, env).0.subsystems ==
            if phase.Storing? && env.write
            then st.subsystems[SubsystemKey(req) := NewRecord(req).(firmware := phase.version)] else st.subsystems
  {
  }

  lemma DeleteTickRecords(st: State, req: DeleteRequest, phase: DeletePhase, env: Env)
    ensures AdvanceDelete(st, req, phase, env).0.subsystems ==
            if phase.Erasing? && env.write then st.subsystems - {phase.record.name} else st.subsystems
  {
  }

  /**
   With calls in flight, a held record changes exactly by a store Set under its name, and goes exactly by
   the store Delete of a delete that has read a record of its name.
   */
  lemma RecordTick(sys: System, tick: Tick, key: string)
    ensures Lookup(Next(sys, tick).st, SubsystemKind, key) ==
            if Written(sys, tick, key).Some? then Some(SubsystemRecord(Written(sys, tick, key).value))
            else if Erases(sys, tick, key) then None
            else Lookup(sys.st, SubsystemKind, key)
  {
    if tick.Advance? && tick.who < |sys.calls| {
      match sys.calls[tick.who]
      case Create(req, phase) => CreateTickRecords(sys.st, req, phase, tick.env);
      case Delete(req, phase) => DeleteTickRecords(sys.st, req, phase, tick.env);
    }
  }

  // ---------------------------------------------------------------- what races leave on the target

  /** The NQNs of the calls that the target has accepted and that have not finished. */
  function Owned(calls: seq<Call>): set<string> {
    set i | 0 <= i < |calls| && Owns(calls[i]) :: calls[i].create.nqn
  }

  /** NQNs on the target that are neither stored nor on their way into the store. */
  function Loose(sys: System): set<string> {
    Orphans(sys.st) - Owned(sys.calls)
  }

  /** The call loses its NQN at this tick: the reply is lost, the version query fails, or the store Set does. */
  predicate Drops(sys: System, tick: Tick) {
    && tick.Advance? && tick.who < |sys.calls| && sys.calls[tick.who].Create?
    && match sys.calls[tick.who].creating
       case Sending => tick.env.rpc.ReplyLost? && IsFree(sys.st, sys.calls[tick.who].create.nqn)
       case Asking => tick.env.version.None?
       case Storing(_) => !tick.env.write
       case _ => false
  }

  /** The tick's store Set replaces the record under that name. */
  predicate Replaces(sys: System, tick: Tick, key: string) {
    key in sys.st.subsystems && Written(sys, tick, key).Some?
  }

  /** The NQNs a tick leaves on the target for good: dropped, replaced, or in flight when the server dies. */
  function LoosedBy(sys: System, tick: Tick): set<string> {
    if tick.Crash? then Owned(sys.calls)
    else if Drops(sys, tick) then {sys.calls[tick.who].create.nqn}
    else set key | key in sys.st.subsystems && Replaces(sys, tick, key) :: sys.st.subsystems[key].nqn
  }

  function LoosedDuring(sys: System, ticks: seq<Tick>): set<string>
    decreases |ticks|
  {
    if ticks == [] then {} else LoosedBy(sys, ticks[0]) + LoosedDuring(Next(sys, ticks[0]), ticks[1..])
  }

  lemma OwnedSame(calls: seq<Call>, calls': seq<Call>, who: nat)
    requires who < |calls| == |calls'| && calls' == calls[who := calls'[who]]
    requires Owns(calls[who]) == Owns(calls'[who])
    requires Owns(calls[who]) ==> calls[who].create.nqn == calls'[who].create.nqn
    ensures Owned(calls') == Owned(calls)
  {
    forall q | q in Owned(calls) ensures q in Owned(calls') {
      var i :| 0 <= i < |calls| && Owns(calls[i]) && calls[i].create.nqn == q;
      assert Owns(calls'[i]) && calls'[i].create.nqn == q;
    }
    forall q | q in Owned(calls') ensures q in Owned(calls) {
      var i :| 0 <= i < |calls'| && Owns(calls'[i]) && calls'[i].create.nqn == q;
      assert Owns(calls[i]) && calls[i].create.nqn == q;
    }
  }

  lemma OwnedGrows(calls: seq<Call>, calls': seq<Call>, who: nat)
    requires who < |calls| == |calls'| && calls' == calls[who := calls'[who]]
    requires !Owns(calls[who]) && Owns(calls'[who])
    ensures Owned(calls') == Owned(calls) + {calls'[who].create.nqn}
  {
    forall q | q in Owned(calls) ensures q in Owned(calls') {
      var i :| 0 <= i < |calls| && Owns(calls[i]) && calls[i].create.nqn == q;
      assert calls'[i] == calls[i];
    }
    forall q | q in Owned(calls') && q != calls'[who].create.nqn ensures q in Owned(calls) {
      var i :| 0 <= i < |calls'| && Owns(calls'[i]) && calls'[i].create.nqn == q;
      assert calls'[i] == calls[i];
    }
  }

  lemma OwnedShrinks(calls: seq<Call>, calls': seq<Call>, who: nat)
    requires who < |calls| == |calls'| && calls' == calls[who := calls'[who]] && OwnersApart(calls)
    requires Owns(calls[who]) && !Owns(calls'[who])
    ensures Owned(calls') == Owned(calls) - {calls[who].create.nqn}
  {
    forall q | q in Owned(calls) && q != calls[who].create.nqn ensures q in Owned(calls') {
      var i :| 0 <= i < |calls| && Owns(calls[i]) && calls[i].create.nqn == q;
      assert calls'[i] == calls[i];
    }
    forall q | q in Owned(calls') ensures q in Owned(calls) && q != calls[who].create.nqn {
      var i :| 0 <= i < |calls'| && Owns(calls'[i]) && calls'[i].create.nqn == q;
      assert calls'[i] == calls[i];
    }
  }

  lemma OwnedOnArrival(calls: seq<Call>, call: Call)
    requires !Owns(call)
    ensures Owned(calls + [call]) == Owned(calls)
  {
    var calls' := calls + [call];
    forall q | q in Owned(calls) ensures q in Owned(calls') {
      var i :| 0 <= i < |calls| && Owns(calls[i]) && calls[i].create.nqn == q;
      assert calls'[i] == calls[i];
    }
  }

  lemma SetMovesNqns(subsystems: map<string, Subsystem>, key: string, record: Subsystem)
    requires Injective(NqnsOf(subsystems)) && record.nqn !in NqnsOf(subsystems).Values
    ensures NqnsOf(subsystems[key := record]).Values ==
            NqnsOf(subsystems).Values - (if key in subsystems then {subsystems[key].nqn} else {}) + {record.nqn}
  {
    var m, m' := NqnsOf(subsystems), NqnsOf(subsystems[key := record]);
    NqnsInsert(subsystems, key, record);
    assert m'[key] == record.nqn;
    forall k | k in m && k != key ensures m'[k] == m[k] && m[k] in m'.Values && (key in m ==> m[k] != m[key]) {
      assert m'[k] == m[k];
    }
  }

  lemma LooseAtSet(sys: System, who: nat, env: Env)
    requires RaceFree(sys) && who < |sys.calls| && sys.calls[who].creating.Storing? && env.write
    ensures var tick := Advance(who, env); Loose(Next(sys, tick)) == Loose(sys) + LoosedBy(sys, tick)
  {
    var tick, req := Advance(who, env), sys.calls[who].create;
    var key, sys' := SubsystemKey(req), Next(sys, tick);
    SetMovesNqns(sys.st.subsystems, key, sys'.st.subsystems[key]);
    OwnedShrinks(sys.calls, sys'.calls, who);
    assert key in sys.st.subsystems ==> NqnOf(sys.st)[key] in StoredNqns(sys.st);
    assert LoosedBy(sys, tick) == if key in sys.st.subsystems then {sys.st.subsystems[key].nqn} else {};
  }

  lemma LooseAtSend(sys: System, who: nat, env: Env)
    requires RaceFree(sys) && who < |sys.calls| && sys.calls[who].creating.Sending?
    ensures var tick := Advance(who, env); Loose(Next(sys, tick)) == Loose(sys) + LoosedBy(sys, tick)
  {
    var sys' := Next(sys, Advance(who, env));
    if Owns(sys'.calls[who]) {
      OwnedGrows(sys.calls, sys'.calls, who);
    } else {
      OwnedSame(sys.calls, sys'.calls, who);
    }
    assert StoredNqns(sys'.st) == StoredNqns(sys.st);
  }

  lemma LooseElsewhere(sys: System, who: nat, env: Env)
    requires RaceFree(sys) && who < |sys.calls|
    requires !sys.calls[who].creating.Sending? && !(sys.calls[who].creating.Storing? && env.write)
    ensures var tick := Advance(who, env); Loose(Next(sys, tick)) == Loose(sys) + LoosedBy(sys, tick)
  {
    var sys' := Next(sys, Advance(who, env));
    if Owns(sys'.calls[who]) == Owns(sys.calls[who]) {
      OwnedSame(sys.calls, sys'.calls, who);
    } else {
      OwnedShrinks(sys.calls, sys'.calls, who);
    }
    assert StoredNqns(sys'.st) == StoredNqns(sys.st);
  }

  lemma LooseNext(sys: System, tick: Tick)
    requires RaceFree(sys) && CreatesOnly(tick)
    ensures Loose(Next(sys, tick)) == Loose(sys) + LoosedBy(sys, tick)
  {
    match tick
    case Arrive(call) => OwnedOnArrival(sys.calls, call);
    case Crash =>
    case Advance(who, env) =>
      if who < |sys.calls| {
        if sys.calls[who].creating.Sending? {
          LooseAtSend(sys, who, env);
        } else if sys.calls[who].creating.Storing? && env.write {
          LooseAtSet(sys, who, env);
        } else {
          LooseElsewhere(sys, who, env);
        }
      }
  }

  /**
   Any number of creates in flight, any faults and crashes: on a target that refuses duplicates, its NQNs
   are the stored ones, those on their way into the store, and exactly those lost to a reply, a version
   query, a store Set, a later create of the same name, or a crash. None of the lost comes back.
   */
  lemma {:induction false} RacingCreatesAccount(sys: System, ticks: seq<Tick>)
    requires RaceFree(sys) && forall i :: 0 <= i < |ticks| ==> CreatesOnly(ticks[i])
    ensures var end := Interleave(sys, ticks);
            && end.st.target.nqns == StoredNqns(end.st) + Owned(end.calls) + Loose(end)
            && Loose(end) == Loose(sys) + LoosedDuring(sys, ticks)
    decreases |ticks|
  {
    if ticks != [] {
      RaceFreeNext(sys, ticks[0]);
      LooseNext(sys, ticks[0]);
      RacingCreatesAccount(Next(sys, ticks[0]), ticks[1..]);
    }
  }
}
