/**
 Creates racing with deletes. One delete in flight per record is the boundary: up to it, only a
 record that is just being deleted can share its NQN with another, however many deletes of different
 records are under way; two deletes of one record do damage that stays.
 */
module Serialized {
  import opened Common
  import opened Target
  import opened Records
  import opened Protocol
  import opened Uniqueness
  import opened Interleaving

  /** The delete has taken the NQN off the target and has yet to take the record out of the store. */
  predicate Revoked(call: Call) {
    call.Delete? && (call.deleting.Unindexing? || call.deleting.Erasing?)
  }

  /** The delete has read its record and is about to ask the target. */
  predicate IsRevoking(call: Call) {
    call.Delete? && call.deleting.Revoking?
  }

  /** The delete has read its record and is not finished. */
  predicate Active(call: Call) {
    IsRevoking(call) || Revoked(call)
  }

  /** No record has two active deletes. */
  ghost predicate OneDeleteEach(calls: seq<Call>) {
    forall i, j | 0 <= i < |calls| && 0 <= j < |calls| && Active(calls[i]) && Active(calls[j]) ::
      calls[i].deleting.record.name == calls[j].deleting.record.name ==> i == j
  }

  /** Keys whose record is on its way out. */
  function Doomed(calls: seq<Call>): set<string> {
    set i | 0 <= i < |calls| && Revoked(calls[i]) :: calls[i].deleting.record.name
  }

  /** The NQNs of the stored subsystems that are not on their way out. */
  function Kept(sys: System): map<string, string> {
    map k | k in sys.st.subsystems && k !in Doomed(sys.calls) :: sys.st.subsystems[k].nqn
  }

  /**
   A tick the theorem allows: calls arrive unstarted; no delete reply is lost and no store Delete
   fails; the server does not crash between a delete's target call and its store Delete.
   */
  predicate Careful(sys: System, tick: Tick) {
    match tick
    case Arrive(_) => ArrivesFresh(tick)
    case Advance(who, env) =>
      who < |sys.calls| && sys.calls[who].Delete? ==>
        && (sys.calls[who].deleting.Revoking? ==> !env.rpc.ReplyLost?)
        && (sys.calls[who].deleting.Erasing? ==> env.write)
    case Crash => Doomed(sys.calls) == {}
  }

  /** Every tick is careful, and at no moment has a record two active deletes. */
  ghost predicate Serial(sys: System, ticks: seq<Tick>)
    decreases |ticks|
  {
    OneDeleteEach(sys.calls) && (ticks == [] || (Careful(sys, ticks[0]) && Serial(Next(sys, ticks[0]), ticks[1..])))
  }

  /** The invariant: kept and in-flight NQNs are on the target and never coincide with each other, */
  ghost predicate Guarded(sys: System) {
    && sys.st.target.refusesDuplicates
    && (forall k :: k in sys.st.subsystems ==> sys.st.subsystems[k].name == k)
    && Injective(Kept(sys)) && Kept(sys).Values <= sys.st.target.nqns
    && (forall i :: 0 <= i < |sys.calls| && Owns(sys.calls[i]) ==>
          sys.calls[i].create.nqn in sys.st.target.nqns - Kept(sys).Values)
    && OwnersApart(sys.calls)
    && (forall i :: 0 <= i < |sys.calls| && IsRevoking(sys.calls[i]) ==>
          OnlyHolder(sys, sys.calls[i].deleting.record))
    && RevokersApart(sys.calls)
  }

  /** and the NQN that a delete is about to revoke is nobody else's. */
  ghost predicate OnlyHolder(sys: System, record: Subsystem) {
    && record.nqn in sys.st.target.nqns
    && (forall k :: k in Kept(sys) && k != record.name ==> Kept(sys)[k] != record.nqn)
    && (forall i :: 0 <= i < |sys.calls| && Owns(sys.calls[i]) ==> sys.calls[i].create.nqn != record.nqn)
  }

  ghost predicate RevokersApart(calls: seq<Call>) {
    forall i, j :: 0 <= i < j < |calls| && IsRevoking(calls[i]) && IsRevoking(calls[j]) ==>
      calls[i].deleting.record.nqn != calls[j].deleting.record.nqn
  }

  // ---------------------------------------------------------------- creates

  /** Storing an NQN that nothing kept has: the kept NQNs stay distinct and gain at most this one. */
  lemma KeptStore(sys: System, sys': System, key: string, record: Subsystem)
    requires sys'.st.subsystems == sys.st.subsystems[key := record] && Doomed(sys'.calls) == Doomed(sys.calls)
    requires Injective(Kept(sys)) && record.nqn !in Kept(sys).Values
    ensures Injective(Kept(sys')) && Kept(sys').Values <= Kept(sys).Values + {record.nqn}
    ensures forall k :: k in Kept(sys') ==>
              Kept(sys')[k] == record.nqn || (k in Kept(sys) && Kept(sys)[k] == Kept(sys')[k])
  {
    var m, m' := Kept(sys), Kept(sys');
    assert m' == if key in Doomed(sys.calls) then m else m[key := record.nqn];
  }

  lemma GuardedCreateStore(sys: System, who: nat, env: Env)
    requires Guarded(sys) && who < |sys.calls| && sys.calls[who].Create?
    requires sys.calls[who].creating.Storing? && env.write
    ensures Guarded(Next(sys, Advance(who, env)))
  {
    var key := SubsystemKey(sys.calls[who].create);
    var sys' := Next(sys, Advance(who, env));
    DoomedSame(sys.calls, sys'.calls, who);
    KeptStore(sys, sys', key, sys'.st.subsystems[key]);
  }

  /** Progress of a create does not change which records are on their way out. */
  lemma DoomedSame(calls: seq<Call>, calls': seq<Call>, who: nat)
    requires who < |calls| == |calls'| && calls' == calls[who := calls'[who]]
    requires Revoked(calls[who]) == Revoked(calls'[who])
    requires Revoked(calls[who]) ==> calls[who].deleting.record.name == calls'[who].deleting.record.name
    ensures Doomed(calls') == Doomed(calls)
  {
    forall k | k in Doomed(calls) ensures k in Doomed(calls') {
      var i :| 0 <= i < |calls| && Revoked(calls[i]) && calls[i].deleting.record.name == k;
      assert Revoked(calls'[i]) && calls'[i].deleting.record.name == k;
    }
    forall k | k in Doomed(calls') ensures k in Doomed(calls) {
      var i :| 0 <= i < |calls'| && Revoked(calls'[i]) && calls'[i].deleting.record.name == k;
      assert Revoked(calls[i]) && calls[i].deleting.record.name == k;
    }
  }

  lemma GuardedCreate(sys: System, who: nat, env: Env)
    requires Guarded(sys) && who < |sys.calls| && sys.calls[who].Create?
    ensures Guarded(Next(sys, Advance(who, env)))
  {
    var Create(req, phase) := sys.calls[who];
    if phase.Storing? && env.write {
      GuardedCreateStore(sys, who, env);
    } else {
      var sys' := Next(sys, Advance(who, env));
      AdvanceKeepsStore(sys.st, req, phase, env);
      DoomedSame(sys.calls, sys'.calls, who);
      assert Kept(sys') == Kept(sys);
    }
  }

  // ---------------------------------------------------------------- deletes

  /** A delete that the target has granted dooms its own record and no other. */
  lemma DoomedGrows(calls: seq<Call>, calls': seq<Call>, who: nat)
    requires who < |calls| == |calls'| && calls' == calls[who := calls'[who]]
    requires !Revoked(calls[who]) && Revoked(calls'[who])
    ensures Doomed(calls') == Doomed(calls) + {calls'[who].deleting.record.name}
  {
    forall k | k in Doomed(calls) ensures k in Doomed(calls') {
      var i :| 0 <= i < |calls| && Revoked(calls[i]) && calls[i].deleting.record.name == k;
      assert calls'[i] == calls[i];
    }
    forall k | k in Doomed(calls') && k != calls'[who].deleting.record.name ensures k in Doomed(calls) {
      var i :| 0 <= i < |calls'| && Revoked(calls'[i]) && calls'[i].deleting.record.name == k;
      assert calls'[i] == calls[i];
    }
  }

  /** A delete that finishes takes its own record off the list and no other. */
  lemma DoomedShrinks(calls: seq<Call>, calls': seq<Call>, who: nat)
    requires who < |calls| == |calls'| && calls' == calls[who := calls'[who]] && OneDeleteEach(calls)
    requires Revoked(calls[who]) && !Revoked(calls'[who])
    ensures Doomed(calls') == Doomed(calls) - {calls[who].deleting.record.name}
  {
    forall k | k in Doomed(calls) && k != calls[who].deleting.record.name ensures k in Doomed(calls') {
      var i :| 0 <= i < |calls| && Revoked(calls[i]) && calls[i].deleting.record.name == k;
      assert calls'[i] == calls[i];
    }
    forall k | k in Doomed(calls') ensures k in Doomed(calls) && k != calls[who].deleting.record.name {
      var i :| 0 <= i < |calls'| && Revoked(calls'[i]) && calls'[i].deleting.record.name == k;
      assert calls'[i] == calls[i] && Active(calls[i]) && Active(calls[who]);
    }
  }

  lemma GuardedFetch(sys: System, who: nat, env: Env)
    requires Guarded(sys) && who < |sys.calls| && sys.calls[who].Delete? && sys.calls[who].deleting.Fetching?
    requires OneDeleteEach(Next(sys, Advance(who, env)).calls)
    ensures Guarded(Next(sys, Advance(who, env)))
  {
    var sys' := Next(sys, Advance(who, env));
    DoomedSame(sys.calls, sys'.calls, who);
    assert Kept(sys') == Kept(sys);
    if sys'.calls[who].deleting.Revoking? {
      FetchedIsKept(sys, sys', who);
      var record := sys'.calls[who].deleting.record;
      assert Kept(sys)[record.name] == record.nqn && record.nqn in Kept(sys).Values;
      forall i | 0 <= i < |sys.calls| && IsRevoking(sys.calls[i]) ensures sys.calls[i].deleting.record.nqn != record.nqn {
        assert sys'.calls[i] == sys.calls[i] && Active(sys'.calls[i]) && Active(sys'.calls[who]);
        assert OnlyHolder(sys, sys.calls[i].deleting.record);
      }
    }
  }

  /** The record that a delete has just read is not on its way out: it has no other active delete. */
  lemma FetchedIsKept(sys: System, sys': System, who: nat)
    requires who < |sys.calls| == |sys'.calls| && sys'.calls == sys.calls[who := sys'.calls[who]]
    requires IsRevoking(sys'.calls[who]) && !Revoked(sys.calls[who]) && OneDeleteEach(sys'.calls)
    ensures sys'.calls[who].deleting.record.name !in Doomed(sys.calls)
  {
    forall i | 0 <= i < |sys.calls| && Revoked(sys.calls[i])
      ensures sys.calls[i].deleting.record.name != sys'.calls[who].deleting.record.name
    {
      assert sys'.calls[i] == sys.calls[i] && Active(sys'.calls[i]) && Active(sys'.calls[who]);
    }
  }

  lemma GuardedRevoke(sys: System, who: nat, env: Env)
    requires Guarded(sys) && who < |sys.calls| && IsRevoking(sys.calls[who]) && !env.rpc.ReplyLost?
    ensures Guarded(Next(sys, Advance(who, env)))
  {
    var record := sys.calls[who].deleting.record;
    var sys' := Next(sys, Advance(who, env));
    if Revoked(sys'.calls[who]) {
      DoomedGrows(sys.calls, sys'.calls, who);
      assert sys'.st.target.nqns == sys.st.target.nqns - {record.nqn};
      assert Kept(sys') == Kept(sys) - {record.name};
    } else {
      DoomedSame(sys.calls, sys'.calls, who);
      assert sys'.st.target == sys.st.target && Kept(sys') == Kept(sys);
    }
  }

  lemma GuardedFinish(sys: System, who: nat, env: Env)
    requires Guarded(sys) && OneDeleteEach(sys.calls) && who < |sys.calls| && Revoked(sys.calls[who])
    requires sys.calls[who].deleting.Erasing? ==> env.write
    ensures Guarded(Next(sys, Advance(who, env)))
  {
    var sys' := Next(sys, Advance(who, env));
    if sys.calls[who].deleting.Unindexing? {
      DoomedSame(sys.calls, sys'.calls, who);
    } else {
      DoomedShrinks(sys.calls, sys'.calls, who);
    }
    assert Kept(sys') == Kept(sys);
  }

  // ---------------------------------------------------------------- every schedule

  lemma GuardedDelete(sys: System, who: nat, env: Env)
    requires Guarded(sys) && OneDeleteEach(sys.calls) && who < |sys.calls| && sys.calls[who].Delete?
    requires Careful(sys, Advance(who, env)) && OneDeleteEach(Next(sys, Advance(who, env)).calls)
    ensures Guarded(Next(sys, Advance(who, env)))
  {
    match sys.calls[who].deleting
    case Fetching => GuardedFetch(sys, who, env);
    case Revoking(_) => GuardedRevoke(sys, who, env);
    case Deleted(_) => assert Next(sys, Advance(who, env)).calls == sys.calls;
    case _ => GuardedFinish(sys, who, env);
  }

  lemma GuardedNext(sys: System, tick: Tick)
    requires Guarded(sys) && OneDeleteEach(sys.calls) && Careful(sys, tick) && OneDeleteEach(Next(sys, tick).calls)
    ensures Guarded(Next(sys, tick))
  {
    var sys' := Next(sys, tick);
    match tick
    case Arrive(call) =>
      ArrivalDoomsNothing(sys.calls, call);
      assert Kept(sys') == Kept(sys);
    case Crash =>
      assert Kept(sys') == Kept(sys);
    case Advance(who, env) =>
      if who < |sys.calls| {
        if sys.calls[who].Create? {
          GuardedCreate(sys, who, env);
        } else {
          GuardedDelete(sys, who, env);
        }
      }
  }

  lemma ArrivalDoomsNothing(calls: seq<Call>, call: Call)
    requires !Revoked(call)
    ensures Doomed(calls + [call]) == Doomed(calls)
  {
    var calls' := calls + [call];
    forall k | k in Doomed(calls) ensures k in Doomed(calls') {
      var i :| 0 <= i < |calls| && Revoked(calls[i]) && calls[i].deleting.record.name == k;
      assert calls'[i] == calls[i];
    }
  }

  lemma {:induction false} SerialStaysGuarded(sys: System, ticks: seq<Tick>)
    requires Guarded(sys) && Serial(sys, ticks)
    ensures Guarded(Interleave(sys, ticks))
    decreases |ticks|
  {
    if ticks != [] {
      GuardedNext(sys, ticks[0]);
      SerialStaysGuarded(Next(sys, ticks[0]), ticks[1..]);
    }
  }

  /**
   Any number of creates in flight beside any number of deletes, of which no two are active for one
   record: after every schedule, stored NQNs are pairwise distinct except for records on their way
   out, and all of them are as soon as no delete stands between the target and the store.
   */
  lemma SerialDeletesStayUnique(st: State, ticks: seq<Tick>)
    requires TargetBarrier(st) && Serial(System(st, []), ticks)
    ensures var sys := Interleave(System(st, []), ticks);
            && Injective(Kept(sys))
            && ((forall i :: 0 <= i < |sys.calls| ==> !Revoked(sys.calls[i])) ==> Unique(sys.st))
  {
    var start := System(st, []);
    assert Kept(start) == NqnOf(st);
    SerialStaysGuarded(start, ticks);
    var sys := Interleave(start, ticks);
    if forall i :: 0 <= i < |sys.calls| ==> !Revoked(sys.calls[i]) {
      assert Doomed(sys.calls) == {};
      assert Kept(sys) == NqnOf(sys.st);
    }
  }

  // ---------------------------------------------------------------- two deletes of one record

  /** What a delete that has read its record does from there on, when everything answers. */
  function RestOfDelete(st: State, record: Subsystem): State {
    var sent := Send(st, SubsystemDelete(record.nqn), CLEAN).0;
    sent.(nqns := sent.nqns - {record.nqn}, subsystems := st.subsystems - {record.name})
  }

  lemma RestOfDeleteAlone(st: State, req: DeleteRequest, record: Subsystem)
    requires Childless(st, record.nqn)
    ensures DeleteAlone(st, req, Revoking(record), CLEAN) == (RestOfDelete(st, record), Ok(()))
  {
    var sent := Send(st, SubsystemDelete(record.nqn), CLEAN).0;
    OneStepDelete(st, req, Revoking(record), CLEAN);
    OneStepDelete(sent, req, Unindexing(record), CLEAN);
    OneStepDelete(sent.(nqns := sent.nqns - {record.nqn}), req, Erasing(record), CLEAN);
  }

  /** Two deletes of one name arrive and both read the record. */
  function BothRead(del: DeleteRequest): seq<Tick> {
    [Arrive(Delete(del, Fetching)), Arrive(Delete(del, Fetching)), Advance(0, CLEAN), Advance(1, CLEAN)]
  }

  lemma BothReadRuns(st: State, del: DeleteRequest, record: Subsystem)
    requires del.checked && del.name in st.subsystems && record == st.subsystems[del.name]
    ensures Interleave(System(st, []), BothRead(del)) ==
            System(st, [Delete(del, Revoking(record)), Delete(del, Revoking(record))])
  {
    var ticks, unread, read := BothRead(del), Delete(del, Fetching), Delete(del, Revoking(record));
    assert [] + [unread] == [unread] && [unread] + [unread] == [unread, unread];
    assert Next(System(st, []), ticks[0]) == System(st, [unread]);
    assert Next(System(st, [unread]), ticks[1]) == System(st, [unread, unread]);
    assert ticks[1..][1..][1..] == [ticks[3]] && ticks[1..][1..] == [ticks[2], ticks[3]];
    assert Next(System(st, [read, unread]), ticks[3]) == System(st, [read, read]);
    assert Next(System(st, [unread, unread]), ticks[2]) == System(st, [read, unread]);
    assert Interleave(System(st, [read, unread]), [ticks[3]]) == System(st, [read, read]);
    assert Interleave(System(st, [unread, unread]), [ticks[2], ticks[3]]) == System(st, [read, read]);
    assert Interleave(System(st, [unread]), ticks[1..]) == System(st, [read, read]);
  }

  /** One delete that has read its record finishes, and then a create arrives and runs to its end. */
  function DeleteThenCreate(sys: System, who: nat, req: CreateSubsystemRequest): seq<Tick> {
    Repeat(Advance(who, CLEAN), 3) + ([Arrive(Create(req, Looking))] + Repeat(Advance(|sys.calls|, CLEAN), 6))
  }

  lemma DeleteThenCreateRuns(sys: System, who: nat, del: DeleteRequest, record: Subsystem, req: CreateSubsystemRequest)
    requires who < |sys.calls| && sys.calls[who] == Delete(del, Revoking(record)) && Childless(sys.st, record.nqn)
    ensures var (st, reply) := CreateSubsystem(RestOfDelete(sys.st, record), req, CLEAN);
            Interleave(sys, DeleteThenCreate(sys, who, req)) ==
            System(st, sys.calls[who := Delete(del, Deleted(Ok(())))] + [Create(req, Created(reply))])
  {
    var creating := [Arrive(Create(req, Looking))] + Repeat(Advance(|sys.calls|, CLEAN), 6);
    RestOfDeleteAlone(sys.st, del, record);
    DeleteToEnd(sys, who, CLEAN, 3);
    InterleaveConcat(sys, Repeat(Advance(who, CLEAN), 3), creating);
    CreateFromArrival(System(RestOfDelete(sys.st, record), sys.calls[who := Delete(del, Deleted(Ok(())))]), req, CLEAN);
  }

  /**
   Two deletes that have read the same record break uniqueness for good, with no fault at all: the
   first finishes, a create takes the freed NQN, the second delete revokes it again, and one more
   create stores it twice. Every call is finished by then.
   */
  lemma TwoDeletesBreakUniqueness(
      st: State, del: DeleteRequest, record: Subsystem, b: CreateSubsystemRequest, c: CreateSubsystemRequest)
    requires del.checked && del.name in st.subsystems && record == st.subsystems[del.name]
    requires record.name == del.name && Childless(st, record.nqn)
    requires Rivals(b, c) && b.nqn == record.nqn
    requires SubsystemKey(b) !in st.subsystems && SubsystemKey(c) !in st.subsystems
    ensures var start := Interleave(System(st, []), BothRead(del));
            var middle := Interleave(start, DeleteThenCreate(start, 0, b));
            var end := Interleave(middle, DeleteThenCreate(middle, 1, c));
            && !Unique(end.st)
            && forall i :: 0 <= i < |end.calls| ==>
                 if end.calls[i].Create? then end.calls[i].creating.Created? else end.calls[i].deleting.Deleted?
  {
    var read := Delete(del, Revoking(record));
    BothReadRuns(st, del, record);
    var middle := Interleave(System(st, [read, read]), DeleteThenCreate(System(st, [read, read]), 0, b));
    TwoDeletesEnd(st, del, record, b, c, middle);
    SecondDeleteLeavesNqnFree(st, b, c, record);
  }

  lemma TwoDeletesEnd(st: State, del: DeleteRequest, record: Subsystem,
                      b: CreateSubsystemRequest, c: CreateSubsystemRequest, middle: System)
    requires Childless(st, record.nqn)
    requires var read := Delete(del, Revoking(record));
             middle == Interleave(System(st, [read, read]), DeleteThenCreate(System(st, [read, read]), 0, b))
    ensures var done := Delete(del, Deleted(Ok(())));
            var (second, replyB) := CreateSubsystem(RestOfDelete(st, record), b, CLEAN);
            var (last, replyC) := CreateSubsystem(RestOfDelete(second, record), c, CLEAN);
            Interleave(middle, DeleteThenCreate(middle, 1, c)) ==
            System(last, [done, done, Create(b, Created(replyB)), Create(c, Created(replyC))])
  {
    var read, done := Delete(del, Revoking(record)), Delete(del, Deleted(Ok(())));
    var (second, replyB) := CreateSubsystem(RestOfDelete(st, record), b, CLEAN);
    DeleteThenCreateRuns(System(st, [read, read]), 0, del, record, b);
    assert [read, read][0 := done] + [Create(b, Created(replyB))] == [done, read, Create(b, Created(replyB))];
    StaysChildless(st, record, b);
    DeleteThenCreateRuns(middle, 1, del, record, c);
    assert middle.calls[1 := done] == [done, done, Create(b, Created(replyB))];
  }

  lemma StaysChildless(st: State, record: Subsystem, b: CreateSubsystemRequest)
    requires Childless(st, record.nqn)
    ensures Childless(CreateSubsystem(RestOfDelete(st, record), b, CLEAN).0, record.nqn)
  {
    CreateKeepsChildren(RestOfDelete(st, record), b, CLEAN);
  }

  lemma SecondDeleteLeavesNqnFree(
      st: State, b: CreateSubsystemRequest, c: CreateSubsystemRequest, record: Subsystem)
    requires Childless(st, record.nqn) && Rivals(b, c) && b.nqn == record.nqn
    requires SubsystemKey(b) !in st.subsystems && SubsystemKey(c) !in st.subsystems
    requires record.name in st.subsystems
    ensures var second := CreateSubsystem(RestOfDelete(st, record), b, CLEAN).0;
            !Unique(CreateSubsystem(RestOfDelete(second, record), c, CLEAN).0)
  {
    var first := RestOfDelete(st, record);
    var second := CreateSubsystem(first, b, CLEAN).0;
    CreateMoves(first, b, CLEAN);
    StaysChildless(st, record, b);
    assert SubsystemKey(b) in second.subsystems && second.subsystems[SubsystemKey(b)].nqn == record.nqn;
    LastCreateDuplicates(second, record, b, c);
  }

  lemma LastCreateDuplicates(st: State, record: Subsystem, b: CreateSubsystemRequest, c: CreateSubsystemRequest)
    requires Childless(st, record.nqn) && Rivals(b, c) && b.nqn == record.nqn
    requires SubsystemKey(b) in st.subsystems && st.subsystems[SubsystemKey(b)].nqn == record.nqn
    requires SubsystemKey(b) != record.name && SubsystemKey(c) !in st.subsystems
    ensures !Unique(CreateSubsystem(RestOfDelete(st, record), c, CLEAN).0)
  {
    var third := RestOfDelete(st, record);
    CreateMoves(third, c, CLEAN);
    var m := NqnOf(CreateSubsystem(third, c, CLEAN).0);
    assert m[SubsystemKey(b)] == m[SubsystemKey(c)];
  }
}
