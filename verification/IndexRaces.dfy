/**
 The index under calls in flight. A delete takes its NQN out of the index after it has freed it on the
 target; in between another create may have taken the NQN, and then the index loses a stored one.
 */
module IndexRaces {
  import opened Common
  import opened Target
  import opened Records
  import opened Protocol
  import opened Uniqueness
  import opened Interleaving
  import opened Races

  // ---------------------------------------------------------------- which ticks lose an index entry

  /** The delete has taken its NQN out of the index and has yet to take the record out of the store. */
  predicate IsErasing(call: Call) {
    call.Delete? && call.deleting.Erasing?
  }

  /** Keys whose record is about to be erased. */
  function Leaving(calls: seq<Call>): set<string> {
    set i | 0 <= i < |calls| && IsErasing(calls[i]) :: calls[i].deleting.record.name
  }

  predicate IsStoring(call: Call) {
    call.Create? && call.creating.Storing?
  }

  /** Every stored NQN is indexed, unless its record is about to be erased, and so is every NQN about to be stored. */
  ghost predicate StaysIndexed(sys: System) {
    && (forall k :: k in sys.st.subsystems && k !in Leaving(sys.calls) ==> sys.st.subsystems[k].nqn in sys.st.nqns)
    && (forall i :: 0 <= i < |sys.calls| && IsStoring(sys.calls[i]) ==> sys.calls[i].create.nqn in sys.st.nqns)
  }

  /** Another record that is to stay, or a call about to store, has the NQN. */
  predicate IsHeldElsewhere(sys: System, record: Subsystem) {
    || (exists k :: k in sys.st.subsystems && k !in Leaving(sys.calls) && k != record.name
          && sys.st.subsystems[k].nqn == record.nqn)
    || (exists i :: 0 <= i < |sys.calls| && IsStoring(sys.calls[i]) && sys.calls[i].create.nqn == record.nqn)
  }

  predicate IsErasedByAnother(calls: seq<Call>, who: nat, name: string) {
    exists i :: 0 <= i < |calls| && i != who && IsErasing(calls[i]) && calls[i].deleting.record.name == name
  }

  /**
   The index loses an NQN that is to stay: a restart with something stored, a delete that takes out an
   NQN which is held elsewhere, or a store Delete that fails for a record whose NQN is out already.
   */
  predicate LosesEntry(sys: System, tick: Tick) {
    match tick
    case Arrive(_) => false
    case Crash => sys.st.subsystems != map[]
    case Advance(who, env) =>
      && who < |sys.calls| && sys.calls[who].Delete?
      && match sys.calls[who].deleting
         case Unindexing(record) => IsHeldElsewhere(sys, record)
         case Erasing(record) =>
           && !env.write && record.name in sys.st.subsystems
           && sys.st.subsystems[record.name].nqn !in sys.st.nqns
           && !IsErasedByAnother(sys.calls, who, record.name)
         case _ => false
  }

  lemma LeavingSame(calls: seq<Call>, calls': seq<Call>, who: nat)
    requires who < |calls| == |calls'| && calls' == calls[who := calls'[who]]
    requires !IsErasing(calls[who]) && !IsErasing(calls'[who])
    ensures Leaving(calls') == Leaving(calls)
  {
    forall k | k in Leaving(calls) ensures k in Leaving(calls') {
      var i :| 0 <= i < |calls| && IsErasing(calls[i]) && calls[i].deleting.record.name == k;
      assert calls'[i] == calls[i];
    }
    forall k | k in Leaving(calls') ensures k in Leaving(calls) {
      var i :| 0 <= i < |calls'| && IsErasing(calls'[i]) && calls'[i].deleting.record.name == k;
      assert calls'[i] == calls[i];
    }
  }

  lemma LeavingGrows(calls: seq<Call>, calls': seq<Call>, who: nat)
    requires who < |calls| == |calls'| && calls' == calls[who := calls'[who]]
    requires !IsErasing(calls[who]) && IsErasing(calls'[who])
    ensures Leaving(calls') == Leaving(calls) + {calls'[who].deleting.record.name}
  {
    forall k | k in Leaving(calls) ensures k in Leaving(calls') {
      var i :| 0 <= i < |calls| && IsErasing(calls[i]) && calls[i].deleting.record.name == k;
      assert calls'[i] == calls[i];
    }
    forall k | k in Leaving(calls') && k != calls'[who].deleting.record.name ensures k in Leaving(calls) {
      var i :| 0 <= i < |calls'| && IsErasing(calls'[i]) && calls'[i].deleting.record.name == k;
      assert calls'[i] == calls[i];
    }
  }

  /** At most the finished delete's own key goes from the list. */
  lemma LeavingShrinks(calls: seq<Call>, calls': seq<Call>, who: nat)
    requires who < |calls| == |calls'| && calls' == calls[who := calls'[who]]
    requires IsErasing(calls[who]) && !IsErasing(calls'[who])
    ensures Leaving(calls) == Leaving(calls') + {calls[who].deleting.record.name}
  {
    forall k | k in Leaving(calls') ensures k in Leaving(calls) {
      var i :| 0 <= i < |calls'| && IsErasing(calls'[i]) && calls'[i].deleting.record.name == k;
      assert calls'[i] == calls[i];
    }
    forall k | k in Leaving(calls) && k != calls[who].deleting.record.name ensures k in Leaving(calls') {
      var i :| 0 <= i < |calls| && IsErasing(calls[i]) && calls[i].deleting.record.name == k;
      assert calls'[i] == calls[i];
    }
  }

  lemma LeavingOnArrival(calls: seq<Call>, call: Call)
    requires !IsErasing(call)
    ensures Leaving(calls + [call]) == Leaving(calls)
  {
    var calls' := calls + [call];
    forall k | k in Leaving(calls) ensures k in Leaving(calls') {
      var i :| 0 <= i < |calls| && IsErasing(calls[i]) && calls[i].deleting.record.name == k;
      assert calls'[i] == calls[i];
    }
  }

  lemma CreateKeepsIndexed(sys: System, who: nat, env: Env)
    requires StaysIndexed(sys) && who < |sys.calls| && sys.calls[who].Create?
    ensures StaysIndexed(Next(sys, Advance(who, env)))
  {
    var sys' := Next(sys, Advance(who, env));
    LeavingSame(sys.calls, sys'.calls, who);
    if !(sys.calls[who].creating.Storing? && env.write) {
      AdvanceKeepsStore(sys.st, sys.calls[who].create, sys.calls[who].creating, env);
    }
  }

  lemma UnindexBreaksIff(sys: System, who: nat, env: Env)
    requires StaysIndexed(sys) && who < |sys.calls| && sys.calls[who].Delete? && sys.calls[who].deleting.Unindexing?
    ensures StaysIndexed(Next(sys, Advance(who, env))) <==> !IsHeldElsewhere(sys, sys.calls[who].deleting.record)
  {
    var sys', record := Next(sys, Advance(who, env)), sys.calls[who].deleting.record;
    LeavingGrows(sys.calls, sys'.calls, who);
    assert sys'.st.nqns.Keys == sys.st.nqns.Keys - {record.nqn} && sys'.st.subsystems == sys.st.subsystems;
    assert forall i :: 0 <= i < |sys.calls| ==> IsStoring(sys'.calls[i]) == IsStoring(sys.calls[i]);
    assert forall i :: 0 <= i < |sys.calls| && IsStoring(sys.calls[i]) ==> sys'.calls[i] == sys.calls[i];
  }

  lemma EraseBreaksIff(sys: System, who: nat, env: Env)
    requires StaysIndexed(sys) && who < |sys.calls| && IsErasing(sys.calls[who])
    ensures StaysIndexed(Next(sys, Advance(who, env))) <==> !LosesEntry(sys, Advance(who, env))
  {
    var sys' := Next(sys, Advance(who, env));
    var name := sys.calls[who].deleting.record.name;
    LeavingShrinks(sys.calls, sys'.calls, who);
    assert forall i :: 0 <= i < |sys.calls| && i != who ==> sys'.calls[i] == sys.calls[i];
    if IsErasedByAnother(sys.calls, who, name) {
      var i :| 0 <= i < |sys.calls| && i != who && IsErasing(sys.calls[i]) && sys.calls[i].deleting.record.name == name;
      assert IsErasing(sys'.calls[i]) && sys'.calls[i].deleting.record.name == name;
    }
  }

  lemma DeleteElsewhere(sys: System, who: nat, env: Env)
    requires StaysIndexed(sys) && who < |sys.calls| && sys.calls[who].Delete?
    requires !sys.calls[who].deleting.Unindexing? && !sys.calls[who].deleting.Erasing?
    ensures StaysIndexed(Next(sys, Advance(who, env)))
  {
    var sys' := Next(sys, Advance(who, env));
    LeavingSame(sys.calls, sys'.calls, who);
    assert forall i :: 0 <= i < |sys.calls| && i != who ==> sys'.calls[i] == sys.calls[i];
  }

  /** Whatever is in flight and whatever fails, an atomic access breaks this exactly in those three cases. */
  lemma TickLosesEntryIff(sys: System, tick: Tick)
    requires StaysIndexed(sys) && ArrivesFresh(tick)
    ensures StaysIndexed(Next(sys, tick)) <==> !LosesEntry(sys, tick)
  {
    match tick
    case Arrive(call) =>
      LeavingOnArrival(sys.calls, call);
    case Crash =>
      assert Leaving([]) == {};
      if sys.st.subsystems != map[] {
        var k :| k in sys.st.subsystems;
        assert k in Next(sys, tick).st.subsystems && k !in Leaving(Next(sys, tick).calls);
      }
    case Advance(who, env) =>
      if who < |sys.calls| {
        if sys.calls[who].Create? {
          CreateKeepsIndexed(sys, who, env);
        } else {
          match sys.calls[who].deleting
          case Unindexing(_) => UnindexBreaksIff(sys, who, env);
          case Erasing(_) => EraseBreaksIff(sys, who, env);
          case _ => DeleteElsewhere(sys, who, env);
        }
      }
  }

  lemma {:induction false} IndexedUpTo(sys: System, ticks: seq<Tick>, n: nat)
    requires n <= |ticks| && StaysIndexed(sys) && forall i | 0 <= i < |ticks| :: ArrivesFresh(ticks[i])
    requires forall i | 0 <= i < n :: !LosesEntry(At(sys, ticks, i), ticks[i])
    ensures StaysIndexed(At(sys, ticks, n))
  {
    if n > 0 {
      IndexedUpTo(sys, ticks, n - 1);
      AtNext(sys, ticks, n - 1);
      TickLosesEntryIff(At(sys, ticks, n - 1), ticks[n - 1]);
    }
  }

  /** At every moment of a schedule stored NQNs stay indexed exactly when no tick loses an entry. */
  lemma AlwaysIndexedIff(sys: System, ticks: seq<Tick>)
    requires forall i | 0 <= i < |ticks| :: ArrivesFresh(ticks[i])
    ensures (forall n | 0 <= n <= |ticks| :: StaysIndexed(At(sys, ticks, n))) <==>
            StaysIndexed(sys) && forall n | 0 <= n < |ticks| :: !LosesEntry(At(sys, ticks, n), ticks[n])
  {
    assert At(sys, ticks, 0) == sys;
    if forall n | 0 <= n <= |ticks| :: StaysIndexed(At(sys, ticks, n)) {
      forall n | 0 <= n < |ticks| ensures !LosesEntry(At(sys, ticks, n), ticks[n]) {
        AtNext(sys, ticks, n);
        TickLosesEntryIff(At(sys, ticks, n), ticks[n]);
      }
    }
    if StaysIndexed(sys) && forall n | 0 <= n < |ticks| :: !LosesEntry(At(sys, ticks, n), ticks[n]) {
      forall n | 0 <= n <= |ticks| ensures StaysIndexed(At(sys, ticks, n)) { IndexedUpTo(sys, ticks, n); }
    }
  }

  /** Between deletes that means every stored NQN. */
  lemma IndexedWhenNothingErases(sys: System)
    requires StaysIndexed(sys) && forall i :: 0 <= i < |sys.calls| ==> !IsErasing(sys.calls[i])
    ensures StoredNqns(sys.st) <= sys.st.nqns.Keys
  {
    assert Leaving(sys.calls) == {};
  }

  // ---------------------------------------------------------------- a delete unindexes a racing create

  lemma ThreeTicks(sys: System, tick: Tick)
    ensures Interleave(sys, Repeat(tick, 3)) == Next(Next(Next(sys, tick), tick), tick)
  {
    TwoTicks(Next(sys, tick), tick);
    assert Repeat(tick, 3)[1..] == Repeat(tick, 2);
  }

  /** A delete arrives, reads the record and takes its NQN off the target. */
  function RevokeTicks(sys: System, del: DeleteRequest): seq<Tick> {
    [Arrive(Delete(del, Fetching))] + Repeat(Advance(|sys.calls|, CLEAN), 2)
  }

  lemma RevokingRuns(sys: System, del: DeleteRequest)
    requires del.checked && del.name in sys.st.subsystems && Childless(sys.st, sys.st.subsystems[del.name].nqn)
    ensures var record := sys.st.subsystems[del.name];
            var end := Interleave(sys, RevokeTicks(sys, del));
            && end.calls == sys.calls + [Delete(del, Unindexing(record))]
            && end.st.subsystems == sys.st.subsystems && end.st.nqns == sys.st.nqns && IsFree(end.st, record.nqn)
  {
    var who, record := |sys.calls|, sys.st.subsystems[del.name];
    var one := sys.(calls := sys.calls + [Delete(del, Fetching)]);
    var two := sys.(calls := sys.calls + [Delete(del, DeletePhase.Revoking(record))]);
    assert RevokeTicks(sys, del)[1..] == Repeat(Advance(who, CLEAN), 2);
    assert Next(sys, Arrive(Delete(del, Fetching))) == one;
    TwoTicks(one, Advance(who, CLEAN));
    assert one.calls[who := two.calls[who]] == two.calls && Next(one, Advance(who, CLEAN)) == two;
    assert two.calls[who := Delete(del, Unindexing(record))] == sys.calls + [Delete(del, Unindexing(record))];
  }

  /** A create that has passed its check gets up to its store Set. */
  lemma IndexingRuns(sys: System, who: nat, req: CreateSubsystemRequest)
    requires who < |sys.calls| && sys.calls[who] == Create(req, Sending) && IsFree(sys.st, req.nqn)
    ensures var end := Interleave(sys, Repeat(Advance(who, CLEAN), 3));
            && end.calls == sys.calls[who := Create(req, Storing(""))]
            && end.st.subsystems == sys.st.subsystems && end.st.nqns == sys.st.nqns[req.nqn := false]
  {
    var go := Advance(who, CLEAN);
    ThreeTicks(sys, go);
    var one := Next(sys, go);
    assert one.calls == sys.calls[who := Create(req, Asking)];
    var two := Next(one, go);
    assert two.calls == sys.calls[who := Create(req, Indexing(""))];
    assert Next(two, go).calls == sys.calls[who := Create(req, Storing(""))];
  }

  lemma ErasingRuns(sys: System, who: nat, del: DeleteRequest, record: Subsystem)
    requires who < |sys.calls| && sys.calls[who] == Delete(del, Unindexing(record))
    ensures var end := Interleave(sys, Repeat(Advance(who, CLEAN), 2));
            && end.calls == sys.calls[who := Delete(del, Deleted(Ok(())))]
            && end.st.subsystems == sys.st.subsystems - {record.name} && end.st.nqns == sys.st.nqns - {record.nqn}
  {
    var go := Advance(who, CLEAN);
    TwoTicks(sys, go);
    assert Next(sys, go).calls == sys.calls[who := Delete(del, Erasing(record))];
    assert Next(Next(sys, go), go).calls == sys.calls[who := Delete(del, Deleted(Ok(())))];
  }

  /** Both creates search the index, and the first runs to its end; a delete of it revokes its NQN. */
  function UpToRevocation(st: State, a: CreateSubsystemRequest, b: CreateSubsystemRequest, del: DeleteRequest): System {
    var checked := Interleave(System(st, []), BothCheck(a, b));
    var created := Interleave(checked, Repeat(Advance(0, CLEAN), 4));
    Interleave(created, RevokeTicks(created, del))
  }

  /** The second create takes and indexes the NQN, the delete unindexes it and ends, the second create stores. */
  function UpToStore(revoked: System): System {
    var indexed := Interleave(revoked, Repeat(Advance(1, CLEAN), 3));
    Next(Interleave(indexed, Repeat(Advance(2, CLEAN), 2)), Advance(1, CLEAN))
  }

  lemma RevokedRuns(st: State, a: CreateSubsystemRequest, b: CreateSubsystemRequest, del: DeleteRequest)
    requires PassesCheck(st, a) && PassesCheck(st, b) && IsFree(st, a.nqn) && Childless(st, a.nqn)
    requires del.checked && del.name == SubsystemKey(a)
    ensures var revoked := UpToRevocation(st, a, b, del);
            && revoked.calls == [Create(a, Created(Ok(NewRecord(a)))), Create(b, Sending), Delete(del, Unindexing(NewRecord(a)))]
            && revoked.st.subsystems == st.subsystems[SubsystemKey(a) := NewRecord(a)]
            && revoked.st.nqns == st.nqns[a.nqn := false] && IsFree(revoked.st, a.nqn)
  {
    var start := System(st, [Create(a, Sending), Create(b, Sending)]);
    var created := System(Finished(st, a), [Create(a, Created(Ok(NewRecord(a)))), Create(b, Sending)]);
    BothCheckRuns(st, a, b);
    FinishAlone(st, a);
    CreateToEnd(start, 0, CLEAN, 4);
    assert start.calls[0 := created.calls[0]] == created.calls;
    RevokingRuns(created, del);
  }

  /**
   A delete takes out of the index what is not its own, without any fault: two creates of one NQN search
   the index, the first is stored and deleted, and the second takes the NQN between the delete's call
   to the target and its index access. When every call has finished, the NQN is stored and not indexed.
   */
  lemma DeleteUnindexesRacingCreate(st: State, a: CreateSubsystemRequest, b: CreateSubsystemRequest, del: DeleteRequest)
    requires Rivals(a, b) && PassesCheck(st, a) && PassesCheck(st, b) && IsFree(st, a.nqn) && Childless(st, a.nqn)
    requires del.checked && del.name == SubsystemKey(a)
    ensures var end := UpToStore(UpToRevocation(st, a, b, del));
            && a.nqn in StoredNqns(end.st) && a.nqn !in end.st.nqns
            && end.calls == [Create(a, Created(Ok(NewRecord(a)))), Create(b, Created(Ok(NewRecord(b)))),
                             Delete(del, Deleted(Ok(())))]
  {
    var revoked := UpToRevocation(st, a, b, del);
    RevokedRuns(st, a, b, del);
    IndexingRuns(revoked, 1, b);
    var indexed := Interleave(revoked, Repeat(Advance(1, CLEAN), 3));
    assert indexed.calls == [revoked.calls[0], Create(b, Storing("")), revoked.calls[2]];
    ErasingRuns(indexed, 2, del, NewRecord(a));
    var erased := Interleave(indexed, Repeat(Advance(2, CLEAN), 2));
    assert erased.calls == [revoked.calls[0], Create(b, Storing("")), Delete(del, Deleted(Ok(())))];
    var end := Next(erased, Advance(1, CLEAN));
    assert NqnOf(end.st)[SubsystemKey(b)] == a.nqn;
  }
}
