/**
 What is stored was asked of the target and granted by it: every record's fields are those of an
 exchange in the log.
 */
module Provenance {
  import opened Common
  import opened Names
  import opened Target
  import opened Records
  import opened Protocol
  import opened Lifecycle

  /** The i-th remote call was c, and it was answered. */
  predicate Answered(log: seq<Exchange>, i: int, c: Command) {
    0 <= i < |log| && log[i].Called? && log[i].command == c && log[i].answer.Answer?
  }

  /** The target has accepted a subsystem of that NQN before the i-th remote call. */
  ghost predicate Accepted(log: seq<Exchange>, i: int, nqn: string) {
    exists j, serial, model ::
      0 <= j < i && Answered(log, j, SubsystemCreate(nqn, serial, model)) && log[j].answer.ok
  }

  /** The i-th remote call and its answer are what the record stands for. */
  ghost predicate Explains(log: seq<Exchange>, i: int, key: string, r: Record) {
    match r
    case Empty => false
    case SubsystemRecord(s) =>
      && Answered(log, i, SubsystemCreate(s.nqn, s.serial, s.model)) && log[i].answer.ok
      && i + 1 < |log| && log[i + 1] == AskedVersion(Some(s.firmware))
    case ControllerRecord(x) =>
      exists nqn ::
        && Answered(log, i, ControllerCreate(nqn, x.pfId)) && Accepted(log, i, nqn)
        && log[i].answer.cntlid >= 0 && x.cntlid == ToInt32(log[i].answer.cntlid)
    case NamespaceRecord(n) =>
      exists nqn ::
        && Answered(log, i, NamespaceAttach(n.nsid, nqn, 0, n.volume, n.uuid, n.nguid, n.eui64))
        && Accepted(log, i, nqn) && log[i].answer.ok
    case VirtioRecord(v) =>
      exists serial ::
        && Answered(log, i, VirtioCreate(serial, v.volume, v.pfId, v.maxIoQps))
        && key == VolumeName(serial) && log[i].answer.name != ""
  }

  ghost predicate Explained(log: seq<Exchange>, key: string, r: Record) {
    exists i :: Explains(log, i, key, r)
  }

  ghost predicate AllExplained(st: State) {
    forall kind, key :: Lookup(st, kind, key).Some? ==> Explained(st.log, key, Lookup(st, kind, key).value)
  }

  // ---------------------------------------------------------------- a longer log explains no less

  lemma StillAccepted(log: seq<Exchange>, log': seq<Exchange>, i: int, nqn: string)
    requires log <= log' && Accepted(log, i, nqn)
    ensures Accepted(log', i, nqn)
  {
    var j, serial, model :|
      0 <= j < i && Answered(log, j, SubsystemCreate(nqn, serial, model)) && log[j].answer.ok;
    assert Answered(log', j, SubsystemCreate(nqn, serial, model));
  }

  lemma StillExplained(log: seq<Exchange>, log': seq<Exchange>, key: string, r: Record)
    requires log <= log' && Explained(log, key, r)
    ensures Explained(log', key, r)
  {
    var i :| Explains(log, i, key, r);
    match r
    case SubsystemRecord(s) =>
      assert log'[i + 1] == log[i + 1];
      assert Explains(log', i, key, r);
    case ControllerRecord(x) =>
      var nqn :| Answered(log, i, ControllerCreate(nqn, x.pfId)) && Accepted(log, i, nqn);
      StillAccepted(log, log', i, nqn);
      assert Answered(log', i, ControllerCreate(nqn, x.pfId));
      assert Explains(log', i, key, r);
    case NamespaceRecord(n) =>
      var nqn :| Answered(log, i, NamespaceAttach(n.nsid, nqn, 0, n.volume, n.uuid, n.nguid, n.eui64))
                 && Accepted(log, i, nqn);
      StillAccepted(log, log', i, nqn);
      assert Answered(log', i, NamespaceAttach(n.nsid, nqn, 0, n.volume, n.uuid, n.nguid, n.eui64));
      assert Explains(log', i, key, r);
    case VirtioRecord(v) =>
      var serial :| Answered(log, i, VirtioCreate(serial, v.volume, v.pfId, v.maxIoQps)) && key == VolumeName(serial);
      assert Answered(log', i, VirtioCreate(serial, v.volume, v.pfId, v.maxIoQps));
      assert Explains(log', i, key, r);
  }

  // ---------------------------------------------------------------- one handler at a time

  lemma SubsystemLog(st: State, req: CreateSubsystemRequest, env: Env)
    ensures var (st', reply) := CreateSubsystem(st, req, env);
            && st.log <= st'.log
            && (reply.Ok? && SubsystemKey(req) !in st.subsystems ==>
                  Explains(st'.log, |st.log|, SubsystemKey(req), SubsystemRecord(reply.value)))
  {
  }

  lemma ControllerLog(st: State, req: CreateControllerRequest, env: Env)
    ensures var (st', reply) := CreateController(st, req, env);
            && st.log <= st'.log
            && (reply.Ok? && ControllerKey(req) !in st.controllers ==>
                  && req.parent in st.subsystems && req.pfId.Some? && reply.value.pfId == req.pfId.value
                  && Answered(st'.log, |st.log|, ControllerCreate(st.subsystems[req.parent].nqn, req.pfId.value))
                  && var cntlid := st'.log[|st.log|].answer.cntlid;
                  && cntlid >= 0 && reply.value.cntlid == ToInt32(cntlid))
  {
  }

  lemma NamespaceLog(st: State, req: CreateNamespaceRequest, env: Env)
    ensures var (st', reply) := CreateNamespace(st, req, env);
            && st.log <= st'.log
            && (reply.Ok? && NamespaceKey(req) !in st.namespaces ==>
                  && req.parent in st.subsystems
                  && var n := reply.value;
                  && var c := NamespaceAttach(
                       n.nsid, st.subsystems[req.parent].nqn, 0, n.volume, n.uuid, n.nguid, n.eui64);
                  && Answered(st'.log, |st.log|, c) && st'.log[|st.log|].answer.ok)
  {
  }

  lemma VirtioLog(st: State, req: CreateVirtioRequest, env: Env)
    ensures var (st', reply) := CreateVirtio(st, req, env);
            && st.log <= st'.log
            && (reply.Ok? && VirtioKey(req) !in st.virtioCtrls ==>
                  && var v := reply.value;
                  && var serial := ChooseId(req.id, req.generated);
                  && VirtioKey(req) == VolumeName(serial)
                  && Answered(st'.log, |st.log|, VirtioCreate(serial, v.volume, v.pfId, v.maxIoQps))
                  && st'.log[|st.log|].answer.name != "")
  {
  }

  lemma DeletesLog(st: State, e: Event)
    requires IsDelete(e)
    ensures st.log <= Step(st, e).log
  {
  }

  // ---------------------------------------------------------------- every run

  lemma LogGrows(st: State, e: Event)
    ensures st.log <= Step(st, e).log
  {
    match e
    case CreatesSubsystem(req, env) => SubsystemLog(st, req, env);
    case CreatesController(req, env) => ControllerLog(st, req, env);
    case CreatesNamespace(req, env) => NamespaceLog(st, req, env);
    case CreatesVirtio(req, env) => VirtioLog(st, req, env);
    case Asks(q) => AskEffect(st, q);
    case Restarts =>
    case _ => DeletesLog(st, e);
  }

  /** The NQN of a stored subsystem has been accepted by the target. */
  lemma StoredIsAccepted(st: State, log: seq<Exchange>, key: string)
    requires AllExplained(st) && key in st.subsystems && st.log <= log
    ensures Accepted(log, |st.log|, st.subsystems[key].nqn)
  {
    var s := st.subsystems[key];
    assert Lookup(st, SubsystemKind, key) == Some(SubsystemRecord(s));
    var i :| Explains(st.log, i, key, SubsystemRecord(s));
    assert Answered(log, i, SubsystemCreate(s.nqn, s.serial, s.model)) && log[i] == st.log[i];
  }

  /** A record that a create has just made is explained by the call it sent. */
  lemma MadeIsExplained(st: State, e: Event, kind: Kind, key: string)
    requires AllExplained(st) && Lookup(st, kind, key).None? && Made(st, e, kind, key).Some?
    ensures Explained(Step(st, e).log, key, Made(st, e, kind, key).value)
  {
    var log, r := Step(st, e).log, Made(st, e, kind, key).value;
    match e
    case CreatesSubsystem(req, env) =>
      SubsystemLog(st, req, env);
      assert Explains(log, |st.log|, key, r);
    case CreatesController(req, env) =>
      ControllerLog(st, req, env);
      StoredIsAccepted(st, log, req.parent);
      assert Explains(log, |st.log|, key, r);
    case CreatesNamespace(req, env) =>
      NamespaceLog(st, req, env);
      StoredIsAccepted(st, log, req.parent);
      assert Explains(log, |st.log|, key, r);
    case CreatesVirtio(req, env) =>
      VirtioLog(st, req, env);
      assert Explains(log, |st.log|, key, r);
  }

  /**
   Under every fault and any restarts, each record that is stored or held in memory carries the
   fields of a command that the target granted: a subsystem with the version asked for right after,
   a controller with the narrowed id of the answer, a child under an NQN accepted before it. The log
   only grows.
   */
  lemma {:induction false} RecordsAreExplained(st: State, events: seq<Event>)
    requires SelfKeyed(st) && AllExplained(st)
    ensures AllExplained(Run(st, events)) && st.log <= Run(st, events).log
    decreases |events|
  {
    if events != [] {
      var e, next := events[0], Step(st, events[0]);
      LogGrows(st, e);
      SelfKeyedStep(st, e);
      forall kind, key | Lookup(next, kind, key).Some?
        ensures Explained(next.log, key, Lookup(next, kind, key).value)
      {
        RecordStep(st, e, kind, key);
        if Lookup(st, kind, key).None? {
          MadeIsExplained(st, e, kind, key);
        } else {
          StillExplained(st.log, next.log, key, Lookup(st, kind, key).value);
        }
      }
      RecordsAreExplained(next, events[1..]);
    }
  }
}
