/**
 The remote SPDK/SNAP target, as an automaton the handlers talk to by JSON-RPC. Only the mutating
 commands (and the version query of a subsystem create) are calls here; the target is not part of
 the repository, so what it may do is an environment parameter.
 */
module Target {
  import opened Common

  /** How one remote call ends. */
  datatype Fate =
    | Served     // the target decides, and its answer arrives
    | Refused    // the target refuses for reasons of its own
    | Failed     // error, without effect
    | ReplyLost  // the target decides and acts, but the caller sees an error

  /** What the environment does during one handler call: store accesses and remote calls. */
  datatype Env = Env(
    get: bool,                // the first store Get succeeds
    getParent: bool,          // the second store Get succeeds
    rpc: Fate,                // the fate of the mutating call
    version: Option<string>,  // the answer of spdk_get_version, None for an error
    cntlid: int,              // the id the target picks for a new controller
    blkName: string,          // the name the target picks for a new virtio-blk device
    write: bool)              // the final store Set or Delete succeeds

  datatype Command =
    | SubsystemCreate(nqn: string, serial: string, model: string)
    | SubsystemDelete(nqn: string)
    | NamespaceAttach(nsid: int, subnqn: string, cntlid: int, bdev: string, uuid: string, nguid: string, eui64: int)
    | NamespaceDetach(nsid: int, subnqn: string, cntlid: int)
    | ControllerCreate(nqn: string, pfId: int)
    | ControllerDelete(subnqn: string, cntlid: int)
    | VirtioCreate(serial: string, bdev: string, pfId: int, numQueues: int)
    | VirtioDelete(name: string, force: bool)

  /** A decoded JSON-RPC result; each handler reads the part its command fills in. */
  datatype Answer = NoAnswer | Answer(ok: bool, cntlid: int, name: string)

  /** One entry of the log of remote calls: what was asked, and what the caller saw. */
  datatype Exchange =
    | Called(command: Command, answer: Answer)
    | AskedVersion(version: Option<string>)

  /**
   The target's own objects: subsystem NQNs, attached (NQN, nsid) pairs and (NQN, cntlid) pairs.
   The two flags say which refusals the target is known to make by itself.
   */
  datatype Target = Target(
    nqns: set<string>,
    attached: set<(string, int)>,
    ctrls: set<(string, int)>,
    refusesDuplicates: bool,
    guardsChildren: bool)
  {
    predicate HasChildren(nqn: string) {
      || (exists p :: p in attached && p.0 == nqn)
      || (exists p :: p in ctrls && p.0 == nqn)
    }

    /** The target carries out c, when it is given the chance to decide. */
    predicate Accepts(c: Command, env: Env) {
      match c
      case SubsystemCreate(nqn, _, _) => !(refusesDuplicates && nqn in nqns)
      case SubsystemDelete(nqn) => !(guardsChildren && HasChildren(nqn))
      case NamespaceAttach(nsid, nqn, _, _, _, _, _) => !(refusesDuplicates && (nqn, nsid) in attached)
      case ControllerCreate(nqn, _) =>
        env.cntlid >= 0 && !(refusesDuplicates && (nqn, env.cntlid) in ctrls)
      case VirtioCreate(_, _, _, _) => env.blkName != ""
      case _ => true
    }

    function Apply(c: Command, env: Env): Target {
      match c
      case SubsystemCreate(nqn, _, _) => this.(nqns := nqns + {nqn})
      case SubsystemDelete(nqn) =>
        this.(nqns := nqns - {nqn},
              attached := (set p | p in attached && p.0 != nqn),
              ctrls := (set p | p in ctrls && p.0 != nqn))
      case NamespaceAttach(nsid, nqn, _, _, _, _, _) => this.(attached := attached + {(nqn, nsid)})
      case NamespaceDetach(nsid, nqn, _) => this.(attached := attached - {(nqn, nsid)})
      case ControllerCreate(nqn, _) => this.(ctrls := ctrls + {(nqn, env.cntlid)})
      case ControllerDelete(nqn, cntlid) => this.(ctrls := ctrls - {(nqn, cntlid)})
      case _ => this
    }

    /** The target acts on c. */
    predicate Executes(c: Command, env: Env) {
      (env.rpc.Served? || env.rpc.ReplyLost?) && Accepts(c, env)
    }

    function Call(c: Command, env: Env): (Target, Answer) {
      ( if Executes(c, env) then Apply(c, env) else this,
        if env.rpc.Failed? || env.rpc.ReplyLost? then NoAnswer
        else if Executes(c, env) then Answer(true, env.cntlid, env.blkName)
        else Answer(false, -1, "") )
    }
  }

  /** Once the target has acted on the deletion of a subsystem, nothing of it is left there. */
  lemma DeletedIsGone(t: Target, nqn: string, env: Env)
    requires t.Executes(SubsystemDelete(nqn), env)
    ensures var t' := t.Call(SubsystemDelete(nqn), env).0;
            && t'.nqns == t.nqns - {nqn} && !t'.HasChildren(nqn)
            && (forall p :: p in t.attached && p.0 != nqn ==> p in t'.attached)
            && (forall p :: p in t.ctrls && p.0 != nqn ==> p in t'.ctrls)
  {
  }
}
