/**
 The server object and its handlers, step by step as they run: store accesses, index searches,
 remote calls and in-place sorting. Every create and delete is proved to do to the shared state
 exactly what module Protocol says, every other handler exactly what module Queries says.
 */
module Frontend {
  import opened Common
  import opened Names
  import opened Target
  import opened Records
  import opened Paging
  import opened Listing
  import opened Queries
  import opened Protocol

  /** One kind of record in the persistent key/value store. Each access may fail, without effect. */
  class Store<V> {
    var data: map<string, V>

    constructor ()
      ensures data == map[]
    {
      data := map[];
    }

    method Get(key: string, works: bool) returns (found: Reply<Option<V>>)
      ensures found == if !works then Err(StoreError) else Ok(if key in data then Some(data[key]) else None)
    {
      if !works { return Err(StoreError); }
      if key in data { return Ok(Some(data[key])); }
      return Ok(None);
    }

    method Set(key: string, value: V, works: bool) returns (done: bool)
      modifies this
      ensures done == works && data == if works then old(data)[key := value] else old(data)
    {
      if works { data := data[key := value]; }
      done := works;
    }

    method Delete(key: string, works: bool) returns (done: bool)
      modifies this
      ensures done == works && data == if works then old(data) - {key} else old(data)
    {
      if works { data := data - {key}; }
      done := works;
    }
  }

  /** The JSON-RPC connection, with the target behind it. */
  class Remote {
    var target: Target
    var log: seq<Exchange>

    constructor (target: Target)
      ensures this.target == target && log == []
    {
      this.target := target;
      log := [];
    }

    method Call(c: Command, env: Env) returns (answer: Answer)
      modifies this
      ensures (target, answer) == old(target).Call(c, env) && log == old(log) + [Called(c, answer)]
    {
      var (t, a) := target.Call(c, env);
      target, log, answer := t, log + [Called(c, a)], a;
    }

    method Version(env: Env) returns (version: Option<string>)
      modifies this`log
      ensures version == env.version && log == old(log) + [AskedVersion(env.version)]
    {
      log := log + [AskedVersion(env.version)];
      version := env.version;
    }
  }

  /** Whether and why a call failed, apart from what it returned. */
  function Outcome<T>(reply: Reply<T>): Reply<()> {
    reply.Map(_ => ())
  }

  class Server {
    var nqns: map<string, bool>
    var virtioCtrls: map<string, VirtioBlk>
    var pagination: Pages
    const subsystems: Store<Subsystem>
    const controllers: Store<Controller>
    const namespaces: Store<Namespace>
    const rpc: Remote
    const defaultPageSize: PageSize

    ghost predicate Valid() {
      && subsystems as object != controllers as object
      && subsystems as object != namespaces as object
      && controllers as object != namespaces as object
    }

    ghost function Abs(): State
      reads this, subsystems, controllers, namespaces, rpc
    {
      State(subsystems.data, controllers.data, namespaces.data, nqns, virtioCtrls, pagination, defaultPageSize,
            rpc.target, rpc.log)
    }

    /** A new server over an existing store and target: what a restart leaves. */
    constructor (subsystems: Store<Subsystem>, controllers: Store<Controller>, namespaces: Store<Namespace>,
                 rpc: Remote, defaultPageSize: PageSize)
      requires subsystems as object != controllers as object && subsystems as object != namespaces as object
      requires controllers as object != namespaces as object
      ensures Valid()
      ensures nqns == map[] && virtioCtrls == map[] && pagination == map[]
      ensures Abs() == Restarted(Abs())
      ensures this.subsystems == subsystems && this.controllers == controllers && this.namespaces == namespaces
      ensures this.rpc == rpc && this.defaultPageSize == defaultPageSize
    {
      this.subsystems, this.controllers, this.namespaces := subsystems, controllers, namespaces;
      this.rpc, this.defaultPageSize := rpc, defaultPageSize;
      nqns, virtioCtrls, pagination := map[], map[], map[];
    }

    // -------------------------------------------------------------- subsystems

    /** Searches the index key by key. */
    method IsIndexed(nqn: string) returns (found: bool)
      ensures found <==> nqn in nqns
    {
      var rest := nqns.Keys;
      while rest != {}
        invariant rest <= nqns.Keys
        invariant nqn in nqns ==> nqn in rest
        decreases |rest|
      {
        var other :| other in rest;
        if other == nqn { return true; }
        rest := rest - {other};
      }
      found := false;
    }

    method CreateNvmeSubsystem(req: CreateSubsystemRequest, env: Env) returns (reply: Reply<Subsystem>)
      requires Valid()
      modifies this, subsystems, rpc
      ensures (Abs(), reply) == CreateSubsystem(old(Abs()), req, env)
    {
      if !ValidCreateSubsystem(req) { return Err(Invalid); }
      var name := SubsystemName(ChooseId(req.id, req.generated));
      var found := subsystems.Get(name, env.get);
      if found.Err? { return Err(found.error); }
      if found.value.Some? { return Ok(found.value.value); }
      var taken := IsIndexed(req.nqn);
      if taken { return Err(AlreadyExists(req.nqn)); }
      var answer := rpc.Call(SubsystemCreate(req.nqn, req.serial, req.model), env);
      if answer.NoAnswer? { return Err(RpcError); }
      if !answer.ok { return Err(Declined); }
      var version := rpc.Version(env);
      if version.None? { return Err(RpcError); }
      var record := Subsystem(name, req.nqn, req.serial, req.model, version.value);
      nqns := nqns[req.nqn := false];
      var stored := subsystems.Set(name, record, env.write);
      if !stored { return Err(StoreError); }
      reply := Ok(record);
    }

    method DeleteNvmeSubsystem(req: DeleteRequest, env: Env) returns (reply: Reply<()>)
      requires Valid()
      modifies this, subsystems, rpc
      ensures (Abs(), reply) == DeleteSubsystem(old(Abs()), req, env)
    {
      if !req.checked { return Err(Invalid); }
      var found := subsystems.Get(req.name, env.get);
      if found.Err? { return Err(found.error); }
      if found.value.None? { return if req.allowMissing then Ok(()) else Err(NotFound(req.name)); }
      var record := found.value.value;
      var answer := rpc.Call(SubsystemDelete(record.nqn), env);
      if answer.NoAnswer? { return Err(RpcError); }
      if !answer.ok { return Err(Declined); }
      nqns := nqns - {record.nqn};
      var done := subsystems.Delete(record.name, env.write);
      if !done { return Err(StoreError); }
      reply := Ok(());
    }

    // -------------------------------------------------------------- controllers

    method CreateNvmeController(req: CreateControllerRequest, env: Env) returns (reply: Reply<Controller>)
      requires Valid()
      modifies controllers, rpc
      ensures (Abs(), reply) == CreateController(old(Abs()), req, env)
    {
      if !ValidCreateController(req) { return Err(Invalid); }
      var name := ControllerName(GetSubsystemId(req.parent), ChooseId(req.id, req.generated));
      var found := controllers.Get(name, env.get);
      if found.Err? { return Err(found.error); }
      if found.value.Some? { return Ok(found.value.value); }
      var parent := subsystems.Get(req.parent, env.getParent);
      if parent.Err? { return Err(parent.error); }
      if parent.value.None? { return Err(NotFound(req.parent)); }
      var answer := rpc.Call(ControllerCreate(parent.value.value.nqn, req.pfId.value), env);
      if answer.NoAnswer? { return Err(RpcError); }
      if answer.cntlid < 0 { return Err(Declined); }
      var record := Controller(name, req.pfId.value, ToInt32(answer.cntlid));
      var stored := controllers.Set(name, record, env.write);
      if !stored { return Err(StoreError); }
      reply := Ok(record);
    }

    method DeleteNvmeController(req: DeleteRequest, env: Env) returns (reply: Reply<()>)
      requires Valid()
      modifies controllers, rpc
      ensures (Abs(), reply) == DeleteController(old(Abs()), req, env)
    {
      if !req.checked { return Err(Invalid); }
      var found := controllers.Get(req.name, env.get);
      if found.Err? { return Err(found.error); }
      if found.value.None? { return if req.allowMissing then Ok(()) else Err(NotFound(req.name)); }
      var record := found.value.value;
      var parentName := SubsystemName(GetSubsystemId(req.name));
      var parent := subsystems.Get(parentName, env.getParent);
      if parent.Err? { return Err(parent.error); }
      if parent.value.None? { return Err(NoSubsystem(parentName)); }
      var answer := rpc.Call(ControllerDelete(parent.value.value.nqn, record.cntlid), env);
      if answer.NoAnswer? { return Err(RpcError); }
      if !answer.ok { return Err(Declined); }
      var done := controllers.Delete(record.name, env.write);
      if !done { return Err(StoreError); }
      reply := Ok(());
    }

    // -------------------------------------------------------------- namespaces

    method CreateNvmeNamespace(req: CreateNamespaceRequest, env: Env) returns (reply: Reply<Namespace>)
      requires Valid()
      modifies namespaces, rpc
      ensures (Abs(), reply) == CreateNamespace(old(Abs()), req, env)
    {
      if !req.checked || !IsSegment(req.id) { return Err(Invalid); }
      var name := NamespaceName(GetSubsystemId(req.parent), ChooseId(req.id, req.generated));
      var found := namespaces.Get(name, env.get);
      if found.Err? { return Err(found.error); }
      if found.value.Some? { return Ok(found.value.value); }
      var parent := subsystems.Get(req.parent, env.getParent);
      if parent.Err? { return Err(parent.error); }
      if parent.value.None? { return Err(NotFound(req.parent)); }
      var c := NamespaceAttach(
        req.nsid, parent.value.value.nqn, 0, req.volume, req.uuid, req.nguid, req.eui64);
      var answer := rpc.Call(c, env);
      if answer.NoAnswer? { return Err(RpcError); }
      if !answer.ok { return Err(Declined); }
      var record := Namespace(name, req.volume, req.nsid, req.uuid, req.nguid, req.eui64);
      var stored := namespaces.Set(name, record, env.write);
      if !stored { return Err(StoreError); }
      reply := Ok(record);
    }

    method DeleteNvmeNamespace(req: DeleteRequest, env: Env) returns (reply: Reply<()>)
      requires Valid()
      modifies namespaces, rpc
      ensures (Abs(), reply) == DeleteNamespace(old(Abs()), req, env)
    {
      if !req.checked { return Err(Invalid); }
      var found := namespaces.Get(req.name, env.get);
      if found.Err? { return Err(found.error); }
      if found.value.None? { return if req.allowMissing then Ok(()) else Err(NotFound(req.name)); }
      var record := found.value.value;
      var parentName := SubsystemName(GetSubsystemId(req.name));
      var parent := subsystems.Get(parentName, env.getParent);
      if parent.Err? { return Err(parent.error); }
      if parent.value.None? { return Err(NoSubsystem(parentName)); }
      var answer := rpc.Call(NamespaceDetach(record.nsid, parent.value.value.nqn, 0), env);
      if answer.NoAnswer? { return Err(RpcError); }
      if !answer.ok { return Err(Declined); }
      var done := namespaces.Delete(record.name, env.write);
      if !done { return Err(StoreError); }
      reply := Ok(());
    }

    // -------------------------------------------------------------- virtio-blk devices

    method CreateVirtioBlk(req: CreateVirtioRequest, env: Env) returns (reply: Reply<VirtioBlk>)
      requires Valid()
      modifies this, rpc
      ensures (Abs(), reply) == CreateVirtio(old(Abs()), req, env)
    {
      if !req.checked || !IsSegment(req.id) { return Err(Invalid); }
      var resourceId := ChooseId(req.id, req.generated);
      var name := VolumeName(resourceId);
      if name in virtioCtrls { return Ok(virtioCtrls[name]); }
      if req.pfId.None? { return Err(NilDereference); }
      var answer := rpc.Call(VirtioCreate(resourceId, req.volume, req.pfId.value, req.maxIoQps), env);
      if answer.NoAnswer? { return Err(RpcError); }
      if answer.name == "" { return Err(Declined); }
      var record := VirtioBlk(name, req.pfId.value, req.volume, req.maxIoQps);
      virtioCtrls := virtioCtrls[name := record];
      reply := Ok(record);
    }

    method DeleteVirtioBlk(req: DeleteRequest, env: Env) returns (reply: Reply<()>)
      requires Valid()
      modifies this, rpc
      ensures (Abs(), reply) == DeleteVirtio(old(Abs()), req, env)
    {
      if !req.checked { return Err(Invalid); }
      if req.name !in virtioCtrls { return if req.allowMissing then Ok(()) else Err(NotFound(req.name)); }
      var record := virtioCtrls[req.name];
      var answer := rpc.Call(VirtioDelete(req.name, true), env);
      if answer.NoAnswer? { return Err(RpcError); }
      virtioCtrls := virtioCtrls - {record.name};
      reply := Ok(());
    }

    // -------------------------------------------------------------- listings

    // The rows are the target's answer, None when the call fails; uuid is the fresh page token. The
    // reply of a List call holds the page and never the token.

    method ListNvmeSubsystems(req: ListRequest, rows: Option<seq<SubsystemRow>>, uuid: string)
      returns (reply: Reply<seq<Subsystem>>)
      requires Valid()
      modifies this`pagination
      ensures (Abs(), Outcome(reply)) == Ask(old(Abs()), ListsSubsystems(req, rows, uuid))
      ensures var page := Turn(old(Abs()), req, Answered(rows), uuid).1;
              page.Ok? ==> SubsystemsShown(page.value, reply.value)
                           && Rendered(page.value, reply.value, PickSubsystem, LessNqn)
    {
      if !req.checked { return Err(Invalid); }
      var extracted := ExtractPagination(req.pageSize, req.pageToken, pagination, defaultPageSize);
      if extracted.Err? { return Err(extracted.error); }
      var (size, offset) := extracted.value;
      if rows.None? { return Err(RpcError); }
      var result := Page(rows.value, offset, size);
      if HasMore(rows.value, offset, size) { pagination := pagination[uuid := offset + size]; }
      var values := RenderSubsystems(result);
      reply := Ok(values);
    }

    /** The list call names the parent's NQN; nsids gives the target's answer for each NQN. */
    method ListNvmeNamespaces(req: ListRequest, env: Env, nsids: map<string, seq<int>>, uuid: string)
      returns (reply: Reply<seq<Namespace>>)
      requires Valid()
      modifies this`pagination
      ensures (Abs(), Outcome(reply)) == Ask(old(Abs()), ListsNamespaces(req, env, nsids, uuid))
      ensures var page := Turn(old(Abs()), req, NamespaceRows(old(Abs()), req, env, nsids), uuid).1;
              page.Ok? ==> NamespacesShown(page.value, reply.value)
                           && Rendered(page.value, reply.value, PickNamespace, LessNsid)
    {
      if !req.checked { return Err(Invalid); }
      var extracted := ExtractPagination(req.pageSize, req.pageToken, pagination, defaultPageSize);
      if extracted.Err? { return Err(extracted.error); }
      var (size, offset) := extracted.value;
      var parent := subsystems.Get(req.parent, env.get);
      if parent.Err? { return Err(parent.error); }
      if parent.value.None? { return Err(NotFound(req.parent)); }
      var rows := NsidsOf(parent.value.value.nqn, nsids);
      if rows.Err? { return Err(rows.error); }
      var result := Page(rows.value, offset, size);
      if HasMore(rows.value, offset, size) { pagination := pagination[uuid := offset + size]; }
      var values := RenderNamespaces(result);
      reply := Ok(values);
    }

    method ListVirtioBlks(req: ListRequest, rows: Option<seq<ControllerRow>>, uuid: string)
      returns (reply: Reply<seq<VirtioBlk>>)
      requires Valid()
      modifies this`pagination
      ensures (Abs(), Outcome(reply)) == Ask(old(Abs()), ListsVirtioBlks(req, rows, uuid))
      ensures var page := Turn(old(Abs()), req, Answered(rows), uuid).1;
              page.Ok? ==> VirtioBlksShown(page.value, reply.value)
                           && Rendered(page.value, reply.value, PickVirtio, LessName)
    {
      if !req.checked { return Err(Invalid); }
      var extracted := ExtractPagination(req.pageSize, req.pageToken, pagination, defaultPageSize);
      if extracted.Err? { return Err(extracted.error); }
      var (size, offset) := extracted.value;
      if rows.None? { return Err(RpcError); }
      var result := Page(rows.value, offset, size);
      if HasMore(rows.value, offset, size) { pagination := pagination[uuid := offset + size]; }
      var values := RenderVirtioBlks(result);
      reply := Ok(values);
    }

    /** A panic comes after the token has been recorded. */
    method ListNvmeControllers(req: ListRequest, env: Env, rows: Option<seq<ControllerRow>>, uuid: string)
      returns (reply: Reply<seq<Option<Controller>>>)
      requires Valid()
      modifies this`pagination
      ensures (Abs(), Outcome(reply)) == Ask(old(Abs()), ListsControllers(req, env, rows, uuid))
      ensures var page := Turn(old(Abs()), req, ControllerRows(old(Abs()), req, env, rows), uuid).1;
              page.Ok? ==> req.parent in subsystems.data
                           && ControllersListed(subsystems.data[req.parent].nqn, page.value, reply)
    {
      if !req.checked { return Err(Invalid); }
      var extracted := ExtractPagination(req.pageSize, req.pageToken, pagination, defaultPageSize);
      if extracted.Err? { return Err(extracted.error); }
      var (size, offset) := extracted.value;
      var parent := subsystems.Get(req.parent, env.get);
      if parent.Err? { return Err(parent.error); }
      if parent.value.None? { return Err(NotFound(req.parent)); }
      if rows.None? { return Err(RpcError); }
      var result := Page(rows.value, offset, size);
      if HasMore(rows.value, offset, size) { pagination := pagination[uuid := offset + size]; }
      reply := RenderControllers(parent.value.value.nqn, result);
    }

    // -------------------------------------------------------------- single records

    // Each looks its record up, fetches the target's rows and returns what the first match says.

    method GetNvmeSubsystem(get: GetRequest, env: Env, rows: Option<seq<SubsystemRow>>)
      returns (reply: Reply<Subsystem>)
      ensures (Abs(), Outcome(reply)) == Ask(Abs(), GetsSubsystem(get, env, rows))
      ensures reply.Ok? ==>
                exists i :: 0 <= i < |rows.value| && rows.value[i].nqn == subsystems.data[get.name].nqn
                  && (forall k :: 0 <= k < i ==> rows.value[k].nqn != subsystems.data[get.name].nqn)
                  && reply.value == Subsystem("", rows.value[i].nqn, rows.value[i].serial, rows.value[i].model, "TBD")
    {
      if !get.checked { return Err(Invalid); }
      var found := subsystems.Get(get.name, env.get);
      if found.Err? { return Err(found.error); }
      if found.value.None? { return Err(NotFound(get.name)); }
      var nqn := found.value.value.nqn;
      if rows.None? { return Err(RpcError); }
      var i := 0;
      while i < |rows.value|
        invariant 0 <= i <= |rows.value|
        invariant forall k :: 0 <= k < i ==> rows.value[k].nqn != nqn
      {
        var r := rows.value[i];
        if r.nqn == nqn { return Ok(Subsystem("", r.nqn, r.serial, r.model, "TBD")); }
        i := i + 1;
      }
      reply := Err(NotListed);
    }

    /** Searches the target's controllers for the stored id; the row's subsystem is not looked at. */
    method GetNvmeController(get: GetRequest, env: Env, rows: Option<seq<ControllerRow>>)
      returns (reply: Reply<Int32>)
      ensures (Abs(), Outcome(reply)) == Ask(Abs(), GetsController(get, env, rows))
      ensures reply.Ok? ==> reply.value == controllers.data[get.name].cntlid
    {
      if !get.checked { return Err(Invalid); }
      var found := controllers.Get(get.name, env.get);
      if found.Err? { return Err(found.error); }
      if found.value.None? { return Err(NotFound(get.name)); }
      var id := found.value.value.cntlid;
      if rows.None? { return Err(RpcError); }
      var i := 0;
      while i < |rows.value|
        invariant 0 <= i <= |rows.value|
        invariant forall k :: 0 <= k < i ==> !(rows.value[k].cntlid == id && rows.value[k].kind == "nvme")
      {
        var r := rows.value[i];
        if r.cntlid == id && r.kind == "nvme" { return Ok(ToInt32(r.cntlid)); }
        i := i + 1;
      }
      reply := Err(NotListed);
    }

    /** Recovers the parent from the name, lists its namespaces, and searches them for the stored nsid. */
    method GetNvmeNamespace(get: GetRequest, env: Env, nsids: map<string, seq<int>>)
      returns (reply: Reply<Int32>)
      ensures (Abs(), Outcome(reply)) == Ask(Abs(), GetsNamespace(get, env, nsids))
      ensures reply.Ok? ==> reply.value == namespaces.data[get.name].nsid
    {
      if !get.checked { return Err(Invalid); }
      var found := namespaces.Get(get.name, env.get);
      if found.Err? { return Err(found.error); }
      if found.value.None? { return Err(NotFound(get.name)); }
      var nsid := found.value.value.nsid;
      var parentName := SubsystemName(GetSubsystemId(get.name));
      var parent := subsystems.Get(parentName, env.getParent);
      if parent.Err? { return Err(parent.error); }
      if parent.value.None? { return Err(NotFound(parentName)); }
      var rows := NsidsOf(parent.value.value.nqn, nsids);
      if rows.Err? { return Err(rows.error); }
      var i := 0;
      while i < |rows.value|
        invariant 0 <= i <= |rows.value|
        invariant forall k :: 0 <= k < i ==> rows.value[k] != nsid
      {
        if rows.value[i] == nsid { return Ok(ToInt32(rows.value[i])); }
        i := i + 1;
      }
      reply := Err(NotListed);
    }

    /** Searches the target's devices for the last segment of the requested name. */
    method GetVirtioBlk(get: GetRequest, rows: Option<seq<ControllerRow>>)
      returns (reply: Reply<VirtioBlk>)
      ensures (Abs(), Outcome(reply)) == Ask(Abs(), GetsVirtioBlk(get, rows))
      ensures reply.Ok? ==>
                exists i :: 0 <= i < |rows.value| && rows.value[i].name == Base(get.name)
                  && PickVirtio(rows.value[i]) == Some(reply.value)
                  && forall k :: 0 <= k < i ==> !(rows.value[k].name == Base(get.name) && rows.value[k].kind == "virtio_blk")
    {
      if !get.checked { return Err(Invalid); }
      if get.name !in virtioCtrls { return Err(NotFound(get.name)); }
      if rows.None? { return Err(RpcError); }
      var resourceId := Base(get.name);
      var i := 0;
      while i < |rows.value|
        invariant 0 <= i <= |rows.value|
        invariant forall k :: 0 <= k < i ==> !(rows.value[k].name == resourceId && rows.value[k].kind == "virtio_blk")
      {
        var r := rows.value[i];
        if r.name == resourceId && r.kind == "virtio_blk" {
          return Ok(VirtioBlk(VolumeName(r.name), ToInt32(r.pciIndex), "TBD", 0));
        }
        i := i + 1;
      }
      reply := Err(NotListed);
    }

    // -------------------------------------------------------------- statistics

    method StatsNvmeSubsystem(get: GetRequest) returns (reply: Reply<IoCounts>)
      ensures (Abs(), Outcome(reply)) == Ask(Abs(), AsksSubsystemStats(get))
    {
      if !get.checked { return Err(Invalid); }
      reply := Err(Unimplemented);
    }

    method StatsNvmeController(get: GetRequest) returns (reply: Reply<IoCounts>)
      ensures (Abs(), Outcome(reply)) == Ask(Abs(), AsksControllerStats(get))
    {
      if !get.checked { return Err(Invalid); }
      reply := Err(Unimplemented);
    }

    method StatsNvmeNamespace(get: GetRequest, env: Env, stats: Option<seq<ControllerStats>>)
      returns (reply: Reply<IoCounts>)
      ensures (Abs(), Outcome(reply)) == Ask(Abs(), AsksNamespaceStats(get, env, stats))
      ensures reply.Ok? ==> IsFirstMatch(stats.value, namespaces.data[get.name].volume, reply.value)
    {
      if !get.checked { return Err(Invalid); }
      var found := namespaces.Get(get.name, env.get);
      if found.Err? { return Err(found.error); }
      if found.value.None? { return Err(NotFound(get.name)); }
      if stats.None? { return Err(RpcError); }
      var counts := FindBdev(stats.value, found.value.value.volume);
      reply := if counts.Some? then Ok(counts.value) else Err(NotListed);
    }

    /** Searches for the requested name itself; nothing stored is looked at. */
    method StatsVirtioBlk(get: GetRequest, stats: Option<seq<ControllerStats>>)
      returns (reply: Reply<IoCounts>)
      ensures (Abs(), Outcome(reply)) == Ask(Abs(), AsksVirtioStats(get, stats))
      ensures reply.Ok? ==> IsFirstMatch(stats.value, get.name, reply.value)
    {
      if !get.checked { return Err(Invalid); }
      if stats.None? { return Err(RpcError); }
      var counts := FindBdev(stats.value, get.name);
      reply := if counts.Some? then Ok(counts.value) else Err(NotListed);
    }

    // -------------------------------------------------------------- updates

    method UpdateNvmeSubsystem(req: UpdateRequest, env: Env) returns (reply: Reply<Subsystem>)
      ensures (Abs(), Outcome(reply)) == Ask(Abs(), Updates(SubsystemKind, req, env))
    {
      if !req.checked { return Err(Invalid); }
      var found := subsystems.Get(req.name, env.get);
      if found.Err? { return Err(found.error); }
      if found.value.None? { return Err(NotFound(req.name)); }
      if !req.maskValid { return Err(Invalid); }
      reply := Err(Unimplemented);
    }

    method UpdateNvmeController(req: UpdateRequest, env: Env) returns (reply: Reply<Controller>)
      ensures (Abs(), Outcome(reply)) == Ask(Abs(), Updates(ControllerKind, req, env))
    {
      if !req.checked { return Err(Invalid); }
      var found := controllers.Get(req.name, env.get);
      if found.Err? { return Err(found.error); }
      if found.value.None? { return Err(NotFound(req.name)); }
      if !req.maskValid { return Err(Invalid); }
      reply := Err(Unimplemented);
    }

    method UpdateNvmeNamespace(req: UpdateRequest, env: Env) returns (reply: Reply<Namespace>)
      ensures (Abs(), Outcome(reply)) == Ask(Abs(), Updates(NamespaceKind, req, env))
    {
      if !req.checked { return Err(Invalid); }
      var found := namespaces.Get(req.name, env.get);
      if found.Err? { return Err(found.error); }
      if found.value.None? { return Err(NotFound(req.name)); }
      if !req.maskValid { return Err(Invalid); }
      reply := Err(Unimplemented);
    }

    method UpdateVirtioBlk(req: UpdateRequest, env: Env) returns (reply: Reply<VirtioBlk>)
      ensures (Abs(), Outcome(reply)) == Ask(Abs(), Updates(VirtioKind, req, env))
    {
      if !req.checked { return Err(Invalid); }
      if req.name !in virtioCtrls { return Err(NotFound(req.name)); }
      if !req.maskValid { return Err(Invalid); }
      reply := Err(Unimplemented);
    }
  }

  // ---------------------------------------------------------------- the statistics search

  predicate HasBdev(stats: seq<ControllerStats>, name: string, i: int, k: int) {
    0 <= i < |stats| && 0 <= k < |stats[i].bdevs| && stats[i].bdevs[k].bdevName == name
  }

  /** The counts are those of the first row of that name, controller by controller, narrowed to 32 bits. */
  ghost predicate IsFirstMatch(stats: seq<ControllerStats>, name: string, counts: IoCounts) {
    exists i, k ::
      && HasBdev(stats, name, i, k)
      && (forall i', k' :: HasBdev(stats, name, i', k') ==> i < i' || (i == i' && k <= k'))
      && counts == IoCounts(ToInt32(stats[i].bdevs[k].readIos), ToInt32(stats[i].bdevs[k].writeIos))
  }

  lemma BdevHasPlace(stats: seq<ControllerStats>, name: string)
    ensures ListsBdev(stats, name) <==> exists i, k :: HasBdev(stats, name, i, k)
  {
    if i, k :| HasBdev(stats, name, i, k) {
      assert stats[i] in stats && stats[i].bdevs[k] in stats[i].bdevs;
    }
    if ListsBdev(stats, name) {
      var i, k :| 0 <= i < |stats| && 0 <= k < |stats[i].bdevs| && stats[i].bdevs[k].bdevName == name;
      assert HasBdev(stats, name, i, k);
    }
  }

  /** The nested search of both statistics handlers, returning early from the inner loop. */
  method FindBdev(stats: seq<ControllerStats>, name: string) returns (counts: Option<IoCounts>)
    ensures counts.Some? <==> ListsBdev(stats, name)
    ensures counts.Some? ==> IsFirstMatch(stats, name, counts.value)
  {
    BdevHasPlace(stats, name);
    var i := 0;
    while i < |stats|
      invariant 0 <= i <= |stats|
      invariant forall i', k' :: HasBdev(stats, name, i', k') ==> i <= i'
    {
      var k := 0;
      while k < |stats[i].bdevs|
        invariant 0 <= k <= |stats[i].bdevs|
        invariant forall i', k' :: HasBdev(stats, name, i', k') ==> i < i' || (i == i' && k <= k')
      {
        var r := stats[i].bdevs[k];
        if r.bdevName == name {
          assert HasBdev(stats, name, i, k);
          return Some(IoCounts(ToInt32(r.readIos), ToInt32(r.writeIos)));
        }
        k := k + 1;
      }
      i := i + 1;
    }
    counts := None;
  }
}
