/**
 The calls that only ask: Get, List, Stats and Update. None of them writes anything but page tokens;
 what each answers depends on the state and on the target's rows, which a query carries with it.
 */
module Queries {
  import opened Common
  import opened Names
  import opened Target
  import opened Records
  import opened Paging
  import opened Listing

  datatype GetRequest = GetRequest(checked: bool, name: string)

  /** maskValid: the update mask names fields of the resource. */
  datatype UpdateRequest = UpdateRequest(checked: bool, name: string, allowMissing: bool, maskValid: bool)

  datatype BdevStats = BdevStats(bdevName: string, readIos: int, writeIos: int)
  datatype ControllerStats = ControllerStats(name: string, bdevs: seq<BdevStats>)
  datatype IoCounts = IoCounts(readOps: Int32, writeOps: Int32)

  /**
   One such call with all it meets: which store Gets succeed, the rows that the target answers with
   (None when the call fails; for namespaces, the rows of each NQN for which it does not), and the
   fresh token that a List call draws.
   */
  datatype Query =
    | ListsSubsystems(list: ListRequest, subsystemRows: Option<seq<SubsystemRow>>, uuid: string)
    | ListsControllers(list: ListRequest, env: Env, controllerRows: Option<seq<ControllerRow>>, uuid: string)
    | ListsNamespaces(list: ListRequest, env: Env, nsids: map<string, seq<int>>, uuid: string)
    | ListsVirtioBlks(list: ListRequest, controllerRows: Option<seq<ControllerRow>>, uuid: string)
    | GetsSubsystem(get: GetRequest, env: Env, subsystemRows: Option<seq<SubsystemRow>>)
    | GetsController(get: GetRequest, env: Env, controllerRows: Option<seq<ControllerRow>>)
    | GetsNamespace(get: GetRequest, env: Env, nsids: map<string, seq<int>>)
    | GetsVirtioBlk(get: GetRequest, controllerRows: Option<seq<ControllerRow>>)
    | AsksSubsystemStats(get: GetRequest)
    | AsksControllerStats(get: GetRequest)
    | AsksNamespaceStats(get: GetRequest, env: Env, stats: Option<seq<ControllerStats>>)
    | AsksVirtioStats(get: GetRequest, stats: Option<seq<ControllerStats>>)
    | Updates(kind: Kind, update: UpdateRequest, env: Env)

  // ---------------------------------------------------------------- what the searches look for

  predicate ListsNqn(rows: seq<SubsystemRow>, nqn: string) {
    exists r :: r in rows && r.nqn == nqn
  }

  /** Some row of kind nvme has the id; its subsystem is not looked at. */
  predicate ListsCntlid(rows: seq<ControllerRow>, cntlid: int) {
    exists r :: r in rows && r.cntlid == cntlid && r.kind == "nvme"
  }

  predicate ListsDevice(rows: seq<ControllerRow>, name: string) {
    exists r :: r in rows && r.name == name && r.kind == "virtio_blk"
  }

  predicate ListsBdev(stats: seq<ControllerStats>, name: string) {
    exists c :: c in stats && exists r :: r in c.bdevs && r.bdevName == name
  }

  // ---------------------------------------------------------------- listing

  function Answered<R>(rows: Option<R>): Reply<R> {
    if rows.Some? then Ok(rows.value) else Err(RpcError)
  }

  /**
   The page a List call cuts out, or why there is none; rows is what came of fetching them. A next
   page is recorded under the fresh token.
   */
  function Turn<R>(st: State, req: ListRequest, rows: Reply<seq<R>>, uuid: string): (State, Reply<seq<R>>) {
    if !req.checked then (st, Err(Invalid))
    else
      var extracted := ExtractPagination(req.pageSize, req.pageToken, st.pagination, st.defaultPageSize);
      if extracted.Err? then (st, Err(extracted.error))
      else if rows.Err? then (st, rows)
      else
        var (size, offset) := extracted.value;
        (st.(pagination := Recorded(st.pagination, rows.value, offset, size, uuid)), Ok(Page(rows.value, offset, size)))
  }

  /** The NQN of the subsystem that a request names as parent. */
  function ParentNqn(st: State, parent: string, works: bool): Reply<string> {
    if !works then Err(StoreError)
    else if parent !in st.subsystems then Err(NotFound(parent))
    else Ok(st.subsystems[parent].nqn)
  }

  function NsidsOf(nqn: string, nsids: map<string, seq<int>>): Reply<seq<int>> {
    if nqn in nsids then Ok(nsids[nqn]) else Err(RpcError)
  }

  function ControllerRows(st: State, req: ListRequest, env: Env, rows: Option<seq<ControllerRow>>): Reply<seq<ControllerRow>> {
    var nqn := ParentNqn(st, req.parent, env.get);
    if nqn.Err? then Err(nqn.error) else Answered(rows)
  }

  function NamespaceRows(st: State, req: ListRequest, env: Env, nsids: map<string, seq<int>>): Reply<seq<int>> {
    var nqn := ParentNqn(st, req.parent, env.get);
    if nqn.Err? then Err(nqn.error) else NsidsOf(nqn.value, nsids)
  }

  /** Listing a page of controllers panics unless every row is ours or there is but one. */
  function ControllerOutcome(st: State, req: ListRequest, page: Reply<seq<ControllerRow>>): Reply<()> {
    if page.Err? then Err(page.error)
    else if req.parent in st.subsystems && !AllOurs(st.subsystems[req.parent].nqn, page.value) && |page.value| > 1
    then Err(NilDereference)
    else Ok(())
  }

  // ---------------------------------------------------------------- single records

  function Found(listed: bool): Reply<()> {
    if listed then Ok(()) else Err(NotListed)
  }

  /** Reads the stored record, as Get and Stats do first. */
  function Fetch(st: State, kind: Kind, get: GetRequest, works: bool): Reply<Record> {
    if !get.checked then Err(Invalid)
    else if !works then Err(StoreError)
    else if Lookup(st, kind, get.name).None? then Err(NotFound(get.name))
    else Ok(Lookup(st, kind, get.name).value)
  }

  function GetSubsystem(st: State, get: GetRequest, env: Env, rows: Option<seq<SubsystemRow>>): Reply<()> {
    var found := Fetch(st, SubsystemKind, get, env.get);
    if found.Err? then Err(found.error)
    else if rows.None? then Err(RpcError)
    else Found(ListsNqn(rows.value, st.subsystems[get.name].nqn))
  }

  function GetController(st: State, get: GetRequest, env: Env, rows: Option<seq<ControllerRow>>): Reply<()> {
    var found := Fetch(st, ControllerKind, get, env.get);
    if found.Err? then Err(found.error)
    else if rows.None? then Err(RpcError)
    else Found(ListsCntlid(rows.value, st.controllers[get.name].cntlid))
  }

  /** The parent is recovered from the name, and the namespaces under its NQN are searched. */
  function GetNamespace(st: State, get: GetRequest, env: Env, nsids: map<string, seq<int>>): Reply<()> {
    var found := Fetch(st, NamespaceKind, get, env.get);
    if found.Err? then Err(found.error)
    else
      var nqn := ParentNqn(st, ParentKey(get.name), env.getParent);
      if nqn.Err? then Err(nqn.error)
      else
        var rows := NsidsOf(nqn.value, nsids);
        if rows.Err? then Err(rows.error) else Found(st.namespaces[get.name].nsid as int in rows.value)
  }

  function GetVirtioBlk(st: State, get: GetRequest, rows: Option<seq<ControllerRow>>): Reply<()> {
    var found := Fetch(st, VirtioKind, get, true);
    if found.Err? then Err(found.error)
    else if rows.None? then Err(RpcError)
    else Found(ListsDevice(rows.value, Base(get.name)))
  }

  function NamespaceStats(st: State, get: GetRequest, env: Env, stats: Option<seq<ControllerStats>>): Reply<()> {
    var found := Fetch(st, NamespaceKind, get, env.get);
    if found.Err? then Err(found.error)
    else if stats.None? then Err(RpcError)
    else Found(ListsBdev(stats.value, st.namespaces[get.name].volume))
  }

  /** Searches for the requested name itself; nothing stored is looked at. */
  function VirtioStats(get: GetRequest, stats: Option<seq<ControllerStats>>): Reply<()> {
    if !get.checked then Err(Invalid)
    else if stats.None? then Err(RpcError)
    else Found(ListsBdev(stats.value, get.name))
  }

  function NoStats(get: GetRequest): Reply<()> {
    Err(if get.checked then Unimplemented else Invalid)
  }

  /** An update never succeeds: a missing record is an error even where missing is allowed. */
  function Update(st: State, kind: Kind, req: UpdateRequest, env: Env): Reply<()> {
    var found := Fetch(st, kind, GetRequest(req.checked, req.name), env.get || kind.VirtioKind?);
    if found.Err? then Err(found.error)
    else if !req.maskValid then Err(Invalid)
    else Err(Unimplemented)
  }

  // ---------------------------------------------------------------- one query

  /** The state a query leaves, and whether and why it fails. */
  function Ask(st: State, q: Query): (State, Reply<()>) {
    match q
    case ListsSubsystems(req, rows, uuid) =>
      var (s, page) := Turn(st, req, Answered(rows), uuid); (s, page.Map(_ => ()))
    case ListsControllers(req, env, rows, uuid) =>
      var (s, page) := Turn(st, req, ControllerRows(st, req, env, rows), uuid); (s, ControllerOutcome(st, req, page))
    case ListsNamespaces(req, env, nsids, uuid) =>
      var (s, page) := Turn(st, req, NamespaceRows(st, req, env, nsids), uuid); (s, page.Map(_ => ()))
    case ListsVirtioBlks(req, rows, uuid) =>
      var (s, page) := Turn(st, req, Answered(rows), uuid); (s, page.Map(_ => ()))
    case GetsSubsystem(get, env, rows) => (st, GetSubsystem(st, get, env, rows))
    case GetsController(get, env, rows) => (st, GetController(st, get, env, rows))
    case GetsNamespace(get, env, nsids) => (st, GetNamespace(st, get, env, nsids))
    case GetsVirtioBlk(get, rows) => (st, GetVirtioBlk(st, get, rows))
    case AsksSubsystemStats(get) => (st, NoStats(get))
    case AsksControllerStats(get) => (st, NoStats(get))
    case AsksNamespaceStats(get, env, stats) => (st, NamespaceStats(st, get, env, stats))
    case AsksVirtioStats(get, stats) => (st, VirtioStats(get, stats))
    case Updates(kind, req, env) => (st, Update(st, kind, req, env))
  }
}
