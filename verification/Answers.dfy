/**
 When each Get, List, Stats and Update call answers, and when it fails, told by the fields of its
 request, the stored records and the target's rows.
 */
module Answers {
  import opened Common
  import opened Names
  import opened Target
  import opened Records
  import opened Paging
  import opened Listing
  import opened Queries

  // ---------------------------------------------------------------- pages

  /** The request is in order, and its token is known. */
  predicate PageIsAsked(st: State, req: ListRequest) {
    req.checked && req.pageSize >= 0 && (req.pageToken == "" || req.pageToken in st.pagination)
  }

  /** The rows from the token's offset on, as many as asked for, and a token for the rest iff there is one. */
  lemma TurnAnswers<R>(st: State, req: ListRequest, rows: Reply<seq<R>>, uuid: string)
    ensures var (st', page) := Turn(st, req, rows, uuid);
            && (page.Ok? <==> PageIsAsked(st, req) && rows.Ok?)
            && (page.Ok? ==>
                  var size := if req.pageSize == 0 then st.defaultPageSize else req.pageSize;
                  var offset := if req.pageToken == "" then 0 else st.pagination[req.pageToken];
                  && (forall i :: 0 <= i < |page.value| ==> offset + i < |rows.value| && page.value[i] == rows.value[offset + i])
                  && |page.value| == (if offset + size <= |rows.value| then size
                                      else if offset <= |rows.value| then |rows.value| - offset else 0)
                  && st' == if offset + size < |rows.value|
                            then st.(pagination := st.pagination[uuid := offset + size]) else st)
            && (page.Err? ==>
                  && st' == st
                  && page.error == if !req.checked || req.pageSize < 0 then Invalid
                                   else if !PageIsAsked(st, req) then NotFound(req.pageToken) else rows.error)
  {
  }

  lemma ListSubsystemsAnswers(st: State, req: ListRequest, rows: Option<seq<SubsystemRow>>, uuid: string)
    ensures Ask(st, ListsSubsystems(req, rows, uuid)).1.Ok? <==> PageIsAsked(st, req) && rows.Some?
    ensures Ask(st, ListsSubsystems(req, rows, uuid)).1 == Err(RpcError) <==> PageIsAsked(st, req) && rows.None?
  {
  }

  lemma ListVirtioBlksAnswers(st: State, req: ListRequest, rows: Option<seq<ControllerRow>>, uuid: string)
    ensures Ask(st, ListsVirtioBlks(req, rows, uuid)).1.Ok? <==> PageIsAsked(st, req) && rows.Some?
    ensures Ask(st, ListsVirtioBlks(req, rows, uuid)).1 == Err(RpcError) <==> PageIsAsked(st, req) && rows.None?
  {
  }

  /** The target is asked for the rows under the NQN of the stored parent. */
  lemma ListNamespacesAnswers(st: State, req: ListRequest, env: Env, nsids: map<string, seq<int>>, uuid: string)
    ensures var (st', reply) := Ask(st, ListsNamespaces(req, env, nsids, uuid));
            var stored := PageIsAsked(st, req) && env.get && req.parent in st.subsystems;
            && (reply.Ok? <==> stored && st.subsystems[req.parent].nqn in nsids)
            && (reply.Ok? ==> NamespaceRows(st, req, env, nsids) == Ok(nsids[st.subsystems[req.parent].nqn]))
            && (reply == Err(RpcError) <==> stored && st.subsystems[req.parent].nqn !in nsids)
            && (reply == Err(StoreError) <==> PageIsAsked(st, req) && !env.get)
  {
  }

  /** A page of two rows or more with one that is not the subsystem's is a panic, not a list. */
  lemma ListControllersAnswers(st: State, req: ListRequest, env: Env, rows: Option<seq<ControllerRow>>, uuid: string)
    ensures var (st', reply) := Ask(st, ListsControllers(req, env, rows, uuid));
            var stored := PageIsAsked(st, req) && env.get && req.parent in st.subsystems;
            var page := Turn(st, req, Answered(rows), uuid).1;
            && (reply.Ok? || reply == Err(NilDereference) <==> stored && rows.Some?)
            && (reply == Err(NilDereference) <==>
                  && stored && rows.Some? && page.Ok? && |page.value| > 1
                  && exists r :: r in page.value && !(r.subnqn == st.subsystems[req.parent].nqn && r.kind == "nvme"))
            && (reply == Err(RpcError) <==> stored && rows.None?)
            && (reply == Err(StoreError) <==> PageIsAsked(st, req) && !env.get)
            && (stored && rows.Some? ==> st' == Turn(st, req, Answered(rows), uuid).0)
  {
  }

  // ---------------------------------------------------------------- single records

  lemma GetSubsystemAnswers(st: State, get: GetRequest, env: Env, rows: Option<seq<SubsystemRow>>)
    ensures var reply := Ask(st, GetsSubsystem(get, env, rows)).1;
            var stored := get.checked && env.get && get.name in st.subsystems;
            && (reply.Ok? <==>
                  stored && rows.Some? && exists r :: r in rows.value && r.nqn == st.subsystems[get.name].nqn)
            && (reply == Err(NotListed) <==>
                  stored && rows.Some? && forall r :: r in rows.value ==> r.nqn != st.subsystems[get.name].nqn)
            && (reply == Err(NotFound(get.name)) <==> get.checked && env.get && get.name !in st.subsystems)
            && (reply == Err(RpcError) <==> stored && rows.None?)
            && (reply == Err(StoreError) <==> get.checked && !env.get)
  {
  }

  lemma GetControllerAnswers(st: State, get: GetRequest, env: Env, rows: Option<seq<ControllerRow>>)
    ensures var reply := Ask(st, GetsController(get, env, rows)).1;
            var stored := get.checked && env.get && get.name in st.controllers;
            && (reply.Ok? <==>
                  && stored && rows.Some?
                  && exists r :: r in rows.value && r.cntlid == st.controllers[get.name].cntlid && r.kind == "nvme")
            && (reply == Err(NotListed) <==>
                  && stored && rows.Some?
                  && forall r :: r in rows.value && r.kind == "nvme" ==> r.cntlid != st.controllers[get.name].cntlid)
            && (reply == Err(NotFound(get.name)) <==> get.checked && env.get && get.name !in st.controllers)
            && (reply == Err(RpcError) <==> stored && rows.None?)
            && (reply == Err(StoreError) <==> get.checked && !env.get)
  {
  }

  lemma GetNamespaceAnswers(st: State, get: GetRequest, env: Env, nsids: map<string, seq<int>>)
    ensures var reply := Ask(st, GetsNamespace(get, env, nsids)).1;
            var parent := "nvmeSubsystems/" + GetSubsystemId(get.name);
            var stored := get.checked && env.get && get.name in st.namespaces && env.getParent;
            var asks := stored && parent in st.subsystems;
            && (reply.Ok? <==>
                  && asks && st.subsystems[parent].nqn in nsids
                  && st.namespaces[get.name].nsid as int in nsids[st.subsystems[parent].nqn])
            && (reply == Err(NotListed) <==>
                  && asks && st.subsystems[parent].nqn in nsids
                  && st.namespaces[get.name].nsid as int !in nsids[st.subsystems[parent].nqn])
            && (reply == Err(RpcError) <==> asks && st.subsystems[parent].nqn !in nsids)
            && (reply.Err? && reply.error.NotFound? <==>
                  && get.checked && env.get
                  && (get.name !in st.namespaces || (env.getParent && parent !in st.subsystems)))
            && (reply == Err(StoreError) <==>
                  get.checked && (!env.get || (get.name in st.namespaces && !env.getParent)))
  {
    NamesSpelled(GetSubsystemId(get.name), "");
  }

  lemma GetVirtioBlkAnswers(st: State, get: GetRequest, rows: Option<seq<ControllerRow>>)
    ensures var reply := Ask(st, GetsVirtioBlk(get, rows)).1;
            var held := get.checked && get.name in st.virtioCtrls;
            && (reply.Ok? <==>
                  && held && rows.Some?
                  && exists r :: r in rows.value && r.name == Base(get.name) && r.kind == "virtio_blk")
            && (reply == Err(NotListed) <==>
                  && held && rows.Some?
                  && forall r :: r in rows.value && r.kind == "virtio_blk" ==> r.name != Base(get.name))
            && (reply == Err(NotFound(get.name)) <==> get.checked && get.name !in st.virtioCtrls)
            && (reply == Err(RpcError) <==> held && rows.None?)
  {
  }

  // ---------------------------------------------------------------- statistics and updates

  /** Some controller has a row of that block device. */
  predicate HasRowOf(stats: seq<ControllerStats>, bdev: string) {
    exists i, k | 0 <= i < |stats| && 0 <= k < |stats[i].bdevs| :: stats[i].bdevs[k].bdevName == bdev
  }

  lemma ListsBdevIff(stats: seq<ControllerStats>, bdev: string)
    ensures ListsBdev(stats, bdev) <==> HasRowOf(stats, bdev)
  {
    if HasRowOf(stats, bdev) {
      var i, k :| 0 <= i < |stats| && 0 <= k < |stats[i].bdevs| && stats[i].bdevs[k].bdevName == bdev;
      assert stats[i] in stats && stats[i].bdevs[k] in stats[i].bdevs;
    }
  }

  lemma NamespaceStatsAnswers(st: State, get: GetRequest, env: Env, stats: Option<seq<ControllerStats>>)
    ensures var reply := Ask(st, AsksNamespaceStats(get, env, stats)).1;
            var stored := get.checked && env.get && get.name in st.namespaces;
            && (reply.Ok? <==> stored && stats.Some? && HasRowOf(stats.value, st.namespaces[get.name].volume))
            && (reply == Err(NotListed) <==>
                  stored && stats.Some? && !HasRowOf(stats.value, st.namespaces[get.name].volume))
            && (reply == Err(NotFound(get.name)) <==> get.checked && env.get && get.name !in st.namespaces)
            && (reply == Err(RpcError) <==> stored && stats.None?)
            && (reply == Err(StoreError) <==> get.checked && !env.get)
  {
    if stats.Some? && get.name in st.namespaces { ListsBdevIff(stats.value, st.namespaces[get.name].volume); }
  }

  /** The requested name is looked for as it is, held or not. */
  lemma VirtioStatsAnswers(st: State, get: GetRequest, stats: Option<seq<ControllerStats>>)
    ensures var reply := Ask(st, AsksVirtioStats(get, stats)).1;
            && (reply.Ok? <==> get.checked && stats.Some? && HasRowOf(stats.value, get.name))
            && (reply == Err(NotListed) <==> get.checked && stats.Some? && !HasRowOf(stats.value, get.name))
            && (reply == Err(RpcError) <==> get.checked && stats.None?)
  {
    if stats.Some? { ListsBdevIff(stats.value, get.name); }
  }

  lemma OtherStatsAnswer(st: State, get: GetRequest)
    ensures Ask(st, AsksSubsystemStats(get)).1 == Ask(st, AsksControllerStats(get)).1
    ensures Ask(st, AsksSubsystemStats(get)).1 == Err(if get.checked then Unimplemented else Invalid)
  {
  }

  predicate IsHeld(st: State, kind: Kind, name: string) {
    match kind
    case SubsystemKind => name in st.subsystems
    case ControllerKind => name in st.controllers
    case NamespaceKind => name in st.namespaces
    case VirtioKind => name in st.virtioCtrls
  }

  /** No update succeeds, and a missing record is an error whether or not missing is allowed. */
  lemma UpdateAnswers(st: State, kind: Kind, req: UpdateRequest, env: Env)
    ensures var (st', reply) := Ask(st, Updates(kind, req, env));
            var read := req.checked && (kind.VirtioKind? || env.get);
            && st' == st && reply.Err?
            && (reply.error == Unimplemented <==> read && IsHeld(st, kind, req.name) && req.maskValid)
            && (reply.error == Invalid <==> !req.checked || (read && IsHeld(st, kind, req.name) && !req.maskValid))
            && (reply.error == NotFound(req.name) <==> read && !IsHeld(st, kind, req.name))
            && (reply.error == StoreError <==> req.checked && !read)
  {
  }
}
