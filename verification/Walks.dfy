/**
 Walks over the real handlers: List is called again and again with the token that the previous call
 recorded, until no rows follow. As no reply carries its token, the walker is told the tokens drawn.
 */
module Walks {
  import opened Common
  import opened Target
  import opened Records
  import opened Paging
  import opened Listing
  import opened Queries
  import opened Frontend

  /** Where the page of a token starts. */
  function Start(pages: Pages, token: string): nat
    requires token != "" ==> token in pages
  {
    if token == "" then 0 else pages[token]
  }

  // ---------------------------------------------------------------- one call

  /** The call fetches the page from offset on: it can be the first of a walk. */
  ghost predicate VisitsPage<R, T>(
      visit: Visit<T>, token: string, offset: nat, pageSize: nat, rows: seq<R>,
      default: PageSize, pick: R -> Option<T>, less: (T, T) -> bool)
  {
    var size := EffectiveSize(pageSize, default);
    && ExtractPagination(pageSize, token, visit.before, default) == Ok((size, offset))
    && Shows(rows, offset, size, visit.uuid, visit.before, visit.after, visit.reply, pick, less)
  }

  /** What a successful List call does makes it a visit of a walk. */
  lemma IsVisit<R, T>(st: State, st': State, req: ListRequest, rows: seq<R>, uuid: string,
                      reply: Reply<seq<T>>, pick: R -> Option<T>, less: (T, T) -> bool)
    requires req.checked && req.pageSize >= 0 && (req.pageToken != "" ==> req.pageToken in st.pagination)
    requires var (next, page) := Turn(st, req, Ok(rows), uuid);
             next == st' && reply.Ok? && (page.Ok? ==> Rendered(page.value, reply.value, pick, less))
    ensures VisitsPage(Visit(st.pagination, st'.pagination, uuid, reply), req.pageToken,
              Start(st.pagination, req.pageToken), req.pageSize, rows, st.defaultPageSize, pick, less)
  {
  }

  method VisitSubsystems(server: Server, token: string, pageSize: nat, rows: seq<SubsystemRow>, uuid: string)
    returns (visit: Visit<Subsystem>)
    requires server.Valid() && (token != "" ==> token in server.pagination)
    modifies server`pagination
    ensures visit.before == old(server.pagination) && visit.after == server.pagination && visit.uuid == uuid
    ensures VisitsPage(visit, token, old(Start(server.pagination, token)), pageSize, rows,
              server.defaultPageSize, PickSubsystem, LessNqn)
  {
    var before, req := server.pagination, ListRequest(true, "", pageSize, token);
    ghost var st := server.Abs();
    var reply := server.ListNvmeSubsystems(req, Some(rows), uuid);
    IsVisit(st, server.Abs(), req, rows, uuid, reply, PickSubsystem, LessNqn);
    visit := Visit(before, server.pagination, uuid, reply);
  }

  method VisitNamespaces(server: Server, token: string, pageSize: nat, parent: string, env: Env,
                         nsids: map<string, seq<int>>, rows: seq<int>, uuid: string)
    returns (visit: Visit<Namespace>)
    requires server.Valid() && (token != "" ==> token in server.pagination)
    requires env.get && parent in server.subsystems.data && NsidsOf(server.subsystems.data[parent].nqn, nsids) == Ok(rows)
    modifies server`pagination
    ensures visit.before == old(server.pagination) && visit.after == server.pagination && visit.uuid == uuid
    ensures VisitsPage(visit, token, old(Start(server.pagination, token)), pageSize, rows,
              server.defaultPageSize, PickNamespace, LessNsid)
  {
    var before, req := server.pagination, ListRequest(true, parent, pageSize, token);
    ghost var st := server.Abs();
    var reply := server.ListNvmeNamespaces(req, env, nsids, uuid);
    IsVisit(st, server.Abs(), req, rows, uuid, reply, PickNamespace, LessNsid);
    visit := Visit(before, server.pagination, uuid, reply);
  }

  method VisitVirtioBlks(server: Server, token: string, pageSize: nat, rows: seq<ControllerRow>, uuid: string)
    returns (visit: Visit<VirtioBlk>)
    requires server.Valid() && (token != "" ==> token in server.pagination)
    modifies server`pagination
    ensures visit.before == old(server.pagination) && visit.after == server.pagination && visit.uuid == uuid
    ensures VisitsPage(visit, token, old(Start(server.pagination, token)), pageSize, rows,
              server.defaultPageSize, PickVirtio, LessName)
  {
    var before, req := server.pagination, ListRequest(true, "", pageSize, token);
    ghost var st := server.Abs();
    var reply := server.ListVirtioBlks(req, Some(rows), uuid);
    IsVisit(st, server.Abs(), req, rows, uuid, reply, PickVirtio, LessName);
    visit := Visit(before, server.pagination, uuid, reply);
  }

  // ---------------------------------------------------------------- to the last page

  method WalkSubsystems(server: Server, token: string, pageSize: nat, rows: seq<SubsystemRow>, uuids: nat -> string)
    returns (visits: Visits<Subsystem>)
    requires server.Valid() && (token != "" ==> token in server.pagination) && forall n :: uuids(n) != ""
    modifies server`pagination
    ensures Walk(visits, token, old(Start(server.pagination, token)), true, pageSize, rows,
              server.defaultPageSize, PickSubsystem, LessNqn)
    ensures visits.visit.before == old(server.pagination)
    decreases |rows| - Start(server.pagination, token)
  {
    var offset, size := Start(server.pagination, token), EffectiveSize(pageSize, server.defaultPageSize);
    var visit := VisitSubsystems(server, token, pageSize, rows, uuids(offset));
    if HasMore(rows, offset, size) {
      assert Start(server.pagination, uuids(offset)) == offset + size;
      var rest := WalkSubsystems(server, uuids(offset), pageSize, rows, uuids);
      visits := Then(visit, rest);
    } else {
      visits := Last(visit);
    }
  }

  method WalkNamespaces(server: Server, token: string, pageSize: nat, parent: string, env: Env,
                        nsids: map<string, seq<int>>, rows: seq<int>, uuids: nat -> string)
    returns (visits: Visits<Namespace>)
    requires server.Valid() && (token != "" ==> token in server.pagination) && forall n :: uuids(n) != ""
    requires env.get && parent in server.subsystems.data && NsidsOf(server.subsystems.data[parent].nqn, nsids) == Ok(rows)
    modifies server`pagination
    ensures Walk(visits, token, old(Start(server.pagination, token)), true, pageSize, rows,
              server.defaultPageSize, PickNamespace, LessNsid)
    ensures visits.visit.before == old(server.pagination)
    decreases |rows| - Start(server.pagination, token)
  {
    var offset, size := Start(server.pagination, token), EffectiveSize(pageSize, server.defaultPageSize);
    var visit := VisitNamespaces(server, token, pageSize, parent, env, nsids, rows, uuids(offset));
    if HasMore(rows, offset, size) {
      assert Start(server.pagination, uuids(offset)) == offset + size;
      var rest := WalkNamespaces(server, uuids(offset), pageSize, parent, env, nsids, rows, uuids);
      visits := Then(visit, rest);
    } else {
      visits := Last(visit);
    }
  }

  method WalkVirtioBlks(server: Server, token: string, pageSize: nat, rows: seq<ControllerRow>, uuids: nat -> string)
    returns (visits: Visits<VirtioBlk>)
    requires server.Valid() && (token != "" ==> token in server.pagination) && forall n :: uuids(n) != ""
    modifies server`pagination
    ensures Walk(visits, token, old(Start(server.pagination, token)), true, pageSize, rows,
              server.defaultPageSize, PickVirtio, LessName)
    ensures visits.visit.before == old(server.pagination)
    decreases |rows| - Start(server.pagination, token)
  {
    var offset, size := Start(server.pagination, token), EffectiveSize(pageSize, server.defaultPageSize);
    var visit := VisitVirtioBlks(server, token, pageSize, rows, uuids(offset));
    if HasMore(rows, offset, size) {
      assert Start(server.pagination, uuids(offset)) == offset + size;
      var rest := WalkVirtioBlks(server, uuids(offset), pageSize, rows, uuids);
      visits := Then(visit, rest);
    } else {
      visits := Last(visit);
    }
  }

  // ---------------------------------------------------------------- whole listings

  /** From any state of the server: at most one call a row, each page sorted, and every row shown once. */
  method ShowSubsystems(server: Server, pageSize: nat, rows: seq<SubsystemRow>, uuids: nat -> string)
    returns (visits: Visits<Subsystem>)
    requires server.Valid() && forall n :: uuids(n) != ""
    modifies server`pagination
    ensures Calls(visits) == 1 || Calls(visits) <= |rows|
    ensures AllSorted(visits, LessNqn) && DepictsSubsystems(rows, Shown(visits))
  {
    visits := WalkSubsystems(server, "", pageSize, rows, uuids);
    WalkEnds(visits, "", 0, true, pageSize, rows, server.defaultPageSize, PickSubsystem, LessNqn);
    WalkIsSorted(visits, "", 0, true, pageSize, rows, server.defaultPageSize, PickSubsystem, LessNqn);
    SubsystemWalk(visits, pageSize, rows, server.defaultPageSize);
  }

  /** Likewise for virtio devices, of which the pages hold all and nothing else. */
  method ShowVirtioBlks(server: Server, pageSize: nat, rows: seq<ControllerRow>, uuids: nat -> string)
    returns (visits: Visits<VirtioBlk>)
    requires server.Valid() && forall n :: uuids(n) != ""
    modifies server`pagination
    ensures Calls(visits) == 1 || Calls(visits) <= |rows|
    ensures AllSorted(visits, LessName) && DepictsVirtioBlks(rows, Shown(visits))
  {
    visits := WalkVirtioBlks(server, "", pageSize, rows, uuids);
    WalkEnds(visits, "", 0, true, pageSize, rows, server.defaultPageSize, PickVirtio, LessName);
    WalkIsSorted(visits, "", 0, true, pageSize, rows, server.defaultPageSize, PickVirtio, LessName);
    VirtioWalk(visits, pageSize, rows, server.defaultPageSize);
  }
}
