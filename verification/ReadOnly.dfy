/**
 Calls that only ask can be dropped from a run. The run with them and the run without them walk
 through states that differ in their page tokens alone, which no create or delete reads.
 */
module ReadOnly {
  import opened Common
  import opened Target
  import opened Records
  import opened Paging
  import opened Queries
  import opened Protocol
  import opened Lifecycle

  // ---------------------------------------------------------------- no create or delete reads a token

  lemma CreateSubsystemIsBlind(st: State, pages: Pages, req: CreateSubsystemRequest, env: Env)
    ensures var (st', reply) := CreateSubsystem(st, req, env);
            CreateSubsystem(st.(pagination := pages), req, env) == (st'.(pagination := pages), reply)
  {
  }

  lemma DeleteSubsystemIsBlind(st: State, pages: Pages, req: DeleteRequest, env: Env)
    ensures var (st', reply) := DeleteSubsystem(st, req, env);
            DeleteSubsystem(st.(pagination := pages), req, env) == (st'.(pagination := pages), reply)
  {
  }

  lemma CreateControllerIsBlind(st: State, pages: Pages, req: CreateControllerRequest, env: Env)
    ensures var (st', reply) := CreateController(st, req, env);
            CreateController(st.(pagination := pages), req, env) == (st'.(pagination := pages), reply)
  {
  }

  lemma DeleteControllerIsBlind(st: State, pages: Pages, req: DeleteRequest, env: Env)
    ensures var (st', reply) := DeleteController(st, req, env);
            DeleteController(st.(pagination := pages), req, env) == (st'.(pagination := pages), reply)
  {
  }

  lemma CreateNamespaceIsBlind(st: State, pages: Pages, req: CreateNamespaceRequest, env: Env)
    ensures var (st', reply) := CreateNamespace(st, req, env);
            CreateNamespace(st.(pagination := pages), req, env) == (st'.(pagination := pages), reply)
  {
  }

  lemma DeleteNamespaceIsBlind(st: State, pages: Pages, req: DeleteRequest, env: Env)
    ensures var (st', reply) := DeleteNamespace(st, req, env);
            DeleteNamespace(st.(pagination := pages), req, env) == (st'.(pagination := pages), reply)
  {
  }

  lemma CreateVirtioIsBlind(st: State, pages: Pages, req: CreateVirtioRequest, env: Env)
    ensures var (st', reply) := CreateVirtio(st, req, env);
            CreateVirtio(st.(pagination := pages), req, env) == (st'.(pagination := pages), reply)
  {
  }

  lemma DeleteVirtioIsBlind(st: State, pages: Pages, req: DeleteRequest, env: Env)
    ensures var (st', reply) := DeleteVirtio(st, req, env);
            DeleteVirtio(st.(pagination := pages), req, env) == (st'.(pagination := pages), reply)
  {
  }

  lemma CreatesAreBlind(st: State, pages: Pages, e: Event)
    requires IsCreate(e)
    ensures var (st', reply) := Handle(st, e);
            Handle(st.(pagination := pages), e) == (st'.(pagination := pages), reply)
  {
    match e
    case CreatesSubsystem(req, env) => CreateSubsystemIsBlind(st, pages, req, env);
    case CreatesController(req, env) => CreateControllerIsBlind(st, pages, req, env);
    case CreatesNamespace(req, env) => CreateNamespaceIsBlind(st, pages, req, env);
    case CreatesVirtio(req, env) => CreateVirtioIsBlind(st, pages, req, env);
  }

  lemma DeletesAreBlind(st: State, pages: Pages, e: Event)
    requires IsDelete(e)
    ensures var (st', reply) := Handle(st, e);
            Handle(st.(pagination := pages), e) == (st'.(pagination := pages), reply)
  {
    match e
    case DeletesSubsystem(req, env) => DeleteSubsystemIsBlind(st, pages, req, env);
    case DeletesController(req, env) => DeleteControllerIsBlind(st, pages, req, env);
    case DeletesNamespace(req, env) => DeleteNamespaceIsBlind(st, pages, req, env);
    case DeletesVirtio(req, env) => DeleteVirtioIsBlind(st, pages, req, env);
  }

  lemma HandleIsBlind(st: State, st': State, e: Event)
    requires SameButTokens(st, st') && !e.Asks?
    ensures SameButTokens(Step(st, e), Step(st', e)) && Handle(st, e).1 == Handle(st', e).1
  {
    if IsCreate(e) {
      CreatesAreBlind(st, st'.pagination, e);
    } else if IsDelete(e) {
      DeletesAreBlind(st, st'.pagination, e);
    }
  }

  function WithoutQueries(events: seq<Event>): seq<Event> {
    if events == [] then []
    else if events[0].Asks? then WithoutQueries(events[1..])
    else [events[0]] + WithoutQueries(events[1..])
  }

  /** What the creates and deletes of a run reply, in order. */
  function Replies(st: State, events: seq<Event>): seq<Reply<Record>>
    decreases |events|
  {
    if events == [] then []
    else if events[0].Asks? then Replies(Step(st, events[0]), events[1..])
    else [Handle(st, events[0]).1] + Replies(Step(st, events[0]), events[1..])
  }

  /**
   Erasing every Get, List, Stats and Update call from a run, under all faults and restarts, leaves
   the same store, index, virtio map, target and log of remote calls that write, and every create
   and delete gets the same reply. The two runs may start and end with different page tokens.
   */
  lemma {:induction false} QueriesErase(st: State, st': State, events: seq<Event>)
    requires SameButTokens(st, st')
    ensures SameButTokens(Run(st, events), Run(st', WithoutQueries(events)))
    ensures Replies(st, events) == Replies(st', WithoutQueries(events))
    decreases |events|
  {
    if events != [] {
      var e, rest := events[0], events[1..];
      if e.Asks? {
        AskEffect(st, e.query);
        QueriesErase(Step(st, e), st', rest);
      } else {
        HandleIsBlind(st, st', e);
        QueriesErase(Step(st, e), Step(st', e), rest);
        assert WithoutQueries(events)[1..] == WithoutQueries(rest);
      }
    }
  }

  // ---------------------------------------------------------------- page tokens

  /** The event neither loses the tokens nor draws this one again. */
  predicate SparesToken(e: Event, token: string) {
    && !e.Restarts?
    && (e.Asks? ==>
          match e.query
          case ListsSubsystems(_, _, uuid) => uuid != token
          case ListsControllers(_, _, _, uuid) => uuid != token
          case ListsNamespaces(_, _, _, uuid) => uuid != token
          case ListsVirtioBlks(_, _, uuid) => uuid != token
          case _ => true)
  }

  lemma TurnSparesToken<R>(st: State, req: ListRequest, rows: Reply<seq<R>>, uuid: string, token: string)
    requires token in st.pagination && uuid != token
    ensures var pages := Turn(st, req, rows, uuid).0.pagination;
            token in pages && pages[token] == st.pagination[token]
  {
  }

  lemma AskSparesToken(st: State, q: Query, token: string)
    requires token in st.pagination && SparesToken(Asks(q), token)
    ensures var pages := Ask(st, q).0.pagination;
            token in pages && pages[token] == st.pagination[token]
  {
    match q
    case ListsSubsystems(req, rows, uuid) => TurnSparesToken(st, req, Answered(rows), uuid, token);
    case ListsControllers(req, env, rows, uuid) =>
      TurnSparesToken(st, req, ControllerRows(st, req, env, rows), uuid, token);
    case ListsNamespaces(req, env, nsids, uuid) =>
      TurnSparesToken(st, req, NamespaceRows(st, req, env, nsids), uuid, token);
    case ListsVirtioBlks(req, rows, uuid) => TurnSparesToken(st, req, Answered(rows), uuid, token);
    case _ =>
  }

  lemma CreatesKeepTokens(st: State, e: Event)
    requires IsCreate(e)
    ensures Step(st, e).pagination == st.pagination
  {
    match e
    case CreatesSubsystem(req, env) => CreateSubsystemEffect(st, req, env);
    case CreatesController(req, env) => CreateControllerEffect(st, req, env);
    case CreatesNamespace(req, env) => CreateNamespaceEffect(st, req, env);
    case CreatesVirtio(req, env) => CreateVirtioEffect(st, req, env);
  }

  lemma DeletesKeepTokens(st: State, e: Event)
    requires IsDelete(e)
    ensures Step(st, e).pagination == st.pagination
  {
  }

  /** A token goes on standing for the same offset, through every call of any kind, until a restart. */
  lemma {:induction false} TokenLasts(st: State, events: seq<Event>, token: string)
    requires token in st.pagination && forall i :: 0 <= i < |events| ==> SparesToken(events[i], token)
    ensures token in Run(st, events).pagination
    ensures Run(st, events).pagination[token] == st.pagination[token]
    decreases |events|
  {
    if events != [] {
      var e := events[0];
      if IsCreate(e) {
        CreatesKeepTokens(st, e);
      } else if IsDelete(e) {
        DeletesKeepTokens(st, e);
      } else {
        AskSparesToken(st, e.query, token);
      }
      TokenLasts(Step(st, e), events[1..], token);
    }
  }
}
