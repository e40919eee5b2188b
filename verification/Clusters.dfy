/**
  The cluster session manager (internal/cluster/manager.go) and the handlers that move
  panes between clusters (internal/app/commands.go, internal/app/app.go,
  internal/app/panefooters.go).

  A cluster belongs to a context. Panes name contexts; dials and heartbeats are in flight.
  AppState is the state of one process, and a specification function gives what each
  handler does to it. World adds what is in flight, and Step lets any event happen next.
 */
module Clusters {

  datatype Kind = Resource | Terminal

  datatype Pane = Pane(kind: Kind, ctx: string)

  /** `connected` is the presence of a client, not the latest health result. */
  datatype Cluster = Cluster(connected: bool, refCount: int)

  datatype AppState = AppState(
    panes: seq<Pane>, focus: nat,
    clusters: map<string, Cluster>, pinned: set<string>, startup: string)

  /** What a handler asks the runtime to do in the background. */
  datatype Cmd = Dial(ctx: string) | Heartbeat(ctx: string)

  // ---- counting panes ----

  function Count(panes: seq<Pane>, ctx: string): nat {
    if panes == [] then 0
    else Count(panes[..|panes| - 1], ctx) + if panes[|panes| - 1].ctx == ctx then 1 else 0
  }

  lemma {:induction false} CountZero(panes: seq<Pane>, ctx: string)
    ensures Count(panes, ctx) == 0 <==> forall i :: 0 <= i < |panes| ==> panes[i].ctx != ctx
    decreases |panes|
  {
    if panes != [] {
      CountZero(panes[..|panes| - 1], ctx);
    }
  }

  /** The map that distinctPaneContexts returns: the contexts of the panes, counted. */
  ghost predicate IsPaneCount(counts: map<string, int>, panes: seq<Pane>) {
    && (forall ctx :: ctx in counts <==> ctx != "" && Count(panes, ctx) > 0)
    && (forall ctx :: ctx in counts ==> counts[ctx] == Count(panes, ctx))
  }

  method DistinctPaneContexts(panes: seq<Pane>) returns (counts: map<string, int>)
    ensures IsPaneCount(counts, panes)
  {
    counts := map[];
    var i := 0;
    while i < |panes|
      invariant 0 <= i <= |panes| && IsPaneCount(counts, panes[..i])
    {
      var ctx := panes[i].ctx;
      assert panes[..i + 1][..i] == panes[..i];
      if ctx != "" {
        counts := counts[ctx := (if ctx in counts then counts[ctx] else 0) + 1];
      }
      i := i + 1;
    }
    assert panes[..|panes|] == panes;
  }

  /** A pane's own context counts, even an empty one, which counts nowhere. */
  lemma EmptyContextCountsNowhere(counts: map<string, int>)
    requires IsPaneCount(counts, [Pane(Resource, "")])
    ensures counts == map[]
  {
    var panes := [Pane(Resource, "")];
    forall ctx ensures ctx !in counts {
      CountZero(panes, ctx);
    }
  }

  // ---- the manager ----

  function RefOf(counts: map<string, int>, ctx: string): int {
    if ctx in counts then counts[ctx] else 0
  }

  /** Pinned clusters stay as they are; any other one stays, with its count, while a pane
      refers to it. */
  function SyncedBy(
      clusters: map<string, Cluster>, pinned: set<string>, counts: map<string, int>): map<string, Cluster> {
    map ctx | ctx in clusters && (ctx in pinned || RefOf(counts, ctx) > 0) ::
      if ctx in pinned then clusters[ctx] else clusters[ctx].(refCount := RefOf(counts, ctx))
  }

  class Manager {
    var clusters: map<string, Cluster>
    var pinned: set<string>

    constructor ()
      ensures clusters == map[] && pinned == {}
    {
      clusters, pinned := map[], {};
    }

    /** Walks the clusters, deleting from the map it walks. */
    method SyncRefs(paneContexts: map<string, int>)
      modifies `clusters
      ensures clusters == SyncedBy(old(clusters), pinned, paneContexts)
    {
      ghost var before := clusters;
      var todo := clusters.Keys;
      while todo != {}
        invariant todo <= before.Keys
        invariant forall ctx :: ctx in todo ==> ctx in clusters && clusters[ctx] == before[ctx]
        invariant forall ctx :: ctx in before && ctx !in todo ==>
                    if ctx in pinned then ctx in clusters && clusters[ctx] == before[ctx]
                    else if RefOf(paneContexts, ctx) > 0 then
                      ctx in clusters && clusters[ctx] == before[ctx].(refCount := RefOf(paneContexts, ctx))
                    else ctx !in clusters
        invariant clusters.Keys <= before.Keys
        decreases todo
      {
        var ctx :| ctx in todo;
        todo := todo - {ctx};
        if ctx !in pinned {
          var n := RefOf(paneContexts, ctx);
          clusters := clusters[ctx := clusters[ctx].(refCount := n)];
          if n <= 0 {
            clusters := clusters - {ctx};
          }
        }
      }
    }

    /** A dialled client arrives. A cluster already there is kept, and a pinned context never
        accepts a client. */
    method RegisterConnected(ctx: string) returns (connected: bool, newly: bool)
      modifies `clusters
      ensures newly <==> ctx !in old(clusters) && ctx !in pinned
      ensures clusters == if newly then old(clusters)[ctx := Cluster(true, 0)] else old(clusters)
      ensures connected == if newly then true else ctx in old(clusters) && old(clusters)[ctx].connected
    {
      if ctx in clusters {
        return clusters[ctx].connected, false;
      }
      if ctx in pinned {
        return false, false;
      }
      clusters := clusters[ctx := Cluster(true, 0)];
      return true, true;
    }

    method RegisterPinned(ctx: string)
      modifies `clusters, `pinned
      ensures clusters == old(clusters)[ctx := Cluster(false, 0)] && pinned == old(pinned) + {ctx}
    {
      clusters := clusters[ctx := Cluster(false, 0)];
      pinned := pinned + {ctx};
    }

    /** Finds the cluster for `ctx` or dials one; a failed dial is not cached. `resolved` is
        the context the dialled client reports. */
    method GetOrCreate(ctx: string, dialOk: bool, resolved: string) returns (connected: bool)
      modifies `clusters
      ensures ctx in old(clusters) || ctx in pinned || !dialOk ==> clusters == old(clusters)
      ensures ctx !in old(clusters) && ctx !in pinned && dialOk ==>
                clusters == old(clusters)[(if ctx == "" then resolved else ctx) := Cluster(true, 0)]
      ensures connected == if ctx in old(clusters) then old(clusters)[ctx].connected else ctx !in pinned && dialOk
    {
      if ctx in clusters {
        return clusters[ctx].connected;
      }
      if ctx in pinned || !dialOk {
        return false;
      }
      clusters := clusters[(if ctx == "" then resolved else ctx) := Cluster(true, 0)];
      return true;
    }
  }

  // ---- what the handlers do ----

  predicate Live(s: AppState, ctx: string) { ctx in s.clusters && s.clusters[ctx].connected }

  /** The references to a context; the empty context never counts. */
  function Refs(panes: seq<Pane>, ctx: string): nat {
    if ctx == "" then 0 else Count(panes, ctx)
  }

  /** SyncRefs against the panes as they are. */
  function Synced(s: AppState): AppState {
    s.(clusters := map ctx | ctx in s.clusters && (ctx in s.pinned || Refs(s.panes, ctx) > 0) ::
         if ctx in s.pinned then s.clusters[ctx] else s.clusters[ctx].(refCount := Refs(s.panes, ctx)))
  }

  /** The context a resource action applies to: the focused resource pane's, or the one the
      program started with. */
  function FocusedContext(s: AppState): string {
    if s.focus < |s.panes| && s.panes[s.focus].kind.Resource? then s.panes[s.focus].ctx else s.startup
  }

  function Retargeted(panes: seq<Pane>, target: string, ctx: string): (r: seq<Pane>)
    ensures |r| == |panes|
    ensures forall i :: 0 <= i < |panes| ==>
              r[i] == if panes[i].kind.Resource? && panes[i].ctx == target then panes[i].(ctx := ctx) else panes[i]
  {
    seq(|panes|, i requires 0 <= i < |panes| =>
      if panes[i].kind.Resource? && panes[i].ctx == target then panes[i].(ctx := ctx) else panes[i])
  }

  /** Whether asking for `ctx` moves the focused pane: it must be a resource pane, and not
      already be on a context that is pinned or connected. */
  predicate PaneMoves(s: AppState, ctx: string) {
    && s.focus < |s.panes| && s.panes[s.focus].kind.Resource?
    && !(s.panes[s.focus].ctx == ctx && (ctx in s.pinned || Live(s, ctx)))
  }

  function PaneMoved(s: AppState, ctx: string): AppState
    requires s.focus < |s.panes|
  {
    s.(panes := s.panes[s.focus := s.panes[s.focus].(ctx := ctx)])
  }

  /** Moving the focused pane. A pinned context is never dialled. */
  function PaneSwitch(s: AppState, ctx: string): (AppState, seq<Cmd>) {
    if PaneMoves(s, ctx) then (Synced(PaneMoved(s, ctx)), if ctx in s.pinned then [] else [Dial(ctx)]) else (s, [])
  }

  predicate GroupMoves(s: AppState, ctx: string) {
    !(ctx == FocusedContext(s) && (ctx in s.pinned || Live(s, ctx)))
  }

  function GroupMoved(s: AppState, ctx: string): AppState {
    s.(panes := Retargeted(s.panes, FocusedContext(s), ctx))
  }

  /** Moving every resource pane on the focused pane's context. */
  function GroupSwitch(s: AppState, ctx: string): (AppState, seq<Cmd>) {
    if GroupMoves(s, ctx) then (Synced(GroupMoved(s, ctx)), if ctx in s.pinned then [] else [Dial(ctx)]) else (s, [])
  }

  /** A dial has ended. The heartbeat is armed by the client in hand, whether or not the
      cluster survived the reconciliation. */
  function Ready(s: AppState, ctx: string, ok: bool): (AppState, seq<Cmd>) {
    (Synced(Registered(s, ctx, ok)), if Newly(s, ctx, ok) then [Heartbeat(ctx)] else [])
  }

  predicate Newly(s: AppState, ctx: string, ok: bool) { ok && ctx !in s.clusters && ctx !in s.pinned }

  function Registered(s: AppState, ctx: string, ok: bool): AppState {
    if Newly(s, ctx, ok) then s.(clusters := s.clusters[ctx := Cluster(true, 0)]) else s
  }

  function Without(panes: seq<Pane>, i: nat): seq<Pane>
    requires i < |panes|
  {
    panes[..i] + panes[i + 1..]
  }

  /** Removing pane `i`; the last pane is never removed. */
  function Removed(s: AppState, i: nat): AppState
    requires i < |s.panes|
  {
    if |s.panes| <= 1 then s
    else s.(panes := Without(s.panes, i), focus := if i >= |s.panes| - 1 then |s.panes| - 2 else i)
  }

  /** A new pane goes after the focused one and takes the focus. */
  function Inserted(s: AppState, pane: Pane): AppState {
    var at := if s.focus < |s.panes| then s.focus + 1 else |s.panes|;
    s.(panes := s.panes[..at] + [pane] + s.panes[at..], focus := at)
  }

  predicate Closes(s: AppState) { s.focus < |s.panes| && |s.panes| > 1 }

  function CloseFocused(s: AppState): AppState {
    if Closes(s) then Synced(Removed(s, s.focus)) else s
  }

  /** A heartbeat result re-arms one heartbeat, for the cluster that ticked, while it is
      there. */
  function Tick(s: AppState, ctx: string): seq<Cmd> {
    var tickCtx := if ctx == "" then FocusedContext(s) else ctx;
    if Live(s, tickCtx) then [Heartbeat(tickCtx)] else []
  }

  class App {
    const mgr: Manager
    const startup: string
    var panes: seq<Pane>
    var focus: nat

    ghost function State(): AppState
      reads this, mgr
    {
      AppState(panes, focus, mgr.clusters, mgr.pinned, startup)
    }

    constructor (mgr: Manager, startup: string, panes: seq<Pane>, focus: nat)
      ensures State() == AppState(panes, focus, mgr.clusters, mgr.pinned, startup)
      ensures this.mgr == mgr
    {
      this.mgr, this.startup, this.panes, this.focus := mgr, startup, panes, focus;
    }

    method Sync()
      modifies mgr`clusters
      ensures State() == Synced(old(State()))
    {
      var counts := DistinctPaneContexts(panes);
      mgr.SyncRefs(counts);
    }

    method HandlePaneContextSwitch(ctx: string) returns (cmds: seq<Cmd>)
      modifies `panes, mgr`clusters
      ensures (State(), cmds) == PaneSwitch(old(State()), ctx)
    {
      if focus >= |panes| || panes[focus].kind.Terminal? {
        return [];
      }
      var old' := panes[focus].ctx;
      if ctx in mgr.pinned {
        if old' == ctx {
          return [];
        }
        panes := panes[focus := panes[focus].(ctx := ctx)];
        Sync();
        return [];
      }
      if old' == ctx {
        if ctx in mgr.clusters && mgr.clusters[ctx].connected {
          return [];
        }
      }
      panes := panes[focus := panes[focus].(ctx := ctx)];
      Sync();
      return [Dial(ctx)];
    }

    method RetargetGroup(target: string, ctx: string)
      modifies `panes
      ensures panes == Retargeted(old(panes), target, ctx)
    {
      var i := 0;
      while i < |panes|
        invariant 0 <= i <= |panes| == |old(panes)|
        invariant forall k :: 0 <= k < i ==> panes[k] == Retargeted(old(panes), target, ctx)[k]
        invariant forall k :: i <= k < |panes| ==> panes[k] == old(panes)[k]
      {
        if panes[i].kind.Resource? && panes[i].ctx == target {
          panes := panes[i := panes[i].(ctx := ctx)];
        }
        i := i + 1;
      }
    }

    method HandleGroupContextSwitch(ctx: string) returns (cmds: seq<Cmd>)
      modifies `panes, mgr`clusters
      ensures (State(), cmds) == GroupSwitch(old(State()), ctx)
    {
      var target := if focus < |panes| && panes[focus].kind.Resource? then panes[focus].ctx else startup;
      if ctx in mgr.pinned {
        if ctx == target {
          return [];
        }
        RetargetGroup(target, ctx);
        Sync();
        return [];
      }
      if ctx == target {
        if ctx in mgr.clusters && mgr.clusters[ctx].connected {
          return [];
        }
      }
      RetargetGroup(target, ctx);
      Sync();
      return [Dial(ctx)];
    }

    method HandleClusterReady(ctx: string, ok: bool) returns (cmds: seq<Cmd>)
      modifies mgr`clusters
      ensures (State(), cmds) == Ready(old(State()), ctx, ok)
    {
      if !ok {
        Sync();
        return [];
      }
      var connected, newly := mgr.RegisterConnected(ctx);
      Sync();
      if !connected {
        return [];
      }
      cmds := if newly then [Heartbeat(ctx)] else [];
    }

    method CloseFocusedSplit()
      modifies `panes, `focus, mgr`clusters
      ensures State() == CloseFocused(old(State()))
    {
      if |panes| <= 1 || focus >= |panes| {
        return;
      }
      panes := panes[..focus] + panes[focus + 1..];
      if focus >= |panes| {
        focus := |panes| - 1;
      }
      Sync();
    }

    method HandleClusterHealth(ctx: string) returns (cmds: seq<Cmd>)
      ensures cmds == Tick(State(), ctx)
    {
      var focusedCtx := if focus < |panes| && panes[focus].kind.Resource? then panes[focus].ctx else startup;
      var tickCtx := if ctx == "" then focusedCtx else ctx;
      cmds := [];
      if tickCtx in mgr.clusters && mgr.clusters[tickCtx].connected {
        cmds := [Heartbeat(tickCtx)];
      }
    }
  }

  // ---- everything that can happen ----

  /** The process and what is in flight. `connects` and `teardowns` count, per context, how
      often a cluster was newly connected and how often one left the manager; `swept` says
      that no pane has gone since the last reconciliation without one. */
  datatype World = World(
    app: AppState, dials: multiset<string>, beats: multiset<string>,
    connects: multiset<string>, teardowns: multiset<string>, swept: bool)

  datatype Event =
    | SwitchPane(ctx: string)
    | SwitchGroup(ctx: string)
    | DialDone(ctx: string, ok: bool)
    | BeatDone(ctx: string)
    | ClosePane
    | OpenResource
    | OpenTerminal(ctx: string)
    | FailTerminal(i: nat)          // a terminal that never started is removed
    | MoveFocus(i: nat)

  function DialsOf(cmds: seq<Cmd>): multiset<string> {
    if cmds == [] then multiset{}
    else (if cmds[0].Dial? then multiset{cmds[0].ctx} else multiset{}) + DialsOf(cmds[1..])
  }

  function BeatsOf(cmds: seq<Cmd>): multiset<string> {
    if cmds == [] then multiset{}
    else (if cmds[0].Heartbeat? then multiset{cmds[0].ctx} else multiset{}) + BeatsOf(cmds[1..])
  }

  predicate Enabled(w: World, e: Event) {
    match e
    case SwitchPane(ctx) => ctx != ""
    case SwitchGroup(ctx) => ctx != ""
    case DialDone(ctx, _) => ctx in w.dials
    case BeatDone(ctx) => ctx in w.beats
    case OpenTerminal(ctx) => ctx != ""
    case FailTerminal(i) => i < |w.app.panes| && w.app.panes[i].kind.Terminal?
    case MoveFocus(i) => i < |w.app.panes|
    case _ => true
  }

  /** The contexts that left the manager between two states. */
  function Gone(a: map<string, Cluster>, b: map<string, Cluster>): multiset<string> {
    multiset(a.Keys - b.Keys)
  }

  function Step(w: World, e: Event): World
    requires Enabled(w, e)
  {
    match e
    case SwitchPane(ctx) =>
      var (s, cmds) := PaneSwitch(w.app, ctx);
      w.(app := s, dials := w.dials + DialsOf(cmds), teardowns := w.teardowns + Gone(w.app.clusters, s.clusters),
         swept := w.swept || PaneMoves(w.app, ctx))
    case SwitchGroup(ctx) =>
      var (s, cmds) := GroupSwitch(w.app, ctx);
      w.(app := s, dials := w.dials + DialsOf(cmds), teardowns := w.teardowns + Gone(w.app.clusters, s.clusters),
         swept := w.swept || GroupMoves(w.app, ctx))
    case DialDone(ctx, ok) =>
      var (s, cmds) := Ready(w.app, ctx, ok);
      World(s, w.dials - multiset{ctx}, w.beats + BeatsOf(cmds),
            w.connects + (if Newly(w.app, ctx, ok) then multiset{ctx} else multiset{}),
            w.teardowns + Gone(Registered(w.app, ctx, ok).clusters, s.clusters), true)
    case BeatDone(ctx) => w.(beats := w.beats - multiset{ctx} + BeatsOf(Tick(w.app, ctx)))
    case ClosePane =>
      var s := CloseFocused(w.app);
      w.(app := s, teardowns := w.teardowns + Gone(w.app.clusters, s.clusters), swept := w.swept || Closes(w.app))
    case OpenResource => w.(app := Inserted(w.app, Pane(Resource, FocusedContext(w.app))))
    case OpenTerminal(ctx) => w.(app := Inserted(w.app, Pane(Terminal, ctx)))
    case FailTerminal(i) =>
      w.(app := Removed(w.app, i), swept := w.swept && |w.app.panes| <= 1)
    case MoveFocus(i) => w.(app := w.app.(focus := i))
  }

  // ---- the invariant of every run ----

  /** No cluster but the pinned ones is there without a pane. */
  ghost predicate NoLeak(s: AppState) {
    forall ctx :: ctx in s.clusters && ctx !in s.pinned ==> Count(s.panes, ctx) > 0
  }

  /** Every count is right and positive, pinned clusters apart. */
  ghost predicate RefsExact(s: AppState) {
    forall ctx :: ctx in s.clusters && ctx !in s.pinned ==> s.clusters[ctx].refCount == Count(s.panes, ctx) > 0
  }

  ghost predicate Inv(w: World) {
    && w.app.focus < |w.app.panes| && w.app.startup != ""
    && (forall i :: 0 <= i < |w.app.panes| ==> w.app.panes[i].ctx != "")
    && "" !in w.app.clusters && "" !in w.dials && "" !in w.beats
    && (forall ctx :: ctx in w.app.pinned ==> ctx in w.app.clusters && !w.app.clusters[ctx].connected)
    && (forall ctx :: ctx in w.app.clusters && ctx !in w.app.pinned ==> w.app.clusters[ctx].connected)
    && (forall ctx :: ctx !in w.app.pinned ==>
        w.connects[ctx] == w.teardowns[ctx] + if ctx in w.app.clusters then 1 else 0)
    && (forall ctx :: w.beats[ctx] <= w.connects[ctx])
    && (w.swept ==> NoLeak(w.app))
  }

  /** A fresh process: all panes on the startup context, which may be a pinned one; no other
      cluster but that one is connected, and if it is, its heartbeat is armed. */
  ghost predicate Initial(w: World) {
    && |w.app.panes| > 0 && w.app.focus < |w.app.panes| && w.app.startup != ""
    && (forall i :: 0 <= i < |w.app.panes| ==> w.app.panes[i] == Pane(Resource, w.app.startup))
    && "" !in w.app.clusters
    && (forall ctx :: ctx in w.app.pinned ==> ctx in w.app.clusters && !w.app.clusters[ctx].connected)
    && (forall ctx :: ctx in w.app.clusters && ctx !in w.app.pinned ==>
        ctx == w.app.startup && w.app.clusters[ctx].connected)
    && w.dials == multiset{} && w.teardowns == multiset{} && !w.swept
    && w.beats == w.connects == multiset(w.app.clusters.Keys - w.app.pinned)
  }

  lemma InitialInv(w: World)
    requires Initial(w)
    ensures Inv(w) && Armed(w) && forall ctx :: w.beats[ctx] <= 1
  {
  }

  lemma SyncedFacts(s: AppState)
    ensures RefsExact(Synced(s)) && NoLeak(Synced(s))
    ensures Synced(s).panes == s.panes && Synced(s).pinned == s.pinned && Synced(s).focus == s.focus &&
            Synced(s).startup == s.startup
    ensures forall ctx :: ctx in Synced(s).clusters <==>
            ctx in s.clusters && (ctx in s.pinned || (ctx != "" && Count(s.panes, ctx) > 0))
    ensures forall ctx :: ctx in Synced(s).clusters ==> Synced(s).clusters[ctx].connected == s.clusters[ctx].connected
    ensures Synced(s).clusters.Keys <= s.clusters.Keys
  {
  }

  lemma GoneCounts(a: map<string, Cluster>, b: map<string, Cluster>, ctx: string)
    requires b.Keys <= a.Keys
    ensures Gone(a, b)[ctx] == (if ctx in a then 1 else 0) - (if ctx in b then 1 else 0)
  {
  }

  lemma OneCmd(c: Cmd)
    ensures DialsOf([c]) == if c.Dial? then multiset{c.ctx} else multiset{}
    ensures BeatsOf([c]) == if c.Heartbeat? then multiset{c.ctx} else multiset{}
    ensures DialsOf([]) == multiset{} && BeatsOf([]) == multiset{}
  {
    assert [c][1..] == [];
  }

  /** A reconciliation after the panes changed keeps the books. */
  lemma SyncKeeps(w: World, s: AppState, w': World)
    requires Inv(w)
    requires s.clusters == w.app.clusters && s.pinned == w.app.pinned && s.startup == w.app.startup
    requires s.focus < |s.panes| && forall i :: 0 <= i < |s.panes| ==> s.panes[i].ctx != ""
    requires w' == w.(app := Synced(s), dials := w'.dials,
                      teardowns := w.teardowns + Gone(w.app.clusters, Synced(s).clusters),
                      swept := w'.swept)
    requires "" !in w'.dials
    ensures Inv(w')
  {
    SyncedFacts(s);
    hide Synced, Count, NoLeak, Gone;
    forall ctx
      ensures ctx !in w.app.pinned ==>
                w'.connects[ctx] == w'.teardowns[ctx] + if ctx in w'.app.clusters then 1 else 0
    {
      GoneCounts(w.app.clusters, w'.app.clusters, ctx);
    }
  }

  lemma RegisteredFacts(w: World, ctx: string, ok: bool)
    requires Inv(w) && ctx != ""
    ensures var s := Registered(w.app, ctx, ok);
            && s == w.app.(clusters := s.clusters) && "" !in s.clusters
            && (forall x :: x in s.clusters <==> x in w.app.clusters || (x == ctx && Newly(w.app, ctx, ok)))
            && (forall x :: x in w.app.pinned ==> x in s.clusters && !s.clusters[x].connected)
            && (forall x :: x in s.clusters && x !in w.app.pinned ==> s.clusters[x].connected)
  {
  }

  lemma DialStep(w: World, ctx: string, ok: bool) returns (s: AppState, newly: multiset<string>)
    requires Enabled(w, DialDone(ctx, ok))
    ensures s == Registered(w.app, ctx, ok) && newly == if Newly(w.app, ctx, ok) then multiset{ctx} else multiset{}
    ensures Step(w, DialDone(ctx, ok)) ==
            World(Synced(s), w.dials - multiset{ctx}, w.beats + newly, w.connects + newly,
                  w.teardowns + Gone(s.clusters, Synced(s).clusters), true)
  {
    OneCmd(Heartbeat(ctx));
    hide BeatsOf, Synced, Gone, Registered;
    s := Registered(w.app, ctx, ok);
    newly := if Newly(w.app, ctx, ok) then multiset{ctx} else multiset{};
  }

  /** The world between the registration and the reconciliation that follows it. */
  lemma RegisterKeeps(w: World, ctx: string, ok: bool, newly: multiset<string>)
    requires Inv(w) && Enabled(w, DialDone(ctx, ok))
    requires newly == if Newly(w.app, ctx, ok) then multiset{ctx} else multiset{}
    ensures Inv(World(Registered(w.app, ctx, ok), w.dials - multiset{ctx}, w.beats + newly, w.connects + newly,
                      w.teardowns, false))
  {
    RegisteredFacts(w, ctx, ok);
    hide Count, NoLeak, Registered;
  }

  lemma ReadyKeeps(w: World, ctx: string, ok: bool)
    requires Inv(w) && Enabled(w, DialDone(ctx, ok))
    ensures Inv(Step(w, DialDone(ctx, ok)))
  {
    var s, newly := DialStep(w, ctx, ok);
    RegisterKeeps(w, ctx, ok, newly);
    var w1 := World(s, w.dials - multiset{ctx}, w.beats + newly, w.connects + newly, w.teardowns, false);
    InvPanes(w1);
    hide *;
    SyncKeeps(w1, s, Step(w, DialDone(ctx, ok)));
  }

  lemma InvPanes(w: World)
    requires Inv(w)
    ensures w.app.focus < |w.app.panes| && (forall i :: 0 <= i < |w.app.panes| ==> w.app.panes[i].ctx != "") &&
            "" !in w.dials
  {
  }

  lemma BeatKeeps(w: World, ctx: string)
    requires Inv(w) && Enabled(w, BeatDone(ctx))
    ensures Inv(Step(w, BeatDone(ctx)))
    ensures Step(w, BeatDone(ctx)).beats <= w.beats
    ensures !Live(w.app, ctx) ==> Step(w, BeatDone(ctx)).beats == w.beats - multiset{ctx}
  {
    OneCmd(Heartbeat(ctx));
  }

  lemma SwitchPaneKeeps(w: World, ctx: string)
    requires Inv(w) && Enabled(w, SwitchPane(ctx))
    ensures Inv(Step(w, SwitchPane(ctx)))
  {
    OneCmd(Dial(ctx));
    UnchangedGone(w);
    if PaneMoves(w.app, ctx) {
      var s, w' := PaneMoved(w.app, ctx), Step(w, SwitchPane(ctx));
      hide Synced, Gone, DialsOf, PaneMoves, NoLeak;
      SyncKeeps(w, s, w');
    }
  }

  lemma SwitchGroupKeeps(w: World, ctx: string)
    requires Inv(w) && Enabled(w, SwitchGroup(ctx))
    ensures Inv(Step(w, SwitchGroup(ctx)))
  {
    GroupStep(w, ctx);
    if GroupMoves(w.app, ctx) {
      var s, w' := GroupMoved(w.app, ctx), Step(w, SwitchGroup(ctx));
      hide Step, Synced, Gone, GroupMoves, NoLeak, FocusedContext;
      SyncKeeps(w, s, w');
    }
  }

  lemma GroupStep(w: World, ctx: string)
    requires Enabled(w, SwitchGroup(ctx)) && "" !in w.dials
    ensures var w', s := Step(w, SwitchGroup(ctx)), GroupMoved(w.app, ctx);
            if GroupMoves(w.app, ctx) then
              && w' == w.(app := Synced(s), dials := w'.dials,
                          teardowns := w.teardowns + Gone(w.app.clusters, Synced(s).clusters), swept := w'.swept)
              && "" !in w'.dials
            else w' == w
  {
    OneCmd(Dial(ctx));
    UnchangedGone(w);
    hide Synced, Gone, DialsOf, GroupMoves;
  }

  lemma CloseKeeps(w: World)
    requires Inv(w)
    ensures Inv(Step(w, ClosePane))
  {
    UnchangedGone(w);
    if Closes(w.app) {
      var s, w' := Removed(w.app, w.app.focus), Step(w, ClosePane);
      hide Synced, Gone, DialsOf, Closes, NoLeak;
      SyncKeeps(w, s, w');
    }
  }

  /** Panes come, go and are focused without the manager being told. */
  lemma QuietKeeps(w: World, e: Event)
    requires Inv(w) && Enabled(w, e) && (e.OpenResource? || e.OpenTerminal? || e.FailTerminal? || e.MoveFocus?)
    ensures Inv(Step(w, e))
  {
    if e.OpenResource? {
      MorePanes(w.app, Pane(Resource, FocusedContext(w.app)));
    } else if e.OpenTerminal? {
      MorePanes(w.app, Pane(Terminal, e.ctx));
    }
    hide Count, NoLeak, Gone;
  }

  lemma {:induction false} StepKeeps(w: World, e: Event)
    requires Inv(w) && Enabled(w, e)
    ensures Inv(Step(w, e))
  {
    match e
    case SwitchPane(ctx) => SwitchPaneKeeps(w, ctx);
    case SwitchGroup(ctx) => SwitchGroupKeeps(w, ctx);
    case DialDone(ctx, ok) => ReadyKeeps(w, ctx, ok);
    case BeatDone(ctx) => BeatKeeps(w, ctx);
    case ClosePane => CloseKeeps(w);
    case _ => hide Inv; QuietKeeps(w, e);
  }

  lemma UnchangedGone(w: World)
    ensures w.teardowns + Gone(w.app.clusters, w.app.clusters) == w.teardowns
  {
  }

  /** Opening a pane leaves every other count as it was or higher. */
  lemma {:induction false} MorePanes(s: AppState, pane: Pane)
    ensures NoLeak(s) ==> NoLeak(Inserted(s, pane))
  {
    forall ctx ensures Count(Inserted(s, pane).panes, ctx) >= Count(s.panes, ctx) {
      InsertedCounts(s, pane, ctx);
    }
    hide Count;
  }

  lemma {:induction false} InsertedCounts(s: AppState, pane: Pane, ctx: string)
    ensures Count(Inserted(s, pane).panes, ctx) >= Count(s.panes, ctx)
  {
    hide Count;
    var at := if s.focus < |s.panes| then s.focus + 1 else |s.panes|;
    var before, after := s.panes[..at], s.panes[at..];
    CountAppend(before, [pane] + after, ctx);
    CountAppend([pane], after, ctx);
    CountAppend(before, after, ctx);
    assert before + after == s.panes;
    assert before + ([pane] + after) == Inserted(s, pane).panes;
  }

  lemma {:induction false} CountAppend(a: seq<Pane>, b: seq<Pane>, ctx: string)
    ensures Count(a + b, ctx) == Count(a, ctx) + Count(b, ctx)
    decreases |b|
  {
    if b == [] {
      assert a + b == a;
    } else {
      var init := b[..|b| - 1];
      assert (a + b)[..|a + b| - 1] == a + init;
      CountAppend(a, init, ctx);
    }
  }

  predicate Runs(w: World, es: seq<Event>)
    decreases |es|
  {
    es == [] || (Enabled(w, es[0]) && Runs(Step(w, es[0]), es[1..]))
  }

  function Run(w: World, es: seq<Event>): World
    requires Runs(w, es)
    decreases |es|
  {
    if es == [] then w else Run(Step(w, es[0]), es[1..])
  }

  lemma {:induction false} RunInv(w: World, es: seq<Event>)
    requires Inv(w) && Armed(w) && Runs(w, es)
    ensures Inv(Run(w, es)) && Armed(Run(w, es))
    decreases |es|
  {
    if es != [] {
      StepKeeps(w, es[0]);
      ArmedKept(w, es[0]);
      RunInv(Step(w, es[0]), es[1..]);
    }
  }

  /** Main result on heartbeats and leaks, over every run of a fresh process. A connected
      cluster has a heartbeat in flight; for each context the heartbeats in flight never
      exceed one more than the times its cluster left the manager, and a pinned one has none
      at all; and while no failed
      terminal has been removed since the last reconciliation, every cluster but the pinned
      ones has a pane. */
  lemma {:induction false} RunKeeps(w: World, es: seq<Event>)
    requires Initial(w) && Runs(w, es)
    ensures var r := Run(w, es);
            && Inv(r)
            && (forall ctx :: Live(r.app, ctx) ==> ctx in r.beats)
            && (forall ctx :: r.beats[ctx] <= r.teardowns[ctx] + 1)
            && (forall ctx :: ctx in r.app.pinned ==> ctx !in r.beats)
            && (r.swept ==> NoLeak(r.app))
  {
    InitialInv(w);
    RunInv(w, es);
    PinnedStay(w, es);
    forall ctx | ctx in w.app.pinned ensures Run(w, es).beats[ctx] == 0 {
      PinnedNeverBeats(w, es, ctx);
    }
  }

  lemma {:induction false} PinnedStay(w: World, es: seq<Event>)
    requires Inv(w) && Runs(w, es)
    ensures Run(w, es).app.pinned == w.app.pinned
    decreases |es|
  {
    if es != [] {
      StepKeeps(w, es[0]);
      LeavesOnlyUnused(w, es[0], "");
      PinnedStay(Step(w, es[0]), es[1..]);
    }
  }

  lemma {:induction false} PinnedNeverConnect(w: World, e: Event, ctx: string)
    requires ctx in w.app.pinned
    ensures !Connecting(w, e, ctx)
  {
  }

  /** A pinned cluster has no client, so no heartbeat is ever armed for it. */
  lemma {:induction false} PinnedNeverBeats(w: World, es: seq<Event>, ctx: string)
    requires Inv(w) && Runs(w, es) && ctx in w.app.pinned && w.beats[ctx] == 0
    ensures Run(w, es).beats[ctx] == 0
    decreases |es|
  {
    hide Inv, Step, Connecting;
    if es != [] {
      StepKeeps(w, es[0]);
      LeavesOnlyUnused(w, es[0], ctx);
      PinnedNeverConnect(w, es[0], ctx);
      BeatsAfter(w, es[0], ctx);
      PinnedNeverBeats(Step(w, es[0]), es[1..], ctx);
    }
  }

  // ---- exactly one heartbeat ----

  /** Every connected cluster has a heartbeat in flight. */
  ghost predicate Armed(w: World) { forall ctx :: Live(w.app, ctx) ==> ctx in w.beats }

  /** `e` connects a cluster for `ctx` anew. */
  predicate Connecting(w: World, e: Event, ctx: string) { e == DialDone(ctx, true) && Newly(w.app, ctx, true) }

  /** The heartbeats in flight change by one new connection and by one tick of a cluster
      that is gone, and by nothing else. */
  lemma BeatsAfter(w: World, e: Event, ctx: string)
    requires Inv(w) && Enabled(w, e)
    ensures Step(w, e).beats[ctx] ==
            w.beats[ctx] + (if Connecting(w, e, ctx) then 1 else 0)
            - (if e == BeatDone(ctx) && !Live(w.app, ctx) then 1 else 0)
  {
    hide Step, Inv, Enabled, Newly, Live;
    if e.DialDone? {
      var s, newly := DialStep(w, e.ctx, e.ok);
      DialFails(w, e.ctx);
    } else if e.BeatDone? {
      TickStep(w, e.ctx);
    } else {
      QuietBeats(w, e);
    }
  }

  lemma DialFails(w: World, ctx: string)
    ensures !Newly(w.app, ctx, false)
  {
  }

  lemma TickStep(w: World, ctx: string)
    requires Inv(w) && Enabled(w, BeatDone(ctx))
    ensures Step(w, BeatDone(ctx)).beats ==
            w.beats - multiset{ctx} + if Live(w.app, ctx) then multiset{ctx} else multiset{}
    ensures w.beats[ctx] > 0
  {
    OneCmd(Heartbeat(ctx));
    hide BeatsOf, Live, NoLeak;
  }

  lemma QuietBeats(w: World, e: Event)
    requires Enabled(w, e) && !e.DialDone? && !e.BeatDone?
    ensures Step(w, e).beats == w.beats
  {
    hide Synced, Gone, DialsOf, BeatsOf, PaneSwitch, GroupSwitch, CloseFocused, Removed, FocusedContext, PaneMoves,
      GroupMoves, Closes;
  }

  lemma LiveAfter(w: World, e: Event, ctx: string)
    requires Inv(w) && Enabled(w, e)
    ensures Live(Step(w, e).app, ctx) ==> Live(w.app, ctx) || Connecting(w, e, ctx)
  {
    hide Count, NoLeak, Gone, DialsOf, BeatsOf;
  }

  lemma ArmedKept(w: World, e: Event)
    requires Inv(w) && Enabled(w, e) && Armed(w)
    ensures Armed(Step(w, e))
  {
    var w' := Step(w, e);
    hide Inv, Step;
    forall ctx | Live(w'.app, ctx) ensures ctx in w'.beats {
      LiveAfter(w, e, ctx);
      BeatsAfter(w, e, ctx);
    }
  }

  /** Some step of the run connects `ctx` anew while a heartbeat for it is in flight. */
  ghost predicate Overlaps(w: World, es: seq<Event>, ctx: string)
    requires Runs(w, es)
    decreases |es|
  {
    es != [] && ((Connecting(w, es[0], ctx) && ctx in w.beats) || Overlaps(Step(w, es[0]), es[1..], ctx))
  }

  /** Never more than one heartbeat for `ctx`, and one whenever its cluster is connected. */
  ghost predicate OneBeat(w: World, ctx: string) {
    w.beats[ctx] <= 1 && (Live(w.app, ctx) ==> w.beats[ctx] == 1)
  }

  ghost predicate AlwaysOneBeat(w: World, es: seq<Event>, ctx: string)
    requires Runs(w, es)
    decreases |es|
  {
    OneBeat(w, ctx) && (es != [] ==> AlwaysOneBeat(Step(w, es[0]), es[1..], ctx))
  }

  lemma {:induction false} OneBeatUnless(w: World, es: seq<Event>, ctx: string)
    requires Inv(w) && Armed(w) && w.beats[ctx] <= 1 && Runs(w, es)
    ensures AlwaysOneBeat(w, es, ctx) <==> !Overlaps(w, es, ctx)
    decreases |es|
  {
    hide Inv, Step;
    if es != [] {
      StepKeeps(w, es[0]);
      ArmedKept(w, es[0]);
      BeatsAfter(w, es[0], ctx);
      if Connecting(w, es[0], ctx) && ctx in w.beats {
        assert Step(w, es[0]).beats[ctx] == 2;
      } else {
        OneBeatUnless(Step(w, es[0]), es[1..], ctx);
      }
    }
  }

  /** Main result on "exactly one heartbeat per connected cluster": a run of a fresh process
      keeps it for a context if and only if it never connects that context anew while a
      heartbeat from an earlier connection is still in flight. */
  lemma {:induction false} ExactlyOneBeat(w: World, es: seq<Event>, ctx: string)
    requires Initial(w) && Runs(w, es)
    ensures AlwaysOneBeat(w, es, ctx) <==> !Overlaps(w, es, ctx)
  {
    InitialInv(w);
    OneBeatUnless(w, es, ctx);
  }

  // ---- which panes a step moves ----

  /** Panes and focus after an event, given those before it: what a switch, an opening or a
      closing means for the panes, whatever the clusters do. */
  ghost predicate PanesFollow(e: Event, startup: string, ps: seq<Pane>, f: nat, ps': seq<Pane>, f': nat) {
    match e
    case SwitchPane(ctx) =>
      && f' == f && |ps'| == |ps|
      && forall i :: 0 <= i < |ps| ==>
           ps'[i] == if i == f && ps[i].kind.Resource? then Pane(Resource, ctx) else ps[i]
    case SwitchGroup(ctx) =>
      var group := if f < |ps| && ps[f].kind.Resource? then ps[f].ctx else startup;
      && f' == f && |ps'| == |ps|
      && forall i :: 0 <= i < |ps| ==>
           ps'[i] == if ps[i].kind.Resource? && ps[i].ctx == group then Pane(Resource, ctx) else ps[i]
    case DialDone(_, _) => ps' == ps && f' == f
    case BeatDone(_) => ps' == ps && f' == f
    case ClosePane => if f < |ps| && |ps| > 1 then LosesOne(ps, f, ps', f') else ps' == ps && f' == f
    case FailTerminal(i) => if |ps| > 1 then LosesOne(ps, i, ps', f') else ps' == ps && f' == f
    case OpenResource =>
      && GainsOne(ps, f, ps', f')
      && ps'[f'] == Pane(Resource, if f < |ps| && ps[f].kind.Resource? then ps[f].ctx else startup)
    case OpenTerminal(ctx) => GainsOne(ps, f, ps', f') && ps'[f'] == Pane(Terminal, ctx)
    case MoveFocus(i) => ps' == ps && f' == i
  }

  /** Pane `i` is gone, and the one after it, if any, has the focus. */
  ghost predicate LosesOne(ps: seq<Pane>, i: nat, ps': seq<Pane>, f': nat) {
    && |ps'| + 1 == |ps| && f' == (if i < |ps'| then i else |ps'| - 1)
    && forall k :: 0 <= k < |ps'| ==> ps'[k] == ps[if k < i then k else k + 1]
  }

  /** A pane is new next to the focused one and has the focus. */
  ghost predicate GainsOne(ps: seq<Pane>, f: nat, ps': seq<Pane>, f': nat) {
    && |ps'| == |ps| + 1 && f' == (if f < |ps| then f + 1 else |ps|)
    && forall k :: 0 <= k < |ps'| && k != f' ==> ps'[k] == ps[if k < f' then k else k - 1]
  }

  /** After a switch the context asked for is pinned, connected or being dialled, if there
      was a pane to move; a pinned one is never dialled, and nothing else is. */
  ghost predicate Reaches(w: World, e: Event, w': World) {
    match e
    case SwitchPane(ctx) =>
      && (w.app.focus < |w.app.panes| && w.app.panes[w.app.focus].kind.Resource? ==>
           ctx in w.app.pinned || Live(w'.app, ctx) || ctx in w'.dials)
      && Dials(w, ctx, w')
    case SwitchGroup(ctx) =>
      (ctx in w.app.pinned || Live(w'.app, ctx) || ctx in w'.dials) && Dials(w, ctx, w')
    case DialDone(ctx, _) => w'.dials == w.dials - multiset{ctx}
    case _ => w'.dials == w.dials
  }

  predicate Dials(w: World, ctx: string, w': World) {
    w'.dials == w.dials || (ctx !in w.app.pinned && w'.dials == w.dials + multiset{ctx})
  }

  /** What an event does to the panes, and what it asks for. */
  ghost predicate Moves(w: World, e: Event, w': World) {
    && PanesFollow(e, w.app.startup, w.app.panes, w.app.focus, w'.app.panes, w'.app.focus)
    && w'.app.startup == w.app.startup && w'.app.pinned == w.app.pinned
    && Reaches(w, e, w')
  }

  lemma {:induction false} SyncedRest(s: AppState)
    ensures Synced(s) == s.(clusters := Synced(s).clusters)
  {
  }

  lemma {:induction false} PaneSwitchMoves(w: World, ctx: string)
    requires Enabled(w, SwitchPane(ctx))
    ensures Moves(w, SwitchPane(ctx), Step(w, SwitchPane(ctx)))
  {
    OneCmd(Dial(ctx));
    if PaneMoves(w.app, ctx) {
      SyncedRest(PaneMoved(w.app, ctx));
    }
    hide Synced, Gone, DialsOf, BeatsOf;
  }

  lemma {:induction false} GroupSwitchMoves(w: World, ctx: string)
    requires Enabled(w, SwitchGroup(ctx))
    ensures Moves(w, SwitchGroup(ctx), Step(w, SwitchGroup(ctx)))
  {
    OneCmd(Dial(ctx));
    SyncedRest(GroupMoved(w.app, ctx));
    hide Synced, Gone, DialsOf, BeatsOf;
  }

  lemma {:induction false} DialMoves(w: World, ctx: string, ok: bool)
    requires Enabled(w, DialDone(ctx, ok))
    ensures Moves(w, DialDone(ctx, ok), Step(w, DialDone(ctx, ok)))
  {
    var s, newly := DialStep(w, ctx, ok);
    SyncedRest(s);
    hide Synced, Gone, Step;
  }

  lemma {:induction false} CloseMoves(w: World)
    ensures Moves(w, ClosePane, Step(w, ClosePane))
  {
    if Closes(w.app) {
      SyncedRest(Removed(w.app, w.app.focus));
    }
    hide Synced, Gone;
  }

  /** Main result on moving panes: every event does to the panes what PanesFollow says, and a
      switch asks for the client it needs. */
  lemma {:induction false} PanesMove(w: World, e: Event)
    requires Enabled(w, e)
    ensures Moves(w, e, Step(w, e))
  {
    match e
    case SwitchPane(ctx) => PaneSwitchMoves(w, ctx);
    case SwitchGroup(ctx) => GroupSwitchMoves(w, ctx);
    case DialDone(ctx, ok) => DialMoves(w, ctx, ok);
    case ClosePane => CloseMoves(w);
    case _ => hide Synced, BeatsOf;
  }

  lemma {:induction false} FollowUnique(
      e: Event, startup: string, ps: seq<Pane>, f: nat, a: seq<Pane>, af: nat, b: seq<Pane>, bf: nat)
    requires PanesFollow(e, startup, ps, f, a, af) && PanesFollow(e, startup, ps, f, b, bf)
    ensures a == b && af == bf
  {
  }

  /** So the panes of a run are determined by its events alone: no dial, heartbeat or
      teardown has a say in them. */
  lemma {:induction false} EventsDecidePanes(w: World, v: World, es: seq<Event>)
    requires w.app.panes == v.app.panes && w.app.focus == v.app.focus && w.app.startup == v.app.startup
    requires Runs(w, es) && Runs(v, es)
    ensures Run(w, es).app.panes == Run(v, es).app.panes && Run(w, es).app.focus == Run(v, es).app.focus
    decreases |es|
  {
    if es != [] {
      var w', v' := Step(w, es[0]), Step(v, es[0]);
      PanesMove(w, es[0]);
      PanesMove(v, es[0]);
      FollowUnique(es[0], w.app.startup, w.app.panes, w.app.focus,
                   w'.app.panes, w'.app.focus, v'.app.panes, v'.app.focus);
      hide Step, PanesFollow;
      EventsDecidePanes(w', v', es[1..]);
    }
  }

  // ---- single steps ----

  predicate Reconciles(w: World, e: Event) {
    match e
    case DialDone(_, _) => true
    case SwitchPane(ctx) => PaneMoves(w.app, ctx)
    case SwitchGroup(ctx) => GroupMoves(w.app, ctx)
    case ClosePane => Closes(w.app)
    case _ => false
  }

  /** Main result on lifetime: whatever happens next, a pinned cluster stays; any other
      cluster leaves the manager only when no pane, resource or terminal, carries its
      context; and every reconciliation leaves exact and positive counts. */
  lemma {:induction false} LeavesOnlyUnused(w: World, e: Event, ctx: string)
    requires Inv(w) && Enabled(w, e)
    ensures Step(w, e).app.pinned == w.app.pinned
    ensures ctx in w.app.clusters && ctx !in Step(w, e).app.clusters ==>
              ctx !in w.app.pinned && Count(Step(w, e).app.panes, ctx) == 0
    ensures Reconciles(w, e) ==> RefsExact(Step(w, e).app) && NoLeak(Step(w, e).app)
  {
    match e
    case SwitchPane(c) =>
      if PaneMoves(w.app, c) { SyncedFacts(PaneMoved(w.app, c)); }
    case SwitchGroup(c) => SyncedFacts(GroupMoved(w.app, c));
    case DialDone(c, ok) => SyncedFacts(Registered(w.app, c, ok));
    case ClosePane => SyncedFacts(Removed(w.app, w.app.focus));
    case _ =>
  }

  /** A dial that ends after its panes moved elsewhere leaves no cluster behind. Its
      heartbeat is armed all the same, and ends at its first tick. */
  lemma {:induction false} AbandonedDial(w: World, ctx: string, ok: bool)
    requires Inv(w) && Enabled(w, DialDone(ctx, ok)) && Count(w.app.panes, ctx) == 0 && ctx !in w.app.pinned
    ensures var w' := Step(w, DialDone(ctx, ok));
            && ctx !in w'.app.clusters
            && (ok && ctx !in w.app.clusters ==>
                 && w'.beats == w.beats + multiset{ctx}
                 && Step(w', BeatDone(ctx)).beats == w'.beats - multiset{ctx})
  {
    var s, newly := DialStep(w, ctx, ok);
    var w' := Step(w, DialDone(ctx, ok));
    RegisteredFacts(w, ctx, ok);
    ReadyKeeps(w, ctx, ok);
    SyncedFacts(s);
    if Newly(w.app, ctx, ok) {
      BeatKeeps(w', ctx);
    }
    hide Synced, Gone, Registered, Step, BeatsOf, Inv;
  }

  lemma {:induction false} RunsNothing(w: World)
    ensures Runs(w, []) && Run(w, []) == w
  {
  }

  lemma {:induction false} RunsCons(w: World, e: Event, es: seq<Event>)
    ensures Runs(w, [e] + es) <==> Enabled(w, e) && Runs(Step(w, e), es)
    ensures Runs(w, [e] + es) ==> Run(w, [e] + es) == Run(Step(w, e), es)
  {
    assert ([e] + es)[1..] == es;
  }

  /** A teardown and reconnect before the first tick: in a fresh process with one pane it
      leaves two heartbeats in flight. */
  lemma {:induction false} TwoHeartbeats(w: World, ctx: string)
    requires Initial(w) && |w.app.panes| == 1 && w.app.startup !in w.app.pinned
    requires ctx != "" && ctx != w.app.startup && ctx !in w.app.pinned
    ensures var there, connected, back := SwitchPane(ctx), DialDone(ctx, true), SwitchPane(w.app.startup);
            var es := [there, connected, back, there, connected];
            && Runs(w, es) && Run(w, es).beats[ctx] == 2
            && Overlaps(w, es, ctx)
  {
    hide *;
    InitialInv(w);
    NotYetBeating(w, ctx);
    TwoMoreHeartbeats(w, ctx, w.app.startup);
    var there, connected, back := SwitchPane(ctx), DialDone(ctx, true), SwitchPane(w.app.startup);
    var es := [there, connected, back, there, connected];
    OneBeatUnless(w, es, ctx);
    if AlwaysOneBeat(w, es, ctx) {
      EndsAlways(w, es, ctx);
    }
  }

  lemma {:induction false} NotYetBeating(w: World, ctx: string)
    requires Initial(w) && ctx != w.app.startup && ctx !in w.app.pinned
    ensures ctx !in w.app.clusters && w.beats[ctx] == 0 && w.app.startup != ""
    ensures |w.app.panes| == 1 ==> w.app.panes[0] == Pane(Resource, w.app.startup)
  {
  }

  lemma {:induction false} EndsAlways(w: World, es: seq<Event>, ctx: string)
    requires Runs(w, es) && AlwaysOneBeat(w, es, ctx)
    ensures Run(w, es).beats[ctx] <= 1
    decreases |es|
  {
    if es != [] {
      EndsAlways(Step(w, es[0]), es[1..], ctx);
    }
  }

  /** The same run adds two from any state of a process with one pane. */
  lemma {:induction false} TwoMoreHeartbeats(w: World, ctx: string, other: string)
    requires Inv(w) && |w.app.panes| == 1 && w.app.panes[0] == Pane(Resource, other)
    requires ctx != "" && other != "" && ctx != other && ctx !in w.app.clusters && ctx !in w.app.pinned &&
             other !in w.app.pinned
    ensures var es := [SwitchPane(ctx), DialDone(ctx, true), SwitchPane(other), SwitchPane(ctx), DialDone(ctx, true)];
            Runs(w, es) && Run(w, es).beats[ctx] == w.beats[ctx] + 2
  {
    hide *;
    var e1, e2, e3 := SwitchPane(ctx), DialDone(ctx, true), SwitchPane(other);
    var w1 := OnlyPane(w, ctx, other);
    var w2 := Connects(w1, ctx);
    var w3 := OnlyPane(w2, other, ctx);
    var w4 := OnlyPane(w3, ctx, other);
    var w5 := Connects(w4, ctx);
    var es4 := [e2];
    var es3, es2, es1 := [e1] + es4, [e3, e1, e2], [e2, e3, e1, e2];
    assert es2 == [e3] + es3 && es1 == [e2] + es2;
    assert [e1, e2, e3, e1, e2] == [e1] + es1;
    assert es4 == [e2] + [];
    RunsNothing(w5);
    RunsCons(w4, e2, []);
    RunsCons(w3, e1, es4);
    RunsCons(w2, e3, es3);
    RunsCons(w1, e2, es2);
    RunsCons(w, e1, es1);
  }

  /** The only pane moves from `from` to `to`; `from`'s cluster goes. */
  lemma OnlyPane(w: World, to: string, from: string) returns (w': World)
    requires Inv(w) && w.app.panes == [Pane(Resource, from)] && to != from && to != ""
    requires to !in w.app.pinned && from !in w.app.pinned && to !in w.app.clusters
    ensures Enabled(w, SwitchPane(to)) && w' == Step(w, SwitchPane(to)) && Inv(w')
    ensures w'.app.panes == [Pane(Resource, to)] && w'.app.pinned == w.app.pinned && w'.beats == w.beats
    ensures from !in w'.app.clusters && to !in w'.app.clusters && to in w'.dials
  {
    w' := Step(w, SwitchPane(to));
    StepKeeps(w, SwitchPane(to));
    OneCmd(Dial(to));
    var panes := [Pane(Resource, to)];
    assert w.app.panes[w.app.focus := w.app.panes[w.app.focus].(ctx := to)] == panes;
    SyncedFacts(PaneMoved(w.app, to));
    CountZero(panes, from);
  }

  lemma Connects(w: World, ctx: string) returns (w': World)
    requires Inv(w) && w.app.panes == [Pane(Resource, ctx)] && ctx in w.dials && ctx !in w.app.pinned &&
             ctx !in w.app.clusters
    ensures Enabled(w, DialDone(ctx, true)) && w' == Step(w, DialDone(ctx, true)) && Inv(w')
    ensures w'.app.panes == w.app.panes && w'.app.pinned == w.app.pinned
    ensures w'.beats == w.beats + multiset{ctx}
    ensures forall other :: other != ctx && other !in w.app.clusters ==> other !in w'.app.clusters
  {
    w' := Step(w, DialDone(ctx, true));
    StepKeeps(w, DialDone(ctx, true));
    OneCmd(Heartbeat(ctx));
    SyncedFacts(Registered(w.app, ctx, true));
  }
}
