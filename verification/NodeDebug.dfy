/**
  Node-debug terminals: the pre-flight that creates a pod and waits for it
  (internal/k8s/debug.go), the message that reports it, and the pane that owns it
  afterwards (internal/app/app.go, internal/app/commands.go).

  Session is what the update loop holds; a specification function gives what each handler
  does to it, and class TerminalApp holds the handlers themselves. World adds the
  pre-flights and the messages in flight.
 */
module NodeDebug {

  import opened Options

  /** Cleanup metadata of one pane. The pod is known once the pre-flight has reported it. */
  datatype Meta = Meta(pod: Option<nat>, cancellable: bool)

  /** The node-debug panes on screen by session id, how many other panes there are, and the
      deletes issued so far. `exited` panes are frozen; `crashed` is a nil dereference. */
  datatype Session = Session(
    panes: set<nat>, exited: set<nat>, others: nat, cleanup: map<nat, Meta>, terminals: set<nat>,
    deletes: multiset<nat>, crashed: bool)

  datatype Message = Failed | Ready(pod: nat)

  function SplitCount(s: Session): nat { |s.panes| + s.others }

  function Known(m: Meta): multiset<nat> { if m.pod.Some? then multiset{m.pod.value} else multiset{} }

  // ---- what the handlers do ----

  function Opened(s: Session, id: nat): Session {
    s.(panes := s.panes + {id}, cleanup := s.cleanup[id := Meta(None, true)])
  }

  /** closeTerminalSession: the pod is deleted if its name is known; otherwise the cancelled
      pre-flight is left to delete it. */
  function SessionClosed(s: Session, id: nat): Session {
    s.(terminals := s.terminals - {id}, cleanup := s.cleanup - {id},
       deletes := s.deletes + if id in s.cleanup then Known(s.cleanup[id]) else multiset{})
  }

  /** closeFocusedTerminal: the last split keeps its pane. */
  function Closed(s: Session, id: nat): Session {
    var s' := SessionClosed(s, id);
    if SplitCount(s) <= 1 then s' else s'.(panes := s.panes - {id})
  }

  function PaneFailed(s: Session, id: nat): Session {
    if SplitCount(s) <= 1 then s.(exited := s.exited + {id}) else s.(panes := s.panes - {id})
  }

  /** handleDebugReady. With a pane but no metadata the attach dereferences a nil client. */
  function Delivered(s: Session, id: nat, m: Message, attaches: bool): Session {
    if m.Failed? then
      var s' := s.(cleanup := s.cleanup - {id});
      if id in s.panes then PaneFailed(s', id) else s'
    else if id !in s.panes then
      s.(cleanup := s.cleanup - {id}, deletes := s.deletes + multiset{m.pod})
    else if id !in s.cleanup then
      s.(crashed := true)
    else if !attaches then
      PaneFailed(s.(cleanup := s.cleanup - {id}, deletes := s.deletes + multiset{m.pod}), id)
    else
      s.(cleanup := s.cleanup[id := Meta(Some(m.pod), false)], terminals := s.terminals + {id})
  }

  function PodSet(cleanup: map<nat, Meta>): set<nat> {
    set id | id in cleanup && cleanup[id].pod.Some? :: cleanup[id].pod.value
  }

  function KnownPods(cleanup: map<nat, Meta>): multiset<nat> { multiset(PodSet(cleanup)) }

  /** shutdownTerminals. */
  function ShutDown(s: Session): Session {
    s.(cleanup := map[], terminals := {}, deletes := s.deletes + KnownPods(s.cleanup))
  }

  /** No two panes know the same pod. */
  ghost predicate OwnPods(cleanup: map<nat, Meta>) {
    forall a, b :: a in cleanup && b in cleanup && a != b && cleanup[a].pod.Some? && cleanup[b].pod.Some? ==>
      cleanup[a].pod.value != cleanup[b].pod.value
  }

  class TerminalApp {
    var panes: set<nat>
    var exited: set<nat>
    var others: nat
    var cleanup: map<nat, Meta>
    var terminals: set<nat>
    var deletes: multiset<nat>
    var crashed: bool

    ghost function State(): Session
      reads this
    {
      Session(panes, exited, others, cleanup, terminals, deletes, crashed)
    }

    constructor (others: nat)
      ensures State() == Session({}, {}, others, map[], {}, multiset{}, false)
    {
      panes, exited, this.others, cleanup := {}, {}, others, map[];
      terminals, deletes, crashed := {}, multiset{}, false;
    }

    method OpenNodeDebugTerminal(id: nat)
      modifies `panes, `cleanup
      ensures State() == Opened(old(State()), id)
    {
      cleanup := cleanup[id := Meta(None, true)];
      panes := panes + {id};
    }

    method CloseTerminalSession(id: nat)
      modifies `terminals, `cleanup, `deletes
      ensures State() == SessionClosed(old(State()), id)
    {
      terminals := terminals - {id};
      if id in cleanup {
        var meta := cleanup[id];
        if meta.pod.Some? {
          deletes := deletes + multiset{meta.pod.value};
        }
      }
      cleanup := cleanup - {id};
    }

    method CloseFocusedTerminal(id: nat)
      modifies `panes, `terminals, `cleanup, `deletes
      ensures State() == Closed(old(State()), id)
    {
      if |panes| + others <= 1 {
        CloseTerminalSession(id);
        return;
      }
      CloseTerminalSession(id);
      panes := panes - {id};
    }

    method FailTerminalPane(id: nat)
      modifies `panes, `exited
      ensures State() == PaneFailed(old(State()), id)
    {
      if |panes| + others <= 1 {
        exited := exited + {id};
      } else {
        panes := panes - {id};
      }
    }

    method HandleDebugReady(id: nat, m: Message, attaches: bool)
      modifies `panes, `exited, `cleanup, `terminals, `deletes, `crashed
      ensures State() == Delivered(old(State()), id, m, attaches)
    {
      if m.Failed? {
        cleanup := cleanup - {id};
        if id in panes {
          FailTerminalPane(id);
        }
        return;
      }
      if id !in panes {
        deletes := deletes + multiset{m.pod};
        cleanup := cleanup - {id};
        return;
      }
      if id !in cleanup {
        crashed := true;
        return;
      }
      if !attaches {
        deletes := deletes + multiset{m.pod};
        cleanup := cleanup - {id};
        FailTerminalPane(id);
        return;
      }
      cleanup := cleanup[id := Meta(Some(m.pod), false)];
      terminals := terminals + {id};
    }

    method ShutdownTerminals()
      requires OwnPods(cleanup)
      modifies `cleanup, `terminals, `deletes
      ensures State() == ShutDown(old(State()))
    {
      hide KnownPods;
      ghost var before, issued := cleanup, deletes;
      var todo := cleanup.Keys;
      while todo != {}
        invariant todo == cleanup.Keys <= before.Keys
        invariant OwnPods(cleanup) && deletes + KnownPods(cleanup) == issued + KnownPods(before)
      {
        var id :| id in todo;
        var meta := cleanup[id];
        KnownWithout(cleanup, id);
        if meta.pod.Some? {
          deletes := deletes + multiset{meta.pod.value};
        }
        cleanup := cleanup - {id};
        todo := todo - {id};
      }
      NoneKnown(cleanup);
      terminals := {};
    }
  }

  lemma NoneKnown(cleanup: map<nat, Meta>)
    requires cleanup.Keys == {}
    ensures cleanup == map[] && KnownPods(cleanup) == multiset{}
  {
  }

  lemma KnownWithout(cleanup: map<nat, Meta>, id: nat)
    requires OwnPods(cleanup) && id in cleanup
    ensures KnownPods(cleanup) == KnownPods(cleanup - {id}) + Known(cleanup[id])
  {
    var own := if cleanup[id].pod.Some? then {cleanup[id].pod.value} else {};
    PodSetWithout(cleanup, id, own);
    assert multiset(own) == Known(cleanup[id]);
    hide *;
  }

  lemma PodSetWithout(cleanup: map<nat, Meta>, id: nat, own: set<nat>)
    requires OwnPods(cleanup) && id in cleanup
    requires own == if cleanup[id].pod.Some? then {cleanup[id].pod.value} else {}
    ensures PodSet(cleanup) == PodSet(cleanup - {id}) + own && PodSet(cleanup - {id}) !! own
    ensures KnownPods(cleanup) == KnownPods(cleanup - {id}) + multiset(own)
  {
    var a, b := PodSet(cleanup), PodSet(cleanup - {id});
    assert (cleanup - {id}).Keys + {id} == cleanup.Keys;
    assert a == b + own;
    assert b !! own;
    assert multiset(a) == multiset(b) + multiset(own) by {
      hide *;
    }
  }

  // ---- everything that can happen ----

  /** A pre-flight is creating its pod or waiting for it to run. */
  datatype Phase = Creating | Waiting(pod: nat)

  /** `made` remembers the pod each session's pre-flight created, `pods` every pod name used. */
  datatype World = World(
    app: Session, pre: map<nat, Phase>, inflight: map<nat, Message>,
    made: map<nat, nat>, pods: set<nat>, next: nat, quit: bool)

  datatype Event =
    | Open
    | Create(id: nat, pod: nat)     // the API server accepts the pod under a fresh name
    | CreateFails(id: nat)
    | Run(id: nat)                  // the container runs; the pre-flight reports its pod
    | WaitFails(id: nat)            // time-out, termination or cancellation
    | Deliver(id: nat, attaches: bool)
    | Close(id: nat)
    | OpenOther
    | CloseOther
    | Quit

  predicate Enabled(w: World, e: Event) {
    && !w.quit && !w.app.crashed
    && match e
       case Create(id, pod) => id in w.pre && w.pre[id].Creating? && pod !in w.pods
       case CreateFails(id) => id in w.pre && w.pre[id].Creating?
       case Run(id) => id in w.pre && w.pre[id].Waiting?
       case WaitFails(id) => id in w.pre && w.pre[id].Waiting?
       case Deliver(id, _) => id in w.inflight
       case Close(id) => id in w.app.panes
       case CloseOther => w.app.others > 0 && SplitCount(w.app) > 1
       case _ => true
  }

  function Step(w: World, e: Event): World
    requires Enabled(w, e)
  {
    match e
    case Open => w.(app := Opened(w.app, w.next), pre := w.pre[w.next := Creating], next := w.next + 1)
    case Create(id, pod) => w.(pre := w.pre[id := Waiting(pod)], made := w.made[id := pod], pods := w.pods + {pod})
    case CreateFails(id) => w.(pre := w.pre - {id}, inflight := w.inflight[id := Failed])
    case Run(id) => w.(pre := w.pre - {id}, inflight := w.inflight[id := Ready(w.pre[id].pod)])
    case WaitFails(id) =>
      w.(pre := w.pre - {id}, inflight := w.inflight[id := Failed],
         app := w.app.(deletes := w.app.deletes + multiset{w.pre[id].pod}))
    case Deliver(id, attaches) =>
      w.(inflight := w.inflight - {id}, app := Delivered(w.app, id, w.inflight[id], attaches))
    case Close(id) => w.(app := Closed(w.app, id))
    case OpenOther => w.(app := w.app.(others := w.app.others + 1))
    case CloseOther => w.(app := w.app.(others := w.app.others - 1))
    case Quit => w.(app := ShutDown(w.app), quit := true)
  }

  // ---- what becomes of the panes ----

  /** The pre-flight of session `id` ends without a terminal. */
  predicate Fails(w: World, e: Event) {
    && e.Deliver? && e.id in w.inflight && e.id in w.app.panes
    && (w.inflight[e.id].Failed? || (!e.attaches && e.id in w.app.cleanup))
  }

  /** A step takes away no pane but a closed or failed one, and never the last split: that one
      stays, frozen if it failed. */
  lemma {:induction false} PanesLeave(w: World, e: Event, id: nat)
    requires Enabled(w, e) && id in w.app.panes
    ensures id in Step(w, e).app.panes <==>
            !((e == Close(id) || (Fails(w, e) && e.id == id)) && SplitCount(w.app) > 1)
    ensures id !in w.app.exited ==>
              (id in Step(w, e).app.exited <==> Fails(w, e) && e.id == id && SplitCount(w.app) <= 1)
    ensures Step(w, e).app.others == w.app.others + (if e.OpenOther? then 1 else 0) - (if e.CloseOther? then 1 else 0)
  {
  }

  /** So a layout with a split is never without one. */
  lemma {:induction false} NeverEmpty(w: World, es: seq<Event>)
    requires Runs(w, es) && SplitCount(w.app) >= 1
    ensures SplitCount(After(w, es).app) >= 1
    decreases |es|
  {
    if es != [] {
      SplitStays(w, es[0]);
      hide Step, SplitCount;
      NeverEmpty(Step(w, es[0]), es[1..]);
    }
  }

  lemma {:induction false} SplitStays(w: World, e: Event)
    requires Enabled(w, e) && SplitCount(w.app) >= 1
    ensures SplitCount(Step(w, e).app) >= 1
  {
    if e.Open? {
      assert w.next in Step(w, e).app.panes;
    } else if e.Close? || e.Deliver? {
      assert w.app.panes - {e.id} == w.app.panes || |w.app.panes - {e.id}| == |w.app.panes| - 1;
    }
  }

  // ---- who owns a pod ----

  predicate PreOwns(w: World, id: nat) { id in w.pre && w.pre[id].Waiting? }

  predicate MessageOwns(w: World, id: nat) { id in w.inflight && w.inflight[id].Ready? }

  predicate EntryOwns(w: World, id: nat) { id in w.app.cleanup && w.app.cleanup[id].pod.Some? }

  function One(b: bool): nat { if b then 1 else 0 }

  /** Exactly one of the pre-flight, the message and the cleanup entry owns the session's
      pod, or exactly one delete has been issued for it. */
  ghost predicate ExactlyOnce(w: World, id: nat)
    requires id in w.made
  {
    One(PreOwns(w, id)) + One(MessageOwns(w, id)) + One(EntryOwns(w, id)) + w.app.deletes[w.made[id]] == 1
  }

  predicate Pending(w: World, id: nat) { id in w.pre || id in w.inflight }

  ghost predicate NamesRight(w: World, id: nat) {
    && (PreOwns(w, id) ==> id in w.made && w.made[id] == w.pre[id].pod)
    && (MessageOwns(w, id) ==> id in w.made && w.made[id] == w.inflight[id].pod)
    && (EntryOwns(w, id) ==> id in w.made && w.made[id] == w.app.cleanup[id].pod.value)
  }

  ghost predicate Tied(w: World, id: nat) {
    && !(id in w.pre && id in w.inflight)
    && (id in w.pre && w.pre[id].Creating? ==> id !in w.made)
    && (Pending(w, id) ==> !EntryOwns(w, id))
    && NamesRight(w, id)
    && (id in w.made ==> w.made[id] in w.pods && ExactlyOnce(w, id))
  }

  ghost predicate Distinct(made: map<nat, nat>) {
    forall a, b :: a in made && b in made && a != b ==> made[a] != made[b]
  }

  ghost predicate Books(w: World) {
    && (forall id :: Tied(w, id))
    && Distinct(w.made)
    && (forall p :: w.app.deletes[p] > 0 ==> p in w.pods)
  }

  /** Ids are fresh, and the metadata follows the panes. */
  ghost predicate Shape(w: World) {
    && (forall id :: id in w.pre || id in w.inflight || id in w.made || id in w.app.panes || id in w.app.cleanup ==>
        id < w.next)
    && (forall id :: id in w.app.cleanup ==> id in w.app.panes)
    && (forall id :: id in w.app.cleanup && w.app.cleanup[id].pod.None? ==> Pending(w, id))
    && (forall id :: id in w.app.terminals ==> EntryOwns(w, id))
  }

  ghost predicate Inv(w: World) { !w.app.crashed && Books(w) && Shape(w) }

  /** The panes whose pre-flight is out still have their metadata. */
  ghost predicate Attended(w: World) {
    forall id :: id in w.app.panes && Pending(w, id) ==> id in w.app.cleanup
  }

  function Start(others: nat): World {
    World(Session({}, {}, others, map[], {}, multiset{}, false), map[], map[], map[], {}, 0, false)
  }

  /** Delivering a message crashes exactly when it reports a pod, to a pane that is there, and
      the pane's metadata is not. */
  predicate Crashes(w: World, e: Event) {
    e.Deliver? && e.id in w.inflight && w.inflight[e.id].Ready? && e.id in w.app.panes && e.id !in w.app.cleanup
  }

  lemma CrashesExactly(w: World, e: Event)
    requires Inv(w) && Enabled(w, e)
    ensures Step(w, e).app.crashed <==> Crashes(w, e)
  {
  }

  /** The step that drops the metadata of a pane and keeps the pane: closing a lone split. */
  predicate Careless(w: World, e: Event) {
    e.Close? && SplitCount(w.app) <= 1 && Pending(w, e.id)
  }

  /** Nothing about session `id` differs between two worlds. */
  ghost predicate SameAt(w: World, w': World, id: nat) {
    && (id in w.pre <==> id in w'.pre) && (id in w.pre ==> w.pre[id] == w'.pre[id])
    && (id in w.inflight <==> id in w'.inflight) && (id in w.inflight ==> w.inflight[id] == w'.inflight[id])
    && (id in w.app.cleanup <==> id in w'.app.cleanup)
    && (id in w.app.cleanup ==> w.app.cleanup[id] == w'.app.cleanup[id])
    && (id in w.made <==> id in w'.made)
    && (id in w.made ==> w.made[id] == w'.made[id] && w.app.deletes[w.made[id]] == w'.app.deletes[w.made[id]])
    && w.pods <= w'.pods
  }

  /** The session an event is about. */
  function Who(w: World, e: Event): nat {
    match e
    case Create(id, _) => id
    case CreateFails(id) => id
    case Run(id) => id
    case WaitFails(id) => id
    case Deliver(id, _) => id
    case Close(id) => id
    case _ => w.next
  }

  lemma OthersSame(w: World, e: Event, id: nat)
    requires Inv(w) && Enabled(w, e) && !e.Quit? && id != Who(w, e)
    ensures SameAt(w, Step(w, e), id)
  {
    assert Tied(w, id) && Tied(w, Who(w, e));
  }

  lemma WhoTied(w: World, e: Event)
    requires Inv(w) && Enabled(w, e) && !Crashes(w, e) && !e.Quit?
    ensures Tied(Step(w, e), Who(w, e))
  {
    assert Tied(w, Who(w, e));
  }

  lemma NamesKept(w: World, e: Event)
    requires Inv(w) && Enabled(w, e) && !e.Quit?
    ensures var w' := Step(w, e); Distinct(w'.made) && forall p :: w'.app.deletes[p] > 0 ==> p in w'.pods
  {
    var w' := Step(w, e);
    assert Tied(w, Who(w, e));
    forall a, b | a in w'.made && b in w'.made && a != b ensures w'.made[a] != w'.made[b] {
      assert Tied(w, a) && Tied(w, b);
    }
  }

  lemma BooksKept(w: World, e: Event)
    requires Inv(w) && Enabled(w, e) && !Crashes(w, e) && !e.Quit?
    ensures Books(Step(w, e))
  {
    var w' := Step(w, e);
    forall id ensures Tied(w', id) {
      if id == Who(w, e) {
        WhoTied(w, e);
      } else {
        OthersSame(w, e, id);
        assert Tied(w, id);
      }
    }
    NamesKept(w, e);
  }

  lemma ShapeKept(w: World, e: Event)
    requires Inv(w) && Enabled(w, e) && !Crashes(w, e) && !e.Quit?
    ensures Shape(Step(w, e))
  {
    assert Tied(w, Who(w, e));
  }

  lemma AttendedKept(w: World, e: Event)
    requires Inv(w) && Attended(w) && Enabled(w, e)
    ensures !Crashes(w, e)
    ensures !Careless(w, e) && !e.Quit? ==> Attended(Step(w, e))
  {
    assert Tied(w, Who(w, e));
  }

  lemma QuitTied(w: World, id: nat)
    requires Inv(w) && Enabled(w, Quit)
    ensures Tied(Step(w, Quit), id)
  {
    assert Tied(w, id);
    if id in w.made && w.made[id] in PodSet(w.app.cleanup) {
      var x :| x in w.app.cleanup && w.app.cleanup[x].pod.Some? && w.app.cleanup[x].pod.value == w.made[id];
      assert Tied(w, x);
    }
    assert EntryOwns(w, id) ==> w.app.cleanup[id].pod.value in PodSet(w.app.cleanup);
  }

  lemma QuitBooks(w: World)
    requires Inv(w) && Enabled(w, Quit)
    ensures Books(Step(w, Quit))
  {
    var w' := Step(w, Quit);
    forall id ensures Tied(w', id) {
      QuitTied(w, id);
    }
    forall p | w'.app.deletes[p] > 0 ensures p in w'.pods {
      if p in PodSet(w.app.cleanup) {
        var x :| x in w.app.cleanup && w.app.cleanup[x].pod.Some? && w.app.cleanup[x].pod.value == p;
        assert Tied(w, x);
      }
    }
  }

  lemma {:induction false} StepKeeps(w: World, e: Event)
    requires Inv(w) && Enabled(w, e) && !Crashes(w, e)
    ensures Inv(Step(w, e))
  {
    CrashesExactly(w, e);
    if e.Quit? {
      QuitBooks(w);
    } else {
      hide Books, Shape;
      BooksKept(w, e);
      ShapeKept(w, e);
    }
  }

  /** A terminal is live exactly for a pane whose pod is known, and a pre-flight can be
      cancelled exactly as long as it is not. */
  ghost predicate LiveExactly(w: World) {
    && (forall id :: id in w.app.terminals <==> EntryOwns(w, id))
    && (forall id :: id in w.app.cleanup ==> (w.app.cleanup[id].cancellable <==> w.app.cleanup[id].pod.None?))
  }

  lemma {:induction false} LiveKept(w: World, e: Event)
    requires Inv(w) && LiveExactly(w) && Enabled(w, e) && !Crashes(w, e)
    ensures LiveExactly(Step(w, e))
  {
    if e.Deliver? {
      DeliveryLive(w, e.id, e.attaches);
    } else {
      hide Inv;
    }
  }

  lemma {:induction false} DeliveryLive(w: World, id: nat, attaches: bool)
    requires Inv(w) && LiveExactly(w) && Enabled(w, Deliver(id, attaches)) && !Crashes(w, Deliver(id, attaches))
    ensures LiveExactly(Step(w, Deliver(id, attaches)))
  {
    assert Tied(w, id) && !EntryOwns(w, id);
    hide Inv, Tied;
  }

  // ---- whole runs ----

  predicate Runs(w: World, es: seq<Event>)
    decreases |es|
  {
    es == [] || (Enabled(w, es[0]) && Runs(Step(w, es[0]), es[1..]))
  }

  function After(w: World, es: seq<Event>): World
    requires Runs(w, es)
    decreases |es|
  {
    if es == [] then w else After(Step(w, es[0]), es[1..])
  }

  /** No lone split is closed while its pre-flight is out. */
  predicate Careful(w: World, es: seq<Event>)
    requires Runs(w, es)
    decreases |es|
  {
    es == [] || (!Careless(w, es[0]) && Careful(Step(w, es[0]), es[1..]))
  }

  /** What a run comes to: no crash; every pod created has exactly one owner or exactly one
      delete; a pod whose pane is gone and whose pre-flight has reported has been deleted;
      the pod of a live terminal has not. */
  ghost predicate NoLeak(w: World) {
    && !w.app.crashed
    && (forall id :: id in w.made ==> ExactlyOnce(w, id))
    && (forall id :: id in w.made && id !in w.app.panes && !Pending(w, id) ==> w.app.deletes[w.made[id]] == 1)
    && (forall id :: id in w.app.terminals ==> id in w.made && w.app.deletes[w.made[id]] == 0)
    && (w.quit ==> forall id :: id in w.made && w.app.deletes[w.made[id]] == 0 ==> PreOwns(w, id) || MessageOwns(w, id))
  }

  lemma InvNoLeak(w: World)
    requires Inv(w) && (w.quit ==> w.app.cleanup == map[])
    ensures NoLeak(w)
  {
    forall id | id in w.made
      ensures ExactlyOnce(w, id)
      ensures id !in w.app.panes && !Pending(w, id) ==> w.app.deletes[w.made[id]] == 1
      ensures w.quit && w.app.deletes[w.made[id]] == 0 ==> PreOwns(w, id) || MessageOwns(w, id)
    {
      assert Tied(w, id);
    }
    forall id | id in w.app.terminals ensures id in w.made && w.app.deletes[w.made[id]] == 0 {
      assert Tied(w, id);
    }
  }

  /** No message of the run reports a pod to a pane that is there without its metadata. */
  predicate CrashFree(w: World, es: seq<Event>)
    requires Runs(w, es)
    decreases |es|
  {
    es == [] || (!Crashes(w, es[0]) && CrashFree(Step(w, es[0]), es[1..]))
  }

  lemma {:induction false} LeaksUnlessCrashFree(w: World, es: seq<Event>)
    requires Inv(w) && (w.quit ==> w.app.cleanup == map[]) && Runs(w, es)
    ensures NoLeak(After(w, es)) <==> CrashFree(w, es)
    decreases |es|
  {
    if es == [] {
      InvNoLeak(w);
    } else {
      var w', rest := Step(w, es[0]), es[1..];
      CrashesExactly(w, es[0]);
      if Crashes(w, es[0]) {
        assert rest == [];
      } else {
        StepKeeps(w, es[0]);
        hide Inv, NoLeak;
        LeaksUnlessCrashFree(w', rest);
      }
    }
  }

  /** Main result: over every interleaving from a fresh start, each pod has one owner or one
      delete, and nothing crashes, if and only if no message reports a pod to a pane that
      has lost its metadata. */
  lemma {:induction false} NoLeakExactly(others: nat, es: seq<Event>)
    requires Runs(Start(others), es)
    ensures NoLeak(After(Start(others), es)) <==> CrashFree(Start(others), es)
  {
    LeaksUnlessCrashFree(Start(others), es);
  }

  /** Every crash-free run keeps terminals and known pods together. */
  lemma {:induction false} TerminalsLive(w: World, es: seq<Event>)
    requires Inv(w) && LiveExactly(w) && Runs(w, es) && CrashFree(w, es)
    ensures LiveExactly(After(w, es))
    decreases |es|
  {
    if es != [] {
      LiveKept(w, es[0]);
      StepKeeps(w, es[0]);
      hide Inv, LiveExactly;
      TerminalsLive(Step(w, es[0]), es[1..]);
    }
  }

  lemma {:induction false} CarefulCrashFree(w: World, es: seq<Event>)
    requires Inv(w) && (Attended(w) || w.quit) && Runs(w, es) && Careful(w, es)
    ensures CrashFree(w, es)
    decreases |es|
  {
    if es != [] {
      AttendedKept(w, es[0]);
      StepKeeps(w, es[0]);
      hide Inv, Attended;
      CarefulCrashFree(Step(w, es[0]), es[1..]);
    }
  }

  /** So no pod leaks, none is deleted twice and nothing crashes as long as no lone split is
      closed while its pre-flight is out. */
  lemma {:induction false} NoPodLeaks(others: nat, es: seq<Event>)
    requires Runs(Start(others), es) && Careful(Start(others), es)
    ensures NoLeak(After(Start(others), es))
  {
    CarefulCrashFree(Start(others), es);
    NoLeakExactly(others, es);
  }

  lemma {:induction false} RunsNothing(w: World)
    ensures Runs(w, []) && After(w, []) == w && CrashFree(w, [])
  {
  }

  lemma {:induction false} RunsCons(w: World, e: Event, es: seq<Event>)
    ensures Runs(w, [e] + es) <==> Enabled(w, e) && Runs(Step(w, e), es)
    ensures Runs(w, [e] + es) ==> After(w, [e] + es) == After(Step(w, e), es)
  {
    assert ([e] + es)[1..] == es;
  }

  /** The metadata of session `id` is gone while its pod is on the way, its pane is there. */
  predicate Doomed(w: World, id: nat) {
    !w.quit && !w.app.crashed && id in w.app.panes && id !in w.app.cleanup && (id in w.pre || MessageOwns(w, id))
  }

  /** The pod of session `id` is there, and nothing is left that would delete it. */
  ghost predicate LostPod(w: World, id: nat) {
    && w.app.crashed && id in w.made && w.app.deletes[w.made[id]] == 0
    && !PreOwns(w, id) && !MessageOwns(w, id) && !EntryOwns(w, id)
  }

  lemma {:induction false} FreshPod(pods: set<nat>) returns (pod: nat)
    ensures forall p :: p in pods ==> p < pod
    decreases pods
  {
    pod := 0;
    if pods != {} {
      var p :| p in pods;
      var above := FreshPod(pods - {p});
      pod := if p < above then above else p + 1;
      assert forall q :: q in pods ==> q == p || q in pods - {p};
    }
  }

  lemma {:induction false} DoomedDelivers(w: World, id: nat, attaches: bool) returns (es: seq<Event>)
    requires Inv(w) && Doomed(w, id) && MessageOwns(w, id)
    ensures Runs(w, es) && LostPod(After(w, es), id)
  {
    var e := Deliver(id, attaches);
    assert Tied(w, id);
    es := [e] + [];
    RunsNothing(Step(w, e));
    RunsCons(w, e, []);
  }

  lemma {:induction false} DoomedRuns(w: World, id: nat, attaches: bool) returns (es: seq<Event>)
    requires Inv(w) && Doomed(w, id) && PreOwns(w, id)
    ensures Runs(w, es) && LostPod(After(w, es), id)
  {
    var e := Run(id);
    StepKeeps(w, e);
    hide Inv, LostPod;
    var rest := DoomedDelivers(Step(w, e), id, attaches);
    es := [e] + rest;
    RunsCons(w, e, rest);
  }

  lemma {:induction false} DoomedCreates(w: World, id: nat, attaches: bool) returns (es: seq<Event>)
    requires Inv(w) && Doomed(w, id) && id in w.pre && w.pre[id].Creating?
    ensures Runs(w, es) && LostPod(After(w, es), id)
  {
    var pod := FreshPod(w.pods);
    var e := Create(id, pod);
    StepKeeps(w, e);
    hide Inv, LostPod;
    var rest := DoomedRuns(Step(w, e), id, attaches);
    es := [e] + rest;
    RunsCons(w, e, rest);
  }

  /** A lone split closed while its pod is on the way, be it still to be created, leads to a
      crash that leaves the pod with no owner and no delete. */
  lemma {:induction false} LoneCloseLosesPod(w: World, id: nat, attaches: bool) returns (es: seq<Event>)
    requires Inv(w) && !w.quit && id in w.app.panes && SplitCount(w.app) <= 1
    requires id in w.pre || MessageOwns(w, id)
    ensures Runs(w, es) && es != [] && es[0] == Close(id) && Careless(w, es[0])
    ensures LostPod(After(w, es), id)
  {
    var e, w', rest := Close(id), Step(w, Close(id)), [];
    StepKeeps(w, e);
    hide Inv, LostPod;
    if MessageOwns(w', id) {
      rest := DoomedDelivers(w', id, attaches);
    } else if PreOwns(w', id) {
      rest := DoomedRuns(w', id, attaches);
    } else {
      rest := DoomedCreates(w', id, attaches);
    }
    es := [e] + rest;
    RunsCons(w, e, rest);
  }

  /** But not every such close does: here the pre-flight has failed. */
  lemma {:induction false} LoneCloseSpared()
    ensures var es := [Open, CreateFails(0), Close(0), Deliver(0, true)];
            Runs(Start(0), es) && !Careful(Start(0), es) && NoLeak(After(Start(0), es))
  {
    var w := Start(0);
    var e1, e2, e3, e4 := Open, CreateFails(0), Close(0), Deliver(0, true);
    var es3: seq<Event> := [e4] + [];
    var es2 := [e3] + es3;
    var es1 := [e2] + es2;
    var es := [e1] + es1;
    assert es == [Open, CreateFails(0), Close(0), Deliver(0, true)];
    var w1 := Step(w, e1);
    var w2 := Step(w1, e2);
    var w3 := Step(w2, e3);
    RunsNothing(Step(w3, e4));
    RunsCons(w3, e4, []);
    RunsCons(w2, e3, es3);
    RunsCons(w1, e2, es2);
    RunsCons(w, e1, es1);
    assert es[1..] == es1 && es1[1..] == es2 && es2[1..] == es3 && es3[1..] == [];
    NoLeakExactly(0, es);
  }
}
