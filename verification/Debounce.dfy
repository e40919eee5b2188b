/**
  The debouncer (internal/k8s/debounce.go): one mutex-guarded timer slot per key.

  Timers are numbered in the order Trigger creates them, one per call. Slots is the guarded
  map together with what the runtime knows of every timer. World adds the lock's holder,
  step by step through its critical section, and the callbacks made: a timer may fire at
  any moment, also before the Trigger that created it has stored it.
 */
module Debounce {

  type Key = string

  /** Fired timers wait for the lock, then have won their slot or been skipped. */
  datatype Phase = Armed | Waiting | Won | Called | Stopped | Skipped

  datatype Timer = Timer(key: Key, phase: Phase)

  datatype Slots = Slots(timers: map<Key, nat>, all: seq<Timer>)

  // ---- the critical sections ----

  function SetPhase(s: Slots, t: nat, phase: Phase): (r: Slots)
    requires t < |s.all|
    ensures |r.all| == |s.all| && r.timers == s.timers
  {
    s.(all := s.all[t := s.all[t].(phase := phase)])
  }

  /** Time's Stop: it has no effect on a timer that has fired. */
  function StopTimer(s: Slots, t: nat): Slots {
    if t < |s.all| && s.all[t].phase.Armed? then SetPhase(s, t, Stopped) else s
  }

  function Cleared(s: Slots, key: Key): Slots {
    if key in s.timers then StopTimer(s, s.timers[key]).(timers := s.timers - {key}) else s
  }

  function NewTimer(s: Slots, key: Key): Slots { s.(all := s.all + [Timer(key, Armed)]) }

  function Stored(s: Slots, key: Key, t: nat): Slots { s.(timers := s.timers[key := t]) }

  /** The timer's own section: it keeps the right to call back if the slot is still its. */
  function Checked(s: Slots, t: nat): Slots
    requires t < |s.all|
  {
    var key := s.all[t].key;
    if key in s.timers && s.timers[key] == t then SetPhase(s, t, Won).(timers := s.timers - {key})
    else SetPhase(s, t, Skipped)
  }

  class Debouncer {
    var timers: map<Key, nat>
    var all: seq<Timer>       // the runtime's timers

    ghost function State(): Slots
      reads this
    {
      Slots(timers, all)
    }

    constructor ()
      ensures State() == Slots(map[], [])
    {
      timers, all := map[], [];
    }

    method StopOne(t: nat)
      modifies `all
      ensures State() == StopTimer(old(State()), t)
    {
      if t < |all| && all[t].phase.Armed? {
        all := all[t := all[t].(phase := Stopped)];
      }
    }

    method Trigger(key: Key)
      modifies this
      ensures State() == Stored(NewTimer(Cleared(old(State()), key), key), key, |old(all)|)
    {
      if key in timers {
        StopOne(timers[key]);
        timers := timers - {key};
      }
      var t := |all|;
      all := all + [Timer(key, Armed)];
      timers := timers[key := t];
    }

    method Cancel(key: Key)
      modifies this
      ensures State() == Cleared(old(State()), key)
    {
      if key in timers {
        StopOne(timers[key]);
        timers := timers - {key};
      }
    }

    method Stop()
      modifies this
      ensures timers == map[] && |all| == |old(all)|
      ensures forall t :: 0 <= t < |all| ==>
                all[t] ==
                  if t in old(timers).Values && old(all)[t].phase.Armed? then old(all)[t].(phase := Stopped)
                  else old(all)[t]
    {
      ghost var before, slots := all, timers;
      ghost var gone: set<nat> := {};
      while timers != map[]
        invariant timers.Keys <= slots.Keys && forall k :: k in timers ==> timers[k] == slots[k]
        invariant forall t :: t in slots.Values ==> t in gone || t in timers.Values
        invariant gone <= slots.Values
        invariant |all| == |before|
        invariant forall t :: 0 <= t < |all| ==>
                    all[t] == if t in gone && before[t].phase.Armed? then before[t].(phase := Stopped) else before[t]
        decreases timers.Keys
      {
        var k: Key :| k in timers;
        gone := gone + {timers[k]};
        StopOne(timers[k]);
        timers := timers - {k};
      }
    }

    /** The timer's function up to the callback; says whether to call back. */
    method TimerFunc(t: nat) returns (call: bool)
      requires t < |all|
      modifies this
      ensures State() == Checked(old(State()), t) && (call <==> all[t].phase == Won)
    {
      var key := all[t].key;
      if key in timers && timers[key] == t {
        timers := timers - {key};
        all := all[t := all[t].(phase := Won)];
        return true;
      }
      all := all[t := all[t].(phase := Skipped)];
      return false;
    }
  }

  // ---- everything that can happen ----

  datatype Holder =
    | Free
    | TriggerHeld(key: Key)
    | TriggerCleared(key: Key)
    | TriggerArmed(key: Key, t: nat)
    | CancelHeld(key: Key)
    | StopHeld
    | TimerHeld(t: nat)

  datatype World = World(s: Slots, lock: Holder, calls: seq<nat>)

  datatype Event =
    | LockTrigger(key: Key) | ClearOld | Arm | Store
    | LockCancel(key: Key) | CancelDone
    | LockStop | StopKey(key: Key) | StopDone
    | Fire(t: nat) | LockTimer(t: nat) | Check
    | Call(t: nat)

  predicate Enabled(w: World, e: Event) {
    match e
    case LockTrigger(_) => w.lock.Free?
    case ClearOld => w.lock.TriggerHeld?
    case Arm => w.lock.TriggerCleared?
    case Store => w.lock.TriggerArmed?
    case LockCancel(_) => w.lock.Free?
    case CancelDone => w.lock.CancelHeld?
    case LockStop => w.lock.Free?
    case StopKey(key) => w.lock.StopHeld? && key in w.s.timers
    case StopDone => w.lock.StopHeld? && w.s.timers == map[]
    case Fire(t) => t < |w.s.all| && w.s.all[t].phase.Armed?
    case LockTimer(t) => w.lock.Free? && t < |w.s.all| && w.s.all[t].phase.Waiting?
    case Check => w.lock.TimerHeld? && w.lock.t < |w.s.all|
    case Call(t) => t < |w.s.all| && w.s.all[t].phase.Won?
  }

  function Step(w: World, e: Event): World
    requires Enabled(w, e)
  {
    match e
    case LockTrigger(key) => w.(lock := TriggerHeld(key))
    case ClearOld => w.(s := Cleared(w.s, w.lock.key), lock := TriggerCleared(w.lock.key))
    case Arm => w.(s := NewTimer(w.s, w.lock.key), lock := TriggerArmed(w.lock.key, |w.s.all|))
    case Store => w.(s := Stored(w.s, w.lock.key, w.lock.t), lock := Free)
    case LockCancel(key) => w.(lock := CancelHeld(key))
    case CancelDone => w.(s := Cleared(w.s, w.lock.key), lock := Free)
    case LockStop => w.(lock := StopHeld)
    case StopKey(key) => w.(s := Cleared(w.s, key))
    case StopDone => w.(lock := Free)
    case Fire(t) => w.(s := SetPhase(w.s, t, Waiting))
    case LockTimer(t) => w.(lock := TimerHeld(t))
    case Check => w.(s := Checked(w.s, w.lock.t), lock := Free)
    case Call(t) => w.(s := SetPhase(w.s, t, Called), calls := w.calls + [t])
  }

  // ---- the invariant of every schedule ----

  predicate HasSlot(w: World, t: nat) {
    t < |w.s.all| && w.s.all[t].key in w.s.timers && w.s.timers[w.s.all[t].key] == t
  }

  predicate Storing(w: World, t: nat) { w.lock.TriggerArmed? && w.lock.t == t }

  predicate Live(p: Phase) { p.Armed? || p.Waiting? }

  /** Every slot holds a timer of its key that was neither stopped nor served. */
  ghost predicate SlotsRight(w: World) {
    forall k :: k in w.s.timers ==>
      && w.s.timers[k] < |w.s.all| && w.s.all[w.s.timers[k]].key == k
      && Live(w.s.all[w.s.timers[k]].phase)
  }

  /** An armed timer has its slot, or is about to be stored. */
  ghost predicate ArmedRight(w: World) {
    forall t :: 0 <= t < |w.s.all| && w.s.all[t].phase.Armed? ==> HasSlot(w, t) || Storing(w, t)
  }

  predicate LockRight(w: World) {
    match w.lock
    case TriggerCleared(key) => key !in w.s.timers
    case TriggerArmed(key, t) => key !in w.s.timers && t < |w.s.all| && w.s.all[t].key == key && Live(w.s.all[t].phase)
    case TimerHeld(t) => t < |w.s.all| && w.s.all[t].phase.Waiting?
    case _ => true
  }

  ghost predicate CallsRight(w: World) {
    && (forall i :: 0 <= i < |w.calls| ==> w.calls[i] < |w.s.all| && w.s.all[w.calls[i]].phase.Called?)
    && (forall i, j :: 0 <= i < j < |w.calls| ==> w.calls[i] != w.calls[j])
    && (forall t :: 0 <= t < |w.s.all| && w.s.all[t].phase.Called? ==> t in w.calls)
  }

  ghost predicate Inv(w: World) { SlotsRight(w) && ArmedRight(w) && LockRight(w) && CallsRight(w) }

  function Start(): World { World(Slots(map[], []), Free, []) }

  lemma SlotsKept(w: World, e: Event)
    requires Inv(w) && Enabled(w, e)
    ensures SlotsRight(Step(w, e))
  {
    hide CallsRight, ArmedRight;
  }

  lemma ArmedKept(w: World, e: Event)
    requires Inv(w) && Enabled(w, e)
    ensures ArmedRight(Step(w, e))
  {
    hide CallsRight;
  }

  lemma LockKept(w: World, e: Event)
    requires Inv(w) && Enabled(w, e)
    ensures LockRight(Step(w, e))
  {
    hide CallsRight;
  }

  lemma CallsKept(w: World, e: Event)
    requires Inv(w) && Enabled(w, e)
    ensures CallsRight(Step(w, e))
  {
    hide HasSlot, Storing, ArmedRight, SlotsRight;
    if !e.Call? {
      CalledStay(w, e);
      hide Step, LockRight;
    }
  }

  /** Only a call makes a timer a called one. */
  lemma CalledStay(w: World, e: Event)
    requires Inv(w) && Enabled(w, e) && !e.Call?
    ensures var w' := Step(w, e);
            && w'.calls == w.calls && |w.s.all| <= |w'.s.all|
            && forall t :: 0 <= t < |w'.s.all| && w'.s.all[t].phase.Called? <==>
               0 <= t < |w.s.all| && w.s.all[t].phase.Called?
  {
    hide HasSlot, Storing, ArmedRight, CallsRight;
  }

  lemma StepKeeps(w: World, e: Event)
    requires Inv(w) && Enabled(w, e)
    ensures Inv(Step(w, e))
  {
    SlotsKept(w, e);
    ArmedKept(w, e);
    LockKept(w, e);
    CallsKept(w, e);
    hide SlotsRight, ArmedRight, LockRight, CallsRight;
  }

  predicate Runs(w: World, es: seq<Event>)
    decreases |es|
  {
    es == [] || (Enabled(w, es[0]) && Runs(Step(w, es[0]), es[1..]))
  }

  function Run(w: World, es: seq<Event>): World
    requires Runs(w, es)
    decreases |es|
  {
    if es == [] then w else Run(Step(w, es[0]), es[1..])
  }

  lemma {:induction false} RunKeeps(w: World, es: seq<Event>)
    requires Inv(w) && Runs(w, es)
    ensures Inv(Run(w, es))
    decreases |es|
  {
    if es != [] {
      StepKeeps(w, es[0]);
      RunKeeps(Step(w, es[0]), es[1..]);
    }
  }

  /** Main result: under every schedule at most one timer of a key is armed, and every
      Trigger calls back at most once. */
  lemma {:induction false} OneTimerOneCall(es: seq<Event>, t: nat, u: nat)
    requires Runs(Start(), es)
    ensures var w := Run(Start(), es);
            && (t < |w.s.all| && u < |w.s.all| && t != u && w.s.all[t].key == w.s.all[u].key ==>
                 !(w.s.all[t].phase.Armed? && w.s.all[u].phase.Armed?))
            && forall i, j :: 0 <= i < j < |w.calls| ==> w.calls[i] != w.calls[j]
  {
    RunKeeps(Start(), es);
  }

  // ---- losing and keeping the slot ----

  /** A timer that lost its slot before it had the lock. */
  predicate Lost(w: World, t: nat) {
    t < |w.s.all| && !HasSlot(w, t) && !Storing(w, t) &&
    (w.s.all[t].phase.Armed? || w.s.all[t].phase.Waiting? || w.s.all[t].phase.Stopped? || w.s.all[t].phase.Skipped?)
  }

  lemma LostStays(w: World, e: Event, t: nat)
    requires Inv(w) && Enabled(w, e) && Lost(w, t)
    ensures Lost(Step(w, e), t) && e != Call(t)
  {
  }

  /** Main result: whatever took its slot, such a timer never calls back. */
  lemma {:induction false} LostNeverCalls(w: World, es: seq<Event>, t: nat)
    requires Inv(w) && Runs(w, es) && Lost(w, t)
    ensures Lost(Run(w, es), t) && t !in Run(w, es).calls && Call(t) !in es
    decreases |es|
  {
    if es != [] {
      LostStays(w, es[0], t);
      StepKeeps(w, es[0]);
      LostNeverCalls(Step(w, es[0]), es[1..], t);
    }
  }

  /** The event empties the slot of `key` by force. */
  predicate Clears(w: World, e: Event, key: Key) {
    match e
    case ClearOld => w.lock.TriggerHeld? && w.lock.key == key
    case CancelDone => w.lock.CancelHeld? && w.lock.key == key
    case StopKey(k) => k == key
    case _ => false
  }

  /** Clearing a held slot loses it for the timer that held it. */
  lemma ClearLoses(w: World, e: Event, t: nat)
    requires Inv(w) && Enabled(w, e) && HasSlot(w, t) && Clears(w, e, w.s.all[t].key)
    ensures Lost(Step(w, e), t)
  {
  }

  predicate Undisturbed(w: World, es: seq<Event>, key: Key)
    requires Runs(w, es)
    decreases |es|
  {
    es == [] || (!Clears(w, es[0], key) && Undisturbed(Step(w, es[0]), es[1..], key))
  }

  /** On its way to its callback: in its slot, or past the lock with the right to call. */
  predicate Bound(w: World, t: nat) {
    && t < |w.s.all|
    && match w.s.all[t].phase
       case Armed => HasSlot(w, t)
       case Waiting => HasSlot(w, t)
       case Won => true
       case Called => true
       case _ => false
  }

  lemma BoundStays(w: World, e: Event, t: nat)
    requires Inv(w) && Enabled(w, e) && Bound(w, t) && !Clears(w, e, w.s.all[t].key)
    ensures Bound(Step(w, e), t) && Step(w, e).s.all[t].key == w.s.all[t].key
  {
  }

  /** Main result: a Trigger that nothing clears ends in its callback. Its timer never stops
      and is never skipped, so once it has run and no step of it is left, it has called back,
      exactly once. */
  lemma {:induction false} LastTriggerCalls(w: World, es: seq<Event>, t: nat)
    requires Inv(w) && Bound(w, t) && Runs(w, es) && Undisturbed(w, es, w.s.all[t].key)
    ensures var w' := Run(w, es);
            && Bound(w', t)
            && (w'.s.all[t].phase.Called? <==> t in w'.calls)
            && (!Enabled(w', Fire(t)) && !Enabled(w', Call(t)) && !w'.s.all[t].phase.Waiting? ==> t in w'.calls)
            && forall i, j :: 0 <= i < j < |w'.calls| ==> w'.calls[i] != w'.calls[j]
    decreases |es|
  {
    if es != [] {
      BoundStays(w, es[0], t);
      StepKeeps(w, es[0]);
      LastTriggerCalls(Step(w, es[0]), es[1..], t);
    }
  }

  // ---- the lock is always given back ----

  lemma {:induction false} RunsNothing(w: World)
    ensures Runs(w, []) && Run(w, []) == w
  {
  }

  lemma {:induction false} RunsCons(w: World, e: Event, es: seq<Event>)
    ensures Runs(w, [e] + es) <==> Enabled(w, e) && Runs(Step(w, e), es)
    ensures Runs(w, [e] + es) ==> Run(w, [e] + es) == Run(Step(w, e), es)
  {
    assert ([e] + es)[1..] == es;
  }

  /** The steps its holder has to go. */
  function Left(w: World): nat {
    match w.lock
    case Free => 0
    case TriggerHeld(_) => 3
    case TriggerCleared(_) => 2
    case TriggerArmed(_, _) => 1
    case CancelHeld(_) => 1
    case StopHeld => |w.s.timers.Keys| + 1
    case TimerHeld(_) => 1
  }

  lemma {:induction false} HolderGoesOn(w: World) returns (e: Event)
    requires Inv(w) && !w.lock.Free?
    ensures Enabled(w, e) && Left(Step(w, e)) < Left(w)
  {
    hide SlotsRight, ArmedRight, CallsRight;
    match w.lock
    case TriggerHeld(_) => e := ClearOld;
    case TriggerCleared(_) => e := Arm;
    case TriggerArmed(_, _) => e := Store;
    case CancelHeld(_) => e := CancelDone;
    case StopHeld =>
      if w.s.timers == map[] {
        e := StopDone;
      } else {
        var key :| key in w.s.timers;
        e := StopKey(key);
        assert Step(w, e).s.timers.Keys == w.s.timers.Keys - {key};
      }
    case TimerHeld(_) => e := Check;
  }

  /** Main result on progress: whoever holds the lock can go on alone until it is free. */
  lemma {:induction false} LockComesFree(w: World) returns (es: seq<Event>)
    requires Inv(w)
    ensures Runs(w, es) && Run(w, es).lock.Free?
    decreases Left(w)
  {
    if w.lock.Free? {
      es := [];
    } else {
      var e := HolderGoesOn(w);
      StepKeeps(w, e);
      hide Inv, Step;
      var rest := LockComesFree(Step(w, e));
      es := [e] + rest;
      RunsCons(w, e, rest);
    }
  }
}
