/**
  Log streaming (internal/app/app.go): streams are started, stopped and restarted while
  their messages are still on the way, and a generation counter tells the stale ones.

  A stream is named by the generation that opened it, and so is its channel. Panel is what
  the update loop holds; World adds the commands and messages in flight and what every
  stream has sent.
 */
module LogStream {

  import opened Options

  /** `shown` is what the panel was given since the latest start, which opened `latest`. */
  datatype Panel = Panel(gen: nat, ch: Option<nat>, logMode: bool, latest: nat, shown: seq<string>)

  datatype Cmd = OpenCmd(gen: nat) | ReadCmd(ch: nat, gen: nat)

  // ---- what the handlers do ----

  function Stopped(p: Panel): Panel { p.(ch := None, gen := p.gen + 1) }

  /** Stops, then takes a generation of its own; without a client nothing is opened. */
  function Started(p: Panel, client: bool): (Panel, seq<Cmd>) {
    var g := p.gen + 2;
    (p.(ch := None, gen := g, latest := g, shown := []), if client then [OpenCmd(g)] else [])
  }

  function OnReady(p: Panel, gen: nat, ok: bool): (Panel, seq<Cmd>) {
    if gen == p.gen && ok then (p.(ch := Some(gen)), [ReadCmd(gen, gen)]) else (p, [])
  }

  function OnLine(p: Panel, gen: nat, line: string): (Panel, seq<Cmd>) {
    if gen != p.gen then (p, [])
    else (if p.logMode then p.(shown := p.shown + [line]) else p,
          if p.ch.Some? then [ReadCmd(p.ch.value, p.gen)] else [])
  }

  function OnEnd(p: Panel, gen: nat): Panel { if gen != p.gen then p else p.(ch := None) }

  class LogApp {
    var logStreamGen: nat
    var logCh: Option<nat>
    var logMode: bool
    var panel: seq<string>
    ghost var latest: nat
    ghost var base: nat       // the panel's length at the latest start

    ghost predicate Valid() reads this { base <= |panel| }

    ghost function State(): Panel
      requires Valid()
      reads this
    {
      Panel(logStreamGen, logCh, logMode, latest, panel[base..])
    }

    constructor ()
      ensures Valid() && State() == Panel(0, None, false, 0, [])
    {
      logStreamGen, logCh, logMode, panel := 0, None, false, [];
      latest, base := 0, 0;
    }

    method StopLogStream()
      requires Valid()
      modifies `logStreamGen, `logCh
      ensures Valid() && State() == Stopped(old(State()))
    {
      logCh := None;
      logStreamGen := logStreamGen + 1;
    }

    method StartLogStream(client: bool) returns (cmds: seq<Cmd>)
      requires Valid()
      modifies `logStreamGen, `logCh, `latest, `base
      ensures Valid() && (State(), cmds) == Started(old(State()), client) && panel == old(panel)
    {
      StopLogStream();
      logStreamGen := logStreamGen + 1;
      latest, base := logStreamGen, |panel|;
      assert panel[base..] == [];
      if !client {
        return [];
      }
      return [OpenCmd(logStreamGen)];
    }

    method LogStreamReadyMsg(gen: nat, ok: bool) returns (cmds: seq<Cmd>)
      requires Valid()
      modifies `logCh
      ensures Valid() && (State(), cmds) == OnReady(old(State()), gen, ok)
    {
      if gen != logStreamGen {
        return [];
      }
      if !ok {
        return [];
      }
      logCh := Some(gen);
      return [ReadCmd(gen, gen)];
    }

    method LogLineMsg(gen: nat, line: string) returns (cmds: seq<Cmd>)
      requires Valid()
      modifies `panel
      ensures Valid() && (State(), cmds) == OnLine(old(State()), gen, line)
    {
      if gen != logStreamGen {
        return [];
      }
      if logMode {
        panel := panel + [line];
        assert panel[base..] == old(panel[base..]) + [line];
      }
      if logCh.Some? {
        return [ReadCmd(logCh.value, logStreamGen)];
      }
      return [];
    }

    method LogStreamEndedMsg(gen: nat)
      requires Valid()
      modifies `logCh
      ensures Valid() && State() == OnEnd(old(State()), gen)
    {
      if gen != logStreamGen {
        return;
      }
      logCh := None;
    }
  }

  // ---- everything that can happen ----

  /** A command running, or a message on its way. */
  datatype Token =
    | Opening(gen: nat)
    | ReadyMsg(gen: nat, ok: bool)
    | Reading(ch: nat, gen: nat)
    | LineMsg(gen: nat, line: string)
    | EndMsg(gen: nat)

  /** `sent` is all a stream has sent so far, `read` how much of it was taken from the
      channel, `closed` the channels with nothing to come. `modes` records, for every line
      accepted since the latest start, whether the panel was in log mode. */
  datatype World = World(
    panel: Panel, tokens: multiset<Token>, sent: map<nat, seq<string>>, read: map<nat, nat>,
    closed: set<nat>, modes: seq<bool>)

  datatype Event =
    | Start(client: bool)
    | Stop
    | SetLogMode(on: bool)
    | Opened(gen: nat, ok: bool)
    | Send(gen: nat, line: string)
    | CloseChannel(gen: nat)
    | Receive(ch: nat, gen: nat)
    | Deliver(t: Token)

  function TokenOf(c: Cmd): Token {
    match c
    case OpenCmd(gen) => Opening(gen)
    case ReadCmd(ch, gen) => Reading(ch, gen)
  }

  function TokensOf(cmds: seq<Cmd>): multiset<Token> {
    if cmds == [] then multiset{} else multiset{TokenOf(cmds[0])} + TokensOf(cmds[1..])
  }

  predicate Enabled(w: World, e: Event) {
    match e
    case Opened(gen, _) => Opening(gen) in w.tokens
    case Send(gen, _) => gen in w.sent && gen !in w.closed
    case CloseChannel(gen) => gen in w.sent
    case Receive(ch, gen) =>
      && Reading(ch, gen) in w.tokens && ch in w.sent && ch in w.read
      && (w.read[ch] < |w.sent[ch]| || ch in w.closed)
    case Deliver(t) => t in w.tokens && (t.ReadyMsg? || t.LineMsg? || t.EndMsg?)
    case _ => true
  }

  function Step(w: World, e: Event): World
    requires Enabled(w, e)
  {
    match e
    case Start(client) =>
      var (p, cmds) := Started(w.panel, client);
      w.(panel := p, tokens := w.tokens + TokensOf(cmds), modes := [])
    case Stop => w.(panel := Stopped(w.panel))
    case SetLogMode(on) => w.(panel := w.panel.(logMode := on))
    case Opened(gen, ok) =>
      var w' := w.(tokens := w.tokens - multiset{Opening(gen)} + multiset{ReadyMsg(gen, ok)});
      if ok then w'.(sent := w.sent[gen := []], read := w.read[gen := 0]) else w'
    case Send(gen, line) => w.(sent := w.sent[gen := w.sent[gen] + [line]])
    case CloseChannel(gen) => w.(closed := w.closed + {gen})
    case Receive(ch, gen) =>
      if w.read[ch] < |w.sent[ch]| then
        w.(tokens := w.tokens - multiset{Reading(ch, gen)} + multiset{LineMsg(gen, w.sent[ch][w.read[ch]])},
           read := w.read[ch := w.read[ch] + 1])
      else
        w.(tokens := w.tokens - multiset{Reading(ch, gen)} + multiset{EndMsg(gen)})
    case Deliver(t) =>
      match t
      case ReadyMsg(gen, ok) =>
        var (p, cmds) := OnReady(w.panel, gen, ok);
        w.(panel := p, tokens := w.tokens - multiset{t} + TokensOf(cmds))
      case LineMsg(gen, line) =>
        var (p, cmds) := OnLine(w.panel, gen, line);
        w.(panel := p, tokens := w.tokens - multiset{t} + TokensOf(cmds),
           modes := if gen == w.panel.gen then w.modes + [w.panel.logMode] else w.modes)
      case EndMsg(gen) => w.(panel := OnEnd(w.panel, gen), tokens := w.tokens - multiset{t})
      case _ => w
  }

  // ---- the invariant of every run ----

  /** Those of the first |modes| lines whose mode is set. */
  function Picked(lines: seq<string>, modes: seq<bool>): (r: seq<string>)
    requires |modes| <= |lines|
    decreases |modes|
  {
    if modes == [] then []
    else
      var k := |modes| - 1;
      Picked(lines, modes[..k]) + if modes[k] then [lines[k]] else []
  }

  lemma {:induction false} PickedGrows(lines: seq<string>, more: seq<string>, modes: seq<bool>)
    requires |modes| <= |lines|
    ensures Picked(lines + more, modes) == Picked(lines, modes)
    decreases |modes|
  {
    if modes != [] {
      PickedGrows(lines, more, modes[..|modes| - 1]);
    }
  }

  lemma {:induction false} PickedAll(lines: seq<string>, modes: seq<bool>)
    requires |modes| <= |lines| && forall i :: 0 <= i < |modes| ==> modes[i]
    ensures Picked(lines, modes) == lines[..|modes|]
    decreases |modes|
  {
    if modes != [] {
      PickedAll(lines, modes[..|modes| - 1]);
      assert lines[..|modes|] == lines[..|modes| - 1] + [lines[|modes| - 1]];
    } else {
      assert lines[..0] == [];
    }
  }

  /** One token a generation: the stream is being opened, or its one read chain goes on. */
  ghost predicate OneChain(w: World) {
    && (forall t :: w.tokens[t] <= 1)
    && (forall t, u :: t in w.tokens && u in w.tokens && t.gen == u.gen ==> t == u)
    && (forall t :: t in w.tokens ==> t.gen <= w.panel.gen)
  }

  /** What each token says is so. */
  ghost predicate Honest(w: World, t: Token) {
    match t
    case Opening(g) => g !in w.sent && g !in w.read
    case ReadyMsg(g, ok) => ok ==> g in w.sent && g in w.read && w.read[g] == 0
    case Reading(c, g) => c == g
    case LineMsg(g, line) =>
      g in w.sent && g in w.read && 0 < w.read[g] <= |w.sent[g]| && line == w.sent[g][w.read[g] - 1]
    case EndMsg(g) => g in w.sent && g in w.read && g in w.closed && w.read[g] == |w.sent[g]|
  }

  predicate InChain(w: World, t: Token) { t in w.tokens && t.gen == w.panel.gen && Chain(t) }

  predicate Chain(t: Token) { t.Reading? || t.LineMsg? || t.EndMsg? }

  /** How far the accepted lines are when `t` belongs to the current generation. */
  ghost predicate Placed(w: World, t: Token) {
    && w.panel.latest == w.panel.gen
    && (Chain(t) <==> w.panel.ch.Some?)
    && match t
       case Opening(g) => w.modes == []
       case ReadyMsg(g, _) => w.modes == []
       case Reading(_, g) => g in w.read && |w.modes| == w.read[g]
       case LineMsg(g, _) => g in w.read && |w.modes| + 1 == w.read[g]
       case EndMsg(g) => g in w.read && |w.modes| == w.read[g]
  }

  ghost predicate TokenOk(w: World, t: Token) {
    Honest(w, t) && (t.gen == w.panel.gen ==> Placed(w, t))
  }

  /** A channel in use belongs to the current generation, and something is reading it. */
  ghost predicate ChainAlive(w: World) {
    w.panel.ch.Some? ==>
      && w.panel.ch.value == w.panel.gen && w.panel.gen in w.sent
      && exists t :: InChain(w, t)
  }

  ghost predicate Channels(w: World) {
    && (forall g :: g in w.sent <==> g in w.read)
    && (forall g :: g in w.sent ==> w.read[g] <= |w.sent[g]| && g <= w.panel.gen)
  }

  /** The panel shows those of the lines accepted from the latest stream that came while it
      was in log mode, and they were the stream's first lines. */
  ghost predicate Faithful(w: World) {
    && w.panel.latest <= w.panel.gen
    && (if w.panel.latest in w.sent && w.panel.latest in w.read then
          |w.modes| <= w.read[w.panel.latest] && |w.modes| <= |w.sent[w.panel.latest]|
          && w.panel.shown == Picked(w.sent[w.panel.latest], w.modes)
        else w.modes == [] && w.panel.shown == [])
  }

  ghost predicate Inv(w: World) {
    OneChain(w) && Channels(w) && (forall t :: t in w.tokens ==> TokenOk(w, t)) && ChainAlive(w) && Faithful(w)
  }

  function Init(): World {
    World(Panel(0, None, false, 0, []), multiset{}, map[], map[], {}, [])
  }

  lemma OneToken(c: Cmd)
    ensures TokensOf([c]) == multiset{TokenOf(c)} && TokensOf([]) == multiset{}
  {
    assert [c][1..] == [];
  }

  lemma StartTokens(w: World, client: bool)
    requires OneChain(w)
    ensures var w' := Step(w, Start(client));
            && OneChain(w')
            && forall v :: v in w'.tokens <==> v in w.tokens || (client && v == Opening(w.panel.gen + 2))
  {
    OneToken(OpenCmd(w.panel.gen + 2));
    hide TokensOf;
  }

  lemma StartKeeps(w: World, client: bool)
    requires Inv(w)
    ensures Inv(Step(w, Start(client)))
  {
    var w' := Step(w, Start(client));
    StartTokens(w, client);
    assert forall v :: v in w.tokens ==> v.gen <= w.panel.gen;
    hide Picked, TokensOf, OneChain, Chain;
    assert Channels(w') && Faithful(w');
    forall v | v in w'.tokens ensures TokenOk(w', v) {
      assert v in w.tokens ==> TokenOk(w, v);
    }
  }

  lemma QuietKeeps(w: World, e: Event)
    requires Inv(w) && Enabled(w, e) && (e.Stop? || e.SetLogMode? || e.CloseChannel?)
    ensures Inv(Step(w, e))
  {
    hide Picked, TokensOf;
    if w.panel.ch.Some? && !e.Stop? {
      var v :| InChain(w, v);
      assert InChain(Step(w, e), v);
    }
  }

  /** A token is replaced by the next one of its generation. */
  lemma Swapped(w: World, w': World, t: Token, u: Token)
    requires OneChain(w) && t in w.tokens && u.gen == t.gen && w'.panel.gen == w.panel.gen
    requires w'.tokens == w.tokens - multiset{t} + multiset{u}
    ensures OneChain(w')
    ensures forall v :: v in w'.tokens <==> v == u || (v in w.tokens && v.gen != t.gen)
  {
  }

  lemma Dropped(w: World, w': World, t: Token)
    requires OneChain(w) && t in w.tokens && w'.panel.gen == w.panel.gen
    requires w'.tokens == w.tokens - multiset{t}
    ensures OneChain(w')
    ensures forall v :: v in w'.tokens <==> v in w.tokens && v.gen != t.gen
  {
  }

  /** Nothing that bears on the tokens of generation `g` differs between two worlds. */
  ghost predicate SameStream(w: World, w': World, g: nat) {
    && (g in w.sent <==> g in w'.sent) && (g in w.sent ==> w.sent[g] == w'.sent[g])
    && (g in w.read <==> g in w'.read) && (g in w.read ==> w.read[g] == w'.read[g])
    && w.closed <= w'.closed && w.panel.gen == w'.panel.gen
    && (g == w.panel.gen ==> w.panel.latest == w'.panel.latest && w.panel.ch == w'.panel.ch && |w.modes| == |w'.modes|)
  }

  lemma OtherToken(w: World, w': World, v: Token)
    requires TokenOk(w, v) && SameStream(w, w', v.gen)
    ensures TokenOk(w', v)
  {
  }

  lemma OpenedFaithful(w: World, e: Event)
    requires Inv(w) && Enabled(w, e) && e.Opened?
    ensures Channels(Step(w, e)) && Faithful(Step(w, e)) && TokenOk(Step(w, e), ReadyMsg(e.gen, e.ok))
    ensures forall g :: g != e.gen ==> SameStream(w, Step(w, e), g)
  {
    assert TokenOk(w, Opening(e.gen));
    assert e.gen <= w.panel.gen;
    assert Picked([], []) == [];
    hide Picked, TokensOf, OneChain, ChainAlive;
  }

  lemma OpenedKeeps(w: World, e: Event)
    requires Inv(w) && Enabled(w, e) && e.Opened?
    ensures Inv(Step(w, e))
  {
    var t, u, w' := Opening(e.gen), ReadyMsg(e.gen, e.ok), Step(w, e);
    Swapped(w, w', t, u);
    OpenedFaithful(w, e);
    assert TokenOk(w, t);
    AliveKept(w, w', t);
    hide Faithful, TokenOk, OneChain, Channels, ChainAlive, SameStream, Step;
    forall v | v in w'.tokens ensures TokenOk(w', v) {
      if v != u {
        OtherToken(w, w', v);
      }
    }
  }

  /** The chain of the current generation is not the token's. */
  lemma AliveKept(w: World, w': World, t: Token)
    requires ChainAlive(w) && w'.panel.gen == w.panel.gen && w'.panel.ch == w.panel.ch && w.sent.Keys <= w'.sent.Keys
    requires forall v :: v in w.tokens && v.gen != t.gen ==> v in w'.tokens
    requires OneChain(w) && t in w.tokens && !InChain(w, t)
    ensures ChainAlive(w')
  {
    if w.panel.ch.Some? {
      var v :| InChain(w, v);
      assert v.gen != t.gen;
      assert InChain(w', v);
    }
  }

  lemma SendFaithful(w: World, e: Event)
    requires Inv(w) && Enabled(w, e) && e.Send?
    ensures var w' := Step(w, e);
            Channels(w') && Faithful(w') && w'.tokens == w.tokens && w'.panel == w.panel && w'.sent.Keys == w.sent.Keys
  {
    if e.gen == w.panel.latest {
      PickedGrows(w.sent[e.gen], [e.line], w.modes);
    }
    hide Picked, TokensOf, OneChain, TokenOk, ChainAlive;
  }

  lemma SendKeeps(w: World, e: Event)
    requires Inv(w) && Enabled(w, e) && e.Send?
    ensures Inv(Step(w, e))
  {
    var w' := Step(w, e);
    SendFaithful(w, e);
    hide Faithful, OneChain, Channels, Chain;
    assert OneChain(w') && ChainAlive(w') by {
      SameTokens(w, w');
      hide Step, TokenOk;
      if w.panel.ch.Some? {
        var v :| InChain(w, v);
        assert InChain(w', v);
      }
    }
    hide ChainAlive;
    forall v | v in w'.tokens ensures TokenOk(w', v) {
      assert TokenOk(w, v);
    }
  }

  lemma SameTokens(w: World, w': World)
    requires OneChain(w) && w'.tokens == w.tokens && w'.panel.gen == w.panel.gen
    ensures OneChain(w')
  {
  }

  lemma ReceiveFaithful(w: World, e: Event, u: Token)
    requires Inv(w) && Enabled(w, e) && e.Receive?
    requires u == if w.read[e.ch] < |w.sent[e.ch]| then LineMsg(e.gen, w.sent[e.ch][w.read[e.ch]]) else EndMsg(e.gen)
    ensures Channels(Step(w, e)) && Faithful(Step(w, e)) && TokenOk(Step(w, e), u)
    ensures forall g :: g != e.gen ==> SameStream(w, Step(w, e), g)
  {
    assert TokenOk(w, Reading(e.ch, e.gen));
    hide Picked, TokensOf, OneChain, ChainAlive;
  }

  lemma ReceiveTokens(w: World, e: Event, u: Token)
    requires Inv(w) && Enabled(w, e) && e.Receive?
    requires u == if w.read[e.ch] < |w.sent[e.ch]| then LineMsg(e.gen, w.sent[e.ch][w.read[e.ch]]) else EndMsg(e.gen)
    ensures OneChain(Step(w, e)) && Channels(Step(w, e)) && Faithful(Step(w, e))
    ensures forall v :: v in Step(w, e).tokens ==> TokenOk(Step(w, e), v)
    ensures forall v :: v in Step(w, e).tokens <==> v == u || (v in w.tokens && v.gen != e.gen)
  {
    var t, w' := Reading(e.ch, e.gen), Step(w, e);
    Swapped(w, w', t, u);
    ReceiveFaithful(w, e, u);
    hide Faithful, TokenOk, OneChain, Channels, ChainAlive, SameStream, Step;
    forall v | v in w'.tokens ensures TokenOk(w', v) {
      if v != u {
        OtherToken(w, w', v);
      }
    }
  }

  lemma ReceiveKeeps(w: World, e: Event)
    requires Inv(w) && Enabled(w, e) && e.Receive?
    ensures Inv(Step(w, e))
  {
    var t, w' := Reading(e.ch, e.gen), Step(w, e);
    assert TokenOk(w, t);
    var u := if w.read[e.ch] < |w.sent[e.ch]| then LineMsg(e.gen, w.sent[e.ch][w.read[e.ch]]) else EndMsg(e.gen);
    ReceiveTokens(w, e, u);
    hide Picked, TokensOf, OneChain, Faithful, Channels, TokenOk;
    if e.gen == w.panel.gen {
      assert InChain(w', u);
    } else {
      AliveKept(w, w', t);
    }
  }

  lemma ReadyFaithful(w: World, gen: nat)
    requires Inv(w) && Enabled(w, Deliver(ReadyMsg(gen, true))) && gen == w.panel.gen
    ensures var t, w' := ReadyMsg(gen, true), Step(w, Deliver(ReadyMsg(gen, true)));
            && Channels(w') && Faithful(w') && TokenOk(w', Reading(gen, gen))
            && t in w.tokens && w'.tokens == w.tokens - multiset{t} + multiset{Reading(gen, gen)}
            && w'.panel.gen == gen && gen in w'.sent && (w'.panel.ch.Some? ==> w'.panel.ch.value == gen)
            && forall g :: g != gen ==> SameStream(w, w', g)
  {
    assert TokenOk(w, ReadyMsg(gen, true));
    OneToken(ReadCmd(gen, gen));
    hide Picked, TokensOf, OneChain;
  }

  lemma ReadyKeeps(w: World, gen: nat, ok: bool)
    requires Inv(w) && Enabled(w, Deliver(ReadyMsg(gen, ok)))
    ensures Inv(Step(w, Deliver(ReadyMsg(gen, ok))))
  {
    var t := ReadyMsg(gen, ok);
    var w' := Step(w, Deliver(t));
    OneToken(ReadCmd(gen, gen));
    assert TokenOk(w, t);
    if gen == w.panel.gen && ok {
      ReadyFaithful(w, gen);
      hide Faithful, TokenOk, OneChain, Channels, ChainAlive, SameStream, Step, Picked, TokensOf;
      Swapped(w, w', t, Reading(gen, gen));
      forall v | v in w'.tokens ensures TokenOk(w', v) {
        if v != Reading(gen, gen) {
          OtherToken(w, w', v);
        }
      }
      ReadingAlive(w', gen);
    } else {
      Dropped(w, w', t);
      AliveKept(w, w', t);
      DropKeeps(w, w', t);
    }
  }

  /** A token goes and nothing else happens. */
  lemma DropKeeps(w: World, w': World, t: Token)
    requires Inv(w) && t in w.tokens && w' == w.(tokens := w.tokens - multiset{t}) && ChainAlive(w')
    ensures Inv(w')
  {
    Dropped(w, w', t);
    hide Picked, OneChain, ChainAlive;
    assert Channels(w') && Faithful(w');
    forall v | v in w'.tokens ensures TokenOk(w', v) {
      assert TokenOk(w, v);
    }
  }

  lemma StaleKeeps(w: World, t: Token)
    requires Inv(w) && Enabled(w, Deliver(t)) && t.gen != w.panel.gen
    ensures Inv(Step(w, Deliver(t)))
  {
    OneToken(ReadCmd(0, 0));
    var w' := Step(w, Deliver(t));
    Dropped(w, w', t);
    AliveKept(w, w', t);
    assert w' == w.(tokens := w.tokens - multiset{t});
    hide *;
    DropKeeps(w, w', t);
  }

  lemma {:induction false} PickedNext(lines: seq<string>, modes: seq<bool>, mode: bool)
    requires |modes| < |lines|
    ensures Picked(lines, modes + [mode]) == Picked(lines, modes) + if mode then [lines[|modes|]] else []
  {
    assert (modes + [mode])[..|modes|] == modes;
  }

  lemma LineKeeps(w: World, gen: nat, line: string)
    requires Inv(w) && Enabled(w, Deliver(LineMsg(gen, line))) && gen == w.panel.gen
    ensures Inv(Step(w, Deliver(LineMsg(gen, line))))
  {
    var t, w' := LineMsg(gen, line), Step(w, Deliver(LineMsg(gen, line)));
    LineFaithful(w, gen, line);
    hide Faithful, TokenOk, OneChain, Channels, ChainAlive, SameStream, Step, Picked, TokensOf;
    Swapped(w, w', t, Reading(gen, gen));
    forall v | v in w'.tokens ensures TokenOk(w', v) {
      if v != Reading(gen, gen) {
        OtherToken(w, w', v);
      }
    }
    ReadingAlive(w', gen);
  }

  lemma LineFaithful(w: World, gen: nat, line: string)
    requires Inv(w) && Enabled(w, Deliver(LineMsg(gen, line))) && gen == w.panel.gen
    ensures var t, w' := LineMsg(gen, line), Step(w, Deliver(LineMsg(gen, line)));
            && Channels(w') && Faithful(w') && TokenOk(w', Reading(gen, gen))
            && t in w.tokens && w'.tokens == w.tokens - multiset{t} + multiset{Reading(gen, gen)}
            && w'.panel.gen == gen && gen in w'.sent && (w'.panel.ch.Some? ==> w'.panel.ch.value == gen)
            && forall g :: g != gen ==> SameStream(w, w', g)
  {
    assert TokenOk(w, LineMsg(gen, line));
    OneToken(ReadCmd(gen, gen));
    PickedNext(w.sent[gen], w.modes, w.panel.logMode);
    hide Picked, TokensOf, OneChain;
  }

  lemma ReadingAlive(w: World, gen: nat)
    requires Reading(gen, gen) in w.tokens && gen == w.panel.gen && gen in w.sent &&
             (w.panel.ch.Some? ==> w.panel.ch.value == gen)
    ensures ChainAlive(w)
  {
    assert InChain(w, Reading(gen, gen));
  }

  lemma EndKeeps(w: World, gen: nat)
    requires Inv(w) && Enabled(w, Deliver(EndMsg(gen))) && gen == w.panel.gen
    ensures Inv(Step(w, Deliver(EndMsg(gen))))
    ensures w.panel.latest == gen && gen in w.sent && w.panel.shown == Picked(w.sent[gen], w.modes) &&
            |w.modes| == |w.sent[gen]|
  {
    var t, w' := EndMsg(gen), Step(w, Deliver(EndMsg(gen)));
    assert TokenOk(w, t);
    Dropped(w, w', t);
    EndFaithful(w, gen);
    hide Faithful, TokenOk, OneChain, Channels, ChainAlive, SameStream, Step, Picked;
    forall v | v in w'.tokens ensures TokenOk(w', v) {
      OtherToken(w, w', v);
    }
  }

  lemma EndFaithful(w: World, gen: nat)
    requires Inv(w) && Enabled(w, Deliver(EndMsg(gen))) && gen == w.panel.gen
    ensures var w' := Step(w, Deliver(EndMsg(gen)));
            Channels(w') && Faithful(w') && ChainAlive(w') && forall g :: g != gen ==> SameStream(w, w', g)
    ensures w.panel.latest == gen && gen in w.sent && w.panel.shown == Picked(w.sent[gen], w.modes) &&
            |w.modes| == |w.sent[gen]|
  {
    assert TokenOk(w, EndMsg(gen));
    hide Picked, TokensOf, OneChain;
  }

  lemma {:induction false} StepKeeps(w: World, e: Event)
    requires Inv(w) && Enabled(w, e)
    ensures Inv(Step(w, e))
  {
    match e
    case Start(client) => StartKeeps(w, client);
    case Opened(_, _) => OpenedKeeps(w, e);
    case Send(_, _) => SendKeeps(w, e);
    case Receive(_, _) => ReceiveKeeps(w, e);
    case Deliver(t) =>
      if t.gen != w.panel.gen {
        StaleKeeps(w, t);
      } else {
        match t
        case ReadyMsg(gen, ok) => ReadyKeeps(w, gen, ok);
        case LineMsg(gen, line) => LineKeeps(w, gen, line);
        case EndMsg(gen) => EndKeeps(w, gen);
        case _ =>
      }
    case _ => QuietKeeps(w, e);
  }

  // ---- whole runs ----

  predicate Runs(w: World, es: seq<Event>)
    decreases |es|
  {
    es == [] || (Enabled(w, es[0]) && Runs(Step(w, es[0]), es[1..]))
  }

  function Run(w: World, es: seq<Event>): World
    requires Runs(w, es)
    decreases |es|
  {
    if es == [] then w else Run(Step(w, es[0]), es[1..])
  }

  lemma {:induction false} RunKeeps(w: World, es: seq<Event>)
    requires Inv(w) && Runs(w, es)
    ensures Inv(Run(w, es))
    decreases |es|
  {
    if es != [] {
      StepKeeps(w, es[0]);
      RunKeeps(Step(w, es[0]), es[1..]);
    }
  }

  /** Main result, over every interleaving. At most one token of any generation is out, so
      the current stream has one read chain at most, and one exactly while its channel is in
      use. The panel shows lines of the latest stream only, each once and in order: those of
      its first lines that came while the panel was in log mode, a prefix if it always was. */
  lemma {:induction false} OneChainOneStream(es: seq<Event>)
    requires Runs(Init(), es)
    ensures var w := Run(Init(), es);
            && (forall t :: w.tokens[t] <= 1)
            && (forall t, u :: t in w.tokens && u in w.tokens && t.gen == u.gen ==> t == u)
            && (w.panel.ch.Some? ==> exists t :: InChain(w, t))
            && (w.panel.latest in w.sent ==>
                 && |w.modes| <= |w.sent[w.panel.latest]|
                 && w.panel.shown == Picked(w.sent[w.panel.latest], w.modes)
                 && ((forall i :: 0 <= i < |w.modes| ==> w.modes[i]) ==> w.panel.shown <= w.sent[w.panel.latest]))
            && (w.panel.latest !in w.sent ==> w.panel.shown == [])
  {
    assert Inv(Init()) by {
      assert Picked([], []) == [];
    }
    RunKeeps(Init(), es);
    var w := Run(Init(), es);
    if w.panel.latest in w.sent && forall i :: 0 <= i < |w.modes| ==> w.modes[i] {
      PickedAll(w.sent[w.panel.latest], w.modes);
    }
  }

  /** When the end of the current stream is delivered, nothing of it was lost: in log mode
      all along, the panel shows all of it. */
  lemma EndsComplete(w: World, gen: nat)
    requires Inv(w) && Enabled(w, Deliver(EndMsg(gen))) && gen == w.panel.gen
    requires forall i :: 0 <= i < |w.modes| ==> w.modes[i]
    ensures gen in w.sent && w.panel.shown == w.sent[gen]
  {
    EndKeeps(w, gen);
    PickedAll(w.sent[gen], w.modes);
    assert w.sent[gen][..|w.modes|] == w.sent[gen];
  }

  // ---- nothing gets stuck ----

  lemma {:induction false} RunsNothing(w: World)
    ensures Runs(w, []) && Run(w, []) == w
  {
  }

  lemma {:induction false} RunsCons(w: World, e: Event, es: seq<Event>)
    ensures Runs(w, [e] + es) <==> Enabled(w, e) && Runs(Step(w, e), es)
    ensures Runs(w, [e] + es) ==> Run(w, [e] + es) == Run(Step(w, e), es)
  {
    assert ([e] + es)[1..] == es;
  }

  /** Every line accepted so far came in log mode. */
  predicate InLogMode(w: World) { w.panel.logMode && forall i :: 0 <= i < |w.modes| ==> w.modes[i] }

  /** What is left to do for a stream that has been closed. */
  function Left(w: World, t: Token): nat {
    var g := t.gen;
    if t.EndMsg? || g !in w.sent || g !in w.read || w.read[g] > |w.sent[g]| then 1
    else 2 * (|w.sent[g]| - w.read[g]) + if t.Reading? then 2 else 3
  }

  /** The token of the current stream. */
  ghost predicate Current(w: World, t: Token) {
    && InChain(w, t) && w.panel.ch == Some(t.gen) && t.gen in w.sent && t.gen in w.read
    && w.read[t.gen] <= |w.sent[t.gen]| && (t.Reading? ==> t.ch == t.gen)
  }

  lemma {:induction false} IsCurrent(w: World, t: Token)
    requires Inv(w) && InChain(w, t) && w.panel.ch.Some?
    ensures Current(w, t)
  {
    assert TokenOk(w, t);
  }

  lemma {:induction false} ReadAdvances(w: World, t: Token) returns (t': Token)
    requires Current(w, t) && t.Reading? && t.gen in w.closed
    ensures var e := Receive(t.gen, t.gen);
            && Enabled(w, e) && InChain(Step(w, e), t') && Left(Step(w, e), t') < Left(w, t)
            && Step(w, e) == w.(tokens := Step(w, e).tokens, read := Step(w, e).read)
  {
    var g := t.gen;
    t' := if w.read[g] < |w.sent[g]| then LineMsg(g, w.sent[g][w.read[g]]) else EndMsg(g);
  }

  lemma {:induction false} LineAdvances(w: World, t: Token)
    requires Current(w, t) && t.LineMsg?
    ensures var w' := Step(w, Deliver(t));
            && Enabled(w, Deliver(t)) && InChain(w', Reading(t.gen, t.gen))
            && Left(w', Reading(t.gen, t.gen)) < Left(w, t)
            && w'.panel == w.panel.(shown := w'.panel.shown) && w'.sent == w.sent && w'.closed == w.closed
            && w'.modes == w.modes + [w.panel.logMode]
  {
    OneToken(ReadCmd(t.gen, t.gen));
    hide TokensOf;
  }

  /** The read, or the delivery, that comes next, and the token it leaves. */
  lemma {:induction false} Advances(w: World, t: Token) returns (e: Event, t': Token)
    requires Inv(w) && InChain(w, t) && w.panel.ch.Some? && w.panel.gen in w.closed && !t.EndMsg?
    ensures Enabled(w, e) && Inv(Step(w, e)) && InChain(Step(w, e), t') && Left(Step(w, e), t') < Left(w, t)
    ensures var w' := Step(w, e);
            && w'.panel == w.panel.(shown := w'.panel.shown) && w'.sent == w.sent && w'.closed == w.closed
            && (InLogMode(w) ==> InLogMode(w'))
  {
    IsCurrent(w, t);
    if t.Reading? {
      e := Receive(t.gen, t.gen);
      t' := ReadAdvances(w, t);
    } else {
      e, t' := Deliver(t), Reading(t.gen, t.gen);
      LineAdvances(w, t);
    }
    hide Step, Inv, Current, Left, Enabled;
    StepKeeps(w, e);
  }

  lemma {:induction false} Ends(w: World, t: Token)
    requires Inv(w) && InChain(w, t) && t.EndMsg?
    ensures Enabled(w, Deliver(t)) && Step(w, Deliver(t)).panel == w.panel.(ch := None)
    ensures Step(w, Deliver(t)).sent == w.sent
    ensures InLogMode(w) ==> w.panel.gen in w.sent && w.panel.shown == w.sent[w.panel.gen]
  {
    if InLogMode(w) {
      EndsComplete(w, t.gen);
    }
    hide Inv;
  }

  /** Main result on progress: once a stream is closed the chain can always go on to its end,
      and then the panel, if it was in log mode, shows all of the stream. */
  lemma {:induction false} Drains(w: World, t: Token) returns (es: seq<Event>)
    requires Inv(w) && InChain(w, t) && w.panel.ch.Some? && w.panel.gen in w.closed
    ensures Runs(w, es)
    ensures var w' := Run(w, es);
            && w'.panel == w.panel.(ch := None, shown := w'.panel.shown) && w'.sent == w.sent
            && (InLogMode(w) ==> w.panel.gen in w.sent && w'.panel.shown == w.sent[w.panel.gen])
    decreases Left(w, t)
  {
    hide *;
    var e, rest := Deliver(t), [];
    if t.EndMsg? {
      Ends(w, t);
      RunsNothing(Step(w, e));
    } else {
      var t';
      e, t' := Advances(w, t);
      rest := Drains(Step(w, e), t');
    }
    es := [e] + rest;
    RunsCons(w, e, rest);
  }
}
