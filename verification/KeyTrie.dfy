/**
  Key bindings (internal/config/binding.go, internal/config/keytrie.go): a list of nested
  bindings is compiled into a trie for one context, and key presses walk the trie.

  Inserted and Compiled say what the compiler builds. Scan and Resolve are the reference:
  they look a key up in the binding lists themselves, without a trie.
 */
module KeyTries {

  import opened Options

  datatype RunConfig = RunConfig(command: string, background: bool, confirm: bool)

  datatype Binding = Binding(
    key: string, help: string, command: string, run: Option<RunConfig>,
    scope: string, resources: seq<string>, visible: bool, keys: seq<Binding>)

  datatype Node = Node(help: string, command: string, run: Option<RunConfig>, keys: map<string, Node>, hidden: bool)

  type Trie = map<string, Node>

  /** The context a trie is compiled for. */
  datatype Context = Context(component: string, resource: string)

  predicate Matches(b: Binding, c: Context) {
    && (b.scope == "" ||
        if b.scope == "details" then c.component in {"details", "yaml", "describe", "logs"} else b.scope == c.component)
    && (b.resources == [] || c.resource in b.resources)
  }

  // ---- nesting ----

  function Depth(b: Binding): nat
    decreases b, |b.keys| + 1
  {
    DepthUpTo(b, |b.keys|)
  }

  function DepthUpTo(b: Binding, n: nat): (d: nat)
    requires n <= |b.keys|
    ensures forall i :: 0 <= i < n ==> Depth(b.keys[i]) < d
    decreases b, n
  {
    if n == 0 then 0
    else
      var d, e := DepthUpTo(b, n - 1), Depth(b.keys[n - 1]) + 1;
      if d < e then e else d
  }

  lemma {:induction false} SameDepth(a: Binding, b: Binding, n: nat)
    requires a.keys == b.keys && n <= |a.keys|
    ensures DepthUpTo(a, n) == DepthUpTo(b, n)
    decreases n
  {
    if n > 0 {
      SameDepth(a, b, n - 1);
    }
  }

  /** A child takes over its parent's restrictions where it has none. */
  function Inherited(child: Binding, b: Binding): (r: Binding)
    ensures r.key == child.key && r.keys == child.keys && r.visible && Depth(r) == Depth(child)
  {
    var r := child.(scope := if child.scope == "" then b.scope else child.scope,
                    resources := if child.resources == [] then b.resources else child.resources,
                    visible := true);
    SameDepth(r, child, |child.keys|);
    r
  }

  function Children(b: Binding): (r: seq<Binding>)
    ensures |r| == |b.keys|
    ensures forall i :: 0 <= i < |r| ==> r[i] == Inherited(b.keys[i], b) && Depth(r[i]) < Depth(b)
  {
    seq(|b.keys|, i requires 0 <= i < |b.keys| => Inherited(b.keys[i], b))
  }

  ghost predicate AllBelow(bs: seq<Binding>, d: nat) { forall i :: 0 <= i < |bs| ==> Depth(bs[i]) < d }

  // ---- the compiler ----

  function Leaf(b: Binding): Node { Node(b.help, b.command, b.run, map[], !b.visible) }

  /** A branch meets what its key held so far: a branch with keys takes the new children in,
      anything else is replaced. */
  function Branch(root: Trie, b: Binding, children: Trie): Node {
    if b.key in root && root[b.key].keys != map[] then
      root[b.key].(keys := root[b.key].keys + children, help := b.help, hidden := !b.visible)
    else Node(b.help, b.command, b.run, children, !b.visible)
  }

  function Inserted(root: Trie, b: Binding, c: Context): Trie
    decreases Depth(b), 1, 0
  {
    if !Matches(b, c) then root
    else if b.keys == [] then root[b.key := Leaf(b)]
    else root[b.key := Branch(root, b, InsertedAll(map[], Children(b), c, Depth(b)))]
  }

  function InsertedAll(root: Trie, bs: seq<Binding>, c: Context, ghost d: nat): Trie
    requires AllBelow(bs, d)
    decreases d, 0, |bs|
  {
    if bs == [] then root
    else Inserted(InsertedAll(root, bs[..|bs| - 1], c, d), bs[|bs| - 1], c)
  }

  // ---- looking a key up without a trie ----

  /** What a key means at some place: nothing, a leaf, or a run of branches merged into one:
      the first of them, the last, and the child lists they brought. */
  datatype Meaning = Nothing | ALeaf(b: Binding) | ABranch(first: Binding, last: Binding, lists: seq<seq<Binding>>)

  predicate Applies(b: Binding, k: string, c: Context) { Matches(b, c) && b.key == k }

  predicate AnyMatch(bs: seq<Binding>, c: Context) { exists i :: 0 <= i < |bs| && Matches(bs[i], c) }

  predicate AnyMatchIn(lists: seq<seq<Binding>>, c: Context) { exists i :: 0 <= i < |lists| && AnyMatch(lists[i], c) }

  /** Reads one list from its end for the last binding of the key. A branch joins the run of
      branches before it, unless that run has nothing to offer in this context. */
  function Scan(bs: seq<Binding>, k: string, c: Context): Meaning {
    if bs == [] then Nothing
    else
      var b, before := bs[|bs| - 1], Scan(bs[..|bs| - 1], k, c);
      if !Applies(b, k, c) then before
      else if b.keys == [] then ALeaf(b)
      else if before.ABranch? && AnyMatchIn(before.lists, c) then ABranch(before.first, b, before.lists + [Children(b)])
      else ABranch(b, b, [Children(b)])
  }

  /** Where several lists were merged, the last of them that knows the key decides. */
  function Resolve(lists: seq<seq<Binding>>, k: string, c: Context): Meaning {
    if lists == [] then Nothing
    else
      var m := Scan(lists[|lists| - 1], k, c);
      if m.Nothing? then Resolve(lists[..|lists| - 1], k, c) else m
  }

  /** In one list the last binding of the key that matches the context wins. */
  lemma {:induction false} LastWins(bs: seq<Binding>, k: string, c: Context, i: nat)
    requires i < |bs| && Applies(bs[i], k, c) && forall j :: i < j < |bs| ==> !Applies(bs[j], k, c)
    ensures if bs[i].keys == [] then Scan(bs, k, c) == ALeaf(bs[i])
            else
              && Scan(bs, k, c).ABranch? && Scan(bs, k, c).last == bs[i]
              && var lists := Scan(bs, k, c).lists; lists != [] && lists[|lists| - 1] == Children(bs[i])
    decreases |bs|
  {
    if i < |bs| - 1 {
      LastWins(bs[..|bs| - 1], k, c, i);
    }
  }

  // ---- the trie means what the lists mean ----

  ghost function MaxDepth(bs: seq<Binding>): (d: nat)
    ensures AllBelow(bs, d)
  {
    if bs == [] then 0
    else
      var d, e := MaxDepth(bs[..|bs| - 1]), Depth(bs[|bs| - 1]) + 1;
      assert AllBelow(bs[..|bs| - 1], d);
      assert forall i :: 0 <= i < |bs| - 1 ==> bs[i] == bs[..|bs| - 1][i];
      if d < e then e else d
  }

  function Compiled(bs: seq<Binding>, c: Context): Trie { InsertedAll(map[], bs, c, MaxDepth(bs)) }

  /** Lists merged one over the other, as branches merge their children. */
  function Merged(lists: seq<seq<Binding>>, c: Context): Trie {
    if lists == [] then map[] else Merged(lists[..|lists| - 1], c) + Compiled(lists[|lists| - 1], c)
  }

  function NodeOf(m: Meaning, c: Context): Node
    requires !m.Nothing?
  {
    if m.ALeaf? then Leaf(m.b) else Node(m.last.help, m.first.command, m.first.run, Merged(m.lists, c), !m.last.visible)
  }

  lemma {:induction false} AnyDepth(root: Trie, bs: seq<Binding>, c: Context, d: nat, e: nat)
    requires AllBelow(bs, d) && AllBelow(bs, e)
    ensures InsertedAll(root, bs, c, d) == InsertedAll(root, bs, c, e)
    decreases |bs|
  {
    if bs != [] {
      AnyDepth(root, bs[..|bs| - 1], c, d, e);
    }
  }

  /** A trie is empty exactly if nothing in its lists matches. */
  lemma {:induction false} CompiledEmpty(bs: seq<Binding>, c: Context, d: nat)
    requires AllBelow(bs, d)
    ensures InsertedAll(map[], bs, c, d) == map[] <==> !AnyMatch(bs, c)
    decreases |bs|
  {
    if bs != [] {
      var init, b := bs[..|bs| - 1], bs[|bs| - 1];
      CompiledEmpty(init, c, d);
      assert AnyMatch(bs, c) <==> AnyMatch(init, c) || Matches(b, c) by {
        if AnyMatch(init, c) {
          var i :| 0 <= i < |init| && Matches(init[i], c);
          assert Matches(bs[i], c);
        }
        if Matches(b, c) {
          assert Matches(bs[|bs| - 1], c);
        }
      }
      if Matches(b, c) {
        assert b.key in InsertedAll(map[], bs, c, d);
      }
    }
  }

  lemma {:induction false} MergedEmpty(lists: seq<seq<Binding>>, c: Context)
    ensures Merged(lists, c) == map[] <==> !AnyMatchIn(lists, c)
    decreases |lists|
  {
    if lists != [] {
      var init, last := lists[..|lists| - 1], lists[|lists| - 1];
      MergedEmpty(init, c);
      CompiledEmpty(last, c, MaxDepth(last));
      assert AnyMatchIn(lists, c) <==> AnyMatchIn(init, c) || AnyMatch(last, c) by {
        if AnyMatchIn(init, c) {
          var i :| 0 <= i < |init| && AnyMatch(init[i], c);
          assert AnyMatch(lists[i], c);
        }
        if AnyMatch(last, c) {
          assert AnyMatch(lists[|lists| - 1], c);
        }
      }
      if Compiled(last, c) != map[] {
        var k :| k in Compiled(last, c);
        assert k in Merged(lists, c);
      } else {
        assert Merged(lists, c) == Merged(init, c);
      }
    }
  }

  /** The compiler builds what the scan finds, for every key. */
  lemma {:induction false} ScanFinds(bs: seq<Binding>, k: string, c: Context, d: nat)
    requires AllBelow(bs, d)
    ensures var trie := InsertedAll(map[], bs, c, d);
            && (k in trie <==> !Scan(bs, k, c).Nothing?)
            && (k in trie ==> trie[k] == NodeOf(Scan(bs, k, c), c))
    decreases |bs|
  {
    if bs != [] {
      var init, b := bs[..|bs| - 1], bs[|bs| - 1];
      ScanFinds(init, k, c, d);
      if Applies(b, k, c) && b.keys != [] {
        BranchFinds(InsertedAll(map[], init, c, d), b, Scan(init, k, c), k, c);
      }
    }
  }

  lemma {:induction false} BranchFinds(root: Trie, b: Binding, before: Meaning, k: string, c: Context)
    requires Applies(b, k, c) && b.keys != []
    requires k in root <==> !before.Nothing?
    requires k in root ==> root[k] == NodeOf(before, c)
    ensures k in Inserted(root, b, c)
    ensures Inserted(root, b, c)[k] ==
            NodeOf(if before.ABranch? && AnyMatchIn(before.lists, c) then
                   ABranch(before.first, b, before.lists + [Children(b)])
                   else ABranch(b, b, [Children(b)]), c)
  {
    var kids := Children(b);
    AnyDepth(map[], kids, c, Depth(b), MaxDepth(kids));
    MergedSnoc([], kids, c);
    if before.ABranch? {
      MergedEmpty(before.lists, c);
      MergedSnoc(before.lists, kids, c);
    }
    hide Matches, MaxDepth, Children, InsertedAll, Merged;
  }

  lemma {:induction false} MergedSnoc(lists: seq<seq<Binding>>, bs: seq<Binding>, c: Context)
    ensures Merged(lists + [bs], c) == Merged(lists, c) + Compiled(bs, c)
    ensures lists == [] ==> Merged([bs], c) == Compiled(bs, c)
  {
    assert (lists + [bs])[..|lists|] == lists;
    if lists == [] {
      assert [bs] == lists + [bs];
    }
  }

  lemma {:induction false} ResolveFinds(lists: seq<seq<Binding>>, k: string, c: Context)
    ensures k in Merged(lists, c) <==> !Resolve(lists, k, c).Nothing?
    ensures k in Merged(lists, c) ==> Merged(lists, c)[k] == NodeOf(Resolve(lists, k, c), c)
    decreases |lists|
  {
    if lists != [] {
      var last := lists[|lists| - 1];
      ResolveFinds(lists[..|lists| - 1], k, c);
      ScanFinds(last, k, c, MaxDepth(last));
    }
  }

  // ---- pressing keys ----

  datatype Outcome = Outcome(command: string, run: Option<RunConfig>, resolved: bool)

  const SWALLOWED := Outcome("", None, true)

  function Pressed(root: Trie, current: Option<Node>, key: string): (Option<Node>, Outcome) {
    var lookup := if current.None? then root else current.value.keys;
    if key !in lookup then (None, SWALLOWED)
    else
      var node := lookup[key];
      if (node.command != "" || node.run.Some?) && node.keys == map[] then (None, Outcome(node.command, node.run, true))
      else if node.keys != map[] then (Some(node), Outcome("", None, false))
      else (None, SWALLOWED)
  }

  /** The reference: a press looked up in the binding lists. `at` is where the keys pressed
      so far led. A branch with nothing to offer in this context acts as a leaf. */
  function LookedUp(bs: seq<Binding>, c: Context, at: Option<seq<seq<Binding>>>, key: string):
      (Option<seq<seq<Binding>>>, Outcome) {
    var m := Resolve(if at.None? then [bs] else at.value, key, c);
    match m
    case Nothing => (None, SWALLOWED)
    case ALeaf(b) => (None, Outcome(b.command, b.run, true))
    case ABranch(first, _, lists) =>
      if AnyMatchIn(lists, c) then (Some(lists), Outcome("", None, false))
      else (None, Outcome(first.command, first.run, true))
  }

  /** The trie and the reference stand at the same place. */
  ghost predicate Together(current: Option<Node>, at: Option<seq<seq<Binding>>>, c: Context) {
    && (current.None? <==> at.None?)
    && (current.Some? ==> current.value.keys == Merged(at.value, c) && current.value.keys != map[])
  }

  lemma PressAgrees(bs: seq<Binding>, c: Context, current: Option<Node>, at: Option<seq<seq<Binding>>>, key: string)
    requires Together(current, at, c)
    ensures var (node, out) := Pressed(Compiled(bs, c), current, key);
            var (place, expected) := LookedUp(bs, c, at, key);
            out == expected && Together(node, place, c) && (out.resolved <==> node.None?)
  {
    hide Merged, Compiled, Resolve, AnyMatchIn, NodeOf;
    var lists := if at.None? then [bs] else at.value;
    MergedSnoc([], bs, c);
    ResolveFinds(lists, key, c);
    var m := Resolve(lists, key, c);
    if !m.Nothing? {
      NodeFacts(m, c);
    }
  }

  lemma {:induction false} NodeFacts(m: Meaning, c: Context)
    requires !m.Nothing?
    ensures m.ALeaf? ==>
              NodeOf(m, c).command == m.b.command && NodeOf(m, c).run == m.b.run && NodeOf(m, c).keys == map[]
    ensures m.ABranch? ==>
              && NodeOf(m, c).command == m.first.command && NodeOf(m, c).run == m.first.run
              && NodeOf(m, c).keys == Merged(m.lists, c) && (NodeOf(m, c).keys != map[] <==> AnyMatchIn(m.lists, c))
  {
    if m.ABranch? {
      MergedEmpty(m.lists, c);
    }
    hide Merged, AnyMatchIn;
  }

  function PressAll(root: Trie, current: Option<Node>, keys: seq<string>): seq<Outcome>
    decreases |keys|
  {
    if keys == [] then []
    else
      var (node, out) := Pressed(root, current, keys[0]);
      [out] + PressAll(root, node, keys[1..])
  }

  function LookUpAll(bs: seq<Binding>, c: Context, at: Option<seq<seq<Binding>>>, keys: seq<string>): seq<Outcome>
    decreases |keys|
  {
    if keys == [] then []
    else
      var (place, out) := LookedUp(bs, c, at, keys[0]);
      [out] + LookUpAll(bs, c, place, keys[1..])
  }

  /** Main result: for every list of bindings, context and sequence of presses, the compiled
      trie answers each press as the lists themselves do. */
  lemma {:induction false} TrieAgrees(
      bs: seq<Binding>, c: Context, current: Option<Node>, at: Option<seq<seq<Binding>>>, keys: seq<string>)
    requires Together(current, at, c)
    ensures PressAll(Compiled(bs, c), current, keys) == LookUpAll(bs, c, at, keys)
    decreases |keys|
  {
    if keys != [] {
      PressAgrees(bs, c, current, at, keys[0]);
      var node := Pressed(Compiled(bs, c), current, keys[0]).0;
      var place := LookedUp(bs, c, at, keys[0]).0;
      hide Together, Pressed, LookedUp, Compiled;
      TrieAgrees(bs, c, node, place, keys[1..]);
    }
  }

  /** From the root, in particular. */
  lemma {:induction false} TrieIsTheBindings(bs: seq<Binding>, c: Context, keys: seq<string>)
    ensures PressAll(Compiled(bs, c), None, keys) == LookUpAll(bs, c, None, keys)
  {
    TrieAgrees(bs, c, None, None, keys);
  }

  // ---- what a key sequence reaches, by the bindings as written ----

  /** The scope in force at the end of a path of nested bindings: that of the last binding on
      it that has one. */
  function ScopeOf(path: seq<Binding>): string {
    if path == [] then ""
    else if path[|path| - 1].scope != "" then path[|path| - 1].scope
    else ScopeOf(path[..|path| - 1])
  }

  /** The resources in force, likewise. */
  function ResourcesOf(path: seq<Binding>): seq<string> {
    if path == [] then []
    else if path[|path| - 1].resources != [] then path[|path| - 1].resources
    else ResourcesOf(path[..|path| - 1])
  }

  /** What is in force at the end of the path allows the context. */
  predicate Allowed(path: seq<Binding>, c: Context) {
    var scope, resources := ScopeOf(path), ResourcesOf(path);
    && scope in {"", c.component, if c.component in {"yaml", "describe", "logs"} then "details" else ""}
    && (resources == [] || c.resource in resources)
  }

  /** A path from the list down, each binding among the children of the one before. */
  ghost predicate PathIn(bs: seq<Binding>, path: seq<Binding>) {
    (path != [] ==> path[0] in bs) && forall i :: 1 <= i < |path| ==> path[i] in path[i - 1].keys
  }

  /** The path spells `keys`, and each binding on it is allowed by what is in force there. */
  ghost predicate Spells(bs: seq<Binding>, path: seq<Binding>, keys: seq<string>, c: Context) {
    && |path| == |keys| && PathIn(bs, path)
    && forall i :: 0 <= i < |path| ==> AllowedAt(path, i, c) && path[i].key == keys[i]
  }

  predicate AllowedAt(path: seq<Binding>, i: nat, c: Context)
    requires i < |path|
  {
    Allowed(path[..i + 1], c)
  }

  /** `b` is the last binding of the path with what is in force there. */
  predicate Effective(b: Binding, path: seq<Binding>) {
    && path != [] && b.scope == ScopeOf(path) && b.resources == ResourcesOf(path)
    && var e := path[|path| - 1];
       && b.key == e.key && b.command == e.command && b.run == e.run && b.keys == e.keys
       && |b.keys| == |e.keys|
  }

  lemma {:induction false} EffectiveMatches(b: Binding, path: seq<Binding>, c: Context)
    requires Effective(b, path)
    ensures Matches(b, c) <==> Allowed(path, c)
  {
  }

  lemma {:induction false} EffectiveTop(b: Binding)
    ensures Effective(b, [b])
  {
    assert ScopeOf([]) == "" && ResourcesOf([]) == [] && [b][..0] == [];
  }

  lemma {:induction false} EffectiveChild(b: Binding, path: seq<Binding>, i: nat)
    requires Effective(b, path) && i < |b.keys|
    ensures path[|path| - 1].keys == b.keys && Effective(Children(b)[i], path + [b.keys[i]])
  {
    assert (path + [b.keys[i]])[..|path|] == path;
  }

  /** `b`, met where `keys` led, is what a path of the bindings says. */
  ghost predicate Met(bs: seq<Binding>, b: Binding, keys: seq<string>, c: Context) {
    exists path, e :: Spells(bs, path, keys, c) && PathIn(bs, path + [e]) && Effective(b, path + [e])
  }

  ghost predicate AllMet(bs: seq<Binding>, list: seq<Binding>, keys: seq<string>, c: Context) {
    forall i :: 0 <= i < |list| ==> Met(bs, list[i], keys, c)
  }

  ghost predicate ListsMet(bs: seq<Binding>, lists: seq<seq<Binding>>, keys: seq<string>, c: Context) {
    forall i :: 0 <= i < |lists| ==> AllMet(bs, lists[i], keys, c)
  }

  lemma {:induction false} TopMet(bs: seq<Binding>, c: Context)
    ensures AllMet(bs, bs, [], c)
  {
    forall i | 0 <= i < |bs| ensures Met(bs, bs[i], [], c) {
      EffectiveTop(bs[i]);
      assert [] + [bs[i]] == [bs[i]];
      assert Spells(bs, [], [], c);
      assert PathIn(bs, [] + [bs[i]]);
    }
  }

  /** One more key on the way to a binding that applies. */
  lemma {:induction false} MetSpells(bs: seq<Binding>, b: Binding, keys: seq<string>, k: string, c: Context)
    returns (path: seq<Binding>)
    requires Met(bs, b, keys, c) && Applies(b, k, c)
    ensures Spells(bs, path, keys + [k], c) && Effective(b, path)
  {
    var before, e :| Spells(bs, before, keys, c) && PathIn(bs, before + [e]) && Effective(b, before + [e]);
    path := before + [e];
    EffectiveMatches(b, path, c);
    EffectiveKey(b, before, e);
    hide Allowed, PathIn, Effective;
    SpellsOn(bs, before, e, keys, k, c);
  }

  lemma {:induction false} EffectiveKey(b: Binding, before: seq<Binding>, e: Binding)
    requires Effective(b, before + [e])
    ensures b.key == e.key
  {
    assert (before + [e])[|before + [e]| - 1] == e;
  }

  lemma {:induction false} SpellsOn(
      bs: seq<Binding>, before: seq<Binding>, e: Binding, keys: seq<string>, k: string, c: Context)
    requires Spells(bs, before, keys, c) && PathIn(bs, before + [e]) && e.key == k && Allowed(before + [e], c)
    ensures Spells(bs, before + [e], keys + [k], c)
  {
    hide Allowed, PathIn;
    var path, longer := before + [e], keys + [k];
    forall i | 0 <= i < |path| ensures AllowedAt(path, i, c) && path[i].key == longer[i] {
      if i < |before| {
        assert AllowedAt(before, i, c) && before[i].key == keys[i];
        assert path[..i + 1] == before[..i + 1];
      } else {
        assert path[..i + 1] == path;
      }
    }
  }

  lemma {:induction false} ChildrenMet(bs: seq<Binding>, b: Binding, keys: seq<string>, k: string, c: Context)
    requires Met(bs, b, keys, c) && Applies(b, k, c)
    ensures AllMet(bs, Children(b), keys + [k], c)
  {
    var path := MetSpells(bs, b, keys, k, c);
    var kids := Children(b);
    forall i | 0 <= i < |kids| ensures Met(bs, kids[i], keys + [k], c) {
      EffectiveChild(b, path, i);
      PathGrows(bs, path, b.keys[i]);
    }
  }

  lemma {:induction false} PathGrows(bs: seq<Binding>, path: seq<Binding>, e: Binding)
    requires PathIn(bs, path) && path != [] && e in path[|path| - 1].keys
    ensures PathIn(bs, path + [e])
  {
    var longer := path + [e];
    assert longer[0] == path[0];
    forall i | 1 <= i < |longer| ensures longer[i] in longer[i - 1].keys {
      if i < |path| {
        assert longer[i] == path[i] && path[i] in path[i - 1].keys;
      }
    }
  }

  /** A meaning is made of bindings that apply. */
  ghost predicate MeantBy(m: Meaning, bs: seq<Binding>, keys: seq<string>, k: string, c: Context) {
    match m
    case Nothing => true
    case ALeaf(b) => Met(bs, b, keys, c) && Applies(b, k, c)
    case ABranch(first, _, lists) =>
      Met(bs, first, keys, c) && Applies(first, k, c) && ListsMet(bs, lists, keys + [k], c)
  }

  lemma {:induction false} ScanMeans(bs: seq<Binding>, list: seq<Binding>, keys: seq<string>, k: string, c: Context)
    requires AllMet(bs, list, keys, c)
    ensures MeantBy(Scan(list, k, c), bs, keys, k, c)
    decreases |list|
  {
    hide Met, Applies, Children, AnyMatchIn;
    if list != [] {
      var init, b := list[..|list| - 1], list[|list| - 1];
      ScanMeans(bs, init, keys, k, c);
      if Applies(b, k, c) && b.keys != [] {
        ChildrenMet(bs, b, keys, k, c);
      }
    }
  }

  lemma {:induction false} ResolveMeans(
      bs: seq<Binding>, lists: seq<seq<Binding>>, keys: seq<string>, k: string, c: Context)
    requires ListsMet(bs, lists, keys, c)
    ensures MeantBy(Resolve(lists, k, c), bs, keys, k, c)
    decreases |lists|
  {
    hide Scan, MeantBy, AllMet;
    if lists != [] {
      ResolveMeans(bs, lists[..|lists| - 1], keys, k, c);
      ScanMeans(bs, lists[|lists| - 1], keys, k, c);
    } else {
      NothingMeans(bs, keys, k, c);
    }
  }

  lemma {:induction false} NothingMeans(bs: seq<Binding>, keys: seq<string>, k: string, c: Context)
    ensures MeantBy(Nothing, bs, keys, k, c)
  {
  }

  /** Every press but the last waits for more keys, and the last one ends the sequence. */
  predicate Ends(outs: seq<Outcome>) {
    && outs != [] && outs[|outs| - 1].resolved
    && forall i :: 0 <= i < |outs| - 1 ==> !outs[i].resolved
  }

  /** And it gives a command. */
  predicate Commands(outs: seq<Outcome>) { Ends(outs) && outs[|outs| - 1] != SWALLOWED }

  lemma {:induction false} LookUpMeans(
      bs: seq<Binding>, c: Context, at: Option<seq<seq<Binding>>>, before: seq<string>, keys: seq<string>)
    returns (path: seq<Binding>)
    requires ListsMet(bs, if at.None? then [bs] else at.value, before, c)
    requires Commands(LookUpAll(bs, c, at, keys))
    ensures Spells(bs, path, before + keys, c) && path != []
    ensures var outs, e := LookUpAll(bs, c, at, keys), path[|path| - 1];
            outs[|outs| - 1] == Outcome(e.command, e.run, true)
    decreases |keys|
  {
    hide *;
    CommandsEnd(LookUpAll(bs, c, at, keys));
    LookUpNone(bs, c, at);
    var lists := if at.None? then [bs] else at.value;
    var m := Resolve(lists, keys[0], c);
    ResolveMeans(bs, lists, before, keys[0], c);
    var (place, out) := LookedUp(bs, c, at, keys[0]);
    OneLookUp(bs, c, at, before, keys[0]);
    var rest := LookUpAll(bs, c, place, keys[1..]);
    LookUpCons(bs, c, at, keys);
    LookUpLength(bs, c, place, keys[1..]);
    EndsCons(out, rest);
    if rest == [] {
      assert keys == [keys[0]];
      var b := if m.ALeaf? then m.b else m.first;
      path := MetSpells(bs, b, before, keys[0], c);
      EffectiveLast(b, path);
    } else {
      CommandsEnd(rest);
      path := LookUpMeans(bs, c, place, before + [keys[0]], keys[1..]);
      assert before + [keys[0]] + keys[1..] == before + keys;
    }
  }

  lemma {:induction false} CommandsEnd(outs: seq<Outcome>)
    ensures Commands(outs) <==> Ends(outs) && outs != [] && outs[|outs| - 1] != SWALLOWED
  {
  }

  lemma {:induction false} LookUpNone(bs: seq<Binding>, c: Context, at: Option<seq<seq<Binding>>>)
    ensures !Ends(LookUpAll(bs, c, at, []))
  {
  }

  lemma {:induction false} LookUpCons(
      bs: seq<Binding>, c: Context, at: Option<seq<seq<Binding>>>, keys: seq<string>)
    requires keys != []
    ensures var (place, out) := LookedUp(bs, c, at, keys[0]);
            LookUpAll(bs, c, at, keys) == [out] + LookUpAll(bs, c, place, keys[1..])
  {
  }

  lemma {:induction false} EndsCons(out: Outcome, rest: seq<Outcome>)
    requires Ends([out] + rest)
    ensures rest == [] ==> out.resolved
    ensures rest != [] ==> !out.resolved && Ends(rest) && rest[|rest| - 1] == ([out] + rest)[|rest|]
  {
    var all := [out] + rest;
    assert all[0] == out && forall i :: 0 <= i < |rest| ==> rest[i] == all[i + 1];
  }

  /** Where one lookup leads. */
  lemma {:induction false} OneLookUp(
      bs: seq<Binding>, c: Context, at: Option<seq<seq<Binding>>>, before: seq<string>, k: string)
    requires MeantBy(Resolve(if at.None? then [bs] else at.value, k, c), bs, before, k, c)
    ensures var m := Resolve(if at.None? then [bs] else at.value, k, c);
            var (place, out) := LookedUp(bs, c, at, k);
            && (!out.resolved ==> place.Some? && ListsMet(bs, place.value, before + [k], c))
            && (out.resolved && out != SWALLOWED ==>
                 && !m.Nothing?
                 && var b := if m.ALeaf? then m.b else m.first;
                    Met(bs, b, before, c) && Applies(b, k, c) && out == Outcome(b.command, b.run, true))
  {
    hide Met, ListsMet, Resolve, AnyMatchIn, Applies;
  }

  lemma {:induction false} EffectiveLast(b: Binding, path: seq<Binding>)
    requires Effective(b, path)
    ensures path != [] && b.command == path[|path| - 1].command && b.run == path[|path| - 1].run
  {
  }

  lemma {:induction false} LookUpLength(
      bs: seq<Binding>, c: Context, at: Option<seq<seq<Binding>>>, keys: seq<string>)
    ensures |LookUpAll(bs, c, at, keys)| == |keys|
    decreases |keys|
  {
    if keys != [] {
      LookUpLength(bs, c, LookedUp(bs, c, at, keys[0]).0, keys[1..]);
    }
  }

  /** Main result on contexts: a key sequence gives a command only along a path of the
      bindings as written on which every binding is allowed by what is in force there, and
      then it is that of the path's last binding. */
  lemma {:induction false} CommandsFollowPaths(bs: seq<Binding>, c: Context, keys: seq<string>)
    returns (path: seq<Binding>)
    requires Commands(PressAll(Compiled(bs, c), None, keys))
    ensures Spells(bs, path, keys, c) && path != []
    ensures var outs, e := PressAll(Compiled(bs, c), None, keys), path[|path| - 1];
            outs[|outs| - 1] == Outcome(e.command, e.run, true)
  {
    TrieIsTheBindings(bs, c, keys);
    TopMet(bs, c);
    hide PressAll, Compiled, AllMet, Spells;
    path := LookUpMeans(bs, c, None, [], keys);
    assert [] + keys == keys;
  }

  /** The bindings among which the one after `path` is. */
  function Siblings(bs: seq<Binding>, path: seq<Binding>): seq<Binding> {
    if path == [] then bs else path[|path| - 1].keys
  }

  /** At place `j` among its siblings a binding is allowed, and none of its key is after it. */
  ghost predicate Chosen(bs: seq<Binding>, path: seq<Binding>, j: nat, c: Context) {
    var ss := Siblings(bs, path);
    && j < |ss| && Allowed(path + [ss[j]], c)
    && forall k :: j < k < |ss| && ss[k].key == ss[j].key ==> !Allowed(path + [ss[k]], c)
  }

  /** The path that the places lead along, each binding chosen. */
  ghost predicate Leads(bs: seq<Binding>, path: seq<Binding>, js: seq<nat>, c: Context)
    decreases |js|
  {
    js == [] ||
    (Chosen(bs, path, js[0], c) && Leads(bs, path + [Siblings(bs, path)[js[0]]], js[1..], c))
  }

  /** The keys along it. */
  ghost function KeysAlong(bs: seq<Binding>, path: seq<Binding>, js: seq<nat>, c: Context): seq<string>
    requires Leads(bs, path, js, c)
    decreases |js|
  {
    if js == [] then []
    else
      var e := Siblings(bs, path)[js[0]];
      [e.key] + KeysAlong(bs, path + [e], js[1..], c)
  }

  ghost function EndOf(bs: seq<Binding>, path: seq<Binding>, js: seq<nat>, c: Context): Binding
    requires Leads(bs, path, js, c) && (path != [] || js != [])
    decreases |js|
  {
    if js == [] then path[|path| - 1] else EndOf(bs, path + [Siblings(bs, path)[js[0]]], js[1..], c)
  }

  /** A list of siblings with what is in force for them. */
  ghost predicate Ready(bs: seq<Binding>, path: seq<Binding>, list: seq<Binding>) {
    && |list| == |Siblings(bs, path)|
    && forall i :: 0 <= i < |list| ==> Effective(list[i], path + [Siblings(bs, path)[i]])
  }

  /** The chosen binding of a key is what the lists mean by it. */
  lemma {:induction false} ChosenMeans(
      bs: seq<Binding>, path: seq<Binding>, lists: seq<seq<Binding>>, j: nat, c: Context)
    requires lists != [] && Ready(bs, path, lists[|lists| - 1]) && Chosen(bs, path, j, c)
    ensures var e, b := Siblings(bs, path)[j], lists[|lists| - 1][j];
            var m := Resolve(lists, e.key, c);
            && Effective(b, path + [e])
            && if e.keys == [] then m == ALeaf(b)
               else m.ABranch? && m.lists != [] && m.lists[|m.lists| - 1] == Children(b)
  {
    var list, ss := lists[|lists| - 1], Siblings(bs, path);
    hide Matches, Allowed, Scan, Effective;
    forall k | j <= k < |list|
      ensures list[k].key == ss[k].key && (Matches(list[k], c) <==> Allowed(path + [ss[k]], c))
      ensures list[k].keys == ss[k].keys
    {
      EffectiveMatches(list[k], path + [ss[k]], c);
      EffectiveParts(list[k], path, ss[k]);
    }
    LastWins(list, ss[j].key, c, j);
  }

  lemma {:induction false} EffectiveParts(b: Binding, path: seq<Binding>, e: Binding)
    requires Effective(b, path + [e])
    ensures b.key == e.key && b.keys == e.keys && b.command == e.command && b.run == e.run
  {
    assert (path + [e])[|path + [e]| - 1] == e;
  }

  lemma {:induction false} ChildrenReady(bs: seq<Binding>, path: seq<Binding>, b: Binding)
    requires path != [] && Effective(b, path)
    ensures Ready(bs, path, Children(b))
  {
    hide Effective;
    EffectiveKeys(b, path);
    forall i | 0 <= i < |b.keys| ensures Effective(Children(b)[i], path + [b.keys[i]]) {
      EffectiveChild(b, path, i);
    }
  }

  lemma {:induction false} EffectiveKeys(b: Binding, path: seq<Binding>)
    requires Effective(b, path)
    ensures path != [] && path[|path| - 1].keys == b.keys
  {
  }

  lemma {:induction false} TopReady(bs: seq<Binding>)
    ensures Ready(bs, [], bs)
  {
    forall i | 0 <= i < |bs| ensures Effective(bs[i], [] + [bs[i]]) {
      EffectiveTop(bs[i]);
      assert [] + [bs[i]] == [bs[i]];
    }
  }

  lemma {:induction false} SomeMatch(
      bs: seq<Binding>, path: seq<Binding>, lists: seq<seq<Binding>>, j: nat, c: Context)
    requires lists != [] && Ready(bs, path, lists[|lists| - 1]) && Chosen(bs, path, j, c)
    ensures AnyMatchIn(lists, c)
  {
    var list := lists[|lists| - 1];
    EffectiveMatches(list[j], path + [Siblings(bs, path)[j]], c);
    hide Matches, Allowed, Effective;
    assert AnyMatch(list, c);
  }

  lemma {:induction false} LeadsOn(
      bs: seq<Binding>, c: Context, at: Option<seq<seq<Binding>>>, path: seq<Binding>, js: seq<nat>)
    requires js != [] && Leads(bs, path, js, c) && EndOf(bs, path, js, c).keys == []
    requires var lists := if at.None? then [bs] else at.value; lists != [] && Ready(bs, path, lists[|lists| - 1])
    ensures var outs, e := LookUpAll(bs, c, at, KeysAlong(bs, path, js, c)), EndOf(bs, path, js, c);
            Ends(outs) && outs[|outs| - 1] == Outcome(e.command, e.run, true)
    decreases |js|
  {
    hide *;
    LeadsFirst(bs, path, js, c);
    var lists, e := if at.None? then [bs] else at.value, Siblings(bs, path)[js[0]];
    ReadySize(bs, path, lists[|lists| - 1]);
    var b, rest := lists[|lists| - 1][js[0]], KeysAlong(bs, path + [e], js[1..], c);
    ChosenMeans(bs, path, lists, js[0], c);
    EffectiveParts(b, path, e);
    LookUpCons(bs, c, at, [e.key] + rest);
    assert ([e.key] + rest)[1..] == rest;
    var m := Resolve(lists, e.key, c);
    if |js| == 1 {
      LeadsNowhere(bs, path + [e], c);
      assert js[1..] == [];
      LooksUp(bs, c, at, e.key, m);
      LookUpEmpty(bs, c, LookedUp(bs, c, at, e.key).0);
      OneEnds(Outcome(b.command, b.run, true));
    } else {
      LeadsFirst(bs, path + [e], js[1..], c);
      ChildrenReady(bs, path + [e], b);
      SomeMatch(bs, path + [e], m.lists, js[1], c);
      LooksUp(bs, c, at, e.key, m);
      LeadsOn(bs, c, Some(m.lists), path + [e], js[1..]);
      EndsAfter(Outcome("", None, false), LookUpAll(bs, c, Some(m.lists), rest));
    }
  }

  lemma {:induction false} ReadySize(bs: seq<Binding>, path: seq<Binding>, list: seq<Binding>)
    requires Ready(bs, path, list)
    ensures |list| == |Siblings(bs, path)|
  {
  }

  lemma {:induction false} OneEnds(out: Outcome)
    requires out.resolved
    ensures Ends([out] + []) && ([out] + [])[|[out] + []| - 1] == out
  {
  }

  lemma {:induction false} EndsAfter(out: Outcome, rest: seq<Outcome>)
    requires !out.resolved && Ends(rest)
    ensures Ends([out] + rest) && ([out] + rest)[|[out] + rest| - 1] == rest[|rest| - 1]
  {
  }

  lemma {:induction false} LookUpEmpty(bs: seq<Binding>, c: Context, at: Option<seq<seq<Binding>>>)
    ensures LookUpAll(bs, c, at, []) == []
  {
  }

  lemma {:induction false} LooksUp(
      bs: seq<Binding>, c: Context, at: Option<seq<seq<Binding>>>, k: string, m: Meaning)
    requires m == Resolve(if at.None? then [bs] else at.value, k, c)
    ensures m.ALeaf? ==> LookedUp(bs, c, at, k) == (None, Outcome(m.b.command, m.b.run, true))
    ensures m.ABranch? && AnyMatchIn(m.lists, c) ==>
              LookedUp(bs, c, at, k) == (Some(m.lists), Outcome("", None, false))
  {
    hide Resolve, AnyMatchIn;
  }

  lemma {:induction false} LeadsNowhere(bs: seq<Binding>, path: seq<Binding>, c: Context)
    requires path != []
    ensures Leads(bs, path, [], c) && KeysAlong(bs, path, [], c) == [] && EndOf(bs, path, [], c) == path[|path| - 1]
  {
  }

  /** The first step along a path. */
  lemma {:induction false} LeadsFirst(bs: seq<Binding>, path: seq<Binding>, js: seq<nat>, c: Context)
    requires js != [] && Leads(bs, path, js, c)
    ensures Chosen(bs, path, js[0], c) && js[0] < |Siblings(bs, path)|
    ensures path != [] ==> Siblings(bs, path) == path[|path| - 1].keys
    ensures var e := Siblings(bs, path)[js[0]];
            && Leads(bs, path + [e], js[1..], c)
            && KeysAlong(bs, path, js, c) == [e.key] + KeysAlong(bs, path + [e], js[1..], c)
            && EndOf(bs, path, js, c) == EndOf(bs, path + [e], js[1..], c)
            && (path + [e])[|path + [e]| - 1] == e
  {
    hide Allowed;
  }

  /** And along every path on which each binding is allowed and is the last of its key that
      is, down to one without children, the keys give that one's command. */
  lemma {:induction false} ChosenPathsCommand(bs: seq<Binding>, c: Context, js: seq<nat>)
    requires js != [] && Leads(bs, [], js, c) && EndOf(bs, [], js, c).keys == []
    ensures var outs, e := PressAll(Compiled(bs, c), None, KeysAlong(bs, [], js, c)), EndOf(bs, [], js, c);
            Ends(outs) && outs[|outs| - 1] == Outcome(e.command, e.run, true)
  {
    TopReady(bs);
    TrieIsTheBindings(bs, c, KeysAlong(bs, [], js, c));
    hide Ready, PressAll, LookUpAll, KeysAlong, EndOf, Leads, Ends;
    LeadsOn(bs, c, None, [], js);
  }

  // ---- two of the default bindings ----

  function Command(key: string, command: string, resources: seq<string>): Binding {
    Binding(key, "", command, None, "", resources, false, [])
  }

  function GoTo(): Binding {
    Binding("g", "go to", "", None, "", [], true,
            [Command("g", "cursor-top", []), Command("N", "nav-node", ["pods"])])
  }

  function Exec(): Binding {
    Binding("s", "exec", "", None, "resources", ["pods", "containers", "nodes"], true,
            [Command("d", "debug", []), Command("s", "exec", ["pods", "containers"])])
  }

  /** A chord of one binding in the list, and a child of its key. */
  lemma {:induction false} OnlyPath(b: Binding, path: seq<Binding>, k: string, c: Context)
    requires Spells([b], path, [b.key, k], c)
    ensures path[0] == b && path[1] in b.keys && path[1].key == k
    ensures var own := path[1].resources; own != [] ==> c.resource in own
    ensures var own := path[1].resources; own == [] && b.resources != [] ==> c.resource in b.resources
  {
    assert AllowedAt(path, 1, c) && path[..2] == path && path[..1] == [b];
    assert ResourcesOf([b]) == if b.resources != [] then b.resources else ResourcesOf([b][..0]);
    assert path[..|path| - 1] == [b];
  }

  /** `g N` is for pods only, although `g` itself is for everything. */
  lemma {:induction false} GoToNode(c: Context)
    ensures Commands(PressAll(Compiled([GoTo()], c), None, ["g", "N"])) ==> c.resource == "pods"
  {
    var keys := ["g", "N"];
    hide PressAll, Compiled, Spells, Commands;
    if Commands(PressAll(Compiled([GoTo()], c), None, keys)) {
      var path := CommandsFollowPaths([GoTo()], c, keys);
      OnlyPath(GoTo(), path, "N", c);
    }
  }

  /** `s s` is not for nodes, although `s` is; `s d` is for what `s` is for. */
  lemma {:induction false} ExecOnNodes(c: Context, k: string)
    requires k in {"s", "d"}
    ensures Commands(PressAll(Compiled([Exec()], c), None, ["s", k])) ==>
              c.resource in (if k == "s" then ["pods", "containers"] else ["pods", "containers", "nodes"])
  {
    var keys := ["s", k];
    hide PressAll, Compiled, Spells, Commands;
    if Commands(PressAll(Compiled([Exec()], c), None, keys)) {
      var path := CommandsFollowPaths([Exec()], c, keys);
      OnlyPath(Exec(), path, k, c);
    }
  }

  // ---- what a trie shows ----

  /** The last binding of a key that matches decides the node's help and whether it shows. */
  lemma {:induction false} LastShows(bs: seq<Binding>, k: string, c: Context, i: nat)
    requires i < |bs| && Applies(bs[i], k, c) && forall j :: i < j < |bs| ==> !Applies(bs[j], k, c)
    ensures k in Compiled(bs, c)
    ensures Compiled(bs, c)[k].help == bs[i].help && (Compiled(bs, c)[k].hidden <==> !bs[i].visible)
    ensures bs[i].keys == [] ==>
              var node := Compiled(bs, c)[k];
              node.command == bs[i].command && node.run == bs[i].run && node.keys == map[]
  {
    LastWins(bs, k, c, i);
    ScanFinds(bs, k, c, MaxDepth(bs));
    hide Scan, Merged, Applies, MaxDepth, InsertedAll;
  }

  /** Nothing is hidden down to `n` keys. */
  ghost predicate AllShow(t: Trie, n: nat)
    decreases n
  {
    n > 0 ==> forall k :: k in t ==> !t[k].hidden && AllShow(t[k].keys, n - 1)
  }

  ghost predicate ChordsShow(t: Trie, n: nat) { forall k :: k in t ==> AllShow(t[k].keys, n) }

  lemma {:induction false} SumShows(a: Trie, b: Trie, n: nat)
    requires AllShow(a, n) && AllShow(b, n)
    ensures AllShow(a + b, n)
  {
  }

  /** A node put under a key. */
  lemma {:induction false} PutShows(root: Trie, k: string, node: Node, n: nat)
    ensures AllShow(root, n) && !node.hidden && (n > 0 ==> AllShow(node.keys, n - 1)) ==> AllShow(root[k := node], n)
    ensures ChordsShow(root, n) && AllShow(node.keys, n) ==> ChordsShow(root[k := node], n)
  {
  }

  lemma {:induction false} HeldShows(root: Trie, k: string, n: nat)
    requires k in root
    ensures AllShow(root, n) && n > 0 ==> AllShow(root[k].keys, n - 1)
    ensures ChordsShow(root, n) ==> AllShow(root[k].keys, n)
  {
  }

  lemma {:induction false} NoneShow(n: nat)
    ensures AllShow(map[], n)
  {
  }

  lemma {:induction false} InsertedShows(root: Trie, b: Binding, c: Context, n: nat)
    ensures AllShow(root, n) && b.visible ==> AllShow(Inserted(root, b, c), n)
    ensures ChordsShow(root, n) ==> ChordsShow(Inserted(root, b, c), n)
    decreases Depth(b), 1, 0
  {
    hide AllShow, ChordsShow, Matches, InsertedAll, Depth;
    NoneShow(n);
    if Matches(b, c) && b.keys == [] {
      if n > 0 {
        NoneShow(n - 1);
      }
      PutShows(root, b.key, Leaf(b), n);
    } else if Matches(b, c) {
      var children := InsertedAll(map[], Children(b), c, Depth(b));
      BranchShows(root, b, c, children, n);
    }
  }

  lemma {:induction false} BranchShows(root: Trie, b: Binding, c: Context, children: Trie, n: nat)
    requires children == InsertedAll(map[], Children(b), c, Depth(b))
    ensures AllShow(root, n) && b.visible ==> AllShow(root[b.key := Branch(root, b, children)], n)
    ensures ChordsShow(root, n) ==> ChordsShow(root[b.key := Branch(root, b, children)], n)
    decreases Depth(b), 0, |b.keys| + 1
  {
    hide AllShow, ChordsShow, InsertedAll, Depth;
    NoneShow(n);
    InsertedAllShow(map[], Children(b), c, Depth(b), n);
    if n > 0 {
      NoneShow(n - 1);
      InsertedAllShow(map[], Children(b), c, Depth(b), n - 1);
    }
    if b.key in root {
      HeldShows(root, b.key, n);
      if AllShow(root[b.key].keys, n) {
        SumShows(root[b.key].keys, children, n);
      }
      if n > 0 && AllShow(root[b.key].keys, n - 1) {
        SumShows(root[b.key].keys, children, n - 1);
      }
    }
    PutShows(root, b.key, Branch(root, b, children), n);
  }

  lemma {:induction false} InsertedAllShow(root: Trie, bs: seq<Binding>, c: Context, d: nat, n: nat)
    requires AllBelow(bs, d)
    ensures AllShow(root, n) && (forall i :: 0 <= i < |bs| ==> bs[i].visible) ==>
              AllShow(InsertedAll(root, bs, c, d), n)
    ensures ChordsShow(root, n) ==> ChordsShow(InsertedAll(root, bs, c, d), n)
    decreases d, 0, |bs|
  {
    if bs != [] {
      InsertedAllShow(root, bs[..|bs| - 1], c, d, n);
      InsertedShows(InsertedAll(root, bs[..|bs| - 1], c, d), bs[|bs| - 1], c, n);
    }
    hide Inserted, AllShow, ChordsShow;
  }

  /** Inside a chord nothing is hidden, however deep. */
  lemma {:induction false} NothingHiddenInChords(bs: seq<Binding>, c: Context, n: nat)
    ensures ChordsShow(Compiled(bs, c), n)
  {
    InsertedAllShow(map[], bs, c, MaxDepth(bs), n);
  }

  // ---- the compiler and the trie as the program runs them ----

  lemma {:induction false} InsertedAllSnoc(bs: seq<Binding>, i: nat, c: Context, d: nat)
    requires AllBelow(bs, d) && i <= |bs|
    ensures AllBelow(bs[..i], d) && InsertedAll(map[], [], c, d) == map[]
    ensures i == |bs| ==> bs[..i] == bs
    ensures i < |bs| ==> AllBelow(bs[..i + 1], d) &&
                         InsertedAll(map[], bs[..i + 1], c, d) == Inserted(InsertedAll(map[], bs[..i], c, d), bs[i], c)
  {
    if i < |bs| {
      assert bs[..i + 1][..i] == bs[..i];
    }
  }

  method InsertChildren(b: Binding, c: Context) returns (children: Trie)
    ensures children == InsertedAll(map[], Children(b), c, Depth(b))
    decreases Depth(b), 0
  {
    hide InsertedAll, Inserted, Children, Matches, Depth, DepthUpTo;
    ghost var kids := Children(b);
    children := map[];
    var i := 0;
    InsertedAllSnoc(kids, 0, c, Depth(b));
    assert kids[..0] == [];
    while i < |b.keys|
      invariant 0 <= i <= |b.keys| && AllBelow(kids[..i], Depth(b))
      invariant children == InsertedAll(map[], kids[..i], c, Depth(b))
    {
      var child := b.keys[i];
      if child.scope == "" {
        child := child.(scope := b.scope);
      }
      if child.resources == [] && b.resources != [] {
        child := child.(resources := b.resources);
      }
      child := child.(visible := true);
      InsertedAllSnoc(kids, i, c, Depth(b));
      assert child == kids[i];
      children := InsertBinding(children, child, c);
      i := i + 1;
    }
    InsertedAllSnoc(kids, i, c, Depth(b));
  }

  /** Adds a binding to the trie, its children first into a trie of their own. */
  method InsertBinding(root: Trie, b: Binding, c: Context) returns (r: Trie)
    ensures r == Inserted(root, b, c)
    decreases Depth(b), 1
  {
    hide InsertedAll, Children, Matches, Depth;
    if !Matches(b, c) {
      return root;
    }
    if b.keys == [] {
      return root[b.key := Node(b.help, b.command, b.run, map[], !b.visible)];
    }
    var children := InsertChildren(b, c);
    if b.key in root && root[b.key].keys != map[] {
      var existing := root[b.key];
      return root[b.key := existing.(keys := existing.keys + children, help := b.help, hidden := !b.visible)];
    }
    return root[b.key := Node(b.help, b.command, b.run, children, !b.visible)];
  }

  class KeyTrie {
    const root: Trie
    var current: Option<Node>

    constructor (bindings: seq<Binding>, c: Context)
      ensures root == Compiled(bindings, c) && current == None
    {
      var trie: Trie := map[];
      ghost var d := MaxDepth(bindings);
      var i := 0;
      while i < |bindings|
        invariant 0 <= i <= |bindings| && trie == InsertedAll(map[], bindings[..i], c, d)
      {
        assert bindings[..i + 1][..i] == bindings[..i];
        trie := InsertBinding(trie, bindings[i], c);
        i := i + 1;
      }
      assert bindings[..|bindings|] == bindings;
      root, current := trie, None;
    }

    method Press(key: string) returns (out: Outcome)
      modifies `current
      ensures (current, out) == Pressed(root, old(current), key)
      ensures out.resolved <==> current == None
    {
      var lookup := if current.None? then root else current.value.keys;
      if key !in lookup {
        current := None;
        return SWALLOWED;
      }
      var node := lookup[key];
      if (node.command != "" || node.run.Some?) && node.keys == map[] {
        current := None;
        return Outcome(node.command, node.run, true);
      }
      if node.keys != map[] {
        current := Some(node);
        return Outcome("", None, false);
      }
      current := None;
      return SWALLOWED;
    }

    method Reset()
      modifies `current
      ensures current == None
    {
      current := None;
    }
  }
}
