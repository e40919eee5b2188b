/**
  The resource cache (internal/k8s/store.go) and how a manifest fills it
  (internal/manifest/load.go): one bucket for every resource type and namespace, the empty
  namespace standing for all of them. Objects are kept under a name that carries their
  namespace.
 */
module Stores {

  import opened Objects
  import opened Options

  datatype WatchKey = WatchKey(gvr: Gvr, ns: string)

  type Bucket = map<string, Object>

  type Cache = map<WatchKey, Bucket>

  /** Unique in the bucket of all namespaces too, if names carry no slash. */
  function CacheObjKey(o: Object): string { if o.ns != "" then o.ns + "/" + o.name else o.name }

  function BucketOf(cache: Cache, key: WatchKey): Bucket { if key in cache then cache[key] else map[] }

  function Upserted(cache: Cache, key: WatchKey, o: Object): Cache {
    cache[key := BucketOf(cache, key)[CacheObjKey(o) := o]]
  }

  class Store {
    var cache: Cache
    var informers: set<WatchKey>
    var isStatic: bool
    const hasClient: bool

    constructor (hasClient: bool)
      ensures cache == map[] && informers == {} && !isStatic && this.hasClient == hasClient
    {
      cache, informers, isStatic, this.hasClient := map[], {}, false, hasClient;
    }

    method MarkStatic()
      modifies `isStatic
      ensures isStatic
    {
      isStatic := true;
    }

    method CacheUpsert(gvr: Gvr, ns: string, o: Object)
      modifies `cache
      ensures cache == Upserted(old(cache), WatchKey(gvr, ns), o)
    {
      var key := WatchKey(gvr, ns);
      if key !in cache {
        cache := cache[key := map[]];
      }
      cache := cache[key := cache[key][CacheObjKey(o) := o]];
    }

    /** The items of a bucket, in no particular order. */
    method List(gvr: Gvr, ns: string) returns (items: seq<Object>)
      ensures forall o :: o in items <==> o in BucketOf(cache, WatchKey(gvr, ns)).Values
      ensures |items| == |BucketOf(cache, WatchKey(gvr, ns))|
    {
      items := [];
      var key := WatchKey(gvr, ns);
      if key !in cache {
        return;
      }
      var bucket := cache[key];
      var todo := bucket.Keys;
      assert |bucket| == |bucket.Keys|;
      while todo != {}
        invariant todo <= bucket.Keys && |items| + |todo| == |bucket.Keys|
        invariant forall o :: o in items <==> exists k :: k in bucket.Keys - todo && bucket[k] == o
        decreases todo
      {
        var k :| k in todo;
        items := items + [bucket[k]];
        todo := todo - {k};
      }
    }

    /** A store without a client keeps the bucket and starts no informer. */
    method Subscribe(gvr: Gvr, ns: string) returns (items: seq<Object>)
      modifies `cache, `informers
      ensures cache ==
                if WatchKey(gvr, ns) in old(informers) then old(cache)
                else AfterOp(old(cache), isStatic, Op.Subscribe(WatchKey(gvr, ns)))
      ensures informers ==
                if hasClient || WatchKey(gvr, ns) in old(informers) then old(informers) + {WatchKey(gvr, ns)}
                else old(informers)
      ensures forall o :: o in items <==> o in BucketOf(cache, WatchKey(gvr, ns)).Values
    {
      var key := WatchKey(gvr, ns);
      if key in informers {
        items := List(gvr, ns);
        return;
      }
      if key !in cache {
        cache := cache[key := map[]];
      }
      if !hasClient {
        items := List(gvr, ns);
        return;
      }
      informers := informers + {key};
      items := List(gvr, ns);
    }

    method Unsubscribe(gvr: Gvr, ns: string)
      modifies `cache, `informers
      ensures cache == AfterOp(old(cache), isStatic, Op.Unsubscribe(WatchKey(gvr, ns)))
      ensures informers == if isStatic then old(informers) else old(informers) - {WatchKey(gvr, ns)}
    {
      if isStatic {
        return;
      }
      informers := informers - {WatchKey(gvr, ns)};
      cache := cache - {WatchKey(gvr, ns)};
    }

    method UnsubscribeAll()
      modifies `cache, `informers
      ensures cache == AfterOp(old(cache), isStatic, Op.UnsubscribeAll)
      ensures informers == if isStatic then old(informers) else {}
    {
      if isStatic {
        return;
      }
      informers := {};
      cache := map[];
    }

    /** The sum of the sizes of a namespace's buckets. */
    method CountInNamespace(ns: string) returns (n: nat)
      ensures n == CountIn(cache, ns)
    {
      n := 0;
      var rest := cache;
      while rest != map[]
        invariant CountIn(cache, ns) == n + CountIn(rest, ns)
        decreases |rest.Keys|
      {
        var key :| key in rest;
        CountSplit(rest, ns, key);
        assert (rest - {key}).Keys == rest.Keys - {key};
        if key.ns == ns {
          n := n + |rest[key]|;
        }
        rest := rest - {key};
      }
    }
  }

  /** Every object of a namespace's buckets, with its bucket. */
  function Entries(cache: Cache, ns: string): set<(WatchKey, string)> {
    set key, k | key in cache && key.ns == ns && k in cache[key] :: (key, k)
  }

  function CountIn(cache: Cache, ns: string): nat { |Entries(cache, ns)| }

  lemma CountSplit(cache: Cache, ns: string, key: WatchKey)
    requires key in cache
    ensures CountIn(cache, ns) == CountIn(cache - {key}, ns) + if key.ns == ns then |cache[key]| else 0
  {
    var rest := cache - {key};
    if key.ns == ns {
      var own := set k | k in cache[key] :: (key, k);
      OwnSize(cache[key].Keys, key, own);
      assert Entries(cache, ns) == Entries(rest, ns) + own;
      assert Entries(rest, ns) !! own;
    } else {
      assert Entries(cache, ns) == Entries(rest, ns);
    }
  }

  lemma {:induction false} OwnSize(ks: set<string>, key: WatchKey, own: set<(WatchKey, string)>)
    requires own == set k | k in ks :: (key, k)
    ensures |own| == |ks|
    decreases |ks|
  {
    if ks != {} {
      var k :| k in ks;
      OwnSize(ks - {k}, key, own - {(key, k)});
    }
  }

  // ---- loading a manifest ----

  /** Each object goes to the bucket of its namespace and to that of all namespaces. */
  function Loaded(objs: seq<Object>, gvrOf: Object -> Gvr): Cache {
    if objs == [] then map[]
    else
      var o, before := objs[|objs| - 1], Loaded(objs[..|objs| - 1], gvrOf);
      var g := gvrOf(o);
      var once := Upserted(before, WatchKey(g, o.ns), o);
      if o.ns != "" then Upserted(once, WatchKey(g, ""), o) else once
  }

  method Load(objs: seq<Object>, gvrOf: Object -> Gvr) returns (store: Store)
    ensures fresh(store) && store.isStatic && !store.hasClient && store.cache == Loaded(objs, gvrOf)
  {
    store := new Store(false);
    store.MarkStatic();
    var i := 0;
    while i < |objs|
      invariant 0 <= i <= |objs| && store.isStatic && store.cache == Loaded(objs[..i], gvrOf)
    {
      var o := objs[i];
      assert objs[..i + 1][..i] == objs[..i];
      var gvr := gvrOf(o);
      store.CacheUpsert(gvr, o.ns, o);
      if o.ns != "" {
        store.CacheUpsert(gvr, "", o);
      }
      i := i + 1;
    }
    assert objs[..|objs|] == objs;
  }

  function Lookup(cache: Cache, gvr: Gvr, ns: string, k: string): Option<Object> {
    var bucket := BucketOf(cache, WatchKey(gvr, ns));
    if k in bucket then Some(bucket[k]) else None
  }

  predicate Fits(o: Object, gvrOf: Object -> Gvr, gvr: Gvr, ns: string, k: string) {
    gvrOf(o) == gvr && CacheObjKey(o) == k && (ns == "" || o.ns == ns)
  }

  /** The last object of a type, namespace and key; any namespace if none is given. */
  function Last(objs: seq<Object>, gvrOf: Object -> Gvr, gvr: Gvr, ns: string, k: string): Option<Object> {
    if objs == [] then None
    else if Fits(objs[|objs| - 1], gvrOf, gvr, ns, k) then Some(objs[|objs| - 1])
    else Last(objs[..|objs| - 1], gvrOf, gvr, ns, k)
  }

  lemma {:induction false} LoadedLast(objs: seq<Object>, gvrOf: Object -> Gvr, gvr: Gvr, ns: string, k: string)
    ensures Lookup(Loaded(objs, gvrOf), gvr, ns, k) == Last(objs, gvrOf, gvr, ns, k)
    decreases |objs|
  {
    if objs != [] {
      LoadedLast(objs[..|objs| - 1], gvrOf, gvr, ns, k);
    }
  }

  /** The objects of a namespace, picked out of the bucket of all namespaces. */
  function Filtered(cache: Cache, gvr: Gvr, ns: string, k: string): Option<Object> {
    var all := Lookup(cache, gvr, "", k);
    if all.Some? && all.value.ns == ns then all else None
  }

  /** Some namespaced object is replaced, in the bucket of all namespaces only, by a later
      one of its type that has the same key in another namespace. */
  ghost predicate Overridden(objs: seq<Object>, gvrOf: Object -> Gvr) {
    exists i :: 0 <= i < |objs| && objs[i].ns != "" &&
      var last := Last(objs, gvrOf, gvrOf(objs[i]), "", CacheObjKey(objs[i]));
      last.Some? && last.value.ns != objs[i].ns
  }

  lemma {:induction false} LastFits(objs: seq<Object>, gvrOf: Object -> Gvr, gvr: Gvr, ns: string, k: string)
    ensures var last := Last(objs, gvrOf, gvr, ns, k);
            if last.Some? then last.value in objs && Fits(last.value, gvrOf, gvr, ns, k)
            else forall o :: o in objs ==> !Fits(o, gvrOf, gvr, ns, k)
    decreases |objs|
  {
    if objs != [] {
      LastFits(objs[..|objs| - 1], gvrOf, gvr, ns, k);
    }
  }

  lemma {:induction false} LastOfNamespace(objs: seq<Object>, gvrOf: Object -> Gvr, gvr: Gvr, ns: string, k: string)
    requires ns != ""
    ensures var all := Last(objs, gvrOf, gvr, "", k);
            all.Some? && all.value.ns == ns ==> Last(objs, gvrOf, gvr, ns, k) == all
    decreases |objs|
  {
    if objs != [] {
      LastOfNamespace(objs[..|objs| - 1], gvrOf, gvr, ns, k);
    }
  }

  ghost predicate BucketsAgree(cache: Cache) {
    forall gvr, ns, k :: ns != "" ==> Lookup(cache, gvr, ns, k) == Filtered(cache, gvr, ns, k)
  }

  /** Main result on loading: the bucket of every namespace is the part of the bucket of all
      namespaces that belongs to it, exactly if no object is overridden there. */
  lemma {:induction false} BucketsAgreeUnlessOverridden(objs: seq<Object>, gvrOf: Object -> Gvr)
    ensures BucketsAgree(Loaded(objs, gvrOf)) <==> !Overridden(objs, gvrOf)
  {
    var cache := Loaded(objs, gvrOf);
    if !Overridden(objs, gvrOf) {
      forall gvr, ns, k | ns != "" ensures Lookup(cache, gvr, ns, k) == Filtered(cache, gvr, ns, k) {
        LoadedLast(objs, gvrOf, gvr, ns, k);
        LoadedLast(objs, gvrOf, gvr, "", k);
        LastOfNamespace(objs, gvrOf, gvr, ns, k);
        LastFits(objs, gvrOf, gvr, ns, k);
        LastFits(objs, gvrOf, gvr, "", k);
      }
    } else {
      var i :| 0 <= i < |objs| && objs[i].ns != "" &&
               var last := Last(objs, gvrOf, gvrOf(objs[i]), "", CacheObjKey(objs[i]));
               last.Some? && last.value.ns != objs[i].ns;
      var o := objs[i];
      var g, k := gvrOf(o), CacheObjKey(o);
      LoadedLast(objs, gvrOf, g, o.ns, k);
      LoadedLast(objs, gvrOf, g, "", k);
      LastFits(objs, gvrOf, g, o.ns, k);
      assert Fits(o, gvrOf, g, o.ns, k);
      assert Lookup(cache, g, o.ns, k) != Filtered(cache, g, o.ns, k);
    }
  }

  function Slashed(ns: string, name: string): Object {
    Object("v1", "ConfigMap", ns, name, "", [], map[], false, None, Template("", map[]), None, "", map[], [])
  }

  /** Name "b/c" in namespace "a" and name "c" in namespace "a/b" share a key: the first is
      in the bucket of its namespace, and lost from that of all namespaces. */
  lemma SlashesOverride()
    ensures var objs, gvrOf := [Slashed("a", "b/c"), Slashed("a/b", "c")], (o: Object) => Gvr(o.apiVersion, o.kind);
            var cache, gvr := Loaded(objs, gvrOf), Gvr("v1", "ConfigMap");
            && Overridden(objs, gvrOf) && !BucketsAgree(cache)
            && Lookup(cache, gvr, "a", "a/b/c") == Some(objs[0]) && Filtered(cache, gvr, "a", "a/b/c") == None
  {
    var a, b, gvrOf := Slashed("a", "b/c"), Slashed("a/b", "c"), (o: Object) => Gvr(o.apiVersion, o.kind);
    var objs, gvr, key := [a, b], Gvr("v1", "ConfigMap"), "a/b/c";
    assert "a" + "/" + "b/c" == key && "a/b" + "/" + "c" == key;
    assert objs[..1] == [a] && [a][..0] == [];
    assert Last([], gvrOf, gvr, "a", key) == None;
    assert Last([a], gvrOf, gvr, "a", key) == Some(a);
    assert Last(objs, gvrOf, gvr, "a", key) == Some(a) && Last(objs, gvrOf, gvr, "", key) == Some(b);
    LoadedLast(objs, gvrOf, gvr, "a", key);
    LoadedLast(objs, gvrOf, gvr, "", key);
    assert objs[0].ns != "" && Last(objs, gvrOf, gvrOf(objs[0]), "", CacheObjKey(objs[0])) == Some(b);
    BucketsAgreeUnlessOverridden(objs, gvrOf);
  }

  predicate NoSlash(s: string) { '/' !in s }

  lemma SlashOnce(a: string, b: string, c: string, d: string)
    requires NoSlash(a) && NoSlash(c) && a + "/" + b == c + "/" + d
    ensures a == c
  {
    var s := a + "/" + b;
    assert s[|a|] == '/' && s[|c|] == '/';
    assert forall i :: 0 <= i < |a| ==> s[i] == a[i];
    assert forall i :: 0 <= i < |c| ==> s[i] == c[i];
    assert a == s[..|a|] && c == s[..|c|];
  }

  /** Names as the API server allows them are safe. */
  lemma {:induction false} PlainNamesAgree(objs: seq<Object>, gvrOf: Object -> Gvr)
    requires forall o :: o in objs ==> NoSlash(o.ns) && NoSlash(o.name)
    ensures BucketsAgree(Loaded(objs, gvrOf))
  {
    BucketsAgreeUnlessOverridden(objs, gvrOf);
    forall i | 0 <= i < |objs| && objs[i].ns != ""
      ensures var last := Last(objs, gvrOf, gvrOf(objs[i]), "", CacheObjKey(objs[i]));
              last.Some? ==> last.value.ns == objs[i].ns
    {
      var o := objs[i];
      assert CacheObjKey(o)[|o.ns|] == '/';
      var last := Last(objs, gvrOf, gvrOf(o), "", CacheObjKey(o));
      LastFits(objs, gvrOf, gvrOf(o), "", CacheObjKey(o));
      if last.Some? {
        if last.value.ns != "" {
          SlashOnce(o.ns, o.name, last.value.ns, last.value.name);
        }
      }
    }
  }

  /** Names and namespaces without slashes are what the key is made of. */
  lemma {:induction false} KeysAreNames(a: Object, b: Object)
    requires NoSlash(a.ns) && NoSlash(a.name) && NoSlash(b.ns) && NoSlash(b.name)
    ensures CacheObjKey(a) == CacheObjKey(b) <==> a.ns == b.ns && a.name == b.name
  {
    assert a.ns != "" ==> CacheObjKey(a)[|a.ns|] == '/';
    assert b.ns != "" ==> CacheObjKey(b)[|b.ns|] == '/';
    if CacheObjKey(a) == CacheObjKey(b) && a.ns != "" && b.ns != "" {
      SlashOnce(a.ns, a.name, b.ns, b.name);
      assert (a.ns + "/" + a.name)[|a.ns| + 1..] == (b.ns + "/" + b.name)[|b.ns| + 1..];
    }
  }

  /** The object is of this type and namespace, and the last of its name there. */
  ghost predicate LastNamed(objs: seq<Object>, gvrOf: Object -> Gvr, gvr: Gvr, ns: string, i: nat)
    requires i < |objs|
  {
    && gvrOf(objs[i]) == gvr && (ns == "" || objs[i].ns == ns)
    && forall j :: i < j < |objs| && gvrOf(objs[j]) == gvr ==>
         !(objs[j].ns == objs[i].ns && objs[j].name == objs[i].name)
  }

  /** Main result on what is listed: for names without slashes the bucket of a namespace, or
      of all, holds of each type the last object of every name and namespace. */
  lemma {:induction false} ListsTheLast(objs: seq<Object>, gvrOf: Object -> Gvr, gvr: Gvr, ns: string, o: Object)
    requires forall o :: o in objs ==> NoSlash(o.ns) && NoSlash(o.name)
    ensures o in BucketOf(Loaded(objs, gvrOf), WatchKey(gvr, ns)).Values <==>
            exists i :: 0 <= i < |objs| && objs[i] == o && LastNamed(objs, gvrOf, gvr, ns, i)
  {
    hide Loaded, CacheObjKey, Last, NoSlash;
    var bucket := BucketOf(Loaded(objs, gvrOf), WatchKey(gvr, ns));
    if o in bucket.Values {
      var k :| k in bucket && bucket[k] == o;
      LoadedLast(objs, gvrOf, gvr, ns, k);
      var i := LastPlace(objs, gvrOf, gvr, ns, k);
      forall j | i < j < |objs| && gvrOf(objs[j]) == gvr ensures !(objs[j].ns == o.ns && objs[j].name == o.name) {
        KeysAreNames(objs[j], o);
      }
      assert LastNamed(objs, gvrOf, gvr, ns, i);
    }
    if i :| 0 <= i < |objs| && objs[i] == o && LastNamed(objs, gvrOf, gvr, ns, i) {
      var k := CacheObjKey(o);
      LoadedLast(objs, gvrOf, gvr, ns, k);
      LastFits(objs, gvrOf, gvr, ns, k);
      assert Fits(o, gvrOf, gvr, ns, k);
      var l := LastPlace(objs, gvrOf, gvr, ns, k);
      KeysAreNames(objs[l], o);
      assert l == i;
      assert bucket[k] == o;
    }
  }

  /** Where the last object that fits is. */
  lemma {:induction false} LastPlace(objs: seq<Object>, gvrOf: Object -> Gvr, gvr: Gvr, ns: string, k: string)
    returns (i: nat)
    requires Last(objs, gvrOf, gvr, ns, k).Some?
    ensures i < |objs| && Last(objs, gvrOf, gvr, ns, k) == Some(objs[i]) && Fits(objs[i], gvrOf, gvr, ns, k)
    ensures forall j :: i < j < |objs| ==> !Fits(objs[j], gvrOf, gvr, ns, k)
    decreases |objs|
  {
    if Fits(objs[|objs| - 1], gvrOf, gvr, ns, k) {
      i := |objs| - 1;
    } else {
      i := LastPlace(objs[..|objs| - 1], gvrOf, gvr, ns, k);
    }
  }

  /** An object without a namespace has its name for a key, and so shares one with another. */
  lemma {:induction false} UnnamespacedShares()
    ensures CacheObjKey(Slashed("", "a/b")) == CacheObjKey(Slashed("a", "b"))
  {
    assert "a" + "/" + "b" == "a/b";
  }

  // ---- a static store keeps its objects ----

  datatype Op = Subscribe(key: WatchKey) | Unsubscribe(key: WatchKey) | UnsubscribeAll

  function AfterOp(cache: Cache, isStatic: bool, op: Op): Cache {
    match op
    case Subscribe(key) => if key in cache then cache else cache[key := map[]]
    case Unsubscribe(key) => if isStatic then cache else cache - {key}
    case UnsubscribeAll => if isStatic then cache else map[]
  }

  function AfterOps(cache: Cache, isStatic: bool, ops: seq<Op>): Cache
    decreases |ops|
  {
    if ops == [] then cache else AfterOps(AfterOp(cache, isStatic, ops[0]), isStatic, ops[1..])
  }

  /** However panes come and go, a manifest's objects stay listed. */
  lemma {:induction false} StaticKeeps(cache: Cache, ops: seq<Op>, key: WatchKey)
    ensures BucketOf(AfterOps(cache, true, ops), key) == BucketOf(cache, key)
    decreases |ops|
  {
    if ops != [] {
      StaticKeeps(AfterOp(cache, true, ops[0]), ops[1..], key);
    }
  }

  /** A store with a client forgets exactly what is unsubscribed. */
  lemma {:induction false} LiveForgets(cache: Cache, ops: seq<Op>, key: WatchKey)
    requires ops != []
    ensures var last, before := ops[|ops| - 1], BucketOf(AfterOps(cache, false, ops[..|ops| - 1]), key);
            BucketOf(AfterOps(cache, false, ops), key) ==
            if last.UnsubscribeAll? || last == Unsubscribe(key) then map[] else before
    decreases |ops|
  {
    if |ops| == 1 {
      assert ops[..0] == [] && ops[1..] == [];
    } else {
      assert ops[1..][..|ops| - 2] == ops[..|ops| - 1][1..] && ops[1..][|ops| - 2] == ops[|ops| - 1];
      LiveForgets(AfterOp(cache, false, ops[0]), ops[1..], key);
    }
  }
}
