/** What the manifest loader reads of an object, and what it stamps onto it. */
module Objects {

  import opened Options

  datatype Owner = Owner(apiVersion: string, kind: string, name: string, uid: string)

  datatype Template = Template(spec: string, labels: map<string, string>)

  datatype Endpoint = Endpoint(ip: string, podName: string, podNs: string, podUid: string)

  /** `template` is the pod template of a workload, or the spec of a pod; `status` the
      replica count of a status, stamped or given. */
  datatype Object = Object(
    apiVersion: string, kind: string, ns: string, name: string, uid: string,
    owners: seq<Owner>, labels: map<string, string>, fabricated: bool,
    replicas: Option<int>, template: Template, status: Option<int>, podIP: string,
    selector: map<string, string>, endpoints: seq<Endpoint>)

  datatype Gvr = Gvr(apiVersion: string, resource: string)
}

/**
  The runtime objects a static manifest is given (internal/manifest/synth.go): namespaces,
  the children of workloads, and endpoint slices. Fabricated objects go after the manifest's
  own, which are only stamped.
 */
module Manifests {

  import opened Objects
  import opened Options
  import opened Windows

  type NonEmpty = s: string | s != "" witness "-"

  /** Hashes and formatting, taken as they come. */
  datatype Naming = Naming(
    uid: (string, string, string) -> NonEmpty, short: string -> string,
    ip: (string, string) -> NonEmpty, num: int -> string)

  function Blank(apiVersion: string, kind: string, ns: string, name: string, uid: string): Object {
    Object(apiVersion, kind, ns, name, uid, [], map[], true, None, Template("", map[]), None, "", map[], [])
  }

  // ---- namespaces ----

  const CLUSTER_SCOPED: set<string> := {
    "Namespace", "Node", "PersistentVolume", "ClusterRole", "ClusterRoleBinding", "CustomResourceDefinition",
    "StorageClass", "PriorityClass", "ValidatingWebhookConfiguration", "MutatingWebhookConfiguration", "APIService",
    "IngressClass", "RuntimeClass", "VolumeAttachment", "CSIDriver", "CSINode", "PodSecurityPolicy", "ClusterIssuer"
  }

  predicate Namespaced(o: Object) { o.kind !in CLUSTER_SCOPED }

  predicate IsNamespace(o: Object, ns: string) { o.kind == "Namespace" && o.apiVersion == "v1" && o.name == ns }

  function Placed(o: Object, defaultNs: string): Object {
    if Namespaced(o) && o.ns == "" then o.(ns := defaultNs) else o
  }

  function NewNamespace(n: Naming, ns: string): Object { Blank("v1", "Namespace", "", ns, n.uid("Namespace", "", ns)) }

  /** The namespaces in use that the manifest does not declare. */
  ghost predicate Missing(objs: seq<Object>, defaultNs: string, ns: string) {
    && ns != "" && (exists i :: 0 <= i < |objs| && Namespaced(objs[i]) && Placed(objs[i], defaultNs).ns == ns)
    && !exists i :: 0 <= i < |objs| && IsNamespace(objs[i], ns)
  }

  predicate NamedFrom(objs: seq<Object>, start: nat, name: string) {
    exists i :: start <= i < |objs| && objs[i].name == name
  }

  /** The manifest's objects in order, each with a namespace if it takes one; then one
      namespace object for each missing one, in any order. */
  ghost predicate Assigned(n: Naming, objs: seq<Object>, defaultNs: string, out: seq<Object>) {
    && |objs| <= |out|
    && (forall i :: 0 <= i < |objs| ==> out[i] == Placed(objs[i], defaultNs))
    && (forall i :: |objs| <= i < |out| ==>
         Missing(objs, defaultNs, out[i].name) && out[i] == NewNamespace(n, out[i].name))
    && (forall ns :: Missing(objs, defaultNs, ns) ==> NamedFrom(out, |objs|, ns))
    && (forall i, j :: |objs| <= i < j < |out| ==> out[i].name != out[j].name)
  }

  method AssignNamespaces(n: Naming, objs: seq<Object>, defaultNs: string) returns (out: seq<Object>)
    ensures Assigned(n, objs, defaultNs, out)
  {
    var existing: set<string> := {};
    var i := 0;
    while i < |objs|
      invariant 0 <= i <= |objs|
      invariant forall ns :: ns in existing <==> exists k :: 0 <= k < i && IsNamespace(objs[k], ns)
    {
      if objs[i].kind == "Namespace" && objs[i].apiVersion == "v1" {
        existing := existing + {objs[i].name};
      }
      i := i + 1;
    }
    var used: set<string> := {};
    out := objs;
    i := 0;
    while i < |objs|
      invariant 0 <= i <= |objs| == |out|
      invariant forall k :: 0 <= k < |out| ==> out[k] == if k < i then Placed(objs[k], defaultNs) else objs[k]
      invariant forall ns :: ns in used <==>
                  ns != "" && exists k :: 0 <= k < i && Namespaced(objs[k]) && Placed(objs[k], defaultNs).ns == ns
    {
      var o := objs[i];
      if o.kind !in CLUSTER_SCOPED {
        if o.ns == "" {
          out := out[i := o.(ns := defaultNs)];
        }
        if out[i].ns != "" {
          used := used + {out[i].ns};
        }
      }
      i := i + 1;
    }
    assert forall ns :: Missing(objs, defaultNs, ns) <==> ns in used && ns !in existing;
    out := AppendNamespaces(n, out, used, existing);
  }

  lemma NamedSnoc(objs: seq<Object>, start: nat, o: Object)
    requires start <= |objs|
    ensures forall name :: NamedFrom(objs + [o], start, name) <==> NamedFrom(objs, start, name) || name == o.name
  {
    var all := objs + [o];
    assert all[|objs|] == o;
    forall name | NamedFrom(objs, start, name) ensures NamedFrom(all, start, name) {
      var i :| start <= i < |objs| && objs[i].name == name;
      assert all[i].name == name;
    }
  }

  method AppendNamespaces(n: Naming, objs: seq<Object>, used: set<string>, existing: set<string>)
    returns (out: seq<Object>)
    ensures objs <= out
    ensures forall i :: |objs| <= i < |out| ==> out[i].name in used - existing && out[i] == NewNamespace(n, out[i].name)
    ensures forall ns :: ns in used - existing ==> NamedFrom(out, |objs|, ns)
    ensures forall i, j :: |objs| <= i < j < |out| ==> out[i].name != out[j].name
  {
    out := objs;
    var todo := used;
    while todo != {}
      invariant todo <= used && objs <= out
      invariant forall i :: |objs| <= i < |out| ==>
                  out[i].name in used - existing - todo && out[i] == NewNamespace(n, out[i].name)
      invariant forall ns :: ns in used - existing - todo ==> NamedFrom(out, |objs|, ns)
      invariant forall i, j :: |objs| <= i < j < |out| ==> out[i].name != out[j].name
      decreases todo
    {
      var ns :| ns in todo;
      todo := todo - {ns};
      if ns !in existing {
        NamedSnoc(out, |objs|, NewNamespace(n, ns));
        out := out + [NewNamespace(n, ns)];
      }
    }
  }

  // ---- children of workloads ----

  function WithUid(n: Naming, o: Object): Object { if o.uid != "" then o else o.(uid := n.uid(o.kind, o.ns, o.name)) }

  function ReplicaCount(o: Object): int { if o.replicas.Some? then o.replicas.value else 1 }

  function WithStatus(o: Object, count: int): Object { if o.status.Some? then o else o.(status := Some(count)) }

  function OwnerRef(o: Object): Owner { Owner(o.apiVersion, o.kind, o.name, o.uid) }

  function NewChild(n: Naming, kind: string, apiVersion: string, ns: string, name: string, owner: Owner): Object {
    Blank(apiVersion, kind, ns, name, n.uid(kind, ns, name)).(owners := [owner])
  }

  function MakePod(n: Naming, ns: string, name: string, owner: Owner, t: Template): Object {
    NewChild(n, "Pod", "v1", ns, name, owner).(
      template := Template(t.spec, map[]), labels := t.labels, podIP := n.ip(ns, name))
  }

  function Dash(a: string, b: string): string { a + "-" + b }

  /** The first `count` pods of an owner, none if it is negative. */
  function Pods(n: Naming, ns: string, owner: Owner, t: Template, nameOf: int -> string, count: int): (r: seq<Object>)
    ensures |r| == Max(0, count)
    ensures forall i :: 0 <= i < |r| ==> r[i] == MakePod(n, ns, nameOf(i), owner, t)
  {
    seq(Max(0, count), i => MakePod(n, ns, nameOf(i), owner, t))
  }

  function ReplicaSetPodName(n: Naming, ns: string, rsName: string): int -> string {
    i => Dash(rsName, n.short(n.uid("Pod", ns, Dash(rsName, n.num(i)))))
  }

  function JobPods(n: Naming, job: Object): seq<Object> {
    [MakePod(n, job.ns, Dash(job.name, n.short(job.uid)), OwnerRef(job), job.template)]
  }

  function NewReplicaSet(n: Naming, d: Object): Object {
    NewChild(n, "ReplicaSet", "apps/v1", d.ns, Dash(d.name, n.short(d.uid)), OwnerRef(d)).(
      replicas := Some(ReplicaCount(d)))
  }

  function NewJob(n: Naming, cj: Object): Object {
    NewChild(n, "Job", "batch/v1", cj.ns, Dash(cj.name, n.short(cj.uid)), OwnerRef(cj)).(template := cj.template)
  }

  /** An object stamped, and the children fabricated for it. */
  function Expanded(n: Naming, o: Object): (Object, seq<Object>) {
    var u := WithUid(n, o);
    if o.kind == "Deployment" then
      var rs := NewReplicaSet(n, u);
      (WithStatus(u, ReplicaCount(o)),
       [rs] + Pods(n, u.ns, OwnerRef(rs), u.template, ReplicaSetPodName(n, u.ns, rs.name), ReplicaCount(o)))
    else if o.kind == "StatefulSet" then
      (WithStatus(u, ReplicaCount(o)),
       Pods(n, u.ns, OwnerRef(u), u.template, i => Dash(u.name, n.num(i)), ReplicaCount(o)))
    else if o.kind == "DaemonSet" then
      (WithStatus(u, 1), [MakePod(n, u.ns, Dash(u.name, n.short(u.uid)), OwnerRef(u), u.template)])
    else if o.kind == "Job" then (u, JobPods(n, u))
    else if o.kind == "CronJob" then
      var job := NewJob(n, u);
      (u, [job] + JobPods(n, WithUid(n, job)))
    else (o, [])
  }

  function Stamped(n: Naming, objs: seq<Object>): (r: seq<Object>)
    ensures |r| == |objs| && forall i :: 0 <= i < |r| ==> r[i] == Expanded(n, objs[i]).0
  {
    seq(|objs|, i requires 0 <= i < |objs| => Expanded(n, objs[i]).0)
  }

  function Children(n: Naming, objs: seq<Object>): seq<Object> {
    if objs == [] then [] else Children(n, objs[..|objs| - 1]) + Expanded(n, objs[|objs| - 1]).1
  }

  method MakePods(n: Naming, ns: string, owner: Owner, t: Template, nameOf: int -> string, replicas: int)
    returns (out: seq<Object>)
    ensures out == Pods(n, ns, owner, t, nameOf, replicas)
  {
    out := [];
    var i := 0;
    while i < replicas
      invariant 0 <= i && i == |out| <= Max(0, replicas)
      invariant forall k :: 0 <= k < i ==> out[k] == MakePod(n, ns, nameOf(k), owner, t)
    {
      out := out + [MakePod(n, ns, nameOf(i), owner, t)];
      i := i + 1;
    }
  }

  method Synthesize(n: Naming, o: Object) returns (o': Object, kids: seq<Object>)
    ensures (o', kids) == Expanded(n, o)
  {
    o', kids := o, [];
    if o.kind !in {"Deployment", "StatefulSet", "DaemonSet", "Job", "CronJob"} {
      return;
    }
    if o.uid == "" {
      o' := o.(uid := n.uid(o.kind, o.ns, o.name));
    }
    if o.kind == "Deployment" {
      var rs := NewReplicaSet(n, o');
      var pods := MakePods(n, o.ns, OwnerRef(rs), o.template, ReplicaSetPodName(n, o.ns, rs.name), ReplicaCount(o));
      kids := [rs] + pods;
      o' := WithStatus(o', ReplicaCount(o));
    } else if o.kind == "StatefulSet" {
      var name := o.name;
      kids := MakePods(n, o.ns, OwnerRef(o'), o.template, i => Dash(name, n.num(i)), ReplicaCount(o));
      o' := WithStatus(o', ReplicaCount(o));
    } else if o.kind == "DaemonSet" {
      kids := [MakePod(n, o.ns, Dash(o.name, n.short(o'.uid)), OwnerRef(o'), o.template)];
      o' := WithStatus(o', 1);
    } else if o.kind == "Job" {
      kids := JobPods(n, o');
    } else {
      var job := NewJob(n, o');
      kids := [job] + JobPods(n, WithUid(n, job));
    }
  }

  method SynthesizeWorkloads(n: Naming, objs: seq<Object>) returns (out: seq<Object>)
    ensures out == Stamped(n, objs) + Children(n, objs)
  {
    hide *;
    out := objs;
    WorkloadsStart(n, objs);
    var i := 0;
    while i < |objs|
      invariant 0 <= i <= |objs| <= |out|
      invariant out == Stamped(n, objs[..i]) + objs[i..] + Children(n, objs[..i])
    {
      var o', kids := Synthesize(n, objs[i]);
      WorkloadsStep(n, objs, i);
      out := out[i := o'] + kids;
      i := i + 1;
    }
    assert objs[..|objs|] == objs && objs[|objs|..] == [];
  }

  lemma {:induction false} WorkloadsStart(n: Naming, objs: seq<Object>)
    ensures objs == Stamped(n, objs[..0]) + objs[0..] + Children(n, objs[..0])
  {
  }

  lemma {:induction false} WorkloadsStep(n: Naming, objs: seq<Object>, i: nat)
    requires i < |objs|
    ensures var out := Stamped(n, objs[..i]) + objs[i..] + Children(n, objs[..i]);
            out[i := Expanded(n, objs[i]).0] + Expanded(n, objs[i]).1 ==
            Stamped(n, objs[..i + 1]) + objs[i + 1..] + Children(n, objs[..i + 1])
  {
    hide Expanded;
    var o', kids := Expanded(n, objs[i]).0, Expanded(n, objs[i]).1;
    var a, b, c, rest := Stamped(n, objs[..i]), Stamped(n, objs[..i + 1]), Children(n, objs[..i]), objs[i + 1..];
    assert objs[..i + 1][..i] == objs[..i];
    assert Children(n, objs[..i + 1]) == c + kids;
    assert b == a + [o'];
    assert objs[i..] == [objs[i]] + rest;
    var out := a + objs[i..] + c;
    assert out[i := o'] == a + [o'] + rest + c;
    assert (a + [o'] + rest + c) + kids == b + rest + (c + kids);
  }

  /** A child has one owner, which is among `objs`, in the child's namespace. */
  ghost predicate OwnedIn(kid: Object, objs: seq<Object>) {
    && |kid.owners| == 1 && kid.fabricated
    && exists i :: 0 <= i < |objs| && OwnerRef(objs[i]) == kid.owners[0] && objs[i].ns == kid.ns
  }

  lemma OwnedByAt(kid: Object, objs: seq<Object>, i: nat)
    requires i < |objs| && |kid.owners| == 1 && kid.fabricated && OwnerRef(objs[i]) == kid.owners[0] &&
             objs[i].ns == kid.ns
    ensures OwnedIn(kid, objs)
  {
  }

  /** The pods a workload calls for; none if it is no workload. */
  function PodCount(o: Object): nat {
    if o.kind in {"Deployment", "StatefulSet"} then Max(0, ReplicaCount(o))
    else if o.kind in {"DaemonSet", "Job", "CronJob"} then 1 else 0
  }

  /** What stands between a workload and its pods. */
  function Middle(o: Object): nat { if o.kind in {"Deployment", "CronJob"} then 1 else 0 }

  predicate IsWorkload(o: Object) { o.kind in {"Deployment", "StatefulSet", "DaemonSet", "Job", "CronJob"} }

  /** The replicas that a workload without a status reports. */
  function Reported(o: Object): Option<int> {
    if o.kind in {"Deployment", "StatefulSet"} then Some(ReplicaCount(o))
    else if o.kind == "DaemonSet" then Some(1) else None
  }

  /** Stamping gives a workload a uid and, where it has none, a status that reports the
      replicas asked for; all else stays, a uid and a status of its own included. */
  predicate SameObject(o: Object, o': Object) {
    && o' == o.(uid := o'.uid, status := o'.status)
    && (if o.uid != "" || !IsWorkload(o) then o'.uid == o.uid else o'.uid != "")
    && o'.status == if o.status.Some? then o.status else Reported(o)
  }

  /** A healthy pod of the template of `o`. */
  predicate PodOf(o: Object, pod: Object) {
    && IsPod(pod) && pod.podIP != "" && pod.uid != ""
    && pod.labels == o.template.labels && pod.template.spec == o.template.spec
  }

  /** The first child, if it is a middle one, belongs to the object, the others to that
      child; all but the middle one are pods of the object's template, as many as called
      for. */
  ghost predicate Family(n: Naming, o: Object, o': Object, kids: seq<Object>) {
    && |kids| == Middle(o) + PodCount(o)
    && (forall k :: Middle(o) <= k < |kids| ==> PodOf(o, kids[k]))
    && (o.kind == "Deployment" ==> kids[0].kind == "ReplicaSet" && kids[0].replicas == Some(ReplicaCount(o)))
    && (o.kind == "CronJob" ==> kids[0].kind == "Job" && kids[0].template == o.template)
    && (forall k :: 0 <= k < |kids| ==>
          kids[k].fabricated && kids[k].ns == o'.ns && kids[k].kind in {"Pod", "ReplicaSet", "Job"} &&
          kids[k].owners == [OwnerRef(if k < Middle(o) || Middle(o) == 0 then o' else kids[0])])
    && (forall k :: 0 <= k < |kids| ==>
          kids[k].owners[0].name + "-" <= kids[k].name && kids[k].uid == n.uid(kids[k].kind, kids[k].ns, kids[k].name))
    && (o.kind == "StatefulSet" ==> forall k :: 0 <= k < |kids| ==> kids[k].name == o.name + "-" + n.num(k))
  }

  lemma {:induction false} DeploymentRight(n: Naming, o: Object)
    requires o.kind == "Deployment"
    ensures Family(n, o, Expanded(n, o).0, Expanded(n, o).1)
  {
    var u, o', kids := WithUid(n, o), Expanded(n, o).0, Expanded(n, o).1;
    var rs := NewReplicaSet(n, u);
    WithUidKeeps(n, o);
    DeploymentKids(n, o, u, rs);
    NewReplicaSetIs(n, u, rs);
    assert ReplicaCount(u) == ReplicaCount(o);
    assert OwnerRef(u).name == u.name && OwnerRef(rs).name == rs.name;
    hide MakePod, PodOf, Expanded, WithUid, NewReplicaSet, ReplicaCount, ReplicaSetPodName, OwnerRef;
    forall k | 1 <= k < |kids| ensures PodUnder(n, o, rs, kids[k]) {
      var name := ReplicaSetPodName(n, u.ns, rs.name)(k - 1);
      PodNameIs(n, u.ns, rs.name, k - 1);
      MadePod(n, u, u.ns, name, OwnerRef(rs));
      SameTemplate(u, o, kids[k]);
    }
  }

  /** A pod of `o` that belongs to `owner`. */
  predicate PodUnder(n: Naming, o: Object, owner: Object, pod: Object) {
    && PodOf(o, pod) && pod.kind == "Pod" && pod.fabricated && pod.ns == o.ns && pod.owners == [OwnerRef(owner)]
    && owner.name + "-" <= pod.name && pod.uid == n.uid("Pod", pod.ns, pod.name)
  }

  lemma {:induction false} NewReplicaSetIs(n: Naming, d: Object, rs: Object)
    requires rs == NewReplicaSet(n, d)
    ensures rs.kind == "ReplicaSet" && rs.ns == d.ns && rs.owners == [OwnerRef(d)] && rs.fabricated
    ensures rs.replicas == Some(ReplicaCount(d)) && d.name + "-" <= rs.name
    ensures rs.uid == n.uid("ReplicaSet", d.ns, rs.name)
  {
  }

  lemma {:induction false} ExpandedDeployment(n: Naming, o: Object, u: Object, rs: Object)
    requires o.kind == "Deployment" && u == WithUid(n, o) && rs == NewReplicaSet(n, u)
    ensures Expanded(n, o).0 == WithStatus(u, ReplicaCount(o))
    ensures Expanded(n, o).1 ==
            [rs] + Pods(n, u.ns, OwnerRef(rs), u.template, ReplicaSetPodName(n, u.ns, rs.name), ReplicaCount(o))
  {
    hide MakePod, NewReplicaSet, ReplicaSetPodName, ReplicaCount, WithUid, WithStatus, Pods, OwnerRef;
  }

  lemma {:induction false} StatusKeepsOwner(o: Object, count: int)
    ensures OwnerRef(WithStatus(o, count)) == OwnerRef(o) && WithStatus(o, count).ns == o.ns
  {
  }

  lemma {:induction false} DeploymentKids(n: Naming, o: Object, u: Object, rs: Object)
    requires o.kind == "Deployment" && u == WithUid(n, o) && rs == NewReplicaSet(n, u)
    ensures var o', kids := Expanded(n, o).0, Expanded(n, o).1;
            && OwnerRef(o') == OwnerRef(u) && o'.ns == u.ns
            && |kids| == 1 + Max(0, ReplicaCount(o)) && kids[0] == rs
            && forall k :: 1 <= k < |kids| ==>
                 kids[k] == MakePod(n, u.ns, ReplicaSetPodName(n, u.ns, rs.name)(k - 1), OwnerRef(rs), u.template)
  {
    hide *;
    ExpandedDeployment(n, o, u, rs);
    StatusKeepsOwner(u, ReplicaCount(o));
  }

  lemma {:induction false} PodNameIs(n: Naming, ns: string, rsName: string, i: int)
    ensures rsName + "-" <= ReplicaSetPodName(n, ns, rsName)(i)
  {
    var suffix := n.short(n.uid("Pod", ns, Dash(rsName, n.num(i))));
    assert ReplicaSetPodName(n, ns, rsName)(i) == Dash(rsName, suffix) == rsName + "-" + suffix;
  }

  lemma CronJobRight(n: Naming, o: Object)
    requires o.kind == "CronJob"
    ensures Family(n, o, Expanded(n, o).0, Expanded(n, o).1)
  {
    var job := NewJob(n, WithUid(n, o));
    assert WithUid(n, job) == job;
    assert Expanded(n, o).1 == [job] + JobPods(n, job);
    hide Dash;
  }

  /** One workload: the object itself is only stamped, and its children are a family. */
  lemma {:induction false} ExpandedRight(n: Naming, o: Object)
    ensures SameObject(o, Expanded(n, o).0) && Family(n, o, Expanded(n, o).0, Expanded(n, o).1)
  {
    StampRight(n, o);
    hide *;
    if o.kind == "Deployment" {
      DeploymentRight(n, o);
    } else if o.kind == "CronJob" {
      CronJobRight(n, o);
    } else {
      OthersRight(n, o);
    }
  }

  lemma StampRight(n: Naming, o: Object)
    ensures SameObject(o, Expanded(n, o).0)
  {
    hide ReplicaSetPodName, Dash, Pods, JobPods, NewJob, NewReplicaSet, MakePod;
  }

  lemma {:induction false} WithUidKeeps(n: Naming, o: Object)
    ensures var u := WithUid(n, o);
            u == o.(uid := u.uid) && u.uid != "" && (o.uid != "" ==> u.uid == o.uid)
  {
  }

  lemma {:induction false} MadePod(n: Naming, o: Object, ns: string, name: string, owner: Owner)
    ensures var pod := MakePod(n, ns, name, owner, o.template);
            && PodOf(o, pod) && pod.kind == "Pod" && pod.ns == ns && pod.owners == [owner] && pod.fabricated
            && pod.name == name && pod.uid == n.uid("Pod", ns, name)
  {
  }

  lemma {:induction false} OthersRight(n: Naming, o: Object)
    requires o.kind !in {"Deployment", "CronJob"}
    ensures Family(n, o, Expanded(n, o).0, Expanded(n, o).1)
  {
    var u, o', kids := WithUid(n, o), Expanded(n, o).0, Expanded(n, o).1;
    WithUidKeeps(n, o);
    hide ReplicaSetPodName, NewJob, NewReplicaSet, WithUid, MakePod, PodOf;
    assert |kids| == PodCount(o);
    forall k | 0 <= k < |kids|
      ensures PodOf(o, kids[k]) && kids[k].kind == "Pod" && kids[k].fabricated
      ensures kids[k].ns == o'.ns && kids[k].owners == [OwnerRef(o')]
      ensures o'.name + "-" <= kids[k].name && kids[k].uid == n.uid("Pod", kids[k].ns, kids[k].name)
      ensures o.kind == "StatefulSet" ==> kids[k].name == o.name + "-" + n.num(k)
    {
      var name := if o.kind == "StatefulSet" then u.name + "-" + n.num(k) else u.name + "-" + n.short(u.uid);
      assert kids[k] == MakePod(n, u.ns, name, OwnerRef(u), u.template);
      MadePod(n, u, u.ns, name, OwnerRef(u));
      SameTemplate(u, o, kids[k]);
    }
  }

  lemma {:induction false} SameTemplate(u: Object, o: Object, pod: Object)
    requires u.template == o.template && PodOf(u, pod)
    ensures PodOf(o, pod)
  {
  }

  lemma KidsOwned(n: Naming, o: Object, objs: seq<Object>, at: nat, start: nat)
    requires at < |objs| && objs[at] == Expanded(n, o).0
    requires start + |Expanded(n, o).1| <= |objs| && objs[start..start + |Expanded(n, o).1|] == Expanded(n, o).1
    ensures forall k :: start <= k < start + |Expanded(n, o).1| ==> OwnedIn(objs[k], objs)
  {
    ExpandedRight(n, o);
    var kids := Expanded(n, o).1;
    hide Expanded;
    forall k | start <= k < start + |kids| ensures OwnedIn(objs[k], objs) {
      var kid := kids[k - start];
      assert kid == objs[start..start + |kids|][k - start] == objs[k];
      if k - start < Middle(o) || Middle(o) == 0 {
        OwnedByAt(kid, objs, at);
      } else {
        assert objs[start] == objs[start..start + |kids|][0];
        OwnedByAt(kid, objs, start);
      }
    }
  }

  /** Children of the first `i` objects start after all the objects. */
  function Start(n: Naming, objs: seq<Object>, i: nat): nat
    requires i <= |objs|
  {
    |objs| + |Children(n, objs[..i])|
  }

  lemma {:induction false} ChildrenAt(n: Naming, objs: seq<Object>, i: nat)
    requires i < |objs|
    ensures var all := Stamped(n, objs) + Children(n, objs);
            var kids := Expanded(n, objs[i]).1;
            && Start(n, objs, i + 1) == Start(n, objs, i) + |kids| <= |all|
            && all[Start(n, objs, i)..Start(n, objs, i + 1)] == kids
    decreases |objs| - i
  {
    hide Expanded;
    assert objs[..i + 1][..i] == objs[..i];
    var kids := Expanded(n, objs[i]).1;
    assert Children(n, objs[..i + 1]) == Children(n, objs[..i]) + kids;
    ChildrenPrefix(n, objs, i + 1);
    var a, c := Stamped(n, objs), Children(n, objs[..i]);
    var rest := Children(n, objs)[|c + kids|..];
    assert Children(n, objs) == c + kids + rest;
    assert (a + (c + kids + rest))[|a| + |c|..|a| + |c| + |kids|] == kids;
  }

  lemma {:induction false} ChildrenPrefix(n: Naming, objs: seq<Object>, i: nat)
    requires i <= |objs|
    ensures Children(n, objs[..i]) <= Children(n, objs)
    decreases |objs| - i
  {
    hide *;
    if i < |objs| {
      ChildrenPrefix(n, objs, i + 1);
      ChildrenNext(n, objs, i);
    } else {
      assert objs[..i] == objs;
    }
  }

  lemma {:induction false} ChildrenNext(n: Naming, objs: seq<Object>, i: nat)
    requires i < |objs|
    ensures Children(n, objs[..i + 1]) == Children(n, objs[..i]) + Expanded(n, objs[i]).1
  {
    assert objs[..i + 1][..i] == objs[..i];
    hide Expanded;
  }

  /** Main result on workloads: the manifest's objects come first, in order and only stamped;
      every child's one owner reference names an object of the output, uid included, in the
      child's namespace; and the i-th object's children are together, a middle one and
      exactly as many pods as it calls for. */
  lemma {:induction false} WorkloadsRight(n: Naming, objs: seq<Object>, i: nat)
    requires i < |objs|
    ensures var out := Stamped(n, objs) + Children(n, objs);
            var from, to := Start(n, objs, i), Start(n, objs, i + 1);
            && SameObject(objs[i], out[i])
            && from <= to <= |out| && Family(n, objs[i], out[i], out[from..to])
            && (forall k :: from <= k < to ==> OwnedIn(out[k], out))
  {
    hide *;
    ChildrenAt(n, objs, i);
    ExpandedRight(n, objs[i]);
    var out := Stamped(n, objs) + Children(n, objs);
    KidsOwned(n, objs[i], out, i, Start(n, objs, i));
  }

  /** There is nothing else after the manifest's objects. */
  lemma {:induction false} ChildrenCovered(n: Naming, objs: seq<Object>)
    ensures Start(n, objs, 0) == |objs| && Start(n, objs, |objs|) == |Stamped(n, objs) + Children(n, objs)|
  {
    assert objs[..|objs|] == objs;
  }

  // ---- endpoint slices ----

  /** A label that is missing reads as the empty string. */
  predicate LabelsMatch(labels: map<string, string>, selector: map<string, string>) {
    forall k :: k in selector ==> (if k in labels then labels[k] else "") == selector[k]
  }

  /** The documented meaning: every label of the selector is there. It is what the code
      computes unless the selector asks for an empty value. */
  lemma LabelsMatchSuperset(labels: map<string, string>, selector: map<string, string>)
    ensures selector.Items <= labels.Items <==>
            LabelsMatch(labels, selector) && forall k :: k in selector && selector[k] == "" ==> k in labels
  {
    if selector.Items <= labels.Items {
      forall k | k in selector ensures k in labels && labels[k] == selector[k] {
        assert (k, selector[k]) in selector.Items;
      }
    } else {
      var p :| p in selector.Items && p !in labels.Items;
      assert p.0 in selector && selector[p.0] == p.1;
      assert p.0 in labels ==> (p.0, labels[p.0]) in labels.Items;
    }
  }

  /** A selector for an empty value selects a pod that has no such label. */
  lemma EmptyValueSelectsMissing()
    ensures var labels: map<string, string>, selector := map[], map["app" := ""];
            LabelsMatch(labels, selector) && !(selector.Items <= labels.Items)
  {
    var labels: map<string, string>, selector := map[], map["app" := ""];
    assert ("app", "") in selector.Items && ("app", "") !in labels.Items;
  }

  predicate IsPod(o: Object) { o.kind == "Pod" && o.apiVersion == "v1" }

  predicate Selecting(o: Object) { o.kind == "Service" && o.apiVersion == "v1" && o.selector != map[] }

  predicate Backs(pod: Object, svc: Object) {
    IsPod(pod) && pod.ns == svc.ns && pod.podIP != "" && LabelsMatch(pod.labels, svc.selector)
  }

  function EndpointFor(pod: Object): Endpoint { Endpoint(pod.podIP, pod.name, pod.ns, pod.uid) }

  function EndpointsOf(objs: seq<Object>, svc: Object): seq<Endpoint> {
    if objs == [] then []
    else
      var pod := objs[|objs| - 1];
      EndpointsOf(objs[..|objs| - 1], svc) + if Backs(pod, svc) then [EndpointFor(pod)] else []
  }

  function NewSlice(n: Naming, svc: Object, endpoints: seq<Endpoint>): Object {
    var name := svc.name + "-manifest";
    Blank("discovery.k8s.io/v1", "EndpointSlice", svc.ns, name, n.uid("EndpointSlice", svc.ns, name)).
      (labels := map["kubernetes.io/service-name" := svc.name], endpoints := endpoints)
  }

  /** One slice a selecting service, in the order of the services. */
  function Slices(n: Naming, all: seq<Object>, objs: seq<Object>): seq<Object> {
    if objs == [] then []
    else
      var o := objs[|objs| - 1];
      Slices(n, all, objs[..|objs| - 1]) + if Selecting(o) then [NewSlice(n, o, EndpointsOf(all, o))] else []
  }

  function PodsOf(objs: seq<Object>, ns: string): seq<Object> {
    if objs == [] then []
    else
      PodsOf(objs[..|objs| - 1], ns) +
      if IsPod(objs[|objs| - 1]) && objs[|objs| - 1].ns == ns then [objs[|objs| - 1]] else []
  }

  method LabelsMatchLoop(labels: map<string, string>, selector: map<string, string>) returns (r: bool)
    ensures r == LabelsMatch(labels, selector)
  {
    var todo := selector.Keys;
    while todo != {}
      invariant todo <= selector.Keys
      invariant forall k :: k in selector && k !in todo ==> (if k in labels then labels[k] else "") == selector[k]
      decreases todo
    {
      var k :| k in todo;
      if (if k in labels then labels[k] else "") != selector[k] {
        return false;
      }
      todo := todo - {k};
    }
    return true;
  }

  function At(podsByNs: map<string, seq<Object>>, ns: string): seq<Object> {
    if ns in podsByNs then podsByNs[ns] else []
  }

  lemma {:induction false} PodsOfStep(objs: seq<Object>, i: nat, ns: string)
    requires i < |objs|
    ensures var o := objs[i];
            PodsOf(objs[..i + 1], ns) == PodsOf(objs[..i], ns) + if IsPod(o) && o.ns == ns then [o] else []
  {
    assert objs[..i + 1][..i] == objs[..i];
  }

  ghost predicate Indexed(podsByNs: map<string, seq<Object>>, objs: seq<Object>) {
    forall ns :: At(podsByNs, ns) == PodsOf(objs, ns)
  }

  lemma IndexedStep(before: map<string, seq<Object>>, after: map<string, seq<Object>>, objs: seq<Object>, i: nat)
    requires i < |objs| && Indexed(before, objs[..i])
    requires var o := objs[i];
             after == if IsPod(o) then before[o.ns := At(before, o.ns) + [o]] else before
    ensures Indexed(after, objs[..i + 1])
  {
    forall ns ensures At(after, ns) == PodsOf(objs[..i + 1], ns) {
      PodsOfStep(objs, i, ns);
      assert At(before, ns) == PodsOf(objs[..i], ns);
    }
  }

  method IndexPods(objs: seq<Object>) returns (podsByNs: map<string, seq<Object>>)
    ensures forall ns :: At(podsByNs, ns) == PodsOf(objs, ns)
  {
    podsByNs := map[];
    var i := 0;
    assert Indexed(podsByNs, objs[..0]);
    hide PodsOf;
    while i < |objs|
      invariant 0 <= i <= |objs| && Indexed(podsByNs, objs[..i])
    {
      var o := objs[i];
      ghost var before := podsByNs;
      if o.kind == "Pod" && o.apiVersion == "v1" {
        podsByNs := podsByNs[o.ns := At(podsByNs, o.ns) + [o]];
      }
      IndexedStep(before, podsByNs, objs, i);
      i := i + 1;
    }
    assert objs[..|objs|] == objs;
  }

  lemma {:induction false} SlicesStep(n: Naming, objs: seq<Object>, i: nat)
    requires i < |objs|
    ensures var o := objs[i];
            Slices(n, objs, objs[..i + 1]) ==
            Slices(n, objs, objs[..i]) + if Selecting(o) then [NewSlice(n, o, EndpointsOf(objs, o))] else []
  {
    assert objs[..i + 1][..i] == objs[..i];
  }

  method SynthesizeEndpointSlices(n: Naming, objs: seq<Object>) returns (out: seq<Object>)
    ensures out == objs + Slices(n, objs, objs)
  {
    var podsByNs := IndexPods(objs);
    out := objs;
    var i := 0;
    assert Slices(n, objs, objs[..0]) == [];
    hide Slices, EndpointsOf, PodsOf, NewSlice;
    while i < |objs|
      invariant 0 <= i <= |objs| && out == objs + Slices(n, objs, objs[..i])
    {
      var o := objs[i];
      SlicesStep(n, objs, i);
      if o.kind == "Service" && o.apiVersion == "v1" && o.selector != map[] {
        var endpoints := Endpoints(objs, o, At(podsByNs, o.ns));
        out := out + [NewSlice(n, o, endpoints)];
      }
      i := i + 1;
    }
    assert objs[..|objs|] == objs;
  }

  method Endpoints(ghost objs: seq<Object>, svc: Object, pods: seq<Object>) returns (endpoints: seq<Endpoint>)
    requires pods == PodsOf(objs, svc.ns)
    ensures endpoints == EndpointsOf(objs, svc)
  {
    endpoints := [];
    var j := 0;
    AllPods(objs, svc.ns);
    while j < |pods|
      invariant 0 <= j <= |pods| && endpoints == EndpointsOf(pods[..j], svc)
    {
      var p := pods[j];
      assert pods[..j + 1][..j] == pods[..j];
      var matches := LabelsMatchLoop(p.labels, svc.selector);
      if p.podIP != "" && matches {
        endpoints := endpoints + [EndpointFor(p)];
      }
      j := j + 1;
    }
    assert pods[..|pods|] == pods;
    IndexLosesNothing(objs, svc);
  }

  lemma {:induction false} AllPods(objs: seq<Object>, ns: string)
    ensures forall k :: 0 <= k < |PodsOf(objs, ns)| ==> IsPod(PodsOf(objs, ns)[k]) && PodsOf(objs, ns)[k].ns == ns
    decreases |objs|
  {
    if objs != [] {
      AllPods(objs[..|objs| - 1], ns);
    }
  }

  /** Looking among the pods of the service's namespace finds the same endpoints. */
  lemma {:induction false} IndexLosesNothing(objs: seq<Object>, svc: Object)
    ensures EndpointsOf(PodsOf(objs, svc.ns), svc) == EndpointsOf(objs, svc)
    decreases |objs|
  {
    if objs != [] {
      var init, o := objs[..|objs| - 1], objs[|objs| - 1];
      IndexLosesNothing(init, svc);
      var pods := PodsOf(init, svc.ns);
      assert (pods + [o])[..|pods|] == pods && pods + [] == pods;
    }
  }

  /** The endpoint of a pod that has an address and is selected. */
  predicate IsEndpoint(pod: Object, svc: Object, e: Endpoint) {
    && pod.kind == "Pod" && pod.apiVersion == "v1" && pod.ns == svc.ns && pod.podIP != ""
    && LabelsMatch(pod.labels, svc.selector) && e == Endpoint(pod.podIP, pod.name, pod.ns, pod.uid)
  }

  /** Main result on endpoint slices: a service's endpoints are exactly the pods of its
      namespace that match its selector and have an address. */
  lemma {:induction false} EndpointsExact(objs: seq<Object>, svc: Object, e: Endpoint)
    ensures e in EndpointsOf(objs, svc) <==>
            exists i :: 0 <= i < |objs| && IsEndpoint(objs[i], svc, e)
    decreases |objs|
  {
    if objs != [] {
      var init, o := objs[..|objs| - 1], objs[|objs| - 1];
      EndpointsExact(init, svc, e);
      assert IsEndpoint(o, svc, e) <==> Backs(o, svc) && EndpointFor(o) == e;
      hide Backs, IsEndpoint;
      if i :| 0 <= i < |init| && IsEndpoint(init[i], svc, e) {
        assert IsEndpoint(objs[i], svc, e);
      }
    }
  }

  // ---- the whole pipeline ----

  ghost predicate HasNamespace(objs: seq<Object>, ns: string) {
    exists j :: 0 <= j < |objs| && IsNamespace(objs[j], ns)
  }

  /** No namespaced object is without its namespace's object. */
  ghost predicate AllPlaced(objs: seq<Object>, within: seq<Object>) {
    forall i :: 0 <= i < |objs| ==> Namespaced(objs[i]) && objs[i].ns != "" ==> HasNamespace(within, objs[i].ns)
  }

  lemma AssignedPlaced(n: Naming, objs: seq<Object>, defaultNs: string, a: seq<Object>)
    requires Assigned(n, objs, defaultNs, a)
    ensures AllPlaced(a, a)
  {
    forall i | 0 <= i < |a| && Namespaced(a[i]) && a[i].ns != "" ensures HasNamespace(a, a[i].ns) {
      var ns := a[i].ns;
      assert i < |objs| && Namespaced(objs[i]) && Placed(objs[i], defaultNs).ns == ns;
      if Missing(objs, defaultNs, ns) {
        assert NamedFrom(a, |objs|, ns);
        var j :| |objs| <= j < |a| && a[j].name == ns;
        assert IsNamespace(a[j], ns);
      } else {
        var j :| 0 <= j < |objs| && IsNamespace(objs[j], ns);
        assert IsNamespace(a[j], ns);
      }
    }
  }

  lemma {:induction false} WhoseChild(n: Naming, objs: seq<Object>, m: nat, k: nat) returns (i: nat)
    requires m <= |objs| && |objs| <= k < Start(n, objs, m)
    ensures i < m && Start(n, objs, i) <= k < Start(n, objs, i + 1)
    decreases m
  {
    hide *;
    ChildrenCovered(n, objs);
    assert m > 0;
    i := m - 1;
    if k < Start(n, objs, i) {
      i := WhoseChild(n, objs, i, k);
    }
  }

  lemma {:induction false} StampedPlaced(n: Naming, a: seq<Object>, w: seq<Object>)
    requires AllPlaced(a, a) && w == Stamped(n, a) + Children(n, a)
    ensures AllPlaced(a, w)
    ensures forall i :: 0 <= i < |a| ==> w[i].kind == a[i].kind && w[i].ns == a[i].ns
  {
    forall i | 0 <= i < |a|
      ensures w[i].kind == a[i].kind && w[i].ns == a[i].ns
      ensures w[i].name == a[i].name && w[i].apiVersion == a[i].apiVersion
    {
      StampRight(n, a[i]);
    }
    hide Stamped, Children;
    forall i | 0 <= i < |a| && Namespaced(a[i]) && a[i].ns != "" ensures HasNamespace(w, a[i].ns) {
      assert HasNamespace(a, a[i].ns);
      var j :| 0 <= j < |a| && IsNamespace(a[j], a[i].ns);
      assert IsNamespace(w[j], a[i].ns);
    }
  }

  lemma {:induction false} WorkloadsPlaced(n: Naming, a: seq<Object>, w: seq<Object>)
    requires AllPlaced(a, a) && w == Stamped(n, a) + Children(n, a)
    ensures AllPlaced(w, w)
  {
    StampedPlaced(n, a, w);
    ChildrenCovered(n, a);
    hide Stamped, Children, Start, HasNamespace, Family, SameObject, OwnedIn;
    forall k | 0 <= k < |w| && Namespaced(w[k]) && w[k].ns != "" ensures HasNamespace(w, w[k].ns) {
      if k >= |a| {
        var i := WhoseChild(n, a, |a|, k);
        ChildPlaced(n, a, w, i, k);
      }
    }
  }

  lemma {:induction false} ChildPlaced(n: Naming, a: seq<Object>, w: seq<Object>, i: nat, k: nat)
    requires w == Stamped(n, a) + Children(n, a) && i < |a|
    requires Start(n, a, i) <= k < Start(n, a, i + 1)
    ensures k < |w| && w[k].ns == w[i].ns && Namespaced(a[i])
  {
    hide *;
    WorkloadsRight(n, a, i);
    var from := Start(n, a, i);
    var kids := w[from..Start(n, a, i + 1)];
    assert kids[k - from] == w[k];
    FamilyMember(n, a[i], w[i], kids, k - from);
  }

  lemma FamilyMember(n: Naming, o: Object, o': Object, kids: seq<Object>, k: nat)
    requires Family(n, o, o', kids) && k < |kids|
    ensures kids[k].ns == o'.ns && Namespaced(o)
  {
  }

  lemma {:induction false} SlicesFrom(n: Naming, all: seq<Object>, objs: seq<Object>, k: nat)
    requires k < |Slices(n, all, objs)|
    ensures exists i ::
              && 0 <= i < |objs| && Selecting(objs[i])
              && Slices(n, all, objs)[k] == NewSlice(n, objs[i], EndpointsOf(all, objs[i]))
    decreases |objs|
  {
    var init := objs[..|objs| - 1];
    if k < |Slices(n, all, init)| {
      SlicesFrom(n, all, init, k);
      var i :| 0 <= i < |init| && Selecting(init[i]) &&
        Slices(n, all, init)[k] == NewSlice(n, init[i], EndpointsOf(all, init[i]));
      assert Selecting(objs[i]);
    } else {
      assert Selecting(objs[|objs| - 1]);
    }
  }

  lemma SlicePlaced(n: Naming, w: seq<Object>, k: nat) returns (i: nat)
    requires k < |Slices(n, w, w)|
    ensures i < |w| && Namespaced(w[i]) && Slices(n, w, w)[k].ns == w[i].ns
  {
    SlicesFrom(n, w, w, k);
    hide Slices, EndpointsOf;
    i :| 0 <= i < |w| && Selecting(w[i]) && Slices(n, w, w)[k] == NewSlice(n, w[i], EndpointsOf(w, w[i]));
  }

  /** Every selecting service has its slice. */
  lemma {:induction false} SliceFor(n: Naming, all: seq<Object>, objs: seq<Object>, i: nat) returns (k: nat)
    requires i < |objs| && Selecting(objs[i])
    ensures k < |Slices(n, all, objs)| && Slices(n, all, objs)[k] == NewSlice(n, objs[i], EndpointsOf(all, objs[i]))
    decreases |objs|
  {
    var init := objs[..|objs| - 1];
    if i < |init| {
      k := SliceFor(n, all, init, i);
    } else {
      k := |Slices(n, all, init)|;
    }
  }

  /** Where the selecting services are, in order. */
  function ServicesIn(objs: seq<Object>): (r: seq<nat>)
    ensures forall k :: 0 <= k < |r| ==> r[k] < |objs|
  {
    if objs == [] then []
    else ServicesIn(objs[..|objs| - 1]) + if Selecting(objs[|objs| - 1]) then [|objs| - 1] else []
  }

  lemma {:induction false} ServicesRight(objs: seq<Object>)
    ensures var at := ServicesIn(objs);
            && (forall j, k :: 0 <= j < k < |at| ==> at[j] < at[k])
            && (forall i :: 0 <= i < |objs| ==>
                  (i in at <==> objs[i].kind == "Service" && objs[i].apiVersion == "v1" && objs[i].selector != map[]))
    decreases |objs|
  {
    if objs != [] {
      var init := objs[..|objs| - 1];
      ServicesRight(init);
      forall i | 0 <= i < |objs|
        ensures i in ServicesIn(objs) <==>
                objs[i].kind == "Service" && objs[i].apiVersion == "v1" && objs[i].selector != map[]
      {
        IsSelecting(objs[i]);
        if i < |init| {
          assert init[i] == objs[i];
        }
      }
    }
  }

  /** Each selecting service has one slice, in the order of the services. */
  lemma {:induction false} OneSliceEach(n: Naming, all: seq<Object>, objs: seq<Object>)
    ensures var at, slices := ServicesIn(objs), Slices(n, all, objs);
            && |slices| == |at|
            && forall k :: 0 <= k < |at| ==>
                 SliceOf(slices[k], objs[at[k]]) && slices[k].endpoints == EndpointsOf(all, objs[at[k]])
    decreases |objs|
  {
    hide NewSlice, SliceOf, EndpointsOf;
    if objs != [] {
      var init, o := objs[..|objs| - 1], objs[|objs| - 1];
      OneSliceEach(n, all, init);
      SliceShape(n, o, EndpointsOf(all, o));
      assert forall k :: 0 <= k < |ServicesIn(init)| ==> objs[ServicesIn(init)[k]] == init[ServicesIn(init)[k]];
    }
  }

  /** The slice of a service. */
  predicate SliceOf(slice: Object, svc: Object) {
    && slice.kind == "EndpointSlice" && slice.ns == svc.ns
    && slice.labels == map["kubernetes.io/service-name" := svc.name]
  }

  /** Main result on what is served: a service whose selector is met by the template labels of
      a workload in its namespace has an endpoint for each of the workload's pods, those of a
      CronJob's job included. */
  lemma {:induction false} WorkloadServed(n: Naming, a: seq<Object>, w: seq<Object>, i: nat, j: nat, p: nat)
    returns (s: nat)
    requires w == Stamped(n, a) + Children(n, a)
    requires i < |w| && w[i].kind == "Service" && w[i].apiVersion == "v1" && w[i].selector != map[]
    requires j < |a| && a[j].ns == w[i].ns && w[i].selector.Items <= a[j].template.labels.Items
    requires p < PodCount(a[j])
    ensures var pod := Start(n, a, j) + Middle(a[j]) + p;
            var out := w + Slices(n, w, w);
            && pod < |w| && PodOf(a[j], w[pod]) && w[pod].ns == a[j].ns
            && |w| <= s < |out| && SliceOf(out[s], w[i])
            && Endpoint(w[pod].podIP, w[pod].name, w[pod].ns, w[pod].uid) in out[s].endpoints
  {
    hide *;
    var pod := PodAt(n, a, w, j, p);
    LabelsMatchSuperset(a[j].template.labels, w[i].selector);
    IsServed(a[j], w[pod], w[i]);
    IsSelecting(w[i]);
    EndpointsExact(w, w[i], Endpoint(w[pod].podIP, w[pod].name, w[pod].ns, w[pod].uid));
    var k := SliceFor(n, w, w, i);
    SliceShape(n, w[i], EndpointsOf(w, w[i]));
    s := |w| + k;
  }

  lemma {:induction false} PodAt(n: Naming, a: seq<Object>, w: seq<Object>, j: nat, p: nat) returns (pod: nat)
    requires w == Stamped(n, a) + Children(n, a) && j < |a| && p < PodCount(a[j])
    ensures pod == Start(n, a, j) + Middle(a[j]) + p
    ensures pod < |w| && PodOf(a[j], w[pod]) && w[pod].ns == a[j].ns
  {
    hide *;
    WorkloadsRight(n, a, j);
    var from, to := Start(n, a, j), Start(n, a, j + 1);
    pod := from + Middle(a[j]) + p;
    FamilyPod(n, a[j], w[j], w[from..to], Middle(a[j]) + p);
    assert w[from..to][Middle(a[j]) + p] == w[pod];
  }

  lemma {:induction false} FamilyPod(n: Naming, o: Object, o': Object, kids: seq<Object>, k: nat)
    requires Family(n, o, o', kids) && SameObject(o, o') && Middle(o) <= k < Middle(o) + PodCount(o)
    ensures k < |kids| && PodOf(o, kids[k]) && kids[k].ns == o.ns
  {
    hide PodOf, PodCount;
  }

  lemma {:induction false} IsServed(o: Object, pod: Object, svc: Object)
    requires PodOf(o, pod) && pod.ns == svc.ns && LabelsMatch(o.template.labels, svc.selector)
    ensures IsEndpoint(pod, svc, Endpoint(pod.podIP, pod.name, pod.ns, pod.uid))
  {
  }

  lemma {:induction false} IsSelecting(svc: Object)
    ensures Selecting(svc) <==> svc.kind == "Service" && svc.apiVersion == "v1" && svc.selector != map[]
  {
  }

  lemma {:induction false} SliceShape(n: Naming, svc: Object, endpoints: seq<Endpoint>)
    ensures SliceOf(NewSlice(n, svc, endpoints), svc) && NewSlice(n, svc, endpoints).endpoints == endpoints
  {
  }

  lemma NamespaceKept(w: seq<Object>, more: seq<Object>, i: nat)
    requires AllPlaced(w, w) && i < |w| && Namespaced(w[i]) && w[i].ns != ""
    ensures HasNamespace(w + more, w[i].ns)
  {
    hide Namespaced, IsNamespace;
    assert HasNamespace(w, w[i].ns);
    var j :| 0 <= j < |w| && IsNamespace(w[j], w[i].ns);
    assert (w + more)[j] == w[j];
  }

  /** Main result on the pipeline: whatever was fabricated along the way, every object in a
      namespace finds that namespace's object in the output. */
  lemma {:induction false} NamespacesComplete(
      n: Naming, objs: seq<Object>, defaultNs: string, a: seq<Object>, w: seq<Object>, out: seq<Object>)
    requires Assigned(n, objs, defaultNs, a)
    requires w == Stamped(n, a) + Children(n, a) && out == w + Slices(n, w, w)
    ensures AllPlaced(out, out)
  {
    hide Stamped, Children, Assigned, Slices, Namespaced, HasNamespace;
    AssignedPlaced(n, objs, defaultNs, a);
    WorkloadsPlaced(n, a, w);
    forall k | 0 <= k < |out| && Namespaced(out[k]) && out[k].ns != "" ensures HasNamespace(out, out[k].ns) {
      if k < |w| {
        NamespaceKept(w, Slices(n, w, w), k);
      } else {
        var i := SlicePlaced(n, w, k - |w|);
        NamespaceKept(w, Slices(n, w, w), i);
      }
    }
  }
}
