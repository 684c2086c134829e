/**
 The provision reconciler. One pass joins the control plane's desired list
 for this node with the runtime's list of local containers on hostname,
 creates the desired containers that are missing, deletes the containers
 scheduled for deletion that are present, and reports the outcomes.

 The order of the calls is not part of the contract (the test
 checks calls, not their order), so a pass yields the multiset of calls it
 makes. The runtime's answers to create and delete are oracle parameters.
 */
module ProvisionAgent {
  import opened Containers

  /** A call of the pass into the runtime or the control plane. */
  datatype Call =
      /** runtime */
    | CreateContainer(hostname: string, image: string)
    | DeleteContainer(hostname: string)
      /** control plane */
    | UpdateIpaddress(node: string, hostname: string, ipaddress: string)
    | MarkContainerAsProvisioned(node: string, hostname: string)
    | MarkContainerAsDeleted(node: string, hostname: string)

  /** The runtime's answer to a create: success and the new address. */
  datatype Created = Created(ok: bool, ipaddress: string)

  /** The runtime oracle. */
  datatype Runtime = Runtime(create: (string, string) -> Created, delete: string -> bool)

  /** The calls of a pass and its boolean result. */
  datatype Outcome = Outcome(calls: multiset<Call>, ok: bool)

  /** A desired container that must be created: it is not scheduled for
      deletion and the runtime does not have it. */
  predicate NeedsCreate(sc: Container, present: set<string>)
  {
    sc.status != ScheduleDeletion && sc.hostname !in present
  }

  /** A desired container that must be deleted: it is scheduled for
      deletion and the runtime has it. */
  predicate NeedsDelete(sc: Container, present: set<string>)
  {
    sc.status == ScheduleDeletion && sc.hostname in present
  }

  /** The calls made for one desired container. A created container gets
      its address pushed and is marked provisioned; a scheduled container
      the runtime already has is marked provisioned; a deleted one is
      marked deleted. A failed create or delete reports nothing. */
  function Reconcile(node: string, sc: Container, present: set<string>, rt: Runtime): (r: multiset<Call>)
    ensures |r| <= 3
  {
    var h := sc.hostname;
    if sc.status == ScheduleDeletion then
      if h in present then
        multiset{DeleteContainer(h)} + (if rt.delete(h) then multiset{MarkContainerAsDeleted(node, h)} else multiset{})
      else multiset{}
    else if h in present then
      if sc.status == Scheduled then multiset{MarkContainerAsProvisioned(node, h)} else multiset{}
    else
      var c := rt.create(h, sc.image);
      multiset{CreateContainer(h, sc.image)}
        + (if c.ok then multiset{UpdateIpaddress(node, h, c.ipaddress), MarkContainerAsProvisioned(node, h)}
           else multiset{})
  }

  /** The calls made for a desired list, container by container. */
  function ReconcileAll(node: string, scs: seq<Container>, present: set<string>, rt: Runtime): (r: multiset<Call>)
    ensures |r| <= 3 * |scs|
    ensures |scs| == 0 ==> r == multiset{}
    decreases |scs|
  {
    if |scs| == 0 then multiset{}
    else Reconcile(node, scs[0], present, rt) + ReconcileAll(node, scs[1..], present, rt)
  }

  /** One provision pass (Process). Either fetch failing ends the pass with
      false and no call; otherwise the runtime's list is used only for its
      hostnames and the pass returns true whatever the per-container
      outcomes. */
  function Process(node: string, desired: Option<seq<Container>>, actual: Option<seq<Container>>, rt: Runtime): (r: Outcome)
    ensures r.ok <==> desired.Some? && actual.Some?
    ensures !r.ok ==> r.calls == multiset{}
  {
    if desired.None? || actual.None? then Outcome(multiset{}, false)
    else Outcome(ReconcileAll(node, desired.value, Hostnames(actual.value), rt), true)
  }

  /** The calls of one container, kind by kind. */
  lemma ReconcileCalls(node: string, sc: Container, present: set<string>, rt: Runtime, c: Call)
    ensures c in Reconcile(node, sc, present, rt) <==>
      match c
      case CreateContainer(h, img) => h == sc.hostname && img == sc.image && NeedsCreate(sc, present)
      case DeleteContainer(h) => h == sc.hostname && NeedsDelete(sc, present)
      case UpdateIpaddress(n, h, ip) =>
        n == node && h == sc.hostname && NeedsCreate(sc, present) && rt.create(h, sc.image) == Created(true, ip)
      case MarkContainerAsProvisioned(n, h) =>
        n == node && h == sc.hostname && sc.status != ScheduleDeletion
        && (if h in present then sc.status == Scheduled else rt.create(h, sc.image).ok)
      case MarkContainerAsDeleted(n, h) =>
        n == node && h == sc.hostname && NeedsDelete(sc, present) && rt.delete(h)
  {
  }

  /** A call of the pass is a call made for some desired container. */
  lemma {:induction false} ReconcileAllMember(node: string, scs: seq<Container>, present: set<string>, rt: Runtime, c: Call)
    ensures c in ReconcileAll(node, scs, present, rt) <==>
            exists i :: 0 <= i < |scs| && c in Reconcile(node, scs[i], present, rt)
    decreases |scs|
  {
    if |scs| > 0 {
      ReconcileAllMember(node, scs[1..], present, rt, c);
      if c in ReconcileAll(node, scs[1..], present, rt) {
        var i :| 0 <= i < |scs[1..]| && c in Reconcile(node, scs[1..][i], present, rt);
        assert scs[1..][i] == scs[i + 1];
      }
      if exists i :: 0 <= i < |scs| && c in Reconcile(node, scs[i], present, rt) {
        var i :| 0 <= i < |scs| && c in Reconcile(node, scs[i], present, rt);
        if i > 0 {
          assert scs[i] == scs[1..][i - 1];
        }
      }
    }
  }

  /** CreateContainer is called exactly for the desired containers that are
      not scheduled for deletion and that the runtime does not have.
      `TestProvisionProcess` creates only a scheduled container; that an
      absent container in any other state except scheduled-for-deletion is
      created too is a choice of this model. */
  lemma CreatedExactly(node: string, scs: seq<Container>, present: set<string>, rt: Runtime, h: string, img: string)
    ensures CreateContainer(h, img) in ReconcileAll(node, scs, present, rt) <==>
            exists i :: 0 <= i < |scs| && scs[i].hostname == h && scs[i].image == img && NeedsCreate(scs[i], present)
  {
    ReconcileAllMember(node, scs, present, rt, CreateContainer(h, img));
    forall i | 0 <= i < |scs| {
      ReconcileCalls(node, scs[i], present, rt, CreateContainer(h, img));
    }
  }

  /** DeleteContainer is called exactly for the desired containers scheduled
      for deletion that the runtime has. That a deletion whose host the
      runtime does not have makes no call is a choice of this model. */
  lemma DeletedExactly(node: string, scs: seq<Container>, present: set<string>, rt: Runtime, h: string)
    ensures DeleteContainer(h) in ReconcileAll(node, scs, present, rt) <==>
            exists i :: 0 <= i < |scs| && scs[i].hostname == h && NeedsDelete(scs[i], present)
  {
    ReconcileAllMember(node, scs, present, rt, DeleteContainer(h));
    forall i | 0 <= i < |scs| {
      ReconcileCalls(node, scs[i], present, rt, DeleteContainer(h));
    }
  }

  /** The address pushed for a container is the one its create returned, and
      only created containers get one. The "if" direction is the case of
      `TestProvisionProcess` for a scheduled container; that a created
      container in another state also gets one, and that a failed create
      pushes no address, are choices of this model. */
  lemma AddressPushedExactly(node: string, scs: seq<Container>, present: set<string>, rt: Runtime, n: string, h: string, ip: string)
    ensures UpdateIpaddress(n, h, ip) in ReconcileAll(node, scs, present, rt) <==>
            n == node && exists i :: 0 <= i < |scs| && scs[i].hostname == h && NeedsCreate(scs[i], present)
                                     && rt.create(h, scs[i].image) == Created(true, ip)
  {
    ReconcileAllMember(node, scs, present, rt, UpdateIpaddress(n, h, ip));
    forall i | 0 <= i < |scs| {
      ReconcileCalls(node, scs[i], present, rt, UpdateIpaddress(n, h, ip));
    }
  }

  /** A container is marked provisioned exactly when it is not scheduled for
      deletion and either it is scheduled and already present, or it was
      just created. In particular every scheduled container the runtime
      already has is marked provisioned. The test exercises a successful
      create of a scheduled container and present scheduled containers;
      that an absent container in any state except scheduled-for-deletion
      is marked after a successful create, and that a failed create, or a
      present container in another state, gets no mark, are choices of this
      model. */
  lemma ProvisionedExactly(node: string, scs: seq<Container>, present: set<string>, rt: Runtime, n: string, h: string)
    ensures MarkContainerAsProvisioned(n, h) in ReconcileAll(node, scs, present, rt) <==>
            n == node && exists i :: 0 <= i < |scs| && scs[i].hostname == h && scs[i].status != ScheduleDeletion
                                     && (if h in present then scs[i].status == Scheduled
                                         else rt.create(h, scs[i].image).ok)
  {
    ReconcileAllMember(node, scs, present, rt, MarkContainerAsProvisioned(n, h));
    forall i | 0 <= i < |scs| {
      ReconcileCalls(node, scs[i], present, rt, MarkContainerAsProvisioned(n, h));
    }
  }

  /** A container is marked deleted exactly when it was deleted successfully.
      The "if" direction is the case of `TestProvisionProcess`; that a failed delete,
      or a deletion whose host the runtime does not have, reports nothing is a
      choice of this model. */
  lemma DeletedReportedExactly(node: string, scs: seq<Container>, present: set<string>, rt: Runtime, n: string, h: string)
    ensures MarkContainerAsDeleted(n, h) in ReconcileAll(node, scs, present, rt) <==>
            n == node && exists i :: 0 <= i < |scs| && scs[i].hostname == h && NeedsDelete(scs[i], present) && rt.delete(h)
  {
    ReconcileAllMember(node, scs, present, rt, MarkContainerAsDeleted(n, h));
    forall i | 0 <= i < |scs| {
      ReconcileCalls(node, scs[i], present, rt, MarkContainerAsDeleted(n, h));
    }
  }

  /** The hostname a call concerns. */
  function Target(c: Call): string
  {
    c.hostname
  }

  /** Every call of one container concerns that container, at most once. */
  lemma ReconcileOnce(node: string, sc: Container, present: set<string>, rt: Runtime, c: Call)
    ensures Reconcile(node, sc, present, rt)[c] <= 1
    ensures c in Reconcile(node, sc, present, rt) ==> Target(c) == sc.hostname
  {
    if sc.status != ScheduleDeletion && sc.hostname !in present {
      var created := rt.create(sc.hostname, sc.image);
      assert created.ok ==> UpdateIpaddress(node, sc.hostname, created.ipaddress) != MarkContainerAsProvisioned(node, sc.hostname);
    }
  }

  /** With hostnames unique in the desired list, no call is made twice. */
  lemma {:induction false} NoCallTwice(node: string, scs: seq<Container>, present: set<string>, rt: Runtime, c: Call)
    requires UniqueHostnames(scs)
    ensures ReconcileAll(node, scs, present, rt)[c] <= 1
    decreases |scs|
  {
    if |scs| > 0 {
      var tail := scs[1..];
      assert UniqueHostnames(tail) by {
        forall i, j | 0 <= i < j < |tail| ensures tail[i].hostname != tail[j].hostname {
          assert tail[i] == scs[i + 1] && tail[j] == scs[j + 1];
        }
      }
      NoCallTwice(node, tail, present, rt, c);
      ReconcileOnce(node, scs[0], present, rt, c);
      if c in Reconcile(node, scs[0], present, rt) {
        forall i | 0 <= i < |tail| ensures c !in Reconcile(node, tail[i], present, rt) {
          ReconcileOnce(node, tail[i], present, rt, c);
          assert tail[i] == scs[i + 1];
        }
        ReconcileAllMember(node, tail, present, rt, c);
      }
    }
  }

  /** The hostnames the runtime has after a pass: those it had, plus the
      ones created, minus the ones deleted. */
  function PresentAfter(scs: seq<Container>, present: set<string>, rt: Runtime): set<string>
  {
    (present + set i | 0 <= i < |scs| && NeedsCreate(scs[i], present) && rt.create(scs[i].hostname, scs[i].image).ok
                      :: scs[i].hostname)
    - set i | 0 <= i < |scs| && NeedsDelete(scs[i], present) && rt.delete(scs[i].hostname) :: scs[i].hostname
  }

  /** Every create and delete of the pass succeeded. */
  predicate AllSucceeded(scs: seq<Container>, present: set<string>, rt: Runtime)
  {
    && (forall i :: 0 <= i < |scs| && NeedsCreate(scs[i], present) ==> rt.create(scs[i].hostname, scs[i].image).ok)
    && (forall i :: 0 <= i < |scs| && NeedsDelete(scs[i], present) ==> rt.delete(scs[i].hostname))
  }

  /** After a pass whose creates and deletes all succeeded, the desired list
      is reached: nothing remains to create or to delete. */
  lemma PassReachesDesired(scs: seq<Container>, present: set<string>, rt: Runtime)
    requires UniqueHostnames(scs)
    requires AllSucceeded(scs, present, rt)
    ensures forall i :: 0 <= i < |scs| ==>
              !NeedsCreate(scs[i], PresentAfter(scs, present, rt)) && !NeedsDelete(scs[i], PresentAfter(scs, present, rt))
  {
    var after := PresentAfter(scs, present, rt);
    var created := set i | 0 <= i < |scs| && NeedsCreate(scs[i], present) && rt.create(scs[i].hostname, scs[i].image).ok
                     :: scs[i].hostname;
    var deleted := set i | 0 <= i < |scs| && NeedsDelete(scs[i], present) && rt.delete(scs[i].hostname) :: scs[i].hostname;
    assert after == (present + created) - deleted;
    forall i | 0 <= i < |scs|
      ensures !NeedsCreate(scs[i], after) && !NeedsDelete(scs[i], after)
    {
      var h := scs[i].hostname;
      if scs[i].status == ScheduleDeletion {
        if h in present {
          assert NeedsDelete(scs[i], present);
          assert h in deleted;
        } else {
          forall j | 0 <= j < |scs| && NeedsCreate(scs[j], present) ensures scs[j].hostname != h {
            assert j != i;
          }
          assert h !in created;
        }
      } else {
        if h !in present {
          assert NeedsCreate(scs[i], present);
          assert h in created;
        }
        forall j | 0 <= j < |scs| && NeedsDelete(scs[j], present) ensures scs[j].hostname != h {
          assert j != i;
        }
        assert h !in deleted;
      }
    }
  }

  /** Idempotence: once a pass has succeeded, a second pass over the same
      desired list creates and deletes nothing; its only calls re-mark the
      scheduled containers as provisioned. */
  lemma SecondPassIdle(node: string, scs: seq<Container>, present: set<string>, rt: Runtime, rt2: Runtime, c: Call)
    requires UniqueHostnames(scs)
    requires AllSucceeded(scs, present, rt)
    requires c in ReconcileAll(node, scs, PresentAfter(scs, present, rt), rt2)
    ensures c.MarkContainerAsProvisioned? && c.node == node
    ensures exists i :: 0 <= i < |scs| && scs[i].hostname == c.hostname && scs[i].status == Scheduled
  {
    var after := PresentAfter(scs, present, rt);
    PassReachesDesired(scs, present, rt);
    ReconcileAllMember(node, scs, after, rt2, c);
    var i :| 0 <= i < |scs| && c in Reconcile(node, scs[i], after, rt2);
    ReconcileCalls(node, scs[i], after, rt2, c);
  }

  /** The runtime's records matter only through their hostnames. */
  lemma {:induction false} OnlyHostnamesJoin(node: string, desired: seq<Container>, a1: seq<Container>, a2: seq<Container>, rt: Runtime)
    requires forall i :: 0 <= i < |a1| ==> exists j :: 0 <= j < |a2| && a2[j].hostname == a1[i].hostname
    requires forall j :: 0 <= j < |a2| ==> exists i :: 0 <= i < |a1| && a1[i].hostname == a2[j].hostname
    ensures Process(node, Some(desired), Some(a1), rt) == Process(node, Some(desired), Some(a2), rt)
  {
    assert Hostnames(a1) == Hostnames(a2);
  }
}
