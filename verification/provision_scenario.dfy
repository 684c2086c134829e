/**
 The scenario of `TestProvisionProcess` for the provision reconciler: four desired
 containers (three scheduled, one scheduled for deletion) against three
 local ones. The runtime mock answers only the calls it expects, so the
 pass must make exactly the expected calls, each once.
 */
module ProvisionScenario {
  import opened Containers
  import opened ProvisionAgent

  const Node: string := "test-01"

  function Record(hostname: string, status: Status): Container
  {
    Container(hostname, "", "16.04", NoSource, [], status)
  }

  /** What the control plane wants on the node. */
  const Desired: seq<Container> := [
    Record("test-c-01", Scheduled),
    Record("test-c-02", Scheduled),
    Record("test-c-03", Scheduled),
    Record("test-c-04", ScheduleDeletion)
  ]

  /** What the runtime has; its records carry no status. */
  const Actual: seq<Container> := [
    Record("test-c-01", Unset),
    Record("test-c-02", Unset),
    Record("test-c-04", Unset)
  ]

  /** Every call the mocks expect, each exactly once. */
  const Expected: multiset<Call> := multiset{
    CreateContainer("test-c-03", "16.04"),
    DeleteContainer("test-c-04"),
    UpdateIpaddress(Node, "test-c-03", "127.0.0.1"),
    MarkContainerAsProvisioned(Node, "test-c-01"),
    MarkContainerAsProvisioned(Node, "test-c-02"),
    MarkContainerAsProvisioned(Node, "test-c-03"),
    MarkContainerAsDeleted(Node, "test-c-04")
  }

  /** The runtime has exactly the three listed hostnames. */
  lemma ActualHostnames()
    ensures Hostnames(Actual) == {"test-c-01", "test-c-02", "test-c-04"}
  {
    assert Actual[0].hostname == "test-c-01";
    assert Actual[1].hostname == "test-c-02";
    assert Actual[2].hostname == "test-c-04";
  }

  /** The calls made for each desired container. */
  lemma PerContainerCalls(rt: Runtime)
    requires rt.create("test-c-03", "16.04") == Created(true, "127.0.0.1")
    requires rt.delete("test-c-04")
    ensures var present := Hostnames(Actual);
      && Reconcile(Node, Desired[0], present, rt) == multiset{MarkContainerAsProvisioned(Node, "test-c-01")}
      && Reconcile(Node, Desired[1], present, rt) == multiset{MarkContainerAsProvisioned(Node, "test-c-02")}
      && Reconcile(Node, Desired[2], present, rt)
         == multiset{CreateContainer("test-c-03", "16.04"), UpdateIpaddress(Node, "test-c-03", "127.0.0.1"),
                     MarkContainerAsProvisioned(Node, "test-c-03")}
      && Reconcile(Node, Desired[3], present, rt)
         == multiset{DeleteContainer("test-c-04"), MarkContainerAsDeleted(Node, "test-c-04")}
  {
    ActualHostnames();
    assert "test-c-03" !in Hostnames(Actual);
  }

  /** The pass over the desired list is the sum of the per-container calls. */
  lemma DesiredUnfolds(present: set<string>, rt: Runtime)
    ensures ReconcileAll(Node, Desired, present, rt)
         == Reconcile(Node, Desired[0], present, rt) + (Reconcile(Node, Desired[1], present, rt)
            + (Reconcile(Node, Desired[2], present, rt) + Reconcile(Node, Desired[3], present, rt)))
  {
    var d := Desired;
    assert d[3..][1..] == [];
    assert d[2..][1..] == d[3..];
    assert d[1..][1..] == d[2..];
  }

  /** The runtime answers the two calls the mock expects as the mock does;
      its answers to anything else are irrelevant, since nothing else is
      asked. */
  lemma TestProvisionProcess(rt: Runtime)
    requires rt.create("test-c-03", "16.04") == Created(true, "127.0.0.1")
    requires rt.delete("test-c-04")
    ensures Process(Node, Some(Desired), Some(Actual), rt) == Outcome(Expected, true)
  {
    DesiredUnfolds(Hostnames(Actual), rt);
    PerContainerCalls(rt);
  }
}
