# pathfinder-agent reconcilers in Dafny

This project models the two reconciliation passes of the pathfinder node
agent and proves properties about them. The agent runs on a container host.
It pulls the desired state of the host's containers from the control plane
and drives the local container runtime towards it.

- **Bootstrap pass** (`agent/bootstrap_agent.go`). This pass fetches the
  containers that the control plane lists as provisioned on the node. It
  walks them in list order. For each container it asks the runtime for a
  bootstrap script and reports the outcome. It then takes a token from a
  bounded pool (`limitConcBootstrap`, a buffered channel) and launches a
  concurrent bootstrap unit. The unit bootstraps the container, reports the
  result and gives the token back. The pass stops and returns false at the
  first container whose script step fails.
- **Provision pass** (as pinned down by `agent/provision_agent_test.go`).
  This pass joins the desired list with the runtime's list on hostname. It
  creates the missing containers, pushes each new address, and marks the
  container provisioned. It deletes the containers that are scheduled for
  deletion and still present, then marks them deleted.

Modules:

| module | what it holds |
|---|---|
| `Containers` | the container record, its status, and hostname projections |
| `TokenPool` | the bounded channel as a counter with a capacity |
| `BootstrapAgent` | the sequential pass (`Process`), the script step (`CreateScript`) and one bootstrap unit (`BootstrapUnit`), all as event traces |
| `BootstrapSchedule` | the pass interleaved with the units it launched, under any schedule, with a blocking send |
| `ProvisionAgent` | one provision pass as the multiset of calls it makes |
| `ProvisionScenario` | the scenario of `TestProvisionProcess` (`agent/provision_agent_test.go`) as a lemma |

The runtime's and the control plane's answers are function parameters
(oracles). A failed fetch is `None`. Calls are recorded as events or
`Call` values. The interleaving of goroutines is modelled as an arbitrary
sequence of steps. A step that would block on a full pool leaves the
agent unchanged.

The provision pass's own source is not part of this model, so its
behaviour is taken from its test, and the model decides the cases the test
leaves open:

- A `SCHEDULED` container that the runtime already has is marked
  provisioned, as test lines 36-37 require.
- So a second pass over an unchanged desired list, after a fully
  successful first pass, re-marks the present `SCHEDULED` containers as
  provisioned. `ProvisionAgent.SecondPassIdle` proves that these are its
  only calls: it makes no create, no delete, no address push and no
  deletion report.
- The test exercises only successful creates and deletes. The model
  chooses that a failed create or delete reports nothing and the pass
  goes on.
- The model chooses that a container scheduled for deletion that the
  runtime does not have is left alone.
- The test creates only a `SCHEDULED` container (test lines 17 and 30).
  The model chooses that an absent container in any state other than
  `SCHEDULE_DELETION` is created too, and on success gets its address
  pushed and is marked provisioned. For example, an absent desired record
  in state `DELETED` is created again on every pass.
- The model chooses that a present container that is neither
  `SCHEDULED` nor scheduled for deletion gets no call.
- The model chooses that the pass returns true unless a fetch fails.

## Model

| member | source | states |
|---|---|---|
| `BootstrapAgent.Process` | agent/bootstrap_agent.go:42-59 | a failed fetch returns false with no call at all; otherwise the pass returns true exactly when every fetched container has bootstrappers and its script is produced |
| `BootstrapAgent.LoopOkIff` | agent/bootstrap_agent.go:48-58 | the loop returns true if and only if no container's script step fails (both directions, for every list) |
| `BootstrapAgent.CreateScript` | agent/bootstrap_agent.go:74-117 | the step succeeds exactly when bootstrappers are listed and the runtime produces the script; it never takes or gives a token or launches a unit; a failed step reports no bootstrap-started |
| `BootstrapAgent.CreateScriptReports` | agent/bootstrap_agent.go:74-117 | the runtime is asked for a script only when bootstrappers are listed; a success is reported as started exactly once; a failure, for either reason, is reported as bootstrap-error and that report is the step's last call |
| `BootstrapAgent.BootstrapUnit` | agent/bootstrap_agent.go:120-173 | a unit gives its token back exactly once, as its last action, on the success path and on the error path; it reports bootstrapped if and only if the runtime succeeded and bootstrap-error otherwise; it takes no token and launches nothing |
| `BootstrapAgent.Loop` | agent/bootstrap_agent.go:48-58 | the loop over the fetched containers emits at most four calls per container, and exactly four per container when it returns true; what it emits is stated by `LoopOkIff`, `LoopAllSucceed` and `LoopFailFast` |
| `BootstrapAgent.LoopAllSucceed` | agent/bootstrap_agent.go:48-58 | when every script step succeeds, the trace is script, started, token take and launch for each container in list order, and the result is true |
| `BootstrapAgent.LoopFailFast` | agent/bootstrap_agent.go:48-52 | at the first failing container the pass returns false; the containers before it contributed their full segments in order, and nothing follows the failing step |
| `BootstrapAgent.ProcessSuccess` | agent/bootstrap_agent.go:48-58 | a pass that returns true launched every fetched container once in list order, reported each as started in that order, took exactly one token per container, and took a token directly before each launch |
| `BootstrapAgent.SegmentsAcquireBeforeLaunch` | agent/bootstrap_agent.go:54-55 | in a successful pass, every launch directly follows a token take and every token take is directly followed by a launch |
| `BootstrapAgent.ProcessFailure` | agent/bootstrap_agent.go:48-52 | a pass that fails at container k launched exactly the first k containers in order, took exactly k tokens, each directly before its launch, and ended with the bootstrap-error report of container k |
| `TokenPool.New` | agent/bootstrap_agent.go:29 | a new pool is empty, valid and has the configured capacity |
| `TokenPool.Acquire` | agent/bootstrap_agent.go:54 | a send that does not block adds one token in flight and keeps the pool within its capacity |
| `TokenPool.Release` | agent/bootstrap_agent.go:151-171 | a receive removes one token in flight, and the pool then has room for a send |
| `BootstrapSchedule.NewAgent` | agent/bootstrap_agent.go:20-31 | a new agent runs no unit, has an empty pool of the configured size and satisfies the token invariant |
| `BootstrapSchedule.StartPass` | agent/bootstrap_agent.go:42-46 | the pass returns false at once exactly when the fetch fails; starting a pass neither touches the pool nor the running units |
| `BootstrapSchedule.ScriptStep` | agent/bootstrap_agent.go:48-52 | a script step keeps the token invariant and leaves the pool and the running units unchanged |
| `BootstrapSchedule.SendStep` | agent/bootstrap_agent.go:54-55 | the send takes one token and adds the launched container to the running units, keeping the token invariant |
| `BootstrapSchedule.UnitDone` | agent/bootstrap_agent.go:134-172 | a completing unit gives back one token and leaves the running units (as a multiset), keeping the token invariant; the pass is unaffected |
| `BootstrapSchedule.Next` | agent/bootstrap_agent.go:38-59 | every step of any interleaving keeps the invariant that tokens in flight equal running units, stay within capacity, and equal takes minus gives; a blocked step changes nothing; the log only grows |
| `BootstrapSchedule.Execute` | agent/bootstrap_agent.go:38-59 | the token invariant holds after every schedule, and the log only grows |
| `BootstrapSchedule.NoDeadlock` | agent/bootstrap_agent.go:54 | during a pass either the pass can move or a running unit exists whose completion frees a token |
| `BootstrapSchedule.DrainReturnsAllTokens` | agent/bootstrap_agent.go:151-171 | once every running unit has completed, on success or on error, no token is in flight and every take was matched by a give |
| `BootstrapSchedule.ScheduledPassIsSequential` | agent/bootstrap_agent.go:38-59 | under any interleaving with running units, a pass that returns emitted exactly the trace of the sequential pass and returned its result |
| `ProvisionAgent.Process` | agent/provision_agent_test.go:29-45 | the pass returns true exactly when both fetches succeed; when either fails it makes no call |
| `ProvisionAgent.Reconcile` | agent/provision_agent_test.go:14-39 | one desired container gives rise to at most three calls; which calls, kind by kind, is stated by `ReconcileCalls` and `ReconcileOnce` |
| `ProvisionAgent.ReconcileAll` | agent/provision_agent_test.go:14-39 | the walk over the desired list makes at most three calls per desired container and none for an empty list; its calls are those of the individual containers, as `ReconcileAllMember` states |
| `ProvisionAgent.ReconcileCalls` | agent/provision_agent_test.go:14-39 | the calls made for one desired container, kind by kind, each as an if-and-only-if over its status, its presence and the runtime's answer |
| `ProvisionAgent.ReconcileAllMember` | agent/provision_agent_test.go:14-39 | a call belongs to the pass if and only if it is a call made for some desired container |
| `ProvisionAgent.CreatedExactly` | agent/provision_agent_test.go:14-30 | a container is created, with its desired image, if and only if it is desired, not scheduled for deletion, and absent from the runtime; the test covers scheduled containers only, and the other states follow the choice stated above |
| `ProvisionAgent.DeletedExactly` | agent/provision_agent_test.go:18-31 | a container is deleted if and only if it is scheduled for deletion and present in the runtime |
| `ProvisionAgent.AddressPushedExactly` | agent/provision_agent_test.go:30-35 | an address is pushed if and only if the container was created, and the pushed address is the one the create returned; the test covers scheduled containers only, and the other states follow the choice stated above |
| `ProvisionAgent.ProvisionedExactly` | agent/provision_agent_test.go:14-38 | a container is marked provisioned if and only if it is not scheduled for deletion and either it is scheduled and present, or its create succeeded; the test covers scheduled containers only, and the other states follow the choice stated above |
| `ProvisionAgent.DeletedReportedExactly` | agent/provision_agent_test.go:31-39 | a container is marked deleted if and only if it was present, scheduled for deletion, and its delete succeeded |
| `ProvisionAgent.ReconcileOnce` | agent/provision_agent_test.go:28-39 | the calls for one container each concern that container and are made at most once |
| `ProvisionAgent.NoCallTwice` | agent/provision_agent_test.go:28-39 | with unique hostnames in the desired list, no call of the pass is made twice |
| `ProvisionAgent.PassReachesDesired` | agent/provision_agent_test.go:30-31 | after a pass whose creates and deletes all succeeded, no desired container remains to create and none to delete |
| `ProvisionAgent.SecondPassIdle` | agent/provision_agent_test.go:36-38 | a second pass after a fully successful one creates, deletes, pushes and reports deletion of nothing; each call it makes marks a scheduled desired container as provisioned |
| `ProvisionAgent.OnlyHostnamesJoin` | agent/provision_agent_test.go:20-23 | two runtime lists with the same hostnames give the same pass; the runtime's records matter only through their hostnames |
| `ProvisionScenario.PerContainerCalls` | agent/provision_agent_test.go:30-39 | in the test scenario, the calls made for each of the four desired containers |
| `ProvisionScenario.TestProvisionProcess` | agent/provision_agent_test.go:11-46 | in the test scenario, the pass returns true and makes exactly the seven expected calls, each once, for every runtime that answers the two expected calls as the mocks do |

## Left out

- Logging: every log call in `agent/bootstrap_agent.go` is dropped, because it has no effect on the calls or on the result.
- `Run`: it only logs and calls `Process`.
- The error value returned by `createContainerBootstrapScript` and `bootstrapContainer` is dropped, because `Process` ignores it and nothing observes the unit's result.
- The return values of the `MarkContainerAs…` calls are dropped, because the bootstrap pass ignores them (`agent/bootstrap_agent.go` lines 75, 95, 112, 136 and 155).
- ProvisionAgent.Process: the return values of `UpdateIpaddress`, `MarkContainerAsProvisioned` and `MarkContainerAsDeleted` are assumed to be ignored by the provision pass. Its test answers every such call with success (test lines 35-39), so nothing shows how a failed report would be handled.
- `startBootstrap` is replaceable as a package variable; the model treats it as launching one unit.
- Goroutines are modelled as interleavings of whole unit completions. A unit's runtime call, report and token give form one step, because the unit touches no state shared with the pass other than the pool.
- `config.BootstrapMaxConcurrent` is not part of this model. The capacity is a parameter and is required to be positive. An unbuffered channel would block the pass's first send forever, because the unit is launched only after the send.
- The internals of the runtime (`daemon`) and of the control-plane client (`pfclient`) are not modelled; their answers are oracles.
- `agent/provision_agent.go` is not part of this model. The provision pass is modelled from its test. The cases the test leaves open are listed above as choices of the model: a failed create or delete, the deletion of an absent container, the creation of an absent container that is not `SCHEDULED`, present containers that are not scheduled, and a failed fetch.
- ProvisionAgent.AddressPushedExactly, ProvisionAgent.ProvisionedExactly, ProvisionAgent.DeletedReportedExactly: the "only if" directions for a failed create or delete rest on the model's choice above, not on the test.
- ProvisionAgent.Process: the order of the provision calls is not modelled. Calls are a multiset, because the test's mock expectations are unordered. In particular, the order of the address push and the provisioned report is not stated.
- The container lifecycle as a state machine is not modelled. `Status` lists all the lifecycle values a record can carry, plus `Unset` for the runtime's records. The passes read only `Scheduled` and `ScheduleDeletion`; the other values appear only so that the model's inputs can carry them.
