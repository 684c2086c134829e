/**
 The bootstrap reconciler. One pass fetches the containers the control
 plane reports as provisioned on this node and, in list order, asks the
 runtime for each one's bootstrap script, reports the outcome, takes a
 token from the pool and launches an independent bootstrap unit. The pass
 stops at the first container whose script step fails.

 Calls into the runtime and the control plane are recorded as events; the
 runtime's answers are oracle parameters. The pool itself is modelled in
 `TokenPool`, and the interleaving of the pass with running units in
 `BootstrapSchedule`; here the pass is the sequential loop alone.
 */
module BootstrapAgent {
  import opened Containers

  /** One observable call made by the pass or by a bootstrap unit. */
  datatype Event =
      /** runtime: CreateContainerBootstrapScript */
    | ScriptRequested(hostname: string)
      /** runtime: ValidateAndBootstrapContainer */
    | BootstrapRequested(hostname: string)
      /** control plane: MarkContainerAsBootstrapStarted */
    | MarkedBootstrapStarted(node: string, hostname: string)
      /** control plane: MarkContainerAsBootstrapped */
    | MarkedBootstrapped(node: string, hostname: string)
      /** control plane: MarkContainerAsBootstrapError */
    | MarkedBootstrapError(node: string, hostname: string)
      /** a send on the pool channel */
    | TokenAcquired
      /** the start of a bootstrap unit for a container */
    | Launched(hostname: string)
      /** a receive on the pool channel */
    | TokenReleased

  /** The events of a step, or of a whole pass, and its boolean result. */
  datatype StepResult = StepResult(events: seq<Event>, ok: bool)

  /** The runtime oracle: does script creation succeed for a container? */
  type ScriptOracle = Container -> bool

  /** The runtime oracle: does validate-and-bootstrap succeed for a container? */
  type BootOracle = Container -> bool

  /** The script step can succeed for `pc`: it names at least one
      bootstrapper and the runtime produces its script. */
  predicate ScriptSucceeds(pc: Container, script: ScriptOracle)
  {
    |pc.bootstrappers| > 0 && script(pc)
  }

  /** The hostname an event launches, if it is a launch. */
  function LaunchOf(e: Event): seq<string>
  {
    if e.Launched? then [e.hostname] else []
  }

  /** The hostname an event reports as bootstrap-started, if it is one. */
  function StartOf(e: Event): seq<string>
  {
    if e.MarkedBootstrapStarted? then [e.hostname] else []
  }

  /** Hostnames of the launched units, in launch order. */
  function Launches(t: seq<Event>): seq<string>
  {
    if |t| == 0 then [] else LaunchOf(t[0]) + Launches(t[1..])
  }

  /** Hostnames reported as bootstrap-started, in report order. */
  function Started(t: seq<Event>): seq<string>
  {
    if |t| == 0 then [] else StartOf(t[0]) + Started(t[1..])
  }

  /** Number of occurrences of `e` in `t`. */
  function Count(t: seq<Event>, e: Event): nat
  {
    multiset(t)[e]
  }

  lemma SingleEvent(e: Event)
    ensures Launches([e]) == LaunchOf(e) && Started([e]) == StartOf(e)
  {
    assert [e][1..] == [];
  }

  /** A trace without launches or started reports projects to nothing. */
  lemma {:induction false} NoLaunchesNoStarts(t: seq<Event>)
    requires forall i :: 0 <= i < |t| ==> !t[i].Launched? && !t[i].MarkedBootstrapStarted?
    ensures Launches(t) == [] && Started(t) == []
    decreases |t|
  {
    if |t| > 0 {
      NoLaunchesNoStarts(t[1..]);
    }
  }

  lemma {:induction false} LaunchesAppend(a: seq<Event>, b: seq<Event>)
    ensures Launches(a + b) == Launches(a) + Launches(b)
    decreases |a|
  {
    if |a| == 0 {
      assert a + b == b;
    } else {
      assert (a + b)[1..] == a[1..] + b;
      LaunchesAppend(a[1..], b);
    }
  }

  lemma {:induction false} StartedAppend(a: seq<Event>, b: seq<Event>)
    ensures Started(a + b) == Started(a) + Started(b)
    decreases |a|
  {
    if |a| == 0 {
      assert a + b == b;
    } else {
      assert (a + b)[1..] == a[1..] + b;
      StartedAppend(a[1..], b);
    }
  }

  /** The script step for one container (createContainerBootstrapScript).
      A container without bootstrappers is reported as failed before the
      runtime is asked; otherwise the runtime's answer decides between
      bootstrap-error and bootstrap-started. The step never touches the
      pool; what it reports is stated by `CreateScriptReports`. */
  function CreateScript(node: string, pc: Container, script: ScriptOracle): (r: StepResult)
    ensures r.ok <==> ScriptSucceeds(pc, script)
    ensures 0 < |r.events|
    ensures forall i :: 0 <= i < |r.events| ==> !r.events[i].Launched? && r.events[i] != TokenAcquired && r.events[i] != TokenReleased
    ensures !r.ok ==> forall i :: 0 <= i < |r.events| ==> !r.events[i].MarkedBootstrapStarted?
  {
    if |pc.bootstrappers| == 0 then
      StepResult([MarkedBootstrapError(node, pc.hostname)], false)
    else if !script(pc) then
      StepResult([ScriptRequested(pc.hostname), MarkedBootstrapError(node, pc.hostname)], false)
    else
      StepResult([ScriptRequested(pc.hostname), MarkedBootstrapStarted(node, pc.hostname)], true)
  }

  /** What the script step reports: the runtime is asked only when there are
      bootstrappers; a success is reported as started exactly once; a
      failure, for either reason, ends with a bootstrap-error report. */
  lemma CreateScriptReports(node: string, pc: Container, script: ScriptOracle)
    ensures var r := CreateScript(node, pc, script);
      && (ScriptRequested(pc.hostname) in r.events <==> |pc.bootstrappers| > 0)
      && Count(r.events, MarkedBootstrapStarted(node, pc.hostname)) == (if r.ok then 1 else 0)
      && (MarkedBootstrapError(node, pc.hostname) in r.events <==> !r.ok)
      && (!r.ok ==> r.events[|r.events| - 1] == MarkedBootstrapError(node, pc.hostname))
  {
  }

  /** One bootstrap unit (bootstrapContainer): ask the runtime to bootstrap,
      report the outcome, and give the token back on either path. */
  function BootstrapUnit(node: string, pc: Container, boot: BootOracle): (t: seq<Event>)
    ensures |t| > 0 && t[|t| - 1] == TokenReleased
    ensures Count(t, TokenReleased) == 1
    ensures Count(t, TokenAcquired) == 0
    ensures MarkedBootstrapped(node, pc.hostname) in t <==> boot(pc)
    ensures MarkedBootstrapError(node, pc.hostname) in t <==> !boot(pc)
    ensures forall i :: 0 <= i < |t| ==> !t[i].Launched? && !t[i].MarkedBootstrapStarted?
  {
    var report := if boot(pc) then MarkedBootstrapped(node, pc.hostname)
                  else MarkedBootstrapError(node, pc.hostname);
    [BootstrapRequested(pc.hostname), report, TokenReleased]
  }

  /** The events a container contributes to a pass whose script step for it
      succeeded: script, started report, token, launch, in that order. */
  function Segment(node: string, pc: Container): seq<Event>
  {
    [ScriptRequested(pc.hostname), MarkedBootstrapStarted(node, pc.hostname),
     TokenAcquired, Launched(pc.hostname)]
  }

  /** The segments of a list of containers, concatenated in list order. */
  function Segments(node: string, pcs: seq<Container>): seq<Event>
  {
    if |pcs| == 0 then [] else Segment(node, pcs[0]) + Segments(node, pcs[1..])
  }

  /** The loop of the pass over the fetched containers. */
  function Loop(node: string, pcs: seq<Container>, script: ScriptOracle): (r: StepResult)
    ensures |r.events| <= 4 * |pcs|
    ensures r.ok ==> |r.events| == 4 * |pcs|
    decreases |pcs|
  {
    if |pcs| == 0 then StepResult([], true)
    else
      var s := CreateScript(node, pcs[0], script);
      if !s.ok then s
      else
        var rest := Loop(node, pcs[1..], script);
        StepResult(s.events + [TokenAcquired, Launched(pcs[0].hostname)] + rest.events, rest.ok)
  }

  /** A container whose script step succeeds contributes its segment and
      the loop continues with the rest of the list. */
  lemma LoopStep(node: string, pcs: seq<Container>, script: ScriptOracle)
    requires 0 < |pcs| && ScriptSucceeds(pcs[0], script)
    ensures Loop(node, pcs, script)
         == StepResult(Segment(node, pcs[0]) + Loop(node, pcs[1..], script).events, Loop(node, pcs[1..], script).ok)
  {
    var s := CreateScript(node, pcs[0], script);
    assert s.events + [TokenAcquired, Launched(pcs[0].hostname)] == Segment(node, pcs[0]);
  }

  /** One bootstrap pass (Process). A failed fetch ends the pass with
      false before any call; otherwise the result is true exactly when every
      fetched container's script step succeeds. */
  function Process(node: string, fetched: Option<seq<Container>>, script: ScriptOracle): (r: StepResult)
    ensures fetched.None? ==> r.events == [] && !r.ok
    ensures r.ok <==> fetched.Some? && forall i :: 0 <= i < |fetched.value| ==> ScriptSucceeds(fetched.value[i], script)
  {
    match fetched
    case None => StepResult([], false)
    case Some(pcs) =>
      LoopOkIff(node, pcs, script);
      Loop(node, pcs, script)
  }

  /** The loop returns true exactly when no container's script step fails. */
  lemma {:induction false} LoopOkIff(node: string, pcs: seq<Container>, script: ScriptOracle)
    ensures Loop(node, pcs, script).ok <==> forall i :: 0 <= i < |pcs| ==> ScriptSucceeds(pcs[i], script)
    decreases |pcs|
  {
    if |pcs| > 0 {
      LoopOkIff(node, pcs[1..], script);
      if Loop(node, pcs, script).ok {
        forall i | 0 <= i < |pcs| ensures ScriptSucceeds(pcs[i], script) {
          if i > 0 {
            assert pcs[i] == pcs[1..][i - 1];
          }
        }
      } else if ScriptSucceeds(pcs[0], script) {
        var i :| 0 <= i < |pcs[1..]| && !ScriptSucceeds(pcs[1..][i], script);
        assert pcs[1..][i] == pcs[i + 1];
      }
    }
  }

  /** When every script step succeeds, the pass is the concatenation of the
      per-container segments in list order. */
  lemma {:induction false} LoopAllSucceed(node: string, pcs: seq<Container>, script: ScriptOracle)
    requires forall i :: 0 <= i < |pcs| ==> ScriptSucceeds(pcs[i], script)
    ensures Loop(node, pcs, script) == StepResult(Segments(node, pcs), true)
    decreases |pcs|
  {
    if |pcs| > 0 {
      forall i | 0 <= i < |pcs[1..]| ensures ScriptSucceeds(pcs[1..][i], script) {
        assert pcs[1..][i] == pcs[i + 1];
      }
      LoopAllSucceed(node, pcs[1..], script);
      LoopStep(node, pcs, script);
    }
  }

  /** A container whose script step fails ends the loop with that step. */
  lemma LoopStops(node: string, pcs: seq<Container>, script: ScriptOracle)
    requires 0 < |pcs| && !ScriptSucceeds(pcs[0], script)
    ensures Loop(node, pcs, script) == CreateScript(node, pcs[0], script)
  {
  }

  /** Fail-fast: at the first container `k` whose script step fails, the
      pass ends with false; the containers before it contributed their full
      segments in order, and nothing after the failing step is emitted. */
  lemma {:induction false} LoopFailFast(node: string, pcs: seq<Container>, script: ScriptOracle, k: nat)
    requires k < |pcs|
    requires forall i :: 0 <= i < k ==> ScriptSucceeds(pcs[i], script)
    requires !ScriptSucceeds(pcs[k], script)
    ensures Loop(node, pcs, script) == StepResult(Segments(node, pcs[..k]) + CreateScript(node, pcs[k], script).events, false)
    decreases k
  {
    if k == 0 {
      LoopStops(node, pcs, script);
      assert pcs[..0] == [];
    } else {
      var tail := pcs[1..];
      forall i | 0 <= i < k - 1 ensures ScriptSucceeds(tail[i], script) {
        assert tail[i] == pcs[i + 1];
      }
      assert tail[k - 1] == pcs[k];
      LoopFailFast(node, tail, script, k - 1);
      LoopStep(node, pcs, script);
      SegmentsPrefix(node, pcs, k);
      AppendAssoc(Segment(node, pcs[0]), Segments(node, tail[..k - 1]), CreateScript(node, pcs[k], script).events);
    }
  }

  lemma AppendAssoc(a: seq<Event>, b: seq<Event>, c: seq<Event>)
    ensures a + (b + c) == (a + b) + c
  {
  }

  /** The launches and started reports of one segment: its own hostname. */
  lemma SegmentProjections(node: string, pc: Container)
    ensures Launches(Segment(node, pc)) == [pc.hostname]
    ensures Started(Segment(node, pc)) == [pc.hostname]
  {
    var seg := Segment(node, pc);
    var front, back := [seg[0], seg[1]], [seg[2], seg[3]];
    assert seg == front + back;
    PairProjections(seg[0], seg[1]);
    PairProjections(seg[2], seg[3]);
    LaunchesAppend(front, back);
    StartedAppend(front, back);
  }

  lemma PairProjections(a: Event, b: Event)
    ensures Launches([a, b]) == LaunchOf(a) + LaunchOf(b)
    ensures Started([a, b]) == StartOf(a) + StartOf(b)
  {
    assert [a, b] == [a] + [b];
    SingleEvent(a);
    SingleEvent(b);
    LaunchesAppend([a], [b]);
    StartedAppend([a], [b]);
  }

  /** The first `k` segments of a list start with the segment of its head. */
  lemma SegmentsPrefix(node: string, pcs: seq<Container>, k: nat)
    requires 0 < k <= |pcs|
    ensures Segments(node, pcs[..k]) == Segment(node, pcs[0]) + Segments(node, pcs[1..][..k - 1])
  {
    assert pcs[1..][..k - 1] == pcs[..k][1..];
  }

  /** Launches, started reports and token takes of the segments: one of
      each per container, in list order. */
  lemma {:induction false} SegmentsCounts(node: string, pcs: seq<Container>)
    ensures Launches(Segments(node, pcs)) == HostnameSeq(pcs)
    ensures Started(Segments(node, pcs)) == HostnameSeq(pcs)
    ensures Count(Segments(node, pcs), TokenAcquired) == |pcs|
  {
    SegmentsLaunches(node, pcs);
    SegmentsTokens(node, pcs);
  }

  lemma {:induction false} SegmentsLaunches(node: string, pcs: seq<Container>)
    ensures Launches(Segments(node, pcs)) == HostnameSeq(pcs)
    ensures Started(Segments(node, pcs)) == HostnameSeq(pcs)
    decreases |pcs|
  {
    if |pcs| > 0 {
      var seg := Segment(node, pcs[0]);
      var rest := Segments(node, pcs[1..]);
      SegmentsLaunches(node, pcs[1..]);
      SegmentProjections(node, pcs[0]);
      LaunchesAppend(seg, rest);
      StartedAppend(seg, rest);
      assert HostnameSeq(pcs) == [pcs[0].hostname] + HostnameSeq(pcs[1..]);
    }
  }

  lemma {:induction false} SegmentsTokens(node: string, pcs: seq<Container>)
    ensures Count(Segments(node, pcs), TokenAcquired) == |pcs|
    decreases |pcs|
  {
    if |pcs| > 0 {
      var seg := Segment(node, pcs[0]);
      var rest := Segments(node, pcs[1..]);
      SegmentsTokens(node, pcs[1..]);
      assert multiset(seg + rest) == multiset(seg) + multiset(rest);
      assert Count(seg, TokenAcquired) == 1;
    }
  }

  /** Every launch in the segments directly follows a token take, and every
      token take is directly followed by a launch. */
  lemma {:induction false} SegmentsAcquireBeforeLaunch(node: string, pcs: seq<Container>)
    ensures forall j :: 0 <= j < |Segments(node, pcs)| && Segments(node, pcs)[j].Launched? ==>
              0 < j && Segments(node, pcs)[j - 1] == TokenAcquired
    ensures forall j :: 0 <= j < |Segments(node, pcs)| && Segments(node, pcs)[j] == TokenAcquired ==>
              j + 1 < |Segments(node, pcs)| && Segments(node, pcs)[j + 1].Launched?
    decreases |pcs|
  {
    if |pcs| > 0 {
      var seg := Segment(node, pcs[0]);
      var tail := Segments(node, pcs[1..]);
      SegmentsAcquireBeforeLaunch(node, pcs[1..]);
      var all := Segments(node, pcs);
      assert all == seg + tail;
      forall j | 0 <= j < |all| && all[j].Launched?
        ensures 0 < j && all[j - 1] == TokenAcquired
      {
        if j >= 4 {
          assert all[j] == tail[j - 4];
          if j - 1 >= 4 {
            assert all[j - 1] == tail[j - 5];
          }
        }
      }
      forall j | 0 <= j < |all| && all[j] == TokenAcquired
        ensures j + 1 < |all| && all[j + 1].Launched?
      {
        if j >= 4 {
          assert all[j] == tail[j - 4];
          assert all[j + 1] == tail[j - 3];
        }
      }
    }
  }

  /** A pass that returns true launched every fetched container once, in
      list order, each launch directly preceded by its own token take. */
  lemma ProcessSuccess(node: string, pcs: seq<Container>, script: ScriptOracle)
    requires Process(node, Some(pcs), script).ok
    ensures var t := Process(node, Some(pcs), script).events;
      && Launches(t) == HostnameSeq(pcs)
      && Started(t) == HostnameSeq(pcs)
      && Count(t, TokenAcquired) == |pcs|
      && (forall j :: 0 <= j < |t| && t[j].Launched? ==> 0 < j && t[j - 1] == TokenAcquired)
  {
    LoopAllSucceed(node, pcs, script);
    SegmentsCounts(node, pcs);
    SegmentsAcquireBeforeLaunch(node, pcs);
  }

  /** The segments of the containers handled before a failing step,
      followed by that step's events, which neither launch, report started
      nor take a token. */
  lemma SegmentsThenFailure(node: string, done: seq<Container>, last: seq<Event>)
    requires 0 < |last|
    requires forall i :: 0 <= i < |last| ==> !last[i].Launched? && !last[i].MarkedBootstrapStarted? && last[i] != TokenAcquired
    ensures Launches(Segments(node, done) + last) == HostnameSeq(done)
    ensures Started(Segments(node, done) + last) == HostnameSeq(done)
    ensures Count(Segments(node, done) + last, TokenAcquired) == |done|
    ensures (Segments(node, done) + last)[|Segments(node, done) + last| - 1] == last[|last| - 1]
  {
    var pre := Segments(node, done);
    SegmentsCounts(node, done);
    NoLaunchesNoStarts(last);
    LaunchesAppend(pre, last);
    StartedAppend(pre, last);
    assert TokenAcquired !in last;
    assert multiset(pre + last) == multiset(pre) + multiset(last);
  }

  /** A pass that fails at container `k` launched exactly the containers
      before it, in order, took exactly one token for each, directly before
      its launch, and ended with the failing container's bootstrap-error
      report. */
  lemma ProcessFailure(node: string, pcs: seq<Container>, script: ScriptOracle, k: nat)
    requires k < |pcs|
    requires forall i :: 0 <= i < k ==> ScriptSucceeds(pcs[i], script)
    requires !ScriptSucceeds(pcs[k], script)
    ensures var r := Process(node, Some(pcs), script);
      && !r.ok
      && Launches(r.events) == HostnameSeq(pcs[..k])
      && Started(r.events) == HostnameSeq(pcs[..k])
      && Count(r.events, TokenAcquired) == k
      && r.events[|r.events| - 1] == MarkedBootstrapError(node, pcs[k].hostname)
      && (forall j :: 0 <= j < |r.events| && r.events[j].Launched? ==> 0 < j && r.events[j - 1] == TokenAcquired)
  {
    var last := CreateScript(node, pcs[k], script).events;
    assert Process(node, Some(pcs), script) == StepResult(Segments(node, pcs[..k]) + last, false) by {
      LoopFailFast(node, pcs, script, k);
    }
    CreateScriptReports(node, pcs[k], script);
    SegmentsThenFailure(node, pcs[..k], last);
    LaunchesFollowTakes(node, pcs[..k], last);
  }

  /** Appending a step that launches nothing keeps every launch directly
      after its token take. */
  lemma LaunchesFollowTakes(node: string, done: seq<Container>, last: seq<Event>)
    requires forall i :: 0 <= i < |last| ==> !last[i].Launched?
    ensures var t := Segments(node, done) + last;
      forall j :: 0 <= j < |t| && t[j].Launched? ==> 0 < j && t[j - 1] == TokenAcquired
  {
    var pre := Segments(node, done);
    var t := pre + last;
    SegmentsAcquireBeforeLaunch(node, done);
    forall j | |pre| <= j < |t| ensures !t[j].Launched? {
      assert t[j] == last[j - |pre|];
    }
    forall j | 0 <= j < |pre| ensures t[j] == pre[j] {
    }
  }
}
