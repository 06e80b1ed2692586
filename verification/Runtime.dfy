/**
 * The container runtime: what Brain's containers and networks are, and the calls that remove them.
 * Every client call may fail; the coming outcomes are a script that each call consumes, so that a
 * contract over all scripts is a contract over all failures.
 */
module Runtime {
  import opened Tables
  import opened Containers

  datatype CallResult = Ok | Retryable | Permanent

  /** What the runtime is asked to do; an operation takes several calls. */
  datatype Operation =
    | ListApps(project: Name)
    | EnsureApp(app: AppName)
    | AwaitApp(app: AppName)
    | DeleteApp(app: AppName)
    | DeleteWorkflows(project: Name)
    | EnsurePocketBase(project: Name)
    | DeletePocketBase(project: Name)
    | DeleteNetwork(project: Name)
    | Sleep(milliseconds: nat)

  /** An operation that was asked for, and what it came to. */
  datatype Asked = Asked(operation: Operation, result: CallResult)

  datatype WorkflowContainer = WorkflowContainer(project: Name, run: Id)

  datatype Resources = Resources(
    apps: map<AppName, bool>,
    workflows: set<WorkflowContainer>,
    pocketBases: map<Name, bool>,
    networks: set<Name>
  )

  predicate NoFaults(script: seq<CallResult>) {
    script == [] || (script[0].Ok? && NoFaults(script[1..]))
  }

  function AppsOf(r: Resources, p: Name): set<AppName> {
    set app | app in r.apps && app.project == p
  }

  function WithoutWorkflows(r: Resources, p: Name): Resources {
    r.(workflows := set c | c in r.workflows && c.project != p)
  }

  /** Resources of other projects are the same; those of `p` were stopped or removed, or are the same. */
  ghost predicate OnlyTearsDown(before: Resources, after: Resources, p: Name) {
    && after.apps.Keys <= before.apps.Keys
    && (forall app :: app in after.apps && after.apps[app] != before.apps[app] ==> app.project == p && !after.apps[app])
    && (forall app :: app in before.apps && app !in after.apps ==> app.project == p)
    && after.workflows <= before.workflows
    && (forall c :: c in before.workflows && c !in after.workflows ==> c.project == p)
    && after.pocketBases.Keys <= before.pocketBases.Keys
    && (forall q :: q in before.pocketBases && q != p ==>
         q in after.pocketBases && after.pocketBases[q] == before.pocketBases[q])
    && after.networks <= before.networks && before.networks <= after.networks + {p}
  }

  // ---- What a call comes to, as a function of the coming outcomes ----

  function FirstResult(script: seq<CallResult>): CallResult {
    if script == [] then Ok else script[0]
  }

  function RestOf(script: seq<CallResult>): seq<CallResult> {
    if script == [] then [] else script[1..]
  }

  /** Calls were made as long as they succeeded, and `result` is what the last of them came to. */
  ghost predicate EndsAtFailure(before: seq<CallResult>, after: seq<CallResult>, result: CallResult)
    decreases |before|
  {
    || (after == before && result.Ok?)
    || (before != [] &&
        if before[0].Ok? then EndsAtFailure(before[1..], after, result)
        else after == before[1..] && result == before[0])
  }

  lemma {:induction false} OneMoreCall(before: seq<CallResult>, script: seq<CallResult>)
    requires EndsAtFailure(before, script, Ok)
    ensures EndsAtFailure(before, RestOf(script), FirstResult(script))
    decreases |before|
  {
    if script != before { OneMoreCall(before[1..], script); }
  }

  lemma {:induction false} FaultlessCallsSucceed(before: seq<CallResult>, after: seq<CallResult>, result: CallResult)
    requires EndsAtFailure(before, after, result) && NoFaults(before)
    ensures result.Ok? && NoFaults(after)
    decreases |before|
  {
    if after != before || !result.Ok? { FaultlessCallsSucceed(before[1..], after, result); }
  }

  /** The result of a call, what it leaves, and the outcomes that are left. */
  datatype Answer = Answer(result: CallResult, left: Resources, script: seq<CallResult>)

  function DeletedApp(r: Resources, script: seq<CallResult>, app: AppName): Answer {
    Answer(FirstResult(script), if FirstResult(script).Ok? then r.(apps := r.apps - {app}) else r, RestOf(script))
  }

  function RemovedApp(r: Resources, script: seq<CallResult>, app: AppName): Answer {
    var rest := RestOf(script);
    if !FirstResult(script).Ok? || app !in r.apps then Answer(FirstResult(script), r, rest)
    else if !r.apps[app] then DeletedApp(r, rest, app)
    else if !FirstResult(rest).Ok? then Answer(FirstResult(rest), r, RestOf(rest))
    else DeletedApp(r.(apps := r.apps[app := false]), RestOf(rest), app)
  }

  function DeletedPocketBase(r: Resources, script: seq<CallResult>, p: Name): Answer {
    Answer(
      FirstResult(script),
      if FirstResult(script).Ok? then r.(pocketBases := r.pocketBases - {p}) else r,
      RestOf(script))
  }

  function RemovedPocketBase(r: Resources, script: seq<CallResult>, p: Name): Answer {
    var rest := RestOf(script);
    if !FirstResult(script).Ok? || p !in r.pocketBases then Answer(FirstResult(script), r, rest)
    else if !r.pocketBases[p] then DeletedPocketBase(r, rest, p)
    else if !FirstResult(rest).Ok? then Answer(FirstResult(rest), r, RestOf(rest))
    else DeletedPocketBase(r.(pocketBases := r.pocketBases[p := false]), RestOf(rest), p)
  }

  function RemovedNetwork(r: Resources, script: seq<CallResult>, p: Name): Answer {
    var rest := RestOf(script);
    if !FirstResult(script).Ok? || p !in r.networks then Answer(FirstResult(script), r, rest)
    else Answer(FirstResult(rest), if FirstResult(rest).Ok? then r.(networks := r.networks - {p}) else r, RestOf(rest))
  }

  class ContainerRuntime {
    var apps: map<AppName, bool>
    var workflows: set<WorkflowContainer>
    var pocketBases: map<Name, bool>
    var networks: set<Name>
    var script: seq<CallResult>      // outcomes of the coming calls; calls beyond it succeed
    ghost var history: seq<Asked>    // what was asked for so far, and what it came to

    constructor (resources: Resources, script: seq<CallResult>)
      ensures View() == resources && this.script == script && history == []
    {
      apps, workflows := resources.apps, resources.workflows;
      pocketBases, networks := resources.pocketBases, resources.networks;
      this.script := script;
      history := [];
    }

    function View(): Resources
      reads this
    {
      Resources(apps, workflows, pocketBases, networks)
    }

    /** The result of the last call, and what is left. */
    function After(result: CallResult): Answer
      reads this
    {
      Answer(result, View(), script)
    }

    /** One more call of an operation that began at `start`. */
    method Call(ghost start: seq<CallResult>) returns (result: CallResult)
      requires EndsAtFailure(start, script, Ok)
      modifies this`script
      ensures result == FirstResult(old(script)) && script == RestOf(old(script))
      ensures EndsAtFailure(start, script, result)
    {
      OneMoreCall(start, script);
      if script == [] {
        return Ok;
      }
      result, script := script[0], script[1..];
    }

    /** A pause, which can be cut short. */
    method Pause(delay: nat) returns (result: CallResult)
      modifies this`script, this`history
      ensures result == FirstResult(old(script)) && script == RestOf(old(script))
      ensures history == old(history) + [Asked(Sleep(delay), result)]
    {
      result := Call(script);
      history := history + [Asked(Sleep(delay), result)];
    }

    method ListProjectApps(p: Name) returns (result: CallResult, listed: set<AppName>)
      modifies this`script, this`history
      ensures result == FirstResult(old(script)) && script == RestOf(old(script))
      ensures NoFaults(old(script)) ==> result.Ok? && NoFaults(script)
      ensures result.Ok? ==> listed == AppsOf(View(), p)
      ensures history == old(history) + [Asked(ListApps(p), result)]
    {
      result := Call(script);
      listed := AppsOf(View(), p);
      history := history + [Asked(ListApps(p), result)];
    }

    method CreateAppContainer(app: AppName, ghost start: seq<CallResult>) returns (result: CallResult)
      requires EndsAtFailure(start, script, Ok) && app !in apps
      modifies this`apps, this`script
      ensures EndsAtFailure(start, script, result)
      ensures apps == old(apps)[app := false] || (!result.Ok? && apps == old(apps))
    {
      result := Call(start);
      if result.Ok? {
        apps := apps[app := false];
        result := Call(start);
      }
    }

    /**
     * The network, then create, connect and start; or start what is there. A failed connect or start leaves the
     * container.
     */
    method EnsureProjectApp(app: AppName) returns (result: CallResult)
      modifies this`apps, this`networks, this`script, this`history
      ensures EndsAtFailure(old(script), script, result)
      ensures NoFaults(old(script)) ==> result.Ok? && NoFaults(script)
      ensures result.Ok? ==> apps == old(apps)[app := true]
      ensures !result.Ok? ==> apps == old(apps) || (app !in old(apps) && apps == old(apps)[app := false])
      ensures networks == old(networks) || networks == old(networks) + {app.project}
      ensures result.Ok? ==> networks == old(networks) + {app.project}
      ensures history == old(history) + [Asked(EnsureApp(app), result)]
    {
      result := Call(script);
      if result.Ok? {
        networks := networks + {app.project};
        result := Call(old(script));
      }
      if result.Ok? && app !in apps {
        result := CreateAppContainer(app, old(script));
      }
      if result.Ok? && !apps[app] {
        result := Call(old(script));
        if result.Ok? {
          apps := apps[app := true];
        }
      }
      assert result.Ok? ==> apps == apps[app := true];
      if NoFaults(old(script)) { FaultlessCallsSucceed(old(script), script, result); }
      history := history + [Asked(EnsureApp(app), result)];
    }

    /** A container that is not running accepts no connection. */
    method WaitForProjectAppReady(app: AppName) returns (ready: bool)
      modifies this`script, this`history
      ensures ready <==> FirstResult(old(script)).Ok? && IsRunning(apps, app)
      ensures script == RestOf(old(script))
      ensures NoFaults(old(script)) ==> ready == IsRunning(apps, app) && NoFaults(script)
      ensures history == old(history) + [Asked(AwaitApp(app), FirstResult(old(script)))]
    {
      var result := Call(script);
      ready := result.Ok? && app in apps && apps[app];
      history := history + [Asked(AwaitApp(app), result)];
    }

    method EnsureProjectPocketBase(p: Name) returns (result: CallResult)
      modifies this`pocketBases, this`networks, this`script, this`history
      ensures EndsAtFailure(old(script), script, result)
      ensures NoFaults(old(script)) ==> result.Ok? && NoFaults(script)
      ensures result.Ok? ==> pocketBases == old(pocketBases)[p := true] && networks == old(networks) + {p}
      ensures forall q :: q != p ==>
        (q in pocketBases <==> q in old(pocketBases)) && (q in networks <==> q in old(networks))
      ensures forall q :: q != p && q in pocketBases ==> pocketBases[q] == old(pocketBases)[q]
      ensures history == old(history) + [Asked(EnsurePocketBase(p), result)]
    {
      result := Call(script);
      if result.Ok? {
        networks := networks + {p};
        if p !in pocketBases {
          result := Call(old(script));
          if result.Ok? {
            pocketBases := pocketBases[p := false];
          }
        }
      }
      if result.Ok? {
        result := Call(old(script));
        if result.Ok? {
          pocketBases := pocketBases[p := true];
        }
      }
      if NoFaults(old(script)) { FaultlessCallsSucceed(old(script), script, result); }
      history := history + [Asked(EnsurePocketBase(p), result)];
    }

    /** Inspect, stop if running, delete. A missing container is a success. */
    method RemoveProjectApp(app: AppName) returns (result: CallResult)
      modifies this`apps, this`script, this`history
      ensures EndsAtFailure(old(script), script, result)
      ensures NoFaults(old(script)) ==> result.Ok? && NoFaults(script)
      ensures result.Ok? ==> apps == old(apps) - {app}
      ensures !result.Ok? ==> apps == old(apps) || apps == Stopped(old(apps), app)
      ensures After(result) == RemovedApp(old(View()), old(script), app)
      ensures history == old(history) + [Asked(DeleteApp(app), result)]
    {
      result := Call(script);
      if result.Ok? && app in apps {
        if apps[app] {
          result := Call(old(script));
          if result.Ok? {
            apps := apps[app := false];
          }
        }
        if result.Ok? {
          result := Call(old(script));
          if result.Ok? {
            apps := apps - {app};
          }
        }
      }
      if NoFaults(old(script)) { FaultlessCallsSucceed(old(script), script, result); }
      history := history + [Asked(DeleteApp(app), result)];
    }

    /** Deletes by force, one after another; stops at the first failure. */
    method RemoveProjectWorkflowContainers(p: Name) returns (result: CallResult)
      modifies this`workflows, this`script, this`history
      ensures EndsAtFailure(old(script), script, result)
      ensures NoFaults(old(script)) ==> result.Ok? && NoFaults(script)
      ensures result.Ok? ==> View() == WithoutWorkflows(old(View()), p)
      ensures workflows <= old(workflows) && forall c :: c in old(workflows) && c.project != p ==> c in workflows
      ensures history == old(history) + [Asked(DeleteWorkflows(p), result)]
    {
      result := Call(script);
      var rest := set c | c in workflows && c.project == p;
      while result.Ok? && rest != {}
        invariant EndsAtFailure(old(script), script, result) && history == old(history)
        invariant workflows <= old(workflows)
        invariant forall c :: c in old(workflows) && (c.project != p || c in rest) ==> c in workflows
        invariant forall c :: c in workflows && c.project == p ==> c in rest
        invariant forall c :: c in rest ==> c.project == p
        decreases rest, result.Ok?
      {
        var c :| c in rest;
        result := Call(old(script));
        if result.Ok? {
          workflows := workflows - {c};
          rest := rest - {c};
        }
      }
      if NoFaults(old(script)) { FaultlessCallsSucceed(old(script), script, result); }
      history := history + [Asked(DeleteWorkflows(p), result)];
    }

    method RemoveProjectPocketBase(p: Name) returns (result: CallResult)
      modifies this`pocketBases, this`script, this`history
      ensures EndsAtFailure(old(script), script, result)
      ensures NoFaults(old(script)) ==> result.Ok? && NoFaults(script)
      ensures result.Ok? ==> pocketBases == old(pocketBases) - {p}
      ensures !result.Ok? ==>
        pocketBases == old(pocketBases) || (p in old(pocketBases) && pocketBases == old(pocketBases)[p := false])
      ensures After(result) == RemovedPocketBase(old(View()), old(script), p)
      ensures history == old(history) + [Asked(DeletePocketBase(p), result)]
    {
      result := Call(script);
      if result.Ok? && p in pocketBases {
        if pocketBases[p] {
          result := Call(old(script));
          if result.Ok? {
            pocketBases := pocketBases[p := false];
          }
        }
        if result.Ok? {
          result := Call(old(script));
          if result.Ok? {
            pocketBases := pocketBases - {p};
          }
        }
      }
      if NoFaults(old(script)) { FaultlessCallsSucceed(old(script), script, result); }
      history := history + [Asked(DeletePocketBase(p), result)];
    }

    method RemoveProjectNetwork(p: Name) returns (result: CallResult)
      modifies this`networks, this`script, this`history
      ensures EndsAtFailure(old(script), script, result)
      ensures NoFaults(old(script)) ==> result.Ok? && NoFaults(script)
      ensures networks == if result.Ok? then old(networks) - {p} else old(networks)
      ensures After(result) == RemovedNetwork(old(View()), old(script), p)
      ensures history == old(history) + [Asked(DeleteNetwork(p), result)]
    {
      result := Call(script);
      if result.Ok? && p in networks {
        result := Call(old(script));
        if result.Ok? {
          networks := networks - {p};
        }
      }
      if NoFaults(old(script)) { FaultlessCallsSucceed(old(script), script, result); }
      history := history + [Asked(DeleteNetwork(p), result)];
    }
  }
}
