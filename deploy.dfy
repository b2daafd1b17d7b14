/** The deployment of one CloudFormation template: validate it, check whether
    the stack exists, then either create the stack or create a change set
    and, when it holds changes, execute it.

    The CloudFormation service is a script of replies, one stream per API
    operation, consumed in order. Every request the code makes is recorded,
    in order, in a log (a Request names the operation and the arguments the
    code passes, region included). A step that needs a reply the script
    does not hold leaves the deployment Pending. */
module Deploy {
  import opened Js
  import Poll

  /** Capabilities every create request acknowledges. */
  const Capabilities: seq<string> := ["CAPABILITY_IAM", "CAPABILITY_NAMED_IAM"]
  /** The region the existence check asks, whatever region is deployed to. */
  const ExistenceRegion: string := "us-east-1"
  const ChangeSetType: string := "UPDATE"
  /** Both status polls: a five-minute timeout, a two-second interval. */
  const StatusPollOptions: Poll.PollOptions := Poll.PollOptions(Some(1000 * 60 * 5), Some(1000 * 2))
  /** The most status requests one such poll makes: ticks at 2 s, 4 s, ...,
      298 s come before the five-minute deadline. */
  const MaxStatusPolls: nat := 149

  const ChangeSetSettledStatuses: seq<string> := ["FAILED", "CREATE_COMPLETE"]
  const UpdateComplete: string := "UPDATE_COMPLETE"
  const UpdateRollbackInProgress: string := "UPDATE_ROLLBACK_IN_PROGRESS"
  const UpdateSettledStatuses: seq<string> := [UpdateComplete, UpdateRollbackInProgress]

  /** `Stacks[0]` of a describeStacks reply, the two fields the code reads. */
  datatype StackDescription = StackDescription(StackStatus: string, StackStatusReason: string)

  /** One entry of a change set's change list; only their number matters. */
  datatype Change = Change(LogicalResourceId: string)

  /** A describeChangeSet reply, the four fields the code reads. */
  datatype ChangeSetDescription =
    ChangeSetDescription(Status: string, Changes: seq<Change>, ChangeSetName: string, StatusReason: string)

  /** A request made of the CloudFormation service. */
  datatype Request =
    | ValidateTemplateRequest(region: string, template: string)
    | DescribeStacksRequest(region: string, stackName: string)
    | CreateStackRequest(region: string, stackName: string, template: string, capabilities: seq<string>)
    | WaitForStackCreateComplete(region: string, stackName: string)
    | CreateChangeSetRequest(region: string, stackName: string, changeSetName: string,
                             capabilities: seq<string>, template: string, changeSetType: string)
    | DescribeChangeSetRequest(region: string, stackName: string, changeSetName: string)
    | ExecuteChangeSetRequest(region: string, stackName: string, changeSetName: string)

  /** The service's replies. The one-shot operations are made at most once
      per deployment; describeStacks and describeChangeSet answer in turn
      every time they are asked. The waiter for stack creation is one reply. */
  datatype Script = Script(
    validateTemplate: Settled<()>,
    describeStacks: seq<Settled<StackDescription>>,
    createStack: Settled<()>,
    stackCreateComplete: Settled<()>,
    createChangeSet: Settled<()>,
    describeChangeSet: seq<Settled<ChangeSetDescription>>,
    executeChangeSet: Settled<()>)

  datatype DeployOptions = DeployOptions(template: string, stackName: string, region: string)

  /** What one step asks of the service and how it ends. */
  datatype Step<T> = Step(calls: seq<Request>, outcome: Outcome<T>)

  function Repeat<T>(x: T, n: nat): (s: seq<T>)
    ensures |s| == n && forall i :: 0 <= i < n ==> s[i] == x
  {
    if n == 0 then [] else Repeat(x, n - 1) + [x]
  }

  // ---------------------------------------------------------------------
  // stackExists

  /** The existence check's reading of the describeStacks reply: any reply
      means the stack exists, a ValidationError means it does not, and any
      other error is thrown again as it came. */
  function ExistenceOf(reply: Settled<StackDescription>): (r: Outcome<bool>)
    ensures r == Resolved(true) <==> reply.Fulfilled?
    ensures r == Resolved(false) <==> reply.Rejected? && reply.error.code == Some("ValidationError")
    ensures r.Thrown? <==> reply.Rejected? && reply.error.code != Some("ValidationError")
    ensures r.Thrown? ==> r.error == reply.error
  {
    match reply
    case Fulfilled(_) => Resolved(true)
    case Rejected(err) => if err.code == Some("ValidationError") then Resolved(false) else Thrown(err)
  }

  /** `stackExists(stackName)`: one describeStacks request, always in
      us-east-1, read by ExistenceOf. */
  method StackExists(stackName: string, replies: seq<Settled<StackDescription>>) returns (calls: seq<Request>, r: Outcome<bool>)
    ensures calls == [DescribeStacksRequest(ExistenceRegion, stackName)]
    ensures replies == [] ==> r == Pending
    ensures replies != [] ==> r == ExistenceOf(replies[0])
  {
    calls := [DescribeStacksRequest(ExistenceRegion, stackName)];
    if replies == [] {
      r := Pending;
    } else {
      r := ExistenceOf(replies[0]);
    }
  }

  // ---------------------------------------------------------------------
  // createStack

  /** `createStack`: submit the create request, then wait for the stack's
      creation to complete; either failure is thrown. */
  function CreateStackStep(region: string, stackName: string, template: string,
                           create: Settled<()>, wait: Settled<()>): (s: Step<()>)
    ensures |s.calls| >= 1 && s.calls[0] == CreateStackRequest(region, stackName, template, Capabilities)
    ensures create.Rejected? ==> s == Step([s.calls[0]], Thrown(create.error))
    ensures create.Fulfilled? ==> s.calls == [s.calls[0], WaitForStackCreateComplete(region, stackName)]
    ensures create.Fulfilled? ==> (s.outcome.Resolved? <==> wait.Fulfilled?)
    ensures create.Fulfilled? && wait.Rejected? ==> s.outcome == Thrown(wait.error)
    ensures !s.outcome.Pending?
  {
    var submit := CreateStackRequest(region, stackName, template, Capabilities);
    if create.Rejected? then Step([submit], Thrown(create.error))
    else
      var calls := [submit, WaitForStackCreateComplete(region, stackName)];
      match wait
      case Fulfilled(_) => Step(calls, Resolved(()))
      case Rejected(e) => Step(calls, Thrown(e))
  }

  method CreateStack(stackName: string, template: string, region: string,
                     create: Settled<()>, wait: Settled<()>) returns (calls: seq<Request>, r: Outcome<()>)
    ensures Step(calls, r) == CreateStackStep(region, stackName, template, create, wait)
  {
    calls := [CreateStackRequest(region, stackName, template, Capabilities)];
    if create.Rejected? {
      r := Thrown(create.error);
      return;
    }
    calls := calls + [WaitForStackCreateComplete(region, stackName)];
    if wait.Rejected? {
      r := Thrown(wait.error);
      return;
    }
    r := Resolved(());
  }

  // ---------------------------------------------------------------------
  // createChangeSet

  /** `opts.changeSetName || generated-${now}`: an absent or empty name is
      replaced by one made from the clock. */
  function ChangeSetNameFor(supplied: Option<string>, now: nat): (name: string)
    ensures supplied.Some? && supplied.value != "" ==> name == supplied.value
    ensures supplied.None? || supplied.value == "" ==> name == "generated-" + Decimal(now)
    ensures |name| > 0
  {
    if supplied.Some? && supplied.value != "" then supplied.value else "generated-" + Decimal(now)
  }

  /** Two deployments started at different times generate different names. */
  lemma GeneratedNamesDiffer(now1: nat, now2: nat)
    ensures now1 != now2 ==> ChangeSetNameFor(None, now1) != ChangeSetNameFor(None, now2)
  {
    var prefix := "generated-";
    if ChangeSetNameFor(None, now1) == ChangeSetNameFor(None, now2) {
      assert (prefix + Decimal(now1))[|prefix|..] == Decimal(now1);
      assert (prefix + Decimal(now2))[|prefix|..] == Decimal(now2);
      DecimalInjective(now1, now2);
    }
  }

  /** The change-set poll's predicate. */
  function ChangeSetReady(res: ChangeSetDescription): (r: Settled<bool>)
    ensures r.Fulfilled?
    ensures r.value <==> res.Status == "FAILED" || res.Status == "CREATE_COMPLETE"
  {
    Fulfilled(res.Status in ChangeSetSettledStatuses)
  }

  /** The poll of describeChangeSet. */
  function ChangeSetPoll(describes: seq<Settled<ChangeSetDescription>>): (p: Poll.Polled<ChangeSetDescription>)
    ensures p.attempts <= |describes|
    ensures p.result.Resolved? ==>
      1 <= p.attempts && describes[p.attempts - 1] == Fulfilled(p.result.value)
      && (p.result.value.Status == "FAILED" || p.result.value.Status == "CREATE_COMPLETE")
  {
    Poll.PollSpec(describes, Some(ChangeSetReady), Poll.ObjectTruthiness, Some(StatusPollOptions))
  }

  /** The change-set poll resolves only with a FAILED or CREATE_COMPLETE
      description, the last one read; every earlier one had another status.
      It asks at most MaxStatusPolls times, and when it rejects it is with the
      last reply's error or after five minutes. */
  lemma ChangeSetPollSettles(describes: seq<Settled<ChangeSetDescription>>)
    ensures var p := ChangeSetPoll(describes);
      && p.attempts <= |describes| && p.attempts <= MaxStatusPolls
      && (p.result.Resolved? ==>
            && 1 <= p.attempts
            && describes[p.attempts - 1] == Fulfilled(p.result.value)
            && p.result.value.Status in ChangeSetSettledStatuses)
      && (p.result.Thrown? ==>
            || (1 <= p.attempts && describes[p.attempts - 1] == Rejected(p.result.error))
            || (p.result.error == Poll.TimeoutError(300000) && p.attempts == MaxStatusPolls))
      && (p.result.Pending? ==> p.attempts == |describes|)
      && (forall j :: 0 <= j < p.attempts - 1 ==>
            describes[j].Fulfilled? && describes[j].value.Status !in ChangeSetSettledStatuses)
  {
    var s := Poll.ScheduleOf(Poll.Configure(Some(StatusPollOptions)));
    assert s == Poll.Schedule(Poll.At(300000), 2000, 300000);
    Poll.PollCases(describes, ChangeSetReady, s);
    var p := ChangeSetPoll(describes);
    if p.attempts >= 1 {
      assert Poll.Due(s, p.attempts);
    }
    Poll.TimeoutAttemptCount(describes, ChangeSetReady, s);
  }

  /** A settled change set that is FAILED and lists changes. */
  predicate FailedWithChanges(cs: ChangeSetDescription)
    ensures FailedWithChanges(cs) ==> ChangeSetReady(cs) == Fulfilled(true) && cs.Changes != []
  {
    |cs.Changes| > 0 && cs.Status == "FAILED"
  }

  /** After the poll: a FAILED change set with changes is an error naming
      the change set and the stated reason; anything else passes unchanged. */
  function ChangeSetVerdict(name: string, polled: Outcome<ChangeSetDescription>): (r: Outcome<ChangeSetDescription>)
    ensures polled.Resolved? && FailedWithChanges(polled.value) ==>
      r == Thrown(Raise("Failed to create changeSet \"" + name + "\": " + polled.value.StatusReason))
    ensures !(polled.Resolved? && FailedWithChanges(polled.value)) ==> r == polled
  {
    match polled
    case Resolved(cs) =>
      if |cs.Changes| > 0 && cs.Status == "FAILED"
      then Thrown(Raise("Failed to create changeSet \"" + name + "\": " + cs.StatusReason))
      else polled
    case _ => polled
  }

  /** `createChangeSet`: submit an UPDATE change set, poll its description
      until it settles, and judge the result. */
  function ChangeSetStep(region: string, stackName: string, supplied: Option<string>, template: string, now: nat,
                         submit: Settled<()>, describes: seq<Settled<ChangeSetDescription>>): (s: Step<ChangeSetDescription>)
    ensures var name := ChangeSetNameFor(supplied, now);
      && |s.calls| >= 1
      && s.calls[0] == CreateChangeSetRequest(region, stackName, name, Capabilities, template, ChangeSetType)
      && (forall i :: 1 <= i < |s.calls| ==> s.calls[i] == DescribeChangeSetRequest(region, stackName, name))
    ensures submit.Rejected? ==> s == Step([s.calls[0]], Thrown(submit.error))
    ensures submit.Fulfilled? ==>
      && |s.calls| == 1 + ChangeSetPoll(describes).attempts
      && s.outcome == ChangeSetVerdict(ChangeSetNameFor(supplied, now), ChangeSetPoll(describes).result)
    ensures |s.calls| <= 1 + MaxStatusPolls
    // It resolves with the last description read, unchanged: one that is
    // settled and not a failure with changes.
    ensures s.outcome.Resolved? ==>
      && 2 <= |s.calls| <= |describes| + 1
      && describes[|s.calls| - 2] == Fulfilled(s.outcome.value)
      && s.outcome.value.Status in ChangeSetSettledStatuses
      && !FailedWithChanges(s.outcome.value)
    // It throws the change-set error exactly when the settled description
    // is a failure with changes.
    ensures submit.Fulfilled? && ChangeSetPoll(describes).result.Resolved? ==>
      (s.outcome.Thrown? <==> FailedWithChanges(ChangeSetPoll(describes).result.value))
  {
    var name := ChangeSetNameFor(supplied, now);
    var submitCall := CreateChangeSetRequest(region, stackName, name, Capabilities, template, ChangeSetType);
    if submit.Rejected? then Step([submitCall], Thrown(submit.error))
    else
      var p := ChangeSetPoll(describes);
      ChangeSetPollSettles(describes);
      Step([submitCall] + Repeat(DescribeChangeSetRequest(region, stackName, name), p.attempts),
           ChangeSetVerdict(name, p.result))
  }

  method CreateChangeSet(region: string, stackName: string, changeSetName: Option<string>, template: string, now: nat,
                         submit: Settled<()>, describes: seq<Settled<ChangeSetDescription>>)
    returns (calls: seq<Request>, r: Outcome<ChangeSetDescription>)
    ensures Step(calls, r) == ChangeSetStep(region, stackName, changeSetName, template, now, submit, describes)
  {
    var name := ChangeSetNameFor(changeSetName, now);
    calls := [CreateChangeSetRequest(region, stackName, name, Capabilities, template, ChangeSetType)];
    if submit.Rejected? {
      r := Thrown(submit.error);
      return;
    }
    var changeSetRes := Poll.Poll(describes, Some(ChangeSetReady), Poll.ObjectTruthiness, Some(StatusPollOptions));
    calls := calls + Repeat(DescribeChangeSetRequest(region, stackName, name), changeSetRes.attempts);
    r := ChangeSetVerdict(name, changeSetRes.result);
  }

  // ---------------------------------------------------------------------
  // executeChangeSet

  /** The stack poll's predicate. */
  function StackUpdateSettled(res: StackDescription): (r: Settled<bool>)
    ensures r.Fulfilled?
    ensures r.value <==> res.StackStatus == UpdateComplete || res.StackStatus == UpdateRollbackInProgress
  {
    Fulfilled(res.StackStatus in UpdateSettledStatuses)
  }

  /** The poll of describeStacks after the change set is executed. */
  function StackPoll(describes: seq<Settled<StackDescription>>): (p: Poll.Polled<StackDescription>)
    ensures p.attempts <= |describes|
    ensures p.result.Resolved? ==>
      1 <= p.attempts && describes[p.attempts - 1] == Fulfilled(p.result.value)
      && (p.result.value.StackStatus == UpdateComplete || p.result.value.StackStatus == UpdateRollbackInProgress)
  {
    Poll.PollSpec(describes, Some(StackUpdateSettled), Poll.ObjectTruthiness, Some(StatusPollOptions))
  }

  /** The stack poll resolves only with an UPDATE_COMPLETE or
      UPDATE_ROLLBACK_IN_PROGRESS description, the last one read; every
      earlier one had another status. It asks at most MaxStatusPolls times. */
  lemma StackPollSettles(describes: seq<Settled<StackDescription>>)
    ensures var p := StackPoll(describes);
      && p.attempts <= |describes| && p.attempts <= MaxStatusPolls
      && (p.result.Resolved? ==>
            && 1 <= p.attempts
            && describes[p.attempts - 1] == Fulfilled(p.result.value)
            && p.result.value.StackStatus in UpdateSettledStatuses)
      && (p.result.Thrown? ==>
            || (1 <= p.attempts && describes[p.attempts - 1] == Rejected(p.result.error))
            || (p.result.error == Poll.TimeoutError(300000) && p.attempts == MaxStatusPolls))
      && (p.result.Pending? ==> p.attempts == |describes|)
      && (forall j :: 0 <= j < p.attempts - 1 ==>
            describes[j].Fulfilled? && describes[j].value.StackStatus !in UpdateSettledStatuses)
  {
    var s := Poll.ScheduleOf(Poll.Configure(Some(StatusPollOptions)));
    assert s == Poll.Schedule(Poll.At(300000), 2000, 300000);
    Poll.PollCases(describes, StackUpdateSettled, s);
    var p := StackPoll(describes);
    if p.attempts >= 1 {
      assert Poll.Due(s, p.attempts);
    }
    Poll.TimeoutAttemptCount(describes, StackUpdateSettled, s);
  }

  /** After the poll: a stack rolling back is an error with the stated
      reason; any other settled stack is success. */
  function UpdateVerdict(polled: Outcome<StackDescription>): (r: Outcome<()>)
    ensures polled.Resolved? && polled.value.StackStatus == UpdateRollbackInProgress ==>
      r == Thrown(Raise("Stack update failed: " + polled.value.StackStatusReason))
    ensures polled.Resolved? && polled.value.StackStatus != UpdateRollbackInProgress ==> r == Resolved(())
    ensures !polled.Resolved? ==> r == polled.Void()
  {
    match polled
    case Resolved(stack) =>
      if stack.StackStatus == UpdateRollbackInProgress
      then Thrown(Raise("Stack update failed: " + stack.StackStatusReason))
      else Resolved(())
    case _ => polled.Void()
  }

  /** `executeChangeSet`: submit the execution, poll the stack's status
      until the update completes or rolls back, and judge the result. */
  function ExecuteStep(region: string, stackName: string, changeSetName: string,
                       submit: Settled<()>, describes: seq<Settled<StackDescription>>): (s: Step<()>)
    ensures && |s.calls| >= 1
            && s.calls[0] == ExecuteChangeSetRequest(region, stackName, changeSetName)
            && (forall i :: 1 <= i < |s.calls| ==> s.calls[i] == DescribeStacksRequest(region, stackName))
    ensures submit.Rejected? ==> s == Step([s.calls[0]], Thrown(submit.error))
    ensures submit.Fulfilled? ==>
      && |s.calls| == 1 + StackPoll(describes).attempts
      && s.outcome == UpdateVerdict(StackPoll(describes).result)
    ensures |s.calls| <= 1 + MaxStatusPolls
    // Once the poll resolves, UPDATE_COMPLETE is success and
    // UPDATE_ROLLBACK_IN_PROGRESS is the update-failed error.
    ensures submit.Fulfilled? && StackPoll(describes).result.Resolved? ==>
      var stack := StackPoll(describes).result.value;
      && describes[|s.calls| - 2] == Fulfilled(stack)
      && (s.outcome == Resolved(()) <==> stack.StackStatus == UpdateComplete)
      && (s.outcome.Thrown? <==> stack.StackStatus == UpdateRollbackInProgress)
      && (s.outcome.Thrown? ==> s.outcome.error == Raise("Stack update failed: " + stack.StackStatusReason))
  {
    var submitCall := ExecuteChangeSetRequest(region, stackName, changeSetName);
    if submit.Rejected? then Step([submitCall], Thrown(submit.error))
    else
      var p := StackPoll(describes);
      StackPollSettles(describes);
      Step([submitCall] + Repeat(DescribeStacksRequest(region, stackName), p.attempts), UpdateVerdict(p.result))
  }

  method ExecuteChangeSet(region: string, stackName: string, changeSetName: string,
                          submit: Settled<()>, describes: seq<Settled<StackDescription>>)
    returns (calls: seq<Request>, r: Outcome<()>)
    ensures Step(calls, r) == ExecuteStep(region, stackName, changeSetName, submit, describes)
  {
    calls := [ExecuteChangeSetRequest(region, stackName, changeSetName)];
    if submit.Rejected? {
      r := Thrown(submit.error);
      return;
    }
    var stackDescr := Poll.Poll(describes, Some(StackUpdateSettled), Poll.ObjectTruthiness, Some(StatusPollOptions));
    calls := calls + Repeat(DescribeStacksRequest(region, stackName), stackDescr.attempts);
    r := UpdateVerdict(stackDescr.result);
  }

  // ---------------------------------------------------------------------
  // deployCloudFormation

  /** The template passed validation and the existence check read the stack
      as absent (`present` false) or present (`present` true). */
  predicate ExistenceIs(script: Script, present: bool) {
    script.validateTemplate.Fulfilled? && script.describeStacks != []
    && ExistenceOf(script.describeStacks[0]) == Resolved(present)
  }

  function CreationOf(opts: DeployOptions, script: Script): Step<()> {
    CreateStackStep(opts.region, opts.stackName, opts.template, script.createStack, script.stackCreateComplete)
  }

  /** The change set a deployment creates: never named by the caller. */
  function ChangeSetOf(opts: DeployOptions, now: nat, script: Script): Step<ChangeSetDescription> {
    ChangeSetStep(opts.region, opts.stackName, None, opts.template, now, script.createChangeSet, script.describeChangeSet)
  }

  /** The change set came back with changes to apply. */
  predicate HasChanges(cs: Step<ChangeSetDescription>) {
    cs.outcome.Resolved? && |cs.outcome.value.Changes| > 0
  }

  /** The execution of the change set; its stack polls read the describeStacks
      replies after the existence check's. */
  function ExecutionOf(opts: DeployOptions, changeSetName: string, script: Script): Step<()>
    requires script.describeStacks != []
  {
    ExecuteStep(opts.region, opts.stackName, changeSetName, script.executeChangeSet, script.describeStacks[1..])
  }

  predicate Executes(log: seq<Request>) {
    exists i :: 0 <= i < |log| && log[i].ExecuteChangeSetRequest?
  }

  predicate CreatesChangeSet(log: seq<Request>) {
    exists i :: 0 <= i < |log| && log[i].CreateChangeSetRequest?
  }

  /** `deployCloudFormation(opts)`, with `now` the clock reading that names
      the change set. */
  method DeployCloudFormation(opts: DeployOptions, now: nat, script: Script) returns (log: seq<Request>, r: Outcome<()>)
    // Validation comes first; a rejected template ends the deployment
    // before anything else is asked.
    ensures |log| >= 1 && log[0] == ValidateTemplateRequest(opts.region, opts.template)
    ensures script.validateTemplate.Rejected? ==> log == [log[0]] && r == Thrown(script.validateTemplate.error)
    // The existence check follows, in us-east-1 whatever the region.
    ensures script.validateTemplate.Fulfilled? ==>
      |log| >= 2 && log[1] == DescribeStacksRequest(ExistenceRegion, opts.stackName)
    ensures script.validateTemplate.Fulfilled? && script.describeStacks == [] ==> |log| == 2 && r == Pending
    ensures script.validateTemplate.Fulfilled? && script.describeStacks != []
            && ExistenceOf(script.describeStacks[0]).Thrown? ==>
      |log| == 2 && r == Thrown(script.describeStacks[0].error)
    // An absent stack is created, and that is all.
    ensures ExistenceIs(script, false) ==>
      && log == log[..2] + CreationOf(opts, script).calls
      && r == CreationOf(opts, script).outcome
      && !CreatesChangeSet(log) && !Executes(log)
    // A present stack gets a change set named from the clock.
    ensures ExistenceIs(script, true) ==>
      && |log| >= 2 + |ChangeSetOf(opts, now, script).calls|
      && log[2..2 + |ChangeSetOf(opts, now, script).calls|] == ChangeSetOf(opts, now, script).calls
      && log[2] == CreateChangeSetRequest(opts.region, opts.stackName, "generated-" + Decimal(now),
                                          Capabilities, opts.template, ChangeSetType)
    // A change set that fails or is pending ends the deployment so.
    ensures ExistenceIs(script, true) && !ChangeSetOf(opts, now, script).outcome.Resolved? ==>
      && log == log[..2] + ChangeSetOf(opts, now, script).calls
      && r == ChangeSetOf(opts, now, script).outcome.Void()
    // A change set without changes, whatever its status, is success with
    // nothing executed.
    ensures ExistenceIs(script, true) && ChangeSetOf(opts, now, script).outcome.Resolved?
            && |ChangeSetOf(opts, now, script).outcome.value.Changes| == 0 ==>
      && log == log[..2] + ChangeSetOf(opts, now, script).calls
      && r == Resolved(())
    // A change set with changes is executed, by its own name on the same
    // stack, and the execution decides the deployment.
    ensures ExistenceIs(script, true) && HasChanges(ChangeSetOf(opts, now, script)) ==>
      var cs := ChangeSetOf(opts, now, script);
      var ex := ExecutionOf(opts, cs.outcome.value.ChangeSetName, script);
      && log == log[..2] + cs.calls + ex.calls
      && log[2 + |cs.calls|] == ExecuteChangeSetRequest(opts.region, opts.stackName, cs.outcome.value.ChangeSetName)
      && r == ex.outcome
    // A change set is executed exactly when it came back with changes.
    ensures Executes(log) <==> ExistenceIs(script, true) && HasChanges(ChangeSetOf(opts, now, script))
  {
    log := [ValidateTemplateRequest(opts.region, opts.template)];
    if script.validateTemplate.Rejected? {
      r := Thrown(script.validateTemplate.error);
      return;
    }

    var calls, doesStackExist := StackExists(opts.stackName, script.describeStacks);
    log := log + calls;
    if !doesStackExist.Resolved? {
      r := doesStackExist.Void();
      return;
    }

    // ExistenceOf read the stack as absent.
    if !doesStackExist.value {
      calls, r := CreateStack(opts.stackName, opts.template, opts.region, script.createStack, script.stackCreateComplete);
      log := log + calls;
      NoChangeSetInCreation(opts, script);
      return;
    }

    // Present: the change set decides whether anything is executed.
    var changeSet;
    calls, changeSet := CreateChangeSet(opts.region, opts.stackName, None, opts.template, now,
                                        script.createChangeSet, script.describeChangeSet);
    log := log + calls;
    if !changeSet.Resolved? {
      r := changeSet.Void();
      return;
    }
    if |changeSet.value.Changes| == 0 {
      r := Resolved(());
      return;
    }
    var executed;
    calls, executed := ExecuteChangeSet(opts.region, opts.stackName, changeSet.value.ChangeSetName,
                                        script.executeChangeSet, script.describeStacks[1..]);
    log := log + calls;
    r := executed;
    assert log[2 + |ChangeSetOf(opts, now, script).calls|].ExecuteChangeSetRequest?;
  }

  /** Creating a stack asks for no change set and no execution. */
  lemma NoChangeSetInCreation(opts: DeployOptions, script: Script)
    ensures var log := [ValidateTemplateRequest(opts.region, opts.template),
                        DescribeStacksRequest(ExistenceRegion, opts.stackName)] + CreationOf(opts, script).calls;
      !CreatesChangeSet(log) && !Executes(log)
  {
  }
}
