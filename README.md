# deploy-cloud-formation, modelled in Dafny

This project models the deployment logic of `deploy-cloud-formation`, together with its proofs. The tool deploys an AWS CloudFormation template in these steps:

1. It validates the template.
2. It asks whether the stack exists.
3. If the stack is absent, it creates the stack and waits for the creation to complete.
4. If the stack is present, it creates an `UPDATE` change set and polls it until it settles.
5. When that change set holds changes, it executes it and polls the stack until the update completes or starts rolling back.

The project has four modules, one per concern:

- `Js` (`js.dfy`): the JavaScript notions the code relies on. These are optional values, `Error` objects with the SDK's `code`, and how an awaited call settles. `Outcome` is the state of an async function's promise: resolved, rejected (`Thrown`) or still pending. `Decimal` is the text `${n}` gives a number, proved against its inverse.
- `Poll` (`poll.dfy`): the generic poller in `lib/Util/poll.ts`. It works as follows:
  - Time is virtual. Interval tick `t` fires at `t * interval`, so the first attempt comes one interval after the start. Ticks are evenly spaced.
  - The deadline timer fires after the timer delay of the timeout: at the timeout for 1..2147483647 ms, and after 1 ms for a larger timeout. A timeout of 0 means there is no deadline (see Findings). A tick that falls exactly on the deadline loses to it.
  - Every attempt settles before the next tick.
  - `run()` is a script of outcomes. A poll whose script runs out before it settles is `Pending`.
  - `PollFrom` is the specification. `PollSpec` is `poll(run, predicate, opts)`: `PollFrom` from the start, after `Configure`, `ScheduleOf` and `EffectivePredicate`. `Poll.Poll` is the loop, with an index and a clock, proved equal to `PollSpec`.
  - Lemmas describe every poll as one of three endings: it stopped at the first deciding attempt, it timed out, or it ran out of script.
- `Template` (`template.dfy`): the intrinsic-function constructors in `lib/Template.ts`, built over a JSON value. `AsIntrinsic` reads such an object back. The constructors are proved against it in both directions.
- `Deploy` (`deploy.dfy`): `lib/main.ts`. The CloudFormation service is a script of replies, one for each one-shot operation and a stream for each polled describe operation. Every request the code makes, with its region and arguments, goes into a log. Each step is two members: a specification function returning the requests and the outcome, and a method that performs the step and is proved equal to it. `DeployCloudFormation` states the whole decision tree over the log and the outcome.

Some decisions in the model:

- Node.js timers replace any delay outside 1..2147483647 ms with 1 ms (`TimerDelay`). The model applies this to both timers: to the interval, and to the deadline of every non-zero timeout. So a timeout above 2147483647 ms rejects after 1 ms, before the first tick (`OverlongTimeoutExpiresAtOnce`). The timeout message still names the configured timeout.
- `poll`'s lines 44-47 promise that a timeout of 0 means "no timeout". As written, that timeout is `Infinity`, and Node.js runs it after 1 ms. This is the one finding below. For a timeout of 0, the rest of the model uses the intended behaviour: no deadline (`DeadlineOf`). Every other timeout is modelled as written.
- The SDK attaches `code` to service errors. `stackExists` reads `code`. `Error(message)` has no code.
- Response objects are always truthy in JavaScript. The default `!!val` predicate is therefore a parameter `truthy`, and `ObjectTruthiness` is used for response objects.
- A change-set name of `""` is falsy. So `opts.changeSetName || ...` replaces it, like an absent name.

## Model

| member | source | states |
|---|---|---|
| `Js.Decimal` | lib/main.ts:85 | `${n}`, for `n` below 10^21, gives at least one decimal digit, with no leading zero |
| `Js.DecimalRoundTrip` | lib/main.ts:85 | reading the digits of `Decimal(n)` back gives `n` |
| `Js.DecimalInjective` | lib/main.ts:85 | different clock readings print differently |
| `Poll.Configure` | lib/Util/poll.ts:22-25 | with no options, the defaults are timeout 10000 and interval 100; each field the caller gives overrides its default, and the other keeps its default |
| `Poll.TimerDelay` | lib/Util/poll.ts:42-47 | the delay a Node.js timer runs with is always in 1..2147483647; an in-range delay is kept, and 0 or an over-large delay becomes 1 |
| `Poll.DeadlineOf` | lib/Util/poll.ts:44-47 | intended deadline: there is none exactly when the timeout is 0; a timeout of 1..2147483647 is the deadline itself, and a larger one fires after 1 ms |
| `Poll.DeadlineAsWritten` | lib/Util/poll.ts:47 | as written, a deadline always exists: `0 \|\| Infinity` runs after 1 ms, and any other timeout after its timer delay |
| `Poll.ScheduleOf` | lib/Util/poll.ts:22-47 | the schedule uses the intended deadline and a timer interval of at least 1 ms, and the timeout error reports the configured timeout |
| `Poll.TimeoutError` | lib/Util/poll.ts:46 | a plain Error with message `Poll timed out after <timeout>ms` |
| `Poll.EffectivePredicate` | lib/Util/poll.ts:20 | a predicate that is given is used unchanged |
| `Poll.DefaultPredicateIsTruthiness` | lib/Util/poll.ts:20 | without a predicate, a result completes the poll exactly when it is truthy, and the predicate never throws |
| `Poll.Stops` | lib/Util/poll.ts:29-41 | an attempt ends the poll exactly when `run()` rejected, the predicate rejected, or the predicate answered true |
| `Poll.Verdict` | lib/Util/poll.ts:29-41 | a rejected `run()` promise rejects the poll with its error, a failed predicate rejects with its error, and an accepted result resolves with that result; the poll never resolves with a result the predicate did not accept |
| `Poll.PollFrom` | lib/Util/poll.ts:28-47 | the poll never uses more outcomes than the script has, and never fewer than it already used |
| `Poll.PollSpec` | lib/Util/poll.ts:10-54 | `poll(run, predicate, opts)` never calls `run()` more often than the script allows, and resolves only with the result of its last call, which the effective predicate accepted |
| `Poll.Poll` | lib/Util/poll.ts:10-54 | the loop gives exactly the specified poll: the same ending and the same number of `run()` calls |
| `Poll.PollFromCases` | lib/Util/poll.ts:28-52 | from any point, a poll either stops at the first deciding attempt, or times out with every attempt before the deadline, or runs out of script |
| `Poll.PollCases` | lib/Util/poll.ts:28-52 | every poll ends in exactly one of the three ways of `PollFromCases`, counted from the start: the three are also proved mutually exclusive |
| `Poll.PollStopsAtFirstStopFrom` | lib/Util/poll.ts:32-41 | when attempt `i` is the first that decides and all ticks up to it come before the deadline, the poll ends as attempt `i` says, after exactly `i + 1` calls |
| `Poll.PollStopsAtFirstStop` | lib/Util/poll.ts:32-41 | `PollStopsAtFirstStopFrom` from the start: no attempt follows the deciding one (`clearClock`) |
| `Poll.PollTimesOutFrom` | lib/Util/poll.ts:44-47 | when no attempt decides and the deadline comes before tick `n + 1`, the poll rejects with the timeout error after `n` calls |
| `Poll.PollTimesOut` | lib/Util/poll.ts:44-47 | `PollTimesOutFrom` from the start |
| `Poll.PollRunsOutFrom` | lib/Util/poll.ts:28-42 | when no outcome decides and the deadline does not come first, every outcome is used and the poll is still pending |
| `Poll.PollRunsOut` | lib/Util/poll.ts:28-42 | `PollRunsOutFrom` from the start |
| `Poll.PollResolvesWithFirstAccepted` | lib/Util/poll.ts:32-35 | a resolved poll resolves with its last attempt's result, which the predicate accepted; every earlier result was fulfilled and turned down, and every attempt came before the deadline |
| `Poll.PollRejectsWithAttemptErrorOrTimeout` | lib/Util/poll.ts:38-47 | a rejected poll carries either the error of its last attempt, from `run()` or from the predicate, or the timeout error, once the deadline passed |
| `Poll.NoDeadlineNeverTimesOut` | lib/Util/poll.ts:44-47 | without a deadline, a poll only stops at a deciding attempt or runs out of script |
| `Poll.ZeroTimeoutNeverExpires` | lib/Util/poll.ts:47 | with `{timeout: 0}`, a pending poll has used every outcome, and it rejects only with the error of a deciding attempt |
| `Poll.TimeoutAttemptCount` | lib/Util/poll.ts:28-47 | a poll that times out made exactly `(deadline - 1) / interval` attempts, one per interval tick before the deadline |
| `Poll.ZeroTimeoutExpiresAtOnceAsWritten` | lib/Util/poll.ts:44-47 | as written, with the default interval or a configured one of 2..2147483647 ms, `{timeout: 0}` rejects with `Poll timed out after 0ms` before the first attempt |
| `Poll.DeadlinesAgreeAboveZero` | lib/Util/poll.ts:47 | the as-written and the intended deadline agree exactly when the timeout is not 0 |
| `Poll.OverlongTimeoutExpiresAtOnce` | lib/Util/poll.ts:44-47 | a timeout above 2147483647 ms, with the default interval or one of 2..2147483647 ms, rejects with the timeout error naming that timeout before `run()` is called |
| `Template.Join` | lib/Template.ts:1-5 | the result reads back as `Fn::Join` with the given delimiter, or `''` when none is given, over `strs` unchanged |
| `Template.Attr` | lib/Template.ts:11-18 | the result reads back as `Fn::GetAtt` of the resource and the attribute |
| `Template.Ref` | lib/Template.ts:20-22 | the result reads back as `Ref` of the name |
| `Template.AccountId` | lib/Template.ts:7-9 | the result reads back as `Ref` of `AWS::AccountId` |
| `Template.ReadBuilt` | lib/Template.ts:1-22 | reading back what a constructor built gives the intrinsic it was built from |
| `Template.BuildRead` | lib/Template.ts:1-22 | every object read as an intrinsic is exactly what the matching constructor builds |
| `Template.JoinShape` | lib/Template.ts:1-5 | the only key is `Fn::Join`, and its value is `[delimiter, strs]`; leaving out the delimiter is the same as giving `''` |
| `Template.AttrInjective` | lib/Template.ts:11-18 | Attr is one-to-one: the resource comes first and the attribute second |
| `Template.AccountIdIsRef` | lib/Template.ts:7-9 | `AccountId()` equals `Ref('AWS::AccountId')` |
| `Deploy.ExistenceOf` | lib/main.ts:145-156 | a reply means the stack exists, and a `ValidationError` means it does not (both as iffs); any other error is thrown unchanged and never read as absent |
| `Deploy.StackExists` | lib/main.ts:143-157 | one describe request, in `us-east-1` whatever the deployment's region, read by `ExistenceOf` |
| `Deploy.CreateStackStep` | lib/main.ts:57-76 | the create request names both IAM capabilities; a rejected create stops there; otherwise the waiter follows, and the stack is created exactly when the waiter succeeds |
| `Deploy.CreateStack` | lib/main.ts:57-76 | performs `CreateStackStep`: the same requests and the same outcome |
| `Deploy.ChangeSetNameFor` | lib/main.ts:85 | a non-empty supplied name is used; otherwise the name is `generated-<now>`; either way it is non-empty |
| `Deploy.GeneratedNamesDiffer` | lib/main.ts:85 | deployments started at different times generate different change-set names |
| `Deploy.ChangeSetReady` | lib/main.ts:103 | the change-set predicate never throws, and accepts exactly the statuses `FAILED` and `CREATE_COMPLETE` |
| `Deploy.ChangeSetPoll` | lib/main.ts:98-105 | the change-set poll reads at most the scripted descriptions, and resolves only with the last one read, whose status is `FAILED` or `CREATE_COMPLETE` |
| `Deploy.ChangeSetPollSettles` | lib/main.ts:98-105 | the change-set poll resolves only with a `FAILED` or `CREATE_COMPLETE` description, the last one read, and every earlier one had another status; it asks at most 149 times, and rejects with a reply's error or after 300000 ms |
| `Deploy.FailedWithChanges` | lib/main.ts:107 | a change set failing with changes is one the poll stops on, and its change list is non-empty |
| `Deploy.ChangeSetVerdict` | lib/main.ts:107-111 | throws `Failed to create changeSet "<name>": <StatusReason>` exactly for a `FAILED` change set with changes; otherwise passes the poll's outcome unchanged |
| `Deploy.ChangeSetStep` | lib/main.ts:78-112 | an `UPDATE` request with both capabilities and the chosen name, then only describes of that change set; it resolves with the last description, unchanged, which is settled and not a failure with changes; it throws the change-set error exactly for a failure with changes |
| `Deploy.CreateChangeSet` | lib/main.ts:78-112 | performs `ChangeSetStep`: the same requests and the same outcome |
| `Deploy.StackUpdateSettled` | lib/main.ts:134 | the stack predicate never throws, and accepts exactly `UPDATE_COMPLETE` and `UPDATE_ROLLBACK_IN_PROGRESS` |
| `Deploy.StackPoll` | lib/main.ts:132-136 | the stack poll reads at most the scripted descriptions, and resolves only with the last one read, whose status is `UPDATE_COMPLETE` or `UPDATE_ROLLBACK_IN_PROGRESS` |
| `Deploy.StackPollSettles` | lib/main.ts:132-136 | the stack poll resolves only with an `UPDATE_COMPLETE` or `UPDATE_ROLLBACK_IN_PROGRESS` description, the last one read, and every earlier one had another status; it asks at most 149 times |
| `Deploy.UpdateVerdict` | lib/main.ts:137-140 | a stack rolling back throws `Stack update failed: <StackStatusReason>`; any other settled stack is success; an unsettled poll passes through |
| `Deploy.ExecuteStep` | lib/main.ts:114-141 | the execute request names the change set, and only describes of the same stack follow; once the poll settles, `UPDATE_COMPLETE` is success and rolling back is the update-failed error (both as iffs) |
| `Deploy.ExecuteChangeSet` | lib/main.ts:114-141 | performs `ExecuteStep`: the same requests and the same outcome |
| `Deploy.NoChangeSetInCreation` | lib/main.ts:23-30 | the requests of a deployment that creates the stack hold no change-set creation and no execution |
| `Deploy.DeployCloudFormation` | lib/main.ts:5-53 | see below |

`Deploy.DeployCloudFormation` promises:

- Validation comes first. A rejected template ends the deployment with that error after the one request, so no existence check, create, change-set or execute request is made.
- The existence check follows, in `us-east-1`, and an error other than `ValidationError` is thrown.
- An absent stack is created, and nothing else happens.
- A present stack gets a change set named `generated-<now>`.
- A change set that fails, or is still pending, ends the deployment the same way.
- A change set without changes, whatever its status, succeeds with nothing executed.
- A change set with changes is executed by its own name on the same stack, and the execution decides the outcome.
- A change set is executed exactly when it came back with changes.

## Left out

- `bin/cli.js` (flag parsing, loading the template file, exit codes) is not part of this model.
- Network calls, the AWS SDK client objects and `.promise()` are replaced by the scripted replies. Each request made is recorded with the region of the client that makes it.
- `cf.waitFor('stackCreateComplete')` is one opaque reply, success or failure, instead of the SDK's own poll of the stack status.
- `Date.now()` is the parameter `now`.
- `setInterval` and `setTimeout` become virtual time. Ticks are serialized: the overlap of an interval tick with a `run()` still in flight, and the JavaScript event loop, are not modelled.
- A tick that falls exactly on the deadline is taken to lose to the deadline. The runtime's real order for that tie is not modelled.
- `clearClock` has no state of its own here. It is captured as "no attempt follows the one that settled the poll", which is the attempt count in every ending. The release of timer handles is not modelled.
- `console.log` output is not modelled.
- The `IMaybePromise` distinction is not modelled: results and predicate answers are settled values.
- `_.includes` is sequence membership.
- Only the fields the code reads are kept: `Stacks[0].StackStatus` and `StackStatusReason`, and the change set's `Status`, `Changes`, `ChangeSetName` and `StatusReason`. Each of them is always present. A reply whose `Stacks` list is empty is not modelled; in the source, reading `Stacks[0]` of it throws a TypeError.
- `Object.assign` with an option field explicitly set to `undefined` is not modelled: an absent field takes its default.
- Negative, fractional and non-finite JavaScript numbers are not modelled as options: timeouts and intervals are `nat`.
- JavaScript numbers are doubles. Timeouts, intervals and the clock reading `now` are modelled as unbounded `nat`, and stand for safe integers (below 2^53). Larger values, and the rounding a double would apply to them, are not modelled. This matters to `Poll.OverlongTimeoutExpiresAtOnce`, which covers every timeout above 2147483647.
- Js.Decimal: it gives the plain decimal digits of any `nat`. From 10^21 on, JavaScript's `${n}` uses exponent notation (`1e+21`), which is not modelled. So `Poll.TimeoutError` and the generated change-set name are as the source's only below 10^21.
- Template.Join: the built object holds a copy of `strs`. In the source, the array is embedded by reference, so a later change to the caller's array shows through; this sharing is not modelled.
- The describeStacks replies form one stream. The first reply answers the existence check, and the rest answer the execute poll. The model does not tell the `us-east-1` endpoint from the deployment's regional endpoint other than by the request's region.
- Poll.Verdict: a `run()` that throws synchronously, instead of returning a rejected promise, is not modelled. In the source, that exception escapes the interval callback uncaught, `clearClock` is not called, and the poll does not reject with it.
- An attempt takes no time: its reply settles at its tick. A reply that arrives after the deadline has fired is not modelled. In the source, the poll has already rejected with the timeout error by then, and the reply is ignored.
- Poll.PollFrom: its own contract is only the bound on attempts. What the poll does is stated by the lemmas beside it.

## Findings

| source | as written | input that shows it | evidently intended | confidence | as-written member | corrected member |
|---|---|---|---|---|---|---|
| lib/Util/poll.ts:47 | `setTimeout(..., opts.timeout \|\| Infinity)` arms the deadline for `Infinity`. Node.js replaces a delay above 2147483647 ms with 1 ms, so the poll rejects after 1 ms | `poll(run, p, {timeout: 0})` with the default interval of 100 ms: it rejects with `Poll timed out after 0ms` before `run()` is called | a timeout of 0 disables the deadline, so the poll only ends by its predicate or by an error | high (Node.js documents the 1 ms replacement for out-of-range delays); not executed | `Poll.ZeroTimeoutExpiresAtOnceAsWritten` | `Poll.ZeroTimeoutNeverExpires` |
