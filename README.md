# Autoscaler control loop in Dafny

A model of the horizontal-scaling control loop of the `autoscaler` service
(`autoscaler.js`). Each iteration of the loop reads the monitored service's
high-priority CPU usage and replica count from `GET {BASE_URL}/status`. It
compares the CPU usage with `TARGET_CPU_USAGE` and may send one
`PUT {BASE_URL}/replicas` asking for a new replica count. Then it sleeps for
`POLLING_INTERVAL_MS`.

- `wrappers.dfy`, module `Wrappers`: the `Option` type. `None` stands for the
  `null` that the source returns on failure.
- `client.dfy`, module `Client`: the configuration, the status snapshot and the two
  soft-failure wrappers `getStatus` and `updateReplicas`. What `fetch` did is an
  input of type `Fetch<B>`: it either threw, or it resolved to a response with an
  `ok` flag and a body.
- `scaling.dfy`, module `Scaling`: the decision that the source writes inline in
  the loop, lifted into the pure function `Decide`. It uses exact arithmetic:
  `cpu` and the target are `real`, replica counts are `int`, and `Math.ceil` and
  `Math.floor` are the integer ceiling and floor.
- `loop.dfy`, module `ControlLoop`: the `autoScale` loop as a method. It runs over
  a finite trace of poll outcomes and update outcomes, and it collects the loop's
  effects: requests sent and sleeps taken. It is proved equal to the function
  `Run`, which reads the poll outcomes only. So the results of the updates cannot
  influence what the loop does. Further lemmas cover one iteration and a whole
  run.

The target CPU usage must be positive. The source never checks it
(`Number(process.env.TARGET_CPU_USAGE)`), but it divides by it. In the model,
`targetCpuUsage > 0` is a precondition of the decision and the loop.

Three behaviours of the code that a reader might not expect:

- A status body that is not a status snapshot is not always a failed poll. A
  body that fails to parse, or parses to a falsy value (`null`, `false`, `0`,
  `""`), takes the failed-poll path at line 85. A truthy body whose `cpu` is
  missing or `null` (such as `true`, `1`, `"x"`, `[]` or `{ cpu: null }`) makes
  `status.cpu.highPriority` throw at line 98. That line is
  outside any `try`, so `autoScale` rejects and the loop stops. A body whose
  `cpu` has no `highPriority` gives `undefined`; both comparisons at lines 105
  and 117 are false, and the iteration only sleeps. The model does not
  represent JSON shapes; see "Left out".
- Not every update asks for at least one replica. Scale-downs do, because of the
  guard at line 123. Scale-ups do only when the service reports at least one
  replica. With 0 replicas reported and CPU above the target, the ceiling of
  `0 * ratio` is 0, and `updateReplicas(0)` is sent
  (`Scaling.ScaleUpFromNoReplicas`). `ControlLoop.UpdatesArePositive` proves
  that every update is at least 1 provided every snapshot reports at least one
  replica.
- Scale-down rounds the wanted count down, so it keeps the smaller count. This
  is the greatest count at which each replica still carries at least the target
  load (`Scaling.ScaleDownIsGreatestCovered`).

## Model

| member | source | states |
|---|---|---|
| `Client.GetStatus` | autoscaler.js:25-47 | no status exactly when the fetch throws, the response is not ok, or the body does not parse to a status snapshot (parse failure or a falsy value, which `autoScale` treats like `null`); otherwise the parsed body itself |
| `Client.UpdateReplicas` | autoscaler.js:50-75 | non-null exactly when the PUT resolved to an ok response; `null` when it threw or was not ok |
| `Scaling.Floor` | autoscaler.js:120 | `Math.floor`: the greatest integer not above its argument |
| `Scaling.Ceil` | autoscaler.js:108 | `Math.ceil`: the least integer not below its argument |
| `Scaling.Decide` | autoscaler.js:105-129 | scale up exactly when CPU is above the target; a scale-down only when CPU is below the target, and never to fewer than 1 replica; no change exactly when CPU equals the target, or CPU is below the target and the total load `replicas * cpu` is below the target |
| `Scaling.Command` | autoscaler.js:113-128 | an update is sent for a scale-up or a scale-down, with its count, and none for no change |
| `Scaling.WantedBelowOne` | autoscaler.js:120-123 | the wanted count `replicas * (cpu / target)` is below 1 exactly when `replicas * cpu` is below the target |
| `Scaling.ScaleUpIsLeastSufficient` | autoscaler.js:105-108 | the scale-up count `n` is the least count with `n * target >= replicas * cpu` |
| `Scaling.ScaleUpGrows` | autoscaler.js:105-114 | from a non-negative replica count, a scale-up count is at least the reported replica count, and strictly greater when at least one replica is reported |
| `Scaling.ScaleUpFromNoReplicas` | autoscaler.js:105-114 | with 0 replicas reported and CPU above the target, the scale-up asks for 0 replicas |
| `Scaling.ScaleDownIsGreatestCovered` | autoscaler.js:117-120 | the scale-down count `n` is the greatest count with `n * target <= replicas * cpu` |
| `Scaling.ScaleDownShrinks` | autoscaler.js:117-128 | from a non-negative replica count, a scale-down count is at least 1 and strictly below the reported replica count |
| `Scaling.ScenarioScaleUp` | autoscaler.js:105-114 | CPU 60 on 5 replicas with target 50 scales up to 6 |
| `Scaling.ScenarioScaleDown` | autoscaler.js:117-128 | CPU 20 on 5 replicas with target 50 scales down to 2 |
| `Scaling.ScenarioNoScaleToZero` | autoscaler.js:117-129 | CPU 5 on 2 replicas with target 50 changes nothing, because the floor 0 is refused |
| `ControlLoop.AutoScale` | autoscaler.js:78-134 | the effects of the loop over a poll trace equal `Run` of the polls alone; update results are dropped and never change later iterations |
| `ControlLoop.IterationUpdates` | autoscaler.js:104-129 | an iteration sends exactly the update its decision calls for, and no other |
| `ControlLoop.FailedPollSkipsToSleep` | autoscaler.js:82-95 | after a failed poll, the iteration does only the status request and the sleep, and no update |
| `ControlLoop.AtTargetNoUpdate` | autoscaler.js:105-132 | with CPU equal to the target, the iteration sends no update |
| `ControlLoop.AboveTargetOneUpdate` | autoscaler.js:105-114 | with CPU above the target, the iteration is the status request, one update for the scale-up count, and the sleep; from a non-negative replica count that count is no smaller than reported, and strictly greater from one replica up |
| `ControlLoop.BelowTargetUpdate` | autoscaler.js:117-128 | with CPU below the target, an update is sent exactly when `replicas * cpu >= target`; its count is at least 1, and from a non-negative replica count it lies in `[1, replicas)` |
| `ControlLoop.AtMostOneUpdatePerIteration` | autoscaler.js:79-133 | a run sends no more updates than it has iterations |
| `ControlLoop.UpdatesArePositive` | autoscaler.js:105-128 | every update of a run asks for at least 1 replica, provided every snapshot reports at least one |
| `ControlLoop.IterationIsLocal` | autoscaler.js:79-133 | an iteration's effects depend only on its own poll; nothing is carried across iterations, so repeated failures are treated alike |
| `ControlLoop.UpdateFollowsStatusRead` | autoscaler.js:82-114 | every update in a run is sent right after a status request |

## Left out

- Configuration loading (autoscaler.js:5-22): `dotenv`, `process.env` and
  `Number(...)` parsing, NaN included. The configuration is an immutable
  `Config` value, and a positive target is a precondition.
- The real network: `fetch`, headers and JSON encoding and decoding. Only the
  outcome of each call is an input: it threw, or it responded with `ok` and a
  body. A status body is `Some(status)` when it parses to a status snapshot and
  `None` when `response.json()` rejects or yields a falsy value (`null`,
  `false`, `0`, `""`); the source returns a falsy body from `getStatus` and
  `autoScale` rejects it at line 85, which the model folds into `getStatus`.
- Status bodies that parse to a truthy value other than a status snapshot. A
  truthy body whose `cpu` is missing or `null` makes line 98 throw and ends the
  loop; an object whose
  `cpu` lacks `highPriority` makes both comparisons at lines 105 and 117 false,
  so the iteration only sleeps. The model's body type cannot express either.
  JSON numbers that are not integers in the `replicas` field are also out.
- `setTimeout` sleeping, `await` suspension and the infinite `while (true)`.
  Time is one iteration per poll outcome, and the loop runs over a finite trace.
  A sleep is an effect carrying `POLLING_INTERVAL_MS`.
- `console.log` and `console.error` logging.
- IEEE double rounding of `currentReplicas * (currentCpu / TARGET_CPU_USAGE)`.
  The model computes the exact value, so results that depend on rounding error
  near an integer are not captured.
- server.js (cluster forking and worker respawn, HTTP start-up) and app.js
  (Express middleware, health route, error middleware). They are process
  topology and library glue, and they only start `autoScale()`.
