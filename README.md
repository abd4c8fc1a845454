# Thermal-control polling client: the hysteresis controller

This project models the control loop of a small client for a remote
thermal-control API. In each iteration the client:

1. Reads the temperature of sensor 1.
2. Fetches the system state and the sensor and fan configurations. These are
   fetched only for display.
3. Applies a two-point hysteresis policy. The only state it keeps between
   iterations is the `heating` flag, which starts `true`.
4. Sends the resulting actuator commands one at a time:
   - heating mode, reading below 19.0: heaters 1, 2 and 3 to level 5;
   - heating mode, reading at or above 19.0: heaters to level 0, then switch to cooling;
   - cooling mode, reading above 18.0: fans 1, 2 and 3 on;
   - cooling mode, reading at or below 18.0: fans off, then switch to heating.

Any failure ends the iteration: a failed fetch or a command the service
rejects. The loop's single catch block logs the failure and the loop goes on.
Because the flag is assigned after the command loop, a failure never changes
the mode.

The remote service is an oracle. A `Service.Poll` value gives its answers for
one iteration:

- the reading of each sensor (`Ok(t)` or `Fail`);
- success or failure of each display fetch;
- whether it accepts each actuator command.

Files:

- `Service.dfy`: the oracle, the commands, the error messages and the text
  bodies of the POST requests.
- `Policy.dfy`: the pure specification. `Decide` picks the action, `Issue`
  sends a batch up to the first rejection, `Cycle` is one iteration and `Run`
  is a finite sequence of iterations.
- `Controller.dfy`: the `Controller` class. It holds `heating` and `sent`, the
  log of every actuator request issued. Its `Step` and `Loop` methods issue
  the commands in `for` loops and are proved to match `Cycle` and `Run`.
- `Properties.dfy`: the lemmas about each branch, mode separation, failures
  and hysteresis over runs.

## Model

| member | source | states |
|---|---|---|
| `ControlLoop.Controller.constructor` | Programe.cs:15-17 | thresholds 19.0 and 18.0 (low < high), the mode starts as heating, nothing has been sent |
| `ControlLoop.Controller.SetHeaterLevel` | Programe.cs:138-146 | one POST of a heater level is issued, and the call succeeds exactly when the service accepts it |
| `ControlLoop.Controller.SetFanState` | Programe.cs:148-156 | one POST of a fan state is issued, and the call succeeds exactly when the service accepts it |
| `ControlLoop.Controller.SetAllHeaters` | Programe.cs:64-75 | the `for i = 1..3` loops (level 5 and level 0) send heaters 1, 2, 3 in order and stop at the first rejection, which becomes the error (agrees with `Issue` on the heater batch) |
| `ControlLoop.Controller.SetAllFans` | Programe.cs:85-96 | the same for fans 1, 2, 3, on and off (agrees with `Issue` on the fan batch) |
| `ControlLoop.Controller.Step` | Programe.cs:24-107 | one iteration: the new log, the new mode and the logged error are exactly those of `Cycle` from the old mode |
| `ControlLoop.Controller.Loop` | Programe.cs:21-108 | a finite prefix of the endless loop: the log, the final mode and the logged errors are those of `Run` |
| `Policy.Decide` | Programe.cs:58-99 | a heater action is chosen exactly in heating mode; the action switches the mode exactly when the reading is at or past the current mode's threshold (>= high when heating, <= low when cooling) |
| `Policy.Cycle` | Programe.cs:24-107 | one iteration sends at most three commands, and none unless every fetch succeeded; the mode changes only in an iteration without error; there is no error exactly when every fetch succeeded and every command sent was accepted, and then three were sent |
| `Policy.Run` | Programe.cs:21-108 | n iterations send at most 3n commands, log at most n errors and switch at most n times; without a switch the mode is the starting one |
| `Policy.Issue` | Programe.cs:138-156 | the issued commands are the shortest prefix of the batch that ends in the first rejected command, or the whole batch; there is no error exactly when every command is accepted; the error names the rejected command |
| `Policy.IssueStopsAt` | Programe.cs:72-76 | if the first k commands are accepted and command k is rejected, exactly k+1 commands go out with that rejection as the error; if all are accepted, the whole batch goes out without error |
| `Properties.HeatUpCycle` | Programe.cs:58-68 | heating and reading < high: heaters 1, 2, 3 to level 5 in that order (a prefix of them if one is rejected); the mode stays heating |
| `Properties.HeatersOffCycle` | Programe.cs:69-77 | heating and reading >= high, equality included: heaters 1, 2, 3 to level 0; the mode becomes cooling if and only if all three were accepted |
| `Properties.CoolDownCycle` | Programe.cs:79-89 | cooling and reading > low: fans 1, 2, 3 on; the mode stays cooling |
| `Properties.FansOffCycle` | Programe.cs:90-98 | cooling and reading <= low, equality included: fans 1, 2, 3 off; the mode becomes heating if and only if all three were accepted |
| `Properties.CommandsMatchMode` | Programe.cs:58-99 | a heating cycle sends only heater commands, with level 0 or 5; a cooling cycle sends only fan commands; ids are 1..3 and at most three commands go out |
| `Properties.SwitchIff` | Programe.cs:58-99 | the mode changes if and only if every fetch succeeded, the reading is on or past the current mode's threshold and all three commands were accepted; a cycle without error sends exactly three commands |
| `Properties.FailedFetchIsInert` | Programe.cs:27-55 | a failed fetch of the temperature, system state, sensor configurations or fan configurations sends nothing and keeps the mode; the error is the first failed fetch, in program order |
| `Properties.RejectionStopsBatch` | Programe.cs:142-155 | when a command is rejected it is the last one sent, all before it were accepted, and the mode is kept |
| `Properties.BodiesAreLiterals` | Programe.cs:138-156 | every heater body sent is "0" or "5"; every fan body is "true" for an on-command and "false" for an off-command |
| `Service.NatText` | Programe.cs:141 | the decimal text of a level is non-empty and all digits |
| `Service.NatTextRoundTrip` | Programe.cs:141 | reading the decimal text of n back as digits gives n |
| `Service.BoolText` | Programe.cs:151 | `bool.ToString()` is a capitalised word ("True" for true), the reason the program lower-cases it |
| `Service.Lower` | Programe.cs:151 | `ToLower()` keeps the length, leaves no upper-case letter, turns each letter into the lower-case letter at the same place in the alphabet and keeps every other character |
| `Service.LowerIdempotent` | Programe.cs:151 | lower-casing twice is lower-casing once |
| `Service.Body` | Programe.cs:138-156 | a fan body is "true" or "false", "true" exactly for an on-command; a heater body with level >= 0 is all digits and reads back as the level |
| `Properties.InBandHoldsMode` | Programe.cs:58-99 | over any run, readings strictly between low and high never change the mode |
| `Properties.SteadyRun` | Programe.cs:58-99 | under a steady reading with low < high, a run has either never switched, or switched once into a mode that reading keeps |
| `Properties.SteadyReadingSwitchesAtMostOnce` | Programe.cs:15-99 | hysteresis: with low < high a steady reading switches the mode at most once, however many iterations run and whatever the service answers |
| `Properties.NoBandChatters` | Programe.cs:58-99 | with low == high and a reading equal to both, every fully successful iteration switches the mode |
| `Properties.FailedCycleIsInert` | Programe.cs:104-107 | an iteration whose fetches fail only appends its error to the error log, keeping the earlier errors; the log of commands, the mode and the switch count are unchanged for the next iteration |
| `Properties.Scenarios` | Programe.cs:15-99 | with thresholds 18.0/19.0 and all calls succeeding: 17.5 in heating gives level 5 to heaters 1-3; 19.0 in heating gives level 0 and switches to cooling; 18.5 in cooling turns fans 1-3 on; 18.0 in cooling turns them off and switches to heating |

## Left out

- HTTP transport: the base address, request paths and the `X-Api-Key` header. The service is the `Poll` oracle.
- JSON deserialisation and `double.Parse`. Each fetch is modelled only as success or failure. A payload that deserialises to `null` makes the display loop throw; it counts as a failure of that fetch.
- The contents of the system state, the sensor configurations and the fan configurations. They are only printed, so they do not affect behaviour.
- Console output. The four actions of `Policy.Action` stand for the four status messages.
- `ControlLoop.Controller.Step`, `ControlLoop.Controller.Loop`: the logged `Error` always names the failing stage (the fetch or the rejected command), which is more specific than what the program prints. The program logs the exception's message: for a non-success status this names the call and its reason phrase, which the model drops; for a `double.Parse` format error, a transport exception from `GetAsync`/`PostAsync` or a null payload in the display loops, it is the library's own message and does not name the call.
- `Task.Delay`, async/await and timing. A run is a finite sequence of iterations instead of `while (true)`.
- Floating-point semantics of `double`. Readings are `real`. A NaN reading is not modelled: it fails both comparisons, so the real program would switch mode on every iteration.
- Which of the four fetches failed does not matter to the mode or the commands. The model keeps the program's fetch order only in the logged error.
