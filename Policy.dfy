/** The two-point hysteresis policy of the control loop, as pure functions: what
    one poll cycle sends to the actuators and what mode it leaves behind, and
    the same for a finite run of cycles. The Controller class is proved to do
    exactly this. */
module Policy {
  import opened Service

  /** Number of heaters and of fans; both are addressed by ids 1..ActuatorCount. */
  const ActuatorCount: nat := 3

  /** Level the heaters are driven to while heating. */
  const MaxLevel: int := 5

  /** The four actions of the policy, one per console message. */
  datatype Action = HeatUp | HeatersOff | CoolDown | FansOff

  /** The action for a reading `t`: strict comparisons, so a reading equal to a
      threshold takes the switching branch. */
  function Decide(heating: bool, t: real, low: real, high: real): (a: Action)
    ensures (a == HeatUp || a == HeatersOff) <==> heating
    ensures Switches(a) <==> (if heating then t >= high else t <= low)
  {
    if heating then (if t < high then HeatUp else HeatersOff)
    else (if t > low then CoolDown else FansOff)
  }

  /** Whether the action switches the mode once its commands are all accepted. */
  predicate Switches(a: Action) {
    a == HeatersOff || a == FansOff
  }

  function HeaterBatch(level: int): seq<Command> {
    seq(ActuatorCount, k => SetHeater(k + 1, level))
  }

  function FanBatch(on: bool): seq<Command> {
    seq(ActuatorCount, k => SetFan(k + 1, on))
  }

  /** The commands an action sends, in order. */
  function Batch(a: Action): seq<Command> {
    match a
    case HeatUp => HeaterBatch(MaxLevel)
    case HeatersOff => HeaterBatch(0)
    case CoolDown => FanBatch(true)
    case FansOff => FanBatch(false)
  }

  /** What reaches the service when a batch is sent one command at a time. */
  datatype Delivery = Delivery(issued: seq<Command>, error: Option<Error>)

  /** Sending stops at the first command the service rejects: that command is
      issued, the ones after it are not, and its rejection is the error. */
  function Issue(batch: seq<Command>, accepts: Command -> bool): (r: Delivery)
    ensures |r.issued| <= |batch| && r.issued == batch[..|r.issued|]
    ensures r.error == None <==> forall c :: c in batch ==> accepts(c)
    ensures r.error == None ==> r.issued == batch
    ensures r.error != None ==>
              |r.issued| > 0 && !accepts(r.issued[|r.issued| - 1]) &&
              r.error == Some(Rejected(r.issued[|r.issued| - 1])) &&
              forall j :: 0 <= j < |r.issued| - 1 ==> accepts(r.issued[j])
    decreases |batch|
  {
    if batch == [] then Delivery([], None)
    else if !accepts(batch[0]) then Delivery([batch[0]], Some(Rejected(batch[0])))
    else
      var rest := Issue(batch[1..], accepts);
      Delivery([batch[0]] + rest.issued, rest.error)
  }

  /** The delivery of a batch whose first `k` commands are accepted and whose
      command `k`, if any, is rejected. */
  lemma IssueStopsAt(batch: seq<Command>, accepts: Command -> bool, k: nat)
    requires k <= |batch|
    requires forall j :: 0 <= j < k ==> accepts(batch[j])
    requires k < |batch| ==> !accepts(batch[k])
    ensures k == |batch| ==> Issue(batch, accepts) == Delivery(batch, None)
    ensures k < |batch| ==> Issue(batch, accepts) == Delivery(batch[..k + 1], Some(Rejected(batch[k])))
  {
  }

  /** The result of one poll cycle. */
  datatype Outcome = Outcome(issued: seq<Command>, heating: bool, error: Option<Error>)

  /** One iteration of the polling loop: fetch the reading and the display data
      (any failure ends the cycle with nothing sent), then send the action's
      batch and switch the mode only if the whole batch was accepted. */
  function Cycle(heating: bool, p: Poll, low: real, high: real): (o: Outcome)
    ensures |o.issued| <= ActuatorCount
    ensures o.issued != [] ==> FetchesSucceed(p)
    ensures o.heating != heating ==> FetchesSucceed(p) && o.error == None
    ensures o.error == None ==> |o.issued| == ActuatorCount
    ensures o.error == None <==> FetchesSucceed(p) && forall c :: c in o.issued ==> p.accepts(c)
  {
    match p.sensor(PrimarySensor)
    case Fail => Outcome([], heating, Some(TemperatureUnavailable(PrimarySensor)))
    case Ok(t) =>
      if p.systemState == Fail then Outcome([], heating, Some(SystemStateUnavailable))
      else if p.sensorConfigs == Fail then Outcome([], heating, Some(SensorConfigsUnavailable))
      else if p.fanConfigs == Fail then Outcome([], heating, Some(FanConfigsUnavailable))
      else
        var a := Decide(heating, t, low, high);
        var d := Issue(Batch(a), p.accepts);
        Outcome(d.issued, if d.error == None && Switches(a) then !heating else heating, d.error)
  }

  /** True when every fetch of the cycle succeeds. */
  predicate FetchesSucceed(p: Poll) {
    p.sensor(PrimarySensor).Ok? && p.systemState.Ok? && p.sensorConfigs.Ok? && p.fanConfigs.Ok?
  }

  /** The effect of a finite run of cycles. */
  datatype Trace = Trace(issued: seq<Command>, heating: bool, errors: seq<Error>, switches: nat)

  function ErrorLog(e: Option<Error>): seq<Error> {
    match e
    case None => []
    case Some(err) => [err]
  }

  /** The trace `t` followed by one more cycle with outcome `o`. */
  function Extend(t: Trace, o: Outcome): Trace {
    Trace(t.issued + o.issued, o.heating, t.errors + ErrorLog(o.error),
          t.switches + if o.heating != t.heating then 1 else 0)
  }

  /** Cycles run in order from the mode `heating`; `switches` counts the cycles
      that changed the mode. */
  function Run(heating: bool, polls: seq<Poll>, low: real, high: real): (r: Trace)
    ensures |r.issued| <= ActuatorCount * |polls|
    ensures |r.errors| <= |polls| && r.switches <= |polls|
    ensures r.switches == 0 ==> r.heating == heating
    decreases |polls|
  {
    if polls == [] then Trace([], heating, [], 0)
    else
      var prev := Run(heating, polls[..|polls| - 1], low, high);
      Extend(prev, Cycle(prev.heating, polls[|polls| - 1], low, high))
  }

  /** Running the first `i + 1` polls is running the first `i` and then one more cycle. */
  lemma RunOneMore(heating: bool, polls: seq<Poll>, i: nat, low: real, high: real)
    requires i < |polls|
    ensures var before := Run(heating, polls[..i], low, high);
            Run(heating, polls[..i + 1], low, high) == Extend(before, Cycle(before.heating, polls[i], low, high))
  {
    assert polls[..i + 1][..i] == polls[..i];
  }
}
