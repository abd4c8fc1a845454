/** What the hysteresis policy promises, proved about the specification
    functions of module Policy (and hence, through the contracts of Step and
    Loop, about the controller). */
module Properties {
  import opened Service
  import opened Policy

  // ---------------------------------------------------------------------------
  // One cycle, branch by branch

  /** Heating and below the upper threshold: heaters 1, 2, 3 to level 5, in that
      order, and the mode stays heating whatever the service answers. */
  lemma HeatUpCycle(p: Poll, low: real, high: real)
    requires FetchesSucceed(p) && p.sensor(PrimarySensor).value < high
    ensures var o := Cycle(true, p, low, high);
            var batch := [SetHeater(1, 5), SetHeater(2, 5), SetHeater(3, 5)];
            o.heating &&
            |o.issued| <= 3 && o.issued == batch[..|o.issued|] &&
            (o.error == None <==> p.accepts(batch[0]) && p.accepts(batch[1]) && p.accepts(batch[2])) &&
            (o.error == None ==> o.issued == batch)
  {
  }

  /** Heating and at or above the upper threshold: heaters 1, 2, 3 to level 0,
      and the mode becomes cooling exactly when all three were accepted. */
  lemma HeatersOffCycle(p: Poll, low: real, high: real)
    requires FetchesSucceed(p) && p.sensor(PrimarySensor).value >= high
    ensures var o := Cycle(true, p, low, high);
            var batch := [SetHeater(1, 0), SetHeater(2, 0), SetHeater(3, 0)];
            |o.issued| <= 3 && o.issued == batch[..|o.issued|] &&
            (!o.heating <==> p.accepts(batch[0]) && p.accepts(batch[1]) && p.accepts(batch[2])) &&
            (!o.heating <==> o.error == None) &&
            (!o.heating ==> o.issued == batch)
  {
  }

  /** Cooling and above the lower threshold: fans 1, 2, 3 on, and the mode stays
      cooling whatever the service answers. */
  lemma CoolDownCycle(p: Poll, low: real, high: real)
    requires FetchesSucceed(p) && p.sensor(PrimarySensor).value > low
    ensures var o := Cycle(false, p, low, high);
            var batch := [SetFan(1, true), SetFan(2, true), SetFan(3, true)];
            !o.heating &&
            |o.issued| <= 3 && o.issued == batch[..|o.issued|] &&
            (o.error == None <==> p.accepts(batch[0]) && p.accepts(batch[1]) && p.accepts(batch[2])) &&
            (o.error == None ==> o.issued == batch)
  {
  }

  /** Cooling and at or below the lower threshold: fans 1, 2, 3 off, and the
      mode becomes heating exactly when all three were accepted. */
  lemma FansOffCycle(p: Poll, low: real, high: real)
    requires FetchesSucceed(p) && p.sensor(PrimarySensor).value <= low
    ensures var o := Cycle(false, p, low, high);
            var batch := [SetFan(1, false), SetFan(2, false), SetFan(3, false)];
            |o.issued| <= 3 && o.issued == batch[..|o.issued|] &&
            (o.heating <==> p.accepts(batch[0]) && p.accepts(batch[1]) && p.accepts(batch[2])) &&
            (o.heating <==> o.error == None) &&
            (o.heating ==> o.issued == batch)
  {
  }

  // ---------------------------------------------------------------------------
  // Any cycle

  /** A heating cycle sends only heater commands, a cooling cycle only fan
      commands; ids are 1..3, heater levels 0 or 5, and at most three commands
      go out. */
  lemma CommandsMatchMode(heating: bool, p: Poll, low: real, high: real)
    ensures var o := Cycle(heating, p, low, high);
            |o.issued| <= ActuatorCount &&
            forall c :: c in o.issued ==>
              (heating ==> c.SetHeater? && 1 <= c.heaterId <= 3 && (c.level == 0 || c.level == 5)) &&
              (!heating ==> c.SetFan? && 1 <= c.fanId <= 3)
  {
  }

  /** The body of every command a cycle sends is "0" or "5" for a heater and
      the lower-case literal "true" or "false" for a fan. */
  lemma BodiesAreLiterals(heating: bool, p: Poll, low: real, high: real)
    ensures forall c :: c in Cycle(heating, p, low, high).issued ==>
              (c.SetHeater? ==> Body(c) in {"0", "5"}) &&
              (c.SetFan? ==> Body(c) == (if c.on then "true" else "false"))
  {
    CommandsMatchMode(heating, p, low, high);
    assert NatText(0) == "0" && NatText(5) == "5";
  }

  /** A failed fetch ends the cycle before any command: nothing is sent, the
      mode is kept, and the error names the first fetch that failed, in the
      order temperature, system state, sensor configurations, fan configurations. */
  lemma FailedFetchIsInert(heating: bool, p: Poll, low: real, high: real)
    requires !FetchesSucceed(p)
    ensures var o := Cycle(heating, p, low, high);
            o.issued == [] && o.heating == heating &&
            o.error == Some(
              if p.sensor(PrimarySensor).Fail? then TemperatureUnavailable(1)
              else if p.systemState.Fail? then SystemStateUnavailable
              else if p.sensorConfigs.Fail? then SensorConfigsUnavailable
              else FanConfigsUnavailable)
  {
  }

  /** A rejected command ends the batch: it is the last command sent, every
      command before it was accepted, and the mode is kept. */
  lemma RejectionStopsBatch(heating: bool, p: Poll, low: real, high: real)
    requires Cycle(heating, p, low, high).error.Some?
    requires Cycle(heating, p, low, high).error.value.Rejected?
    ensures var o := Cycle(heating, p, low, high);
            var c := o.error.value.command;
            o.heating == heating &&
            |o.issued| > 0 && o.issued[|o.issued| - 1] == c && !p.accepts(c) &&
            forall j :: 0 <= j < |o.issued| - 1 ==> p.accepts(o.issued[j])
  {
  }

  /** The mode changes in a cycle exactly when every fetch succeeded, the
      reading was on or past the threshold of the current mode, and all three
      commands were accepted; a cycle without error sends exactly three. */
  lemma SwitchIff(heating: bool, p: Poll, low: real, high: real)
    ensures var o := Cycle(heating, p, low, high);
            (o.heating != heating <==>
               FetchesSucceed(p) &&
               (var t := p.sensor(PrimarySensor).value;
                if heating then t >= high else t <= low) &&
               forall c :: c in Batch(Decide(heating, p.sensor(PrimarySensor).value, low, high)) ==> p.accepts(c)) &&
            (o.error == None ==> |o.issued| == 3)
  {
  }

  // ---------------------------------------------------------------------------
  // Runs of cycles

  /** Readings strictly inside the band (low, high) never change the mode. */
  lemma {:induction false} InBandHoldsMode(heating: bool, polls: seq<Poll>, low: real, high: real)
    requires forall k :: 0 <= k < |polls| && polls[k].sensor(PrimarySensor).Ok? ==>
               low < polls[k].sensor(PrimarySensor).value < high
    ensures Run(heating, polls, low, high).heating == heating
    ensures Run(heating, polls, low, high).switches == 0
    decreases |polls|
  {
    if polls != [] {
      InBandHoldsMode(heating, polls[..|polls| - 1], low, high);
    }
  }

  /** The mode a reading `t` keeps: heating below `high`, cooling above `low`. */
  predicate Settled(heating: bool, t: real, low: real, high: real) {
    if heating then t < high else t > low
  }

  /** Under a steady reading, a run either never switched or switched once and
      has reached a mode that reading keeps. */
  lemma {:induction false} SteadyRun(heating: bool, polls: seq<Poll>, t: real, low: real, high: real)
    requires low < high
    requires forall k :: 0 <= k < |polls| && polls[k].sensor(PrimarySensor).Ok? ==>
               polls[k].sensor(PrimarySensor).value == t
    ensures var r := Run(heating, polls, low, high);
            (r.switches == 0 && r.heating == heating) ||
            (r.switches == 1 && r.heating != heating && Settled(r.heating, t, low, high))
    decreases |polls|
  {
    if polls != [] {
      SteadyRun(heating, polls[..|polls| - 1], t, low, high);
    }
  }

  /** Hysteresis: with low < high, a steady reading switches the mode at most
      once, however many cycles run and whatever the service answers. */
  lemma SteadyReadingSwitchesAtMostOnce(heating: bool, polls: seq<Poll>, t: real, low: real, high: real)
    requires low < high
    requires forall k :: 0 <= k < |polls| && polls[k].sensor(PrimarySensor).Ok? ==>
               polls[k].sensor(PrimarySensor).value == t
    ensures Run(heating, polls, low, high).switches <= 1
  {
    SteadyRun(heating, polls, t, low, high);
  }

  /** Without a band (low == high), a reading equal to the thresholds switches
      the mode on every fully successful cycle. */
  lemma {:induction false} NoBandChatters(heating: bool, polls: seq<Poll>, t: real)
    requires forall k :: 0 <= k < |polls| ==>
               FetchesSucceed(polls[k]) && polls[k].sensor(PrimarySensor).value == t &&
               forall c :: polls[k].accepts(c)
    ensures Run(heating, polls, t, t).switches == |polls|
    decreases |polls|
  {
    if polls != [] {
      NoBandChatters(heating, polls[..|polls| - 1], t);
    }
  }

  /** A cycle whose fetches fail adds its error to the log and changes nothing
      else: the next cycle starts from the same mode and fetches again. */
  lemma FailedCycleIsInert(heating: bool, polls: seq<Poll>, p: Poll, low: real, high: real)
    requires !FetchesSucceed(p)
    ensures var before := Run(heating, polls, low, high);
            var after := Run(heating, polls + [p], low, high);
            after.issued == before.issued && after.heating == before.heating &&
            after.switches == before.switches &&
            after.errors == before.errors + [Cycle(before.heating, p, low, high).error.value]
  {
  }

  // ---------------------------------------------------------------------------
  // The program's thresholds (18.0 and 19.0) on the four boundary scenarios

  function Answering(t: real): Poll {
    Poll(id => Ok(t), Ok(()), Ok(()), Ok(()), c => true)
  }

  lemma Scenarios()
    ensures Cycle(true, Answering(17.5), 18.0, 19.0)
         == Outcome([SetHeater(1, 5), SetHeater(2, 5), SetHeater(3, 5)], true, None)
    ensures Cycle(true, Answering(19.0), 18.0, 19.0)
         == Outcome([SetHeater(1, 0), SetHeater(2, 0), SetHeater(3, 0)], false, None)
    ensures Cycle(false, Answering(18.5), 18.0, 19.0)
         == Outcome([SetFan(1, true), SetFan(2, true), SetFan(3, true)], false, None)
    ensures Cycle(false, Answering(18.0), 18.0, 19.0)
         == Outcome([SetFan(1, false), SetFan(2, false), SetFan(3, false)], true, None)
  {
  }
}
