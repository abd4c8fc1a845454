/** The polling client's state and its loop body. `heating` is the one piece of
    state that survives from one iteration to the next; `sent` records every
    actuator request the client has issued, in order, including a request the
    service answered with a failure. */
module ControlLoop {
  import opened Service
  import opened Policy

  class Controller {
    const targetHigh: real
    const targetLow: real
    var heating: bool
    var sent: seq<Command>

    /** Thresholds 19.0 and 18.0, starting in heating mode. */
    constructor ()
      ensures targetHigh == 19.0 && targetLow == 18.0 && targetLow < targetHigh
      ensures heating && sent == []
    {
      targetHigh := 19.0;
      targetLow := 18.0;
      heating := true;
      sent := [];
    }

    /** POST one heater level; `ok` is whether the service accepted it. */
    method SetHeaterLevel(heaterId: int, level: int, accepts: Command -> bool) returns (ok: bool)
      modifies this`sent
      ensures sent == old(sent) + [SetHeater(heaterId, level)]
      ensures ok == accepts(SetHeater(heaterId, level))
    {
      sent := sent + [SetHeater(heaterId, level)];
      ok := accepts(SetHeater(heaterId, level));
    }

    /** POST one fan state; `ok` is whether the service accepted it. */
    method SetFanState(fanId: int, on: bool, accepts: Command -> bool) returns (ok: bool)
      modifies this`sent
      ensures sent == old(sent) + [SetFan(fanId, on)]
      ensures ok == accepts(SetFan(fanId, on))
    {
      sent := sent + [SetFan(fanId, on)];
      ok := accepts(SetFan(fanId, on));
    }

    /** Heaters 1, 2, 3 in turn, stopping at the first rejection. */
    method SetAllHeaters(level: int, accepts: Command -> bool) returns (err: Option<Error>)
      modifies this`sent
      ensures sent == old(sent) + Issue(HeaterBatch(level), accepts).issued
      ensures err == Issue(HeaterBatch(level), accepts).error
    {
      ghost var batch := HeaterBatch(level);
      for i := 1 to ActuatorCount + 1
        invariant sent == old(sent) + batch[..i - 1]
        invariant forall j :: 0 <= j < i - 1 ==> accepts(batch[j])
      {
        var ok := SetHeaterLevel(i, level, accepts);
        if !ok {
          IssueStopsAt(batch, accepts, i - 1);
          return Some(Rejected(SetHeater(i, level)));
        }
      }
      IssueStopsAt(batch, accepts, |batch|);
      err := None;
    }

    /** Fans 1, 2, 3 in turn, stopping at the first rejection. */
    method SetAllFans(on: bool, accepts: Command -> bool) returns (err: Option<Error>)
      modifies this`sent
      ensures sent == old(sent) + Issue(FanBatch(on), accepts).issued
      ensures err == Issue(FanBatch(on), accepts).error
    {
      ghost var batch := FanBatch(on);
      for i := 1 to ActuatorCount + 1
        invariant sent == old(sent) + batch[..i - 1]
        invariant forall j :: 0 <= j < i - 1 ==> accepts(batch[j])
      {
        var ok := SetFanState(i, on, accepts);
        if !ok {
          IssueStopsAt(batch, accepts, i - 1);
          return Some(Rejected(SetFan(i, on)));
        }
      }
      IssueStopsAt(batch, accepts, |batch|);
      err := None;
    }

    /** One iteration of the polling loop. An error ends the iteration where it
        happens and is returned as the message the loop logs; the mode is
        assigned only after a batch went through without error. */
    method Step(p: Poll) returns (err: Option<Error>)
      modifies this`heating, this`sent
      ensures var o := Cycle(old(heating), p, targetLow, targetHigh);
              sent == old(sent) + o.issued && heating == o.heating && err == o.error
    {
      var reading := p.sensor(PrimarySensor);
      if reading == Fail {
        return Some(TemperatureUnavailable(PrimarySensor));
      }
      var currentTemperature := reading.value;
      if p.systemState == Fail {
        return Some(SystemStateUnavailable);
      }
      if p.sensorConfigs == Fail {
        return Some(SensorConfigsUnavailable);
      }
      if p.fanConfigs == Fail {
        return Some(FanConfigsUnavailable);
      }
      if heating {
        if currentTemperature < targetHigh {
          err := SetAllHeaters(MaxLevel, p.accepts);
        } else {
          err := SetAllHeaters(0, p.accepts);
          if err != None {
            return;
          }
          heating := false;
        }
      } else {
        if currentTemperature > targetLow {
          err := SetAllFans(true, p.accepts);
        } else {
          err := SetAllFans(false, p.accepts);
          if err != None {
            return;
          }
          heating := true;
        }
      }
    }

    /** A finite prefix of the endless polling loop; `errors` are the messages
        logged by its catch block. */
    method Loop(polls: seq<Poll>) returns (errors: seq<Error>)
      modifies this`heating, this`sent
      ensures var r := Run(old(heating), polls, targetLow, targetHigh);
              sent == old(sent) + r.issued && heating == r.heating && errors == r.errors
    {
      ghost var start := heating;
      errors := [];
      for i := 0 to |polls|
        invariant sent == old(sent) + Run(start, polls[..i], targetLow, targetHigh).issued
        invariant heating == Run(start, polls[..i], targetLow, targetHigh).heating
        invariant errors == Run(start, polls[..i], targetLow, targetHigh).errors
      {
        ghost var before := Run(start, polls[..i], targetLow, targetHigh);
        ghost var o := Cycle(before.heating, polls[i], targetLow, targetHigh);
        RunOneMore(start, polls, i, targetLow, targetHigh);
        ghost var mid := sent;
        var err := Step(polls[i]);
        errors := errors + ErrorLog(err);
        assert sent == mid + o.issued;
        assert mid == old(sent) + before.issued;
        SeqAssoc(old(sent), before.issued, o.issued);
      }
      assert polls[..|polls|] == polls;
    }
  }

  /** Concatenation is associative (stated once, to keep the loop proof cheap). */
  lemma SeqAssoc<T>(a: seq<T>, b: seq<T>, c: seq<T>)
    ensures (a + b) + c == a + (b + c)
  {
  }
}
