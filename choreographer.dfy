/**
 * The Choreographer object: a cursor, a default step and a map from offsets
 * to the callbacks scheduled there. `add` and `pause` update the fields in
 * place; `perform` returns the timer requests it would hand to `setTimeout`.
 */
module Choreography {
  import opened Values
  import opened Schedule

  /** How a call to `add` ends: normally, or with the error it throws. */
  datatype Outcome = Done | Thrown(message: string)

  /** The message of the error `add` throws when given no function. */
  const NoFunctionMessage: string := "No function was provided to Choreographer.add()"

  class Choreographer<F> {
    /** The default step, in milliseconds. */
    var duration: int
    /** The cursor: the offset the next `add` schedules at. */
    var time: int
    /** Offsets to the callbacks scheduled there, in the order they were added. */
    var choreography: map<int, seq<F>>

    /** The fields as a value of the model in the Schedule module. */
    ghost function Snapshot(): State<F>
      reads this
    {
      State(duration, time, choreography)
    }

    /** `new Choreographer(duration)`: the default step is `duration || 300`. */
    constructor (d: Value<F>)
      requires ConstructorAccepts(d)
      ensures duration == (if d.Number? && d.n != 0 then d.n else DefaultDuration)
      ensures time == 0 && choreography == map[]
      ensures Snapshot() == Initial(d)
    {
      duration := ConstructorDuration(d);
      time := 0;
      choreography := map[];
    }

    /**
     * `add(fn, duration)`: throws, changing nothing, unless `fn` is a
     * function; otherwise appends `fn` to the bucket at the current cursor and
     * then advances the cursor by `duration` when that is a number (0
     * included) and by the default step otherwise.
     */
    method Add(fn: Value<F>, d: Value<F>) returns (r: Outcome)
      modifies this
      ensures duration == old(duration)
      ensures r.Thrown? <==> !fn.Function?
      ensures r.Thrown? ==> r.message == NoFunctionMessage
      ensures r.Thrown? ==> time == old(time) && choreography == old(choreography)
      ensures r.Done? ==> time == old(time) + (if d.Number? then d.n else duration)
      ensures r.Done? ==> choreography == Insert(old(choreography), old(time), fn.f)
      ensures Snapshot() == Step(old(Snapshot()), AddCall(fn, d))
    {
      if AddRejects(fn) {
        return Thrown(NoFunctionMessage);
      }
      if time in choreography {
        assert Bucket(choreography, time) == choreography[time];
        choreography := choreography[time := choreography[time] + [fn.f]];
      } else {
        assert Bucket(choreography, time) + [fn.f] == [fn.f];
        choreography := choreography[time := [fn.f]];
      }
      time := time + AddStep(duration, d);
      r := Done;
    }

    /**
     * `pause(duration)`: advances the cursor by `duration` when that is a
     * number other than 0 and by the default step otherwise; nothing is
     * scheduled.
     */
    method Pause(d: Value<F>)
      modifies this
      ensures duration == old(duration) && choreography == old(choreography)
      ensures time == old(time) + (if d.Number? && d.n != 0 then d.n else duration)
      ensures Snapshot() == Step(old(Snapshot()), PauseCall(d))
    {
      time := time + PauseStep(duration, d);
    }

    /**
     * `perform()`: one timer request per stored callback, with the callback's
     * offset as the delay. The buckets are visited in no particular order;
     * within a bucket the requests follow the bucket's order. Nothing changes,
     * so a second call issues the same requests at every offset again, though
     * possibly with the buckets in another order.
     */
    method Perform() returns (requests: seq<Request<F>>)
      ensures forall k :: FnsAt(requests, k) == Bucket(choreography, k)
      ensures forall i :: 0 <= i < |requests| ==> requests[i].delay in choreography
      ensures |requests| == Count(choreography)
    {
      requests := [];
      var remaining := choreography.Keys;
      assert choreography - remaining == map[];
      while remaining != {}
        invariant IssuedExcept(choreography, remaining, requests)
        decreases remaining
      {
        NonEmptyHasElement(remaining);
        var offset :| offset in remaining;
        var taskList := choreography[offset];
        ghost var before := requests;
        for j := 0 to |taskList|
          invariant requests == before + Issue(offset, taskList[..j])
        {
          assert taskList[..j + 1][..j] == taskList[..j];
          requests := requests + [Request(offset, taskList[j])];
        }
        assert taskList[..|taskList|] == taskList;
        IssueNextBucket(choreography, remaining, before, offset);
        remaining := remaining - {offset};
      }
      assert choreography - {} == choreography;
    }
  }
}
