/** The common part of every device (device.py): the list of pending
    interrupt delays that ScheduleInterrupt appends to and
    CheckScheduledInterrupt counts down, the default Tick that only records
    the clock, and the default of zero bus wait states.

    The delay list is a FIFO of signed cycle counts; only its head counts
    down.  The keyboard reuses the two list functions for its own list. */
module Device {

  /** ScheduleInterrupt: the delay joins the end of the list. */
  function Scheduled(q: seq<int>, delay: int): (r: seq<int>)
    ensures |r| == |q| + 1 && r[|q|] == delay
    ensures forall i :: 0 <= i < |q| ==> r[i] == q[i]
  {
    q + [delay]
  }

  /** CheckScheduledInterrupt: the head alone counts down by `cycles`; once it
      reaches zero or below it leaves the list and the answer is true. */
  function CheckScheduled(q: seq<int>, cycles: int): (r: (seq<int>, bool))
    ensures |q| == 0 ==> r == (q, false)
    ensures |q| > 0 ==> (r.1 <==> q[0] <= cycles)
    ensures |q| > 0 && r.1 ==> r.0 == q[1..]
    ensures |q| > 0 && !r.1 ==> |r.0| == |q| && r.0[0] == q[0] - cycles && r.0[1..] == q[1..]
  {
    if |q| == 0 then (q, false)
    else if q[0] - cycles <= 0 then (q[1..], true)
    else ([q[0] - cycles] + q[1..], false)
  }

  /** `n` successive checks of `cycles` each: the list left and how many fired. */
  function CheckRepeated(q: seq<int>, cycles: int, n: nat): (r: (seq<int>, nat))
    ensures r.1 <= n
    decreases n
  {
    if n == 0 then (q, 0)
    else
      var c := CheckScheduled(q, cycles);
      var rest := CheckRepeated(c.0, cycles, n - 1);
      (rest.0, rest.1 + (if c.1 then 1 else 0))
  }

  /** Scheduling behind a non-empty list does not disturb the head: a check
      answers the same, and the new delay stays at the end. */
  lemma ScheduleKeepsHead(q: seq<int>, delay: int, cycles: int)
    requires |q| > 0
    ensures CheckScheduled(Scheduled(q, delay), cycles).1 == CheckScheduled(q, cycles).1
    ensures CheckScheduled(Scheduled(q, delay), cycles).0 == Scheduled(CheckScheduled(q, cycles).0, delay)
  {
    var s := Scheduled(q, delay);
    assert s[1..] == q[1..] + [delay];
  }

  /** A single pending delay d checked every `cycles` > 0 cycles fires on the
      k-th check, where k is the first count with k * cycles >= d, and the
      checks before it do not fire. */
  lemma {:induction false} DelayFiresOnTime(d: int, cycles: int, k: nat, rest: seq<int>)
    requires cycles > 0 && k >= 1
    requires (k - 1) * cycles < d <= k * cycles
    ensures CheckRepeated([d] + rest, cycles, k - 1) == ([d - (k - 1) * cycles] + rest, 0)
    ensures CheckScheduled([d - (k - 1) * cycles] + rest, cycles) == (rest, true)
    decreases k
  {
    var q := [d] + rest;
    assert q[1..] == rest;
    if k > 1 {
      assert (k - 2) * cycles == (k - 1) * cycles - cycles;
      assert (k - 1) * cycles == k * cycles - cycles;
      DelayFiresOnTime(d - cycles, cycles, k - 1, rest);
      assert CheckScheduled(q, cycles) == ([d - cycles] + rest, false);
      assert d - cycles - (k - 2) * cycles == d - (k - 1) * cycles;
    } else {
      assert (k - 1) * cycles == 0;
      assert ([d - (k - 1) * cycles] + rest)[1..] == rest;
    }
  }

  /** The state every device inherits from the base class. */
  class DeviceBase {
    var nextInterrupt: seq<int>
    var clock: int

    constructor ()
      ensures nextInterrupt == [] && clock == 0
    {
      nextInterrupt := [];
      clock := 0;
    }

    method ScheduleInterrupt(delay: int)
      modifies this
      ensures nextInterrupt == Scheduled(old(nextInterrupt), delay)
      ensures clock == old(clock)
    {
      nextInterrupt := nextInterrupt + [delay];
    }

    method CheckScheduledInterrupt(cycles: int) returns (fired: bool)
      modifies this
      ensures (nextInterrupt, fired) == CheckScheduled(old(nextInterrupt), cycles)
      ensures clock == old(clock)
    {
      fired := false;
      if |nextInterrupt| > 0 {
        nextInterrupt := nextInterrupt[0 := nextInterrupt[0] - cycles];
        assert nextInterrupt == [nextInterrupt[0]] + old(nextInterrupt)[1..];
        if nextInterrupt[0] <= 0 {
          nextInterrupt := nextInterrupt[1..];
          fired := true;
        }
      }
    }

    /** The default Tick: records the clock and never raises an interrupt. */
    method Tick(cycles: int, clk: int) returns (r: bool)
      modifies this
      ensures clock == clk && !r
      ensures nextInterrupt == old(nextInterrupt)
    {
      clock := clk;
      r := false;
    }

    /** The default number of bus wait states. */
    function GetWaitStateCycles(): (r: int)
      ensures r == 0
    {
      0
    }
  }
}
