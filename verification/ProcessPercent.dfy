/** CPU percent of one process since its last call. float64 is modelled by real numbers. */
module ProcessPercent {
  import opened Text

  datatype Cpu = Cpu(user: real, system: real)

  /** What the process remembers: its CPU times and when they were read. */
  datatype Reading = Reading(cpu: Cpu, time: real)

  function Used(a: Cpu, b: Cpu): real {
    (b.user - a.user) + (b.system - a.system)
  }

  function CalculatePercent(t1: Cpu, t2: Cpu, delta: real, numcpu: nat): real {
    if delta == 0.0 then 0.0
    else if Used(t1, t2) <= 0.0 then 0.0
    else Used(t1, t2) / delta * 100.0 * numcpu as real
  }

  /* ---- the method ---- */

  /** Answers of the system during one call: the first reading, the sleep, and the second reading. */
  datatype Call = Call(first: Option<Reading>, interval: bool, slept: bool, second: Option<Reading>, numcpu: nat)

  datatype Answer = Percent(value: real) | Failed

  datatype After = After(last: Option<Reading>, answer: Answer)

  function PercentBetween(a: Reading, b: Reading, numcpu: nat): real {
    CalculatePercent(a.cpu, b.cpu, (b.time - a.time) * numcpu as real, numcpu)
  }

  function Step(last: Option<Reading>, c: Call): After {
    if c.first.None? then After(last, Failed)
    else if c.interval then
      if !c.slept || c.second.None? then After(c.first, Failed)
      else After(c.second, Percent(PercentBetween(c.first.value, c.second.value, c.numcpu)))
    else if last.None? then After(c.first, Percent(0.0))
    else After(c.first, Percent(PercentBetween(last.value, c.first.value, c.numcpu)))
  }

  class Process {
    var lastCPUTimes: Option<Cpu>
    var lastCPUTime: real

    ghost function Last(): Option<Reading>
      reads this
    {
      if lastCPUTimes.None? then None else Some(Reading(lastCPUTimes.value, lastCPUTime))
    }

    constructor ()
      ensures Last() == None
    {
      lastCPUTimes, lastCPUTime := None, 0.0;
    }

    method PercentWithContext(c: Call) returns (answer: Answer)
      modifies this
      ensures After(Last(), answer) == Step(old(Last()), c)
    {
      if c.first.None? {
        return Failed;
      }
      var cpuTimes, now := c.first.value.cpu, c.first.value.time;
      if c.interval {
        lastCPUTimes, lastCPUTime := Some(cpuTimes), now;
        if !c.slept {
          return Failed;
        }
        if c.second.None? {
          return Failed;
        }
        cpuTimes, now := c.second.value.cpu, c.second.value.time;
      } else if lastCPUTimes.None? {
        lastCPUTimes, lastCPUTime := Some(cpuTimes), now;
        return Percent(0.0);
      }
      var delta := (now - lastCPUTime) * c.numcpu as real;
      var ret := CalculatePercent(lastCPUTimes.value, cpuTimes, delta, c.numcpu);
      assert ret == PercentBetween(Last().value, Reading(cpuTimes, now), c.numcpu);
      lastCPUTimes, lastCPUTime := Some(cpuTimes), now;
      return Percent(ret);
    }
  }

  /* ---- one call, in readings ---- */

  /** CPU time of a reading: user and system together. */
  function CpuTime(c: Cpu): real {
    c.user + c.system
  }

  /** CPU time a window accounts for: a fall counts as none, and so does a window without wall time. */
  function Counted(a: Reading, b: Reading): real {
    if b.time == a.time || CpuTime(b.cpu) <= CpuTime(a.cpu) then 0.0 else CpuTime(b.cpu) - CpuTime(a.cpu)
  }

  /** The CPU count cancels out. */
  lemma PercentTimesElapsed(a: Reading, b: Reading, numcpu: nat)
    requires numcpu > 0
    ensures PercentBetween(a, b, numcpu) * (b.time - a.time) == 100.0 * Counted(a, b)
  {
    var e, n, u := b.time - a.time, numcpu as real, CpuTime(b.cpu) - CpuTime(a.cpu);
    assert Used(a.cpu, b.cpu) == u;
    if e != 0.0 && u > 0.0 {
      var d := e * n;
      assert d != 0.0;
      var q := u / d;
      assert q * d == u;
      calc {
        q * 100.0 * n * e;
        100.0 * (q * (e * n));
        100.0 * u;
      }
    }
  }

  /**
   * A call with an interval measures between its own two readings, whatever was remembered, and leaves
   * the second one remembered; if it fails behind the first reading, that one.
   */
  lemma IntervalCall(last: Option<Reading>, c: Call)
    requires c.interval && c.numcpu > 0
    ensures var after := Step(last, c);
            if c.first.None? then after == After(last, Failed)
            else if !c.slept || c.second.None? then after == After(c.first, Failed)
            else
              && after.last == c.second && after.answer.Percent?
              && after.answer.value * (c.second.value.time - c.first.value.time) == 100.0 * Counted(c.first.value, c.second.value)
  {
    hide PercentBetween, Counted;
    if c.first.Some? && c.second.Some? {
      PercentTimesElapsed(c.first.value, c.second.value, c.numcpu);
    }
  }

  /** A call without one measures from the remembered reading to its own, which it leaves remembered. */
  lemma ZeroIntervalCall(last: Option<Reading>, c: Call)
    requires !c.interval && c.numcpu > 0
    ensures var after := Step(last, c);
            if c.first.None? then after == After(last, Failed)
            else if last.None? then after == After(c.first, Percent(0.0))
            else
              && after.last == c.first && after.answer.Percent?
              && after.answer.value * (c.first.value.time - last.value.time) == 100.0 * Counted(last.value, c.first.value)
  {
    hide PercentBetween, Counted;
    if c.first.Some? && last.Some? {
      PercentTimesElapsed(last.value, c.first.value, c.numcpu);
    }
  }

  /* ---- runs that mix both kinds of call, failed ones included ---- */

  predicate OnSomeCpu(calls: seq<Call>) {
    forall i :: 0 <= i < |calls| ==> calls[i].numcpu > 0
  }

  function Run(calls: seq<Call>): Option<Reading> {
    if calls == [] then None else Step(Run(calls[..|calls| - 1]), calls[|calls| - 1]).last
  }

  /** A reading that succeeded, and whether it opens an interval, so that no answer ends with it. */
  datatype Mark = Mark(reading: Reading, opens: bool)

  function MarksOf(c: Call): seq<Mark> {
    if c.first.None? then []
    else if !c.interval then [Mark(c.first.value, false)]
    else if !c.slept || c.second.None? then [Mark(c.first.value, true)]
    else [Mark(c.first.value, true), Mark(c.second.value, false)]
  }

  /** All readings of a run, in order. */
  function Marks(calls: seq<Call>): seq<Mark> {
    if calls == [] then [] else Marks(calls[..|calls| - 1]) + MarksOf(calls[|calls| - 1])
  }

  function LastOf(ms: seq<Mark>): Option<Reading> {
    if ms == [] then None else Some(ms[|ms| - 1].reading)
  }

  /** The wall time an answer stands for: the call's own interval, or since the last reading. */
  function Span(before: seq<Call>, c: Call): real {
    if c.interval then (if c.first.Some? && c.second.Some? then c.second.value.time - c.first.value.time else 0.0)
    else if c.first.Some? && LastOf(Marks(before)).Some? then c.first.value.time - LastOf(Marks(before)).value.time
    else 0.0
  }

  /** The percent a call returns after others, times the wall time it stands for. */
  function CallWeight(before: seq<Call>, c: Call): real {
    var a := Step(Run(before), c).answer;
    if a.Percent? then a.value * Span(before, c) else 0.0
  }

  function Weighted(calls: seq<Call>): real {
    if calls == [] then 0.0
    else var n := |calls| - 1; Weighted(calls[..n]) + CallWeight(calls[..n], calls[n])
  }

  /** The counted CPU time from each reading to the next, except up to one that opens an interval. */
  function CountedOver(ms: seq<Mark>): real {
    if |ms| <= 1 then 0.0
    else
      var n := |ms| - 1;
      CountedOver(ms[..n]) + if ms[n].opens then 0.0 else Counted(ms[n - 1].reading, ms[n].reading)
  }

  /** What is remembered is the last reading that succeeded, of whichever kind of call. */
  lemma {:induction false} RunRemembersLast(calls: seq<Call>)
    ensures Run(calls) == LastOf(Marks(calls))
  {
    if calls != [] {
      RunRemembersLast(calls[..|calls| - 1]);
    }
  }

  lemma OneMoreMark(ms: seq<Mark>, m: Mark)
    ensures CountedOver(ms + [m]) ==
              CountedOver(ms) + if ms == [] || m.opens then 0.0 else Counted(ms[|ms| - 1].reading, m.reading)
  {
    assert (ms + [m])[..|ms|] == ms;
  }

  lemma OneMoreCall(ms: seq<Mark>, c: Call)
    ensures CountedOver(ms + MarksOf(c)) == CountedOver(ms) +
              if c.first.None? then 0.0
              else if c.interval then (if !c.slept || c.second.None? then 0.0 else Counted(c.first.value, c.second.value))
              else if ms == [] then 0.0
              else Counted(ms[|ms| - 1].reading, c.first.value)
  {
    hide Counted, CountedOver;
    if c.first.None? {
      assert ms + MarksOf(c) == ms;
    } else {
      var m := Mark(c.first.value, c.interval);
      OneMoreMark(ms, m);
      if c.interval && c.slept && c.second.Some? {
        var n := Mark(c.second.value, false);
        OneMoreMark(ms + [m], n);
        assert ms + MarksOf(c) == ms + [m] + [n];
      }
    }
  }

  lemma OneCall(before: seq<Call>, c: Call)
    requires c.numcpu > 0
    ensures 100.0 * (CountedOver(Marks(before) + MarksOf(c)) - CountedOver(Marks(before))) == CallWeight(before, c)
  {
    hide Counted, CountedOver, Step, MarksOf;
    RunRemembersLast(before);
    OneMoreCall(Marks(before), c);
    if c.interval {
      IntervalCall(Run(before), c);
    } else {
      ZeroIntervalCall(Run(before), c);
    }
  }

  /** For any clock, counters and failures a run of any calls accounts for exactly the counted CPU time. */
  lemma {:induction false} RunAccounts(calls: seq<Call>)
    requires OnSomeCpu(calls)
    ensures Weighted(calls) == 100.0 * CountedOver(Marks(calls))
  {
    if calls != [] {
      hide CallWeight, CountedOver;
      var n := |calls| - 1;
      RunAccounts(calls[..n]);
      OneCall(calls[..n], calls[n]);
    }
  }

  /* ---- when nothing is lost ---- */

  predicate NeverFalls(ms: seq<Mark>) {
    forall i :: 0 < i < |ms| ==> CpuTime(ms[i - 1].reading.cpu) <= CpuTime(ms[i].reading.cpu)
  }

  /** CPU time used up to reading `i` from the one before. */
  function UsedAt(ms: seq<Mark>, i: nat): real
    requires 0 < i < |ms|
  {
    CpuTime(ms[i].reading.cpu) - CpuTime(ms[i - 1].reading.cpu)
  }

  /** Two successive readings of which an answer tells show the same clock value although CPU time was used. */
  predicate LosesAt(ms: seq<Mark>, i: nat) {
    0 < i < |ms| && !ms[i].opens && ms[i - 1].reading.time == ms[i].reading.time && UsedAt(ms, i) > 0.0
  }

  ghost predicate LosesTime(ms: seq<Mark>) {
    exists i: nat :: LosesAt(ms, i)
  }

  /** CPU time used in the windows of which an answer tells. */
  function UsedOver(ms: seq<Mark>): real {
    if |ms| <= 1 then 0.0
    else var n := |ms| - 1; UsedOver(ms[..n]) + if ms[n].opens then 0.0 else UsedAt(ms, n)
  }

  lemma LosesTimeStep(ms: seq<Mark>)
    requires |ms| > 1
    ensures LosesTime(ms) <==> LosesTime(ms[..|ms| - 1]) || LosesAt(ms, |ms| - 1)
  {
    var n := |ms| - 1;
    forall i: nat | i < n ensures LosesAt(ms[..n], i) <==> LosesAt(ms, i) {
    }
    if LosesTime(ms[..n]) {
      var i: nat :| LosesAt(ms[..n], i);
      assert LosesAt(ms, i);
    }
    if LosesTime(ms) {
      var i: nat :| LosesAt(ms, i);
      assert i < n ==> LosesAt(ms[..n], i);
    }
  }

  lemma {:induction false} CountedAtMostUsed(ms: seq<Mark>)
    requires NeverFalls(ms)
    ensures CountedOver(ms) <= UsedOver(ms)
    ensures CountedOver(ms) == UsedOver(ms) <==> !LosesTime(ms)
  {
    if |ms| > 1 {
      hide LosesTime;
      CountedAtMostUsed(ms[..|ms| - 1]);
      LosesTimeStep(ms);
      assert UsedAt(ms, |ms| - 1) >= 0.0;
    } else {
      assert !LosesTime(ms);
    }
  }

  /**
   * When the CPU counters never fall, a run reports all CPU time used in its windows, whatever the CPU
   * counts and whichever calls fail, exactly when no such time fell between two equal clock readings.
   */
  lemma UsageConserved(calls: seq<Call>)
    requires OnSomeCpu(calls) && NeverFalls(Marks(calls))
    ensures Weighted(calls) <= 100.0 * UsedOver(Marks(calls))
    ensures Weighted(calls) == 100.0 * UsedOver(Marks(calls)) <==> !LosesTime(Marks(calls))
  {
    RunAccounts(calls);
    CountedAtMostUsed(Marks(calls));
  }

  predicate ZeroIntervals(calls: seq<Call>) {
    forall i :: 0 <= i < |calls| ==> !calls[i].interval
  }

  lemma {:induction false} NoneOpens(calls: seq<Call>)
    requires ZeroIntervals(calls)
    ensures forall i :: 0 <= i < |Marks(calls)| ==> !Marks(calls)[i].opens
  {
    if calls != [] {
      NoneOpens(calls[..|calls| - 1]);
    }
  }

  lemma {:induction false} UsedFromFirstToLast(ms: seq<Mark>)
    requires ms != [] && forall i :: 0 <= i < |ms| ==> !ms[i].opens
    ensures UsedOver(ms) == CpuTime(ms[|ms| - 1].reading.cpu) - CpuTime(ms[0].reading.cpu)
  {
    if |ms| > 1 {
      UsedFromFirstToLast(ms[..|ms| - 1]);
    }
  }

  /** Without intervals and with a clock that always advances: all CPU time since the first reading is reported. */
  lemma UsageConservedByAdvancingClock(calls: seq<Call>)
    requires OnSomeCpu(calls) && ZeroIntervals(calls) && NeverFalls(Marks(calls))
    requires var ms := Marks(calls); forall i, j :: 0 <= i < j < |ms| ==> ms[i].reading.time < ms[j].reading.time
    ensures var ms := Marks(calls);
            Weighted(calls) == if ms == [] then 0.0 else 100.0 * (CpuTime(ms[|ms| - 1].reading.cpu) - CpuTime(ms[0].reading.cpu))
  {
    UsageConserved(calls);
    NoneOpens(calls);
    if Marks(calls) != [] {
      UsedFromFirstToLast(Marks(calls));
    }
  }

  /** Two calls at the same clock reading: CPU time was used in between, and none of it is reported. */
  lemma EqualClockLosesTime(at: real, cpu: Cpu, more: real)
    requires more > 0.0
    ensures var a, b := Reading(cpu, at), Reading(Cpu(cpu.user + more, cpu.system), at);
            var calls := [Call(Some(a), false, true, None, 1), Call(Some(b), false, true, None, 1)];
            Weighted(calls) == 0.0 && UsedOver(Marks(calls)) == more
  {
    var a, b := Reading(cpu, at), Reading(Cpu(cpu.user + more, cpu.system), at);
    var c, d := Call(Some(a), false, true, None, 1), Call(Some(b), false, true, None, 1);
    var p, q := Mark(a, false), Mark(b, false);
    assert [c, d][..1] == [c] && [c][..0] == [];
    assert Marks([c]) == [p] && Marks([c, d]) == [p, q];
    RunAccounts([c, d]);
    assert [p, q][..1] == [p];
    assert Counted(a, b) == 0.0 && CountedOver([p, q]) == 0.0;
    assert UsedAt([p, q], 1) == more;
  }
}
