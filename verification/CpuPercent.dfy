/**
 * CPU percentages since the last call. Callers sample the counters outside the lock and exchange
 * the sample for the stored one inside it, so exchanges of several callers interleave freely.
 * float64 is modelled by real numbers.
 */
module CpuPercent {
  import opened Text

  datatype Times = Times(user: real, system: real, idle: real, nice: real, iowait: real, irq: real,
                         softirq: real, steal: real, guest: real, guestNice: real)

  /** One reading: a single total, or one per CPU. */
  type Sample = seq<Times>

  /* ---- the percentage of one window ---- */

  function Total(t: Times): real {
    t.user + t.system + t.idle + t.nice + t.iowait + t.irq + t.softirq + t.steal + t.guest + t.guestNice
  }

  /** On Linux guest time is already contained in user time. */
  function All(t: Times, linux: bool): real {
    if linux then Total(t) - t.guest - t.guestNice else Total(t)
  }

  function Busy(t: Times, linux: bool): real {
    All(t, linux) - t.idle - t.iowait
  }

  function Min(a: real, b: real): real { if a < b then a else b }

  function Max(a: real, b: real): real { if a < b then b else a }

  function CalculateBusy(t1: Times, t2: Times, linux: bool): (r: real)
    ensures 0.0 <= r <= 100.0
  {
    if Busy(t2, linux) <= Busy(t1, linux) then 0.0
    else if All(t2, linux) <= All(t1, linux) then 100.0
    else Min(100.0, Max(0.0, (Busy(t2, linux) - Busy(t1, linux)) / (All(t2, linux) - All(t1, linux)) * 100.0))
  }

  datatype Answer = Values(percents: seq<real>) | NoLastSample | CountMismatch | TimesFailed

  function Report(last: Option<Sample>, now: Sample, linux: bool): (a: Answer)
    ensures a.Values? ==> |a.percents| == |now| && forall i :: 0 <= i < |now| ==> 0.0 <= a.percents[i] <= 100.0
  {
    if last.None? then NoLastSample
    else if |last.value| != |now| then CountMismatch
    else Values(seq(|now|, i requires 0 <= i < |now| => CalculateBusy(last.value[i], now[i], linux)))
  }

  method CalculateAllBusy(t1: Sample, t2: Sample, linux: bool) returns (a: Answer)
    ensures a == Report(Some(t1), t2, linux)
  {
    if |t1| != |t2| {
      return CountMismatch;
    }
    var ret := new real[|t2|];
    for i := 0 to |t2|
      invariant forall k :: 0 <= k < i ==> ret[k] == CalculateBusy(t1[k], t2[k], linux)
    {
      ret[i] := CalculateBusy(t1[i], t2[i], linux);
    }
    a := Values(ret[..]);
  }

  /* ---- interleaved callers ---- */

  /** A caller takes a sample (or fails to), and later exchanges it. */
  datatype Event =
    | Sampled(caller: nat, percpu: bool, sample: Sample)
    | SampleFailed(caller: nat)
    | Exchanged(caller: nat)

  datatype Pending = Pending(percpu: bool, sample: Sample, at: nat)

  /** An exchange: what was stored before it, what it stored, when its sample was taken, what was answered. */
  datatype Window = Window(percpu: bool, before: Option<Sample>, after: Sample, at: nat, answer: Answer)

  datatype System = System(linux: bool, total: Option<Sample>, perCpu: Option<Sample>, pending: map<nat, Pending>,
                           windows: seq<Window>)

  function Stored(s: System, percpu: bool): Option<Sample> {
    if percpu then s.perCpu else s.total
  }

  function Step(s: System, e: Event, at: nat): System {
    match e
    case Sampled(c, percpu, sample) => s.(pending := s.pending[c := Pending(percpu, sample, at)])
    case SampleFailed(c) => s.(pending := s.pending - {c})
    case Exchanged(c) =>
      if c !in s.pending then s
      else
        var p := s.pending[c];
        var last := Stored(s, p.percpu);
        System(s.linux, if p.percpu then s.total else Some(p.sample), if p.percpu then Some(p.sample) else s.perCpu,
               s.pending - {c}, s.windows + [Window(p.percpu, last, p.sample, p.at, Report(last, p.sample, s.linux))])
  }

  function Run(init: System, events: seq<Event>): System {
    if events == [] then init
    else var n := |events| - 1; Step(Run(init, events[..n]), events[n], n)
  }

  /** The caller has taken this sample and not yet exchanged it. */
  predicate Holds(s: System, caller: nat, percpu: bool, sample: Sample) {
    caller in s.pending && s.pending[caller].percpu == percpu && s.pending[caller].sample == sample
  }

  predicate Initial(s: System) { s.pending == map[] && s.windows == [] }

  lemma RunStep(init: System, events: seq<Event>, e: Event)
    ensures Run(init, events + [e]) == Step(Run(init, events), e, |events|)
  {
    assert (events + [e])[..|events|] == events;
  }

  /**
   * The stored samples. A call samples outside the lock and exchanges inside it; the events are
   * those of all callers so far, and any of them may come between the two halves of a call.
   */
  class LastPercent {
    const linux: bool
    var lastCPUTimes: Option<Sample>
    var lastPerCPUTimes: Option<Sample>
    ghost const init: System
    ghost var events: seq<Event>

    /** The fields are those of the run of all events. */
    ghost predicate Valid()
      reads this
    {
      && Initial(init) && Run(init, events).linux == linux
      && Run(init, events).total == lastCPUTimes && Run(init, events).perCpu == lastPerCPUTimes
    }

    constructor (linux: bool, total: Option<Sample>, perCpu: Option<Sample>)
      ensures Valid() && events == [] && init == System(linux, total, perCpu, map[], [])
    {
      this.linux, lastCPUTimes, lastPerCPUTimes := linux, total, perCpu;
      init, events := System(linux, total, perCpu, map[], []), [];
    }

    /** The half of a call outside the lock: the counters are read, or that fails. */
    method SampleTimes(ghost caller: nat, ghost percpu: bool, times: Option<Sample>) returns (cpuTimes: Option<Sample>)
      requires Valid()
      modifies this`events
      ensures Valid() && cpuTimes == times
      ensures events == old(events) + [if times.None? then SampleFailed(caller) else Sampled(caller, percpu, times.value)]
      ensures times.Some? ==> Holds(Run(init, events), caller, percpu, times.value)
    {
      ghost var e := if times.None? then SampleFailed(caller) else Sampled(caller, percpu, times.value);
      RunStep(init, events, e);
      events := events + [e];
      cpuTimes := times;
    }

    /** The half under the lock: exactly the exchange step, and its answer. */
    method ExchangeTimes(ghost caller: nat, percpu: bool, cpuTimes: Sample) returns (a: Answer)
      requires Valid() && Holds(Run(init, events), caller, percpu, cpuTimes)
      modifies this
      ensures Valid() && events == old(events) + [Exchanged(caller)]
      ensures var before, after := Run(init, old(events)).windows, Run(init, events).windows;
              |after| == |before| + 1 && after[..|before|] == before && after[|before|].answer == a
      ensures percpu ==>
                && a == Report(old(lastPerCPUTimes), cpuTimes, linux)
                && lastPerCPUTimes == Some(cpuTimes) && lastCPUTimes == old(lastCPUTimes)
      ensures !percpu ==>
                && a == Report(old(lastCPUTimes), cpuTimes, linux)
                && lastCPUTimes == Some(cpuTimes) && lastPerCPUTimes == old(lastPerCPUTimes)
    {
      hide Run;
      RunStep(init, events, Exchanged(caller));
      events := events + [Exchanged(caller)];
      var lastTimes;
      if percpu {
        lastTimes := lastPerCPUTimes;
        lastPerCPUTimes := Some(cpuTimes);
      } else {
        lastTimes := lastCPUTimes;
        lastCPUTimes := Some(cpuTimes);
      }
      if lastTimes.None? {
        return NoLastSample;
      }
      a := CalculateAllBusy(lastTimes.value, cpuTimes, linux);
    }

    /** A call without other callers: the sample is kept whatever the answer, the other kind is untouched. */
    method PercentUsedFromLastCall(ghost caller: nat, percpu: bool, times: Option<Sample>) returns (a: Answer)
      requires Valid()
      modifies this
      ensures Valid()
      ensures times.None? ==> a == TimesFailed && lastCPUTimes == old(lastCPUTimes) && lastPerCPUTimes == old(lastPerCPUTimes)
      ensures times.Some? && percpu ==>
                && a == Report(old(lastPerCPUTimes), times.value, linux)
                && lastPerCPUTimes == times && lastCPUTimes == old(lastCPUTimes)
      ensures times.Some? && !percpu ==>
                && a == Report(old(lastCPUTimes), times.value, linux)
                && lastCPUTimes == times && lastPerCPUTimes == old(lastPerCPUTimes)
    {
      hide Report, Run, Holds;
      var cpuTimes := SampleTimes(caller, percpu, times);
      if cpuTimes.None? {
        return TimesFailed;
      }
      a := ExchangeTimes(caller, percpu, cpuTimes.value);
    }
  }

  /* ---- what every interleaving keeps ---- */

  /** What the last exchange of a kind stored. */
  function LastExchanged(init: Option<Sample>, ws: seq<Window>, percpu: bool): Option<Sample> {
    if ws == [] then init
    else
      var w := ws[|ws| - 1];
      if w.percpu == percpu then Some(w.after) else LastExchanged(init, ws[..|ws| - 1], percpu)
  }

  predicate IsSample(events: seq<Event>, at: nat, percpu: bool, sample: Sample) {
    at < |events| && events[at].Sampled? && events[at].percpu == percpu && events[at].sample == sample
  }

  /** A window starts where the previous exchange of its kind ended, holds a sample taken, and reports on both. */
  ghost predicate GoodWindow(init: System, events: seq<Event>, ws: seq<Window>, i: nat)
    requires i < |ws|
  {
    && ws[i].before == LastExchanged(Stored(init, ws[i].percpu), ws[..i], ws[i].percpu)
    && IsSample(events, ws[i].at, ws[i].percpu, ws[i].after)
    && ws[i].answer == Report(ws[i].before, ws[i].after, init.linux)
  }

  ghost predicate Inv(init: System, events: seq<Event>, s: System) {
    && s.linux == init.linux
    && (forall k :: Stored(s, k) == LastExchanged(Stored(init, k), s.windows, k))
    && (forall i :: 0 <= i < |s.windows| ==> GoodWindow(init, events, s.windows, i))
    && (forall c :: c in s.pending ==> IsSample(events, s.pending[c].at, s.pending[c].percpu, s.pending[c].sample))
  }

  lemma {:induction false} RunKeepsInv(init: System, events: seq<Event>)
    requires Initial(init)
    ensures Inv(init, events, Run(init, events))
  {
    if events != [] {
      var n := |events| - 1;
      var s := Run(init, events[..n]);
      RunKeepsInv(init, events[..n]);
      forall at: nat, k, x | IsSample(events[..n], at, k, x) ensures IsSample(events, at, k, x) {
      }
      forall i | 0 <= i < |s.windows| ensures GoodWindow(init, events, s.windows, i) {
        assert GoodWindow(init, events[..n], s.windows, i);
      }
      StepKeepsInv(init, events, s, n);
    }
  }

  lemma StepKeepsInv(init: System, events: seq<Event>, s: System, n: nat)
    requires n < |events| && Inv(init, events, s)
    ensures Inv(init, events, Step(s, events[n], n))
  {
    if events[n].Exchanged? && events[n].caller in s.pending {
      var s' := Step(s, events[n], n);
      var m := |s.windows|;
      assert s'.windows[..m] == s.windows;
      forall i | 0 <= i <= m ensures GoodWindow(init, events, s'.windows, i) {
        assert s'.windows[..i] == s.windows[..i];
        assert i < m ==> GoodWindow(init, events, s.windows, i);
      }
    }
  }

  /**
   * Under every interleaving each exchange, whatever it answered, starts at the sample the previous
   * exchange of its kind stored; it answers with an error exactly when there was none or the number
   * of CPUs changed, and otherwise with one value in [0,100] per CPU.
   */
  lemma WindowsChain(init: System, events: seq<Event>, i: nat)
    requires Initial(init) && i < |Run(init, events).windows|
    ensures var ws := Run(init, events).windows;
            && ws[i].before == LastExchanged(Stored(init, ws[i].percpu), ws[..i], ws[i].percpu)
            && IsSample(events, ws[i].at, ws[i].percpu, ws[i].after)
            && (ws[i].answer == NoLastSample <==> ws[i].before.None?)
            && (ws[i].answer == CountMismatch <==> ws[i].before.Some? && |ws[i].before.value| != |ws[i].after|)
            && (ws[i].answer.Values? <==> ws[i].before.Some? && |ws[i].before.value| == |ws[i].after|)
            && (ws[i].answer.Values? ==> |ws[i].answer.percents| == |ws[i].after|)
            && (ws[i].answer.Values? ==> forall p :: p in ws[i].answer.percents ==> 0.0 <= p <= 100.0)
  {
    RunKeepsInv(init, events);
    assert GoodWindow(init, events, Run(init, events).windows, i);
  }

  /* ---- conservation ---- */

  /** The time a CPU worked: neither idle nor waiting for I/O, guests apart only where they are counted apart. */
  function Working(t: Times, linux: bool): real {
    t.user + t.system + t.nice + t.irq + t.softirq + t.steal + if linux then 0.0 else t.guest + t.guestNice
  }

  /** All time: working, idle or waiting. */
  function Elapsed(t: Times, linux: bool): real {
    Working(t, linux) + t.idle + t.iowait
  }

  predicate AtMost(a: Times, b: Times) {
    && a.user <= b.user && a.system <= b.system && a.idle <= b.idle && a.nice <= b.nice && a.iowait <= b.iowait
    && a.irq <= b.irq && a.softirq <= b.softirq && a.steal <= b.steal && a.guest <= b.guest && a.guestNice <= b.guestNice
  }

  predicate SampleAtMost(a: Sample, b: Sample) {
    |a| == |b| && forall i :: 0 <= i < |a| ==> AtMost(a[i], b[i])
  }

  /** Counters of one kind never fall, from the first stored sample on, and the CPU count stays. */
  ghost predicate CountersNeverFall(first: Sample, events: seq<Event>, percpu: bool) {
    && (forall p: nat, a :: IsSample(events, p, percpu, a) ==> SampleAtMost(first, a))
    && (forall p: nat, q: nat, a, b ::
          p <= q && IsSample(events, p, percpu, a) && IsSample(events, q, percpu, b) ==> SampleAtMost(a, b))
  }

  /** Reported percent times total-time difference of one CPU in one window, if it is of the kind. */
  function WindowWeight(w: Window, percpu: bool, cpu: nat, linux: bool): real {
    if w.percpu == percpu && w.answer.Values? && cpu < |w.answer.percents|
       && w.before.Some? && cpu < |w.before.value| && cpu < |w.after|
    then w.answer.percents[cpu] * (Elapsed(w.after[cpu], linux) - Elapsed(w.before.value[cpu], linux))
    else 0.0
  }

  function Weighted(ws: seq<Window>, percpu: bool, cpu: nat, linux: bool): real {
    if ws == [] then 0.0
    else Weighted(ws[..|ws| - 1], percpu, cpu, linux) + WindowWeight(ws[|ws| - 1], percpu, cpu, linux)
  }

  /** The sample a window stores shows no less busy time than the one it replaces. */
  predicate StepsForward(w: Window, cpu: nat, linux: bool) {
    w.before.Some? && cpu < |w.before.value| && cpu < |w.after| ==>
      Working(w.before.value[cpu], linux) <= Working(w.after[cpu], linux)
  }

  predicate AllStepForward(ws: seq<Window>, percpu: bool, cpu: nat, linux: bool) {
    forall i :: 0 <= i < |ws| && ws[i].percpu == percpu ==> StepsForward(ws[i], cpu, linux)
  }

  lemma ScaleBack(b: real, a: real)
    requires a > 0.0
    ensures b / a * 100.0 * a == 100.0 * b
    ensures 0.0 <= b <= a ==> 0.0 <= b / a * 100.0 <= 100.0
  {
    assert b / a * a == b;
  }

  /**
   * What a percentage is, field by field and for any counters: none if working time has not grown, all
   * if total time has not or has grown by less, and otherwise their ratio.
   */
  lemma PercentInFields(t1: Times, t2: Times, linux: bool)
    ensures var work := (t2.user - t1.user) + (t2.system - t1.system) + (t2.nice - t1.nice) + (t2.irq - t1.irq)
                        + (t2.softirq - t1.softirq) + (t2.steal - t1.steal)
                        + if linux then 0.0 else (t2.guest - t1.guest) + (t2.guestNice - t1.guestNice);
            var time := work + (t2.idle - t1.idle) + (t2.iowait - t1.iowait);
            && (work <= 0.0 ==> CalculateBusy(t1, t2, linux) == 0.0)
            && (work > 0.0 && time < work ==> CalculateBusy(t1, t2, linux) == 100.0)
            && (0.0 < work <= time ==> CalculateBusy(t1, t2, linux) * time == 100.0 * work)
  {
    var work, time := Working(t2, linux) - Working(t1, linux), Elapsed(t2, linux) - Elapsed(t1, linux);
    CountedFields(t1, linux);
    CountedFields(t2, linux);
    if work > 0.0 && time > 0.0 {
      ScaleBack(work, time);
      if time < work {
        AboveAll(work, time);
      }
    }
  }

  lemma AboveAll(work: real, time: real)
    requires 0.0 < time < work
    ensures work / time * 100.0 >= 100.0
  {
    assert work / time * time == work;
  }

  /** Linux counts guest time as user time already; everything else off Linux counts as it stands. */
  lemma CountedFields(t: Times, linux: bool)
    ensures All(t, linux) == Elapsed(t, linux) && Busy(t, linux) == Working(t, linux)
  {
  }

  /** For counters that never fall, percent times elapsed time is 100 times working time. */
  lemma PercentTimesDelta(t1: Times, t2: Times, linux: bool)
    requires AtMost(t1, t2)
    ensures CalculateBusy(t1, t2, linux) * (Elapsed(t2, linux) - Elapsed(t1, linux)) == 100.0 * (Working(t2, linux) - Working(t1, linux))
  {
    hide CalculateBusy;
    PercentInFields(t1, t2, linux);
  }

  /** Two samples of a kind that stand in either order weigh the busy time gained, and nothing if it fell. */
  lemma ComparableWeight(t1: Times, t2: Times, linux: bool)
    requires AtMost(t1, t2) || AtMost(t2, t1)
    ensures CalculateBusy(t1, t2, linux) * (Elapsed(t2, linux) - Elapsed(t1, linux))
         == 100.0 * Max(0.0, Working(t2, linux) - Working(t1, linux))
  {
    hide CalculateBusy;
    if AtMost(t1, t2) {
      PercentTimesDelta(t1, t2, linux);
    } else {
      PercentInFields(t1, t2, linux);
    }
  }

  /** The windows of a kind hold samples taken, start where the previous one ended, and report on both. */
  ghost predicate Chained(first: Sample, events: seq<Event>, ws: seq<Window>, percpu: bool, linux: bool) {
    forall i :: 0 <= i < |ws| && ws[i].percpu == percpu ==>
      && IsSample(events, ws[i].at, percpu, ws[i].after)
      && ws[i].before == LastExchanged(Some(first), ws[..i], percpu)
      && ws[i].answer == Report(ws[i].before, ws[i].after, linux)
  }

  lemma ChainedPrefix(first: Sample, events: seq<Event>, ws: seq<Window>, percpu: bool, linux: bool)
    requires ws != [] && Chained(first, events, ws, percpu, linux)
    ensures Chained(first, events, ws[..|ws| - 1], percpu, linux)
  {
    var rest := ws[..|ws| - 1];
    forall i | 0 <= i < |rest| && rest[i].percpu == percpu
      ensures rest[i].before == LastExchanged(Some(first), rest[..i], percpu)
    {
      assert rest[..i] == ws[..i];
    }
  }

  /** The stored sample of a kind is the first one or a sample that was taken. */
  lemma {:induction false} LastIsTaken(first: Sample, events: seq<Event>, ws: seq<Window>, percpu: bool, linux: bool)
    requires Chained(first, events, ws, percpu, linux)
    ensures var l := LastExchanged(Some(first), ws, percpu);
            l.Some? && (l.value == first || exists p: nat :: IsSample(events, p, percpu, l.value))
  {
    if ws != [] && ws[|ws| - 1].percpu != percpu {
      ChainedPrefix(first, events, ws, percpu, linux);
      LastIsTaken(first, events, ws[..|ws| - 1], percpu, linux);
    }
  }

  /** Whatever was exchanged in between, a stored sample and a new one are comparable. */
  lemma Comparable(first: Sample, events: seq<Event>, percpu: bool, l: Sample, at: nat, x: Sample)
    requires CountersNeverFall(first, events, percpu) && IsSample(events, at, percpu, x)
    requires l == first || exists p: nat :: IsSample(events, p, percpu, l)
    ensures SampleAtMost(l, x) || SampleAtMost(x, l)
  {
    if l != first {
      var p: nat :| IsSample(events, p, percpu, l);
      assert p <= at || at <= p;
    }
  }

  lemma OneWindow(w: Window, l: Sample, percpu: bool, cpu: nat, linux: bool)
    requires w.percpu == percpu && w.before == Some(l) && w.answer == Report(Some(l), w.after, linux)
    requires (SampleAtMost(l, w.after) || SampleAtMost(w.after, l)) && cpu < |l|
    ensures WindowWeight(w, percpu, cpu, linux) == 100.0 * Max(0.0, Working(w.after[cpu], linux) - Working(l[cpu], linux))
  {
    ComparableWeight(l[cpu], w.after[cpu], linux);
  }

  lemma ForwardSoFar(ws: seq<Window>, percpu: bool, cpu: nat, linux: bool)
    requires ws != []
    ensures var n := |ws| - 1;
            AllStepForward(ws, percpu, cpu, linux) <==>
              AllStepForward(ws[..n], percpu, cpu, linux) && (ws[n].percpu == percpu ==> StepsForward(ws[n], cpu, linux))
  {
    var n := |ws| - 1;
    assert ws == ws[..n] + [ws[n]];
  }

  lemma LastWindow(first: Sample, events: seq<Event>, ws: seq<Window>, percpu: bool, cpu: nat, linux: bool)
    requires ws != [] && ws[|ws| - 1].percpu == percpu
    requires CountersNeverFall(first, events, percpu) && cpu < |first|
    requires Chained(first, events, ws, percpu, linux)
    ensures var w, l := ws[|ws| - 1], LastExchanged(Some(first), ws[..|ws| - 1], percpu);
            && l.Some? && |l.value| == |w.after| == |first|
            && WindowWeight(w, percpu, cpu, linux) == 100.0 * Max(0.0, Working(w.after[cpu], linux) - Working(l.value[cpu], linux))
            && (StepsForward(w, cpu, linux) <==> Working(l.value[cpu], linux) <= Working(w.after[cpu], linux))
  {
    hide Report, Working, WindowWeight, AtMost;
    var n := |ws| - 1;
    ChainedPrefix(first, events, ws, percpu, linux);
    LastIsTaken(first, events, ws[..n], percpu, linux);
    var l := LastExchanged(Some(first), ws[..n], percpu).value;
    Comparable(first, events, percpu, l, ws[n].at, ws[n].after);
    OneWindow(ws[n], l, percpu, cpu, linux);
  }

  lemma {:induction false} ChainConserves(first: Sample, events: seq<Event>, ws: seq<Window>, percpu: bool, cpu: nat, linux: bool)
    requires CountersNeverFall(first, events, percpu) && cpu < |first|
    requires Chained(first, events, ws, percpu, linux)
    ensures var l := LastExchanged(Some(first), ws, percpu);
            && l.Some? && |l.value| == |first|
            && Weighted(ws, percpu, cpu, linux) >= 100.0 * (Working(l.value[cpu], linux) - Working(first[cpu], linux))
            && (Weighted(ws, percpu, cpu, linux) == 100.0 * (Working(l.value[cpu], linux) - Working(first[cpu], linux))
                <==> AllStepForward(ws, percpu, cpu, linux))
    decreases |ws|
  {
    if ws != [] {
      var n := |ws| - 1;
      hide Report, Working, WindowWeight, CountersNeverFall, AllStepForward, Chained;
      ChainedPrefix(first, events, ws, percpu, linux);
      ChainConserves(first, events, ws[..n], percpu, cpu, linux);
      ForwardSoFar(ws, percpu, cpu, linux);
      if ws[n].percpu == percpu {
        LastWindow(first, events, ws, percpu, cpu, linux);
      }
    }
  }

  /**
   * Whatever the interleaving, with counters that never fall: percent times total time adds up to at
   * least 100 times the busy time of the run, and to exactly that if and only if no exchange stored a
   * sample with less busy time than the one it replaced.
   */
  lemma BusyTimeConserved(init: System, events: seq<Event>, percpu: bool, cpu: nat)
    requires Initial(init) && Stored(init, percpu).Some?
    requires CountersNeverFall(Stored(init, percpu).value, events, percpu) && cpu < |Stored(init, percpu).value|
    ensures var first, s, linux := Stored(init, percpu).value, Run(init, events), init.linux;
            && Stored(s, percpu).Some? && |Stored(s, percpu).value| == |first|
            && var used := Working(Stored(s, percpu).value[cpu], linux) - Working(first[cpu], linux);
               && Weighted(s.windows, percpu, cpu, linux) >= 100.0 * used
               && (Weighted(s.windows, percpu, cpu, linux) == 100.0 * used <==> AllStepForward(s.windows, percpu, cpu, linux))
  {
    RunIsChained(init, events, percpu);
    ChainConserves(Stored(init, percpu).value, events, Run(init, events).windows, percpu, cpu, init.linux);
  }

  lemma RunIsChained(init: System, events: seq<Event>, percpu: bool)
    requires Initial(init) && Stored(init, percpu).Some?
    ensures Chained(Stored(init, percpu).value, events, Run(init, events).windows, percpu, init.linux)
    ensures Stored(Run(init, events), percpu) == LastExchanged(Stored(init, percpu), Run(init, events).windows, percpu)
  {
    RunKeepsInv(init, events);
    var ws := Run(init, events).windows;
    forall i | 0 <= i < |ws| && ws[i].percpu == percpu
      ensures && IsSample(events, ws[i].at, percpu, ws[i].after)
              && ws[i].before == LastExchanged(Stored(init, percpu), ws[..i], percpu)
              && ws[i].answer == Report(ws[i].before, ws[i].after, init.linux)
    {
      assert GoodWindow(init, events, ws, i);
    }
  }

  /** Samples of the kind are exchanged in the order in which they were taken. */
  predicate InOrder(ws: seq<Window>, percpu: bool) {
    forall i, j :: 0 <= i < j < |ws| && ws[i].percpu == percpu && ws[j].percpu == percpu ==> ws[i].at <= ws[j].at
  }

  /** What is stored was taken no later than any exchange still to come took its sample. */
  lemma {:induction false} LastExchangedAtMost(first: Sample, events: seq<Event>, ws: seq<Window>, percpu: bool, linux: bool,
                                               at: nat, x: Sample)
    requires CountersNeverFall(first, events, percpu) && IsSample(events, at, percpu, x)
    requires Chained(first, events, ws, percpu, linux)
    requires forall i :: 0 <= i < |ws| && ws[i].percpu == percpu ==> ws[i].at <= at
    ensures var l := LastExchanged(Some(first), ws, percpu); l.Some? && SampleAtMost(l.value, x)
  {
    if ws != [] {
      var w := ws[|ws| - 1];
      if w.percpu == percpu {
        assert IsSample(events, w.at, percpu, w.after);
      } else {
        ChainedPrefix(first, events, ws, percpu, linux);
        LastExchangedAtMost(first, events, ws[..|ws| - 1], percpu, linux, at, x);
      }
    }
  }

  lemma InOrderStepsForward(first: Sample, events: seq<Event>, ws: seq<Window>, percpu: bool, cpu: nat, linux: bool)
    requires CountersNeverFall(first, events, percpu) && InOrder(ws, percpu)
    requires Chained(first, events, ws, percpu, linux)
    ensures AllStepForward(ws, percpu, cpu, linux)
  {
    forall i | 0 <= i < |ws| && ws[i].percpu == percpu ensures StepsForward(ws[i], cpu, linux) {
      forall j | 0 <= j < i && ws[j].percpu == percpu ensures ws[..i][j].before == LastExchanged(Some(first), ws[..i][..j], percpu) {
        assert ws[..i][..j] == ws[..j];
      }
      LastExchangedAtMost(first, events, ws[..i], percpu, linux, ws[i].at, ws[i].after);
    }
  }

  /** Samples exchanged in the order taken conserve busy time. */
  lemma InOrderConserves(init: System, events: seq<Event>, percpu: bool, cpu: nat)
    requires Initial(init) && Stored(init, percpu).Some?
    requires CountersNeverFall(Stored(init, percpu).value, events, percpu) && cpu < |Stored(init, percpu).value|
    requires InOrder(Run(init, events).windows, percpu)
    ensures var first, s, linux := Stored(init, percpu).value, Run(init, events), init.linux;
            && Stored(s, percpu).Some? && |Stored(s, percpu).value| == |first|
            && Weighted(s.windows, percpu, cpu, linux) ==
               100.0 * (Working(Stored(s, percpu).value[cpu], linux) - Working(first[cpu], linux))
  {
    BusyTimeConserved(init, events, percpu, cpu);
    RunIsChained(init, events, percpu);
    InOrderStepsForward(Stored(init, percpu).value, events, Run(init, events).windows, percpu, cpu, init.linux);
  }

  function UserTime(u: real): Times {
    Times(u, 0.0, 0.0, 0.0, 0.0, 0.0, 0.0, 0.0, 0.0, 0.0)
  }

  /** After a stored sample of x busy seconds two callers sample at y and z, and exchange in the other order. */
  function OvertakingRun(x: real, y: real, z: real): System {
    Run(System(true, Some([UserTime(x)]), None, map[], []),
        [Sampled(1, false, [UserTime(y)]), Sampled(2, false, [UserTime(z)]), Exchanged(2), Exchanged(1)])
  }

  /** The window of one total between two such samples. */
  function TotalWindow(u: real, v: real, at: nat): Window {
    Window(false, Some([UserTime(u)]), [UserTime(v)], at, Report(Some([UserTime(u)]), [UserTime(v)], true))
  }

  lemma OvertakingWindows(x: real, y: real, z: real)
    ensures OvertakingRun(x, y, z).total == Some([UserTime(y)])
    ensures OvertakingRun(x, y, z).windows == [TotalWindow(x, z, 1), TotalWindow(z, y, 0)]
  {
    hide Report, Run, UserTime;
    var init := System(true, Some([UserTime(x)]), None, map[], []);
    var a, b, c, d := Sampled(1, false, [UserTime(y)]), Sampled(2, false, [UserTime(z)]), Exchanged(2), Exchanged(1);
    NothingRun(init);
    RunStep(init, [], a);
    RunStep(init, [a], b);
    RunStep(init, [a, b], c);
    RunStep(init, [a, b, c], d);
    assert [] + [a] == [a] && [a] + [b] == [a, b] && [a, b] + [c] == [a, b, c] && [a, b, c] + [d] == [a, b, c, d];
  }

  lemma NothingRun(init: System)
    ensures Run(init, []) == init
  {
  }

  lemma TotalWeight(u: real, v: real, at: nat)
    ensures WindowWeight(TotalWindow(u, v, at), false, 0, true) == 100.0 * Max(0.0, v - u)
  {
    hide Report, WindowWeight;
    OneWindow(TotalWindow(u, v, at), [UserTime(u)], false, 0, true);
  }

  /** Then y - x busy seconds lie between the first and the last stored sample, and z - x are reported. */
  lemma OvertakingBreaksConservation(x: real, y: real, z: real)
    requires x <= y < z
    ensures OvertakingRun(x, y, z).total == Some([UserTime(y)])
    ensures Working(UserTime(y), true) - Working(UserTime(x), true) == y - x
    ensures Weighted(OvertakingRun(x, y, z).windows, false, 0, true) == 100.0 * (z - x)
  {
    hide TotalWindow, WindowWeight, OvertakingRun;
    OvertakingWindows(x, y, z);
    TotalWeight(x, z, 1);
    TotalWeight(z, y, 0);
    TwoWindows(TotalWindow(x, z, 1), TotalWindow(z, y, 0), false, 0, true);
  }

  lemma TwoWindows(a: Window, b: Window, percpu: bool, cpu: nat, linux: bool)
    ensures Weighted([a, b], percpu, cpu, linux) == WindowWeight(a, percpu, cpu, linux) + WindowWeight(b, percpu, cpu, linux)
  {
    hide WindowWeight;
    assert [a, b][..1] == [a] && [a][..0] == [];
    assert Weighted([a], percpu, cpu, linux) == WindowWeight(a, percpu, cpu, linux);
  }
}
