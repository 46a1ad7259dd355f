/**
 * The shared process-table snapshot of AIX: a lock-protected cache with an age limit, one
 * refresh on a miss and refreshes that can fail. Each call holds the lock throughout, so a run
 * of concurrent callers is a sequence of whole calls.
 */
module AixSnapshot {
  import opened Text

  type Time = int // nanoseconds

  const MAX_AGE: Time := 1_000_000_000

  datatype ProcInfo = ProcInfo(pid: int, majFlt: int, ioChars: int)
  datatype Entry = Entry(majorFaults: nat, ioChars: nat)
  datatype Outcome = Table(procs: seq<ProcInfo>) | ReadFailed(err: int)
  datatype Answer = Found(entry: Entry) | NotRunning | Failed(err: int)

  /** The n-th question put to the system is answered at time at(n); if it is a table read, by table(n). */
  datatype Kernel = Kernel(at: nat -> Time, table: nat -> Outcome)

  /** How many questions were asked, and which of them were table reads. */
  datatype World = World(asked: nat, readLog: seq<nat>)
  datatype Cache = Cache(taken: Time, byPID: map<int, Entry>, loaded: bool)
  datatype State = State(cache: Cache, world: World)

  const EMPTY: Cache := Cache(0, map[], false)

  /* ---- one process table ---- */

  /** int64 counters stored as uint64. */
  function EntryOf(p: ProcInfo): (e: Entry)
    ensures 0 <= p.majFlt < TWO64 ==> e.majorFaults == p.majFlt
    ensures 0 <= p.ioChars < TWO64 ==> e.ioChars == p.ioChars
  {
    Entry(p.majFlt % TWO64, p.ioChars % TWO64)
  }

  function Index(procs: seq<ProcInfo>): map<int, Entry> {
    if procs == [] then map[]
    else var n := |procs| - 1; Index(procs[..n])[procs[n].pid := EntryOf(procs[n])]
  }

  /** Row `i` is what a direct look into the table gives for `pid`: its last row. */
  predicate IsRowFor(procs: seq<ProcInfo>, pid: int, i: int) {
    0 <= i < |procs| && procs[i].pid == pid && forall j :: i < j < |procs| ==> procs[j].pid != pid
  }

  predicate Listed(procs: seq<ProcInfo>, pid: int) {
    exists i :: 0 <= i < |procs| && procs[i].pid == pid
  }

  lemma {:induction false} IndexIsDirect(procs: seq<ProcInfo>, pid: int)
    ensures pid in Index(procs) <==> Listed(procs, pid)
    ensures pid in Index(procs) ==> exists i :: IsRowFor(procs, pid, i) && Index(procs)[pid] == EntryOf(procs[i])
  {
    if procs != [] {
      var n := |procs| - 1;
      IndexIsDirect(procs[..n], pid);
      if procs[n].pid == pid {
        assert IsRowFor(procs, pid, n);
      } else {
        assert Listed(procs, pid) <==> Listed(procs[..n], pid) by {
          if Listed(procs, pid) {
            var i :| 0 <= i < |procs| && procs[i].pid == pid;
            assert procs[..n][i].pid == pid;
          }
        }
        if pid in Index(procs[..n]) {
          var i :| IsRowFor(procs[..n], pid, i) && Index(procs[..n])[pid] == EntryOf(procs[..n][i]);
          assert IsRowFor(procs, pid, i);
        }
      }
    }
  }

  /* ---- the steps ---- */

  datatype Refreshed = Refreshed(state: State, err: Option<int>)
  datatype Looked = Looked(state: State, answer: Answer)

  function Refresh(k: Kernel, s: State): Refreshed {
    var n := s.world.asked;
    var readLog := s.world.readLog + [n];
    match k.table(n)
    case ReadFailed(e) => Refreshed(State(s.cache, World(n + 1, readLog)), Some(e))
    case Table(procs) => Refreshed(State(Cache(k.at(n + 1), Index(procs), true), World(n + 2, readLog)), None)
  }

  function Answered(s: State, pid: int): Looked {
    Looked(s, if pid in s.cache.byPID then Found(s.cache.byPID[pid]) else NotRunning)
  }

  /** The clock is asked only when there is a snapshot whose age matters. */
  function Checked(s: State): State {
    if s.cache.loaded then s.(world := s.world.(asked := s.world.asked + 1)) else s
  }

  function Reread(k: Kernel, s: State, pid: int): Looked {
    var r := Refresh(k, s);
    if r.err.Some? then Looked(r.state, Failed(r.err.value)) else Answered(r.state, pid)
  }

  function Lookup(k: Kernel, s: State, pid: int): Looked {
    var stale := !s.cache.loaded || k.at(s.world.asked) - s.cache.taken >= MAX_AGE;
    if !stale && pid in s.cache.byPID then Answered(Checked(s), pid) else Reread(k, Checked(s), pid)
  }

  datatype Op = LookupOp(pid: int) | ResetOp

  function Step(k: Kernel, s: State, op: Op): State {
    match op
    case LookupOp(pid) => Lookup(k, s, pid).state
    case ResetOp => s.(cache := EMPTY)
  }

  /** The state after the first operations of a run. */
  function Run(k: Kernel, s: State, ops: seq<Op>): State {
    if ops == [] then s else Step(k, Run(k, s, ops[..|ops| - 1]), ops[|ops| - 1])
  }

  const START: State := State(EMPTY, World(0, []))

  function AnswerAt(k: Kernel, ops: seq<Op>, i: nat): Answer
    requires i < |ops| && ops[i].LookupOp?
  {
    Lookup(k, Run(k, START, ops[..i]), ops[i].pid).answer
  }

  /* ---- the code, on its own fields ---- */

  /** The system as seen by one process: every question advances it. */
  class Host {
    const kernel: Kernel
    var asked: nat
    ghost var readLog: seq<nat>

    constructor (kernel: Kernel)
      ensures this.kernel == kernel && asked == 0 && readLog == []
    {
      this.kernel, asked, readLog := kernel, 0, [];
    }

    method Now() returns (t: Time)
      modifies this
      ensures t == kernel.at(old(asked)) && asked == old(asked) + 1 && readLog == old(readLog)
    {
      t := kernel.at(asked);
      asked := asked + 1;
    }

    method Processes() returns (o: Outcome)
      modifies this
      ensures o == kernel.table(old(asked)) && asked == old(asked) + 1 && readLog == old(readLog) + [old(asked)]
    {
      o := kernel.table(asked);
      readLog := readLog + [asked];
      asked := asked + 1;
    }
  }

  class AixPs {
    const host: Host
    var taken: Time
    var byPID: map<int, Entry>
    var loaded: bool

    ghost function View(): State
      reads this, host
    {
      State(Cache(taken, byPID, loaded), World(host.asked, host.readLog))
    }

    constructor (host: Host)
      ensures this.host == host && View().cache == EMPTY
    {
      this.host, taken, byPID, loaded := host, 0, map[], false;
    }

    method ResetAIXPS()
      modifies this
      ensures View() == Step(host.kernel, old(View()), ResetOp)
    {
      taken, byPID, loaded := 0, map[], false;
    }

    method RefreshAIXPS() returns (err: Option<int>)
      modifies this, host
      ensures Refreshed(View(), err) == Refresh(host.kernel, old(View()))
    {
      var o := host.Processes();
      if o.ReadFailed? {
        return Some(o.err);
      }
      var index := map[];
      for i := 0 to |o.procs|
        invariant index == Index(o.procs[..i])
        invariant host.asked == old(host.asked) + 1 && host.readLog == old(host.readLog) + [old(host.asked)]
      {
        assert o.procs[..i + 1][..i] == o.procs[..i];
        index := index[o.procs[i].pid := EntryOf(o.procs[i])];
      }
      assert o.procs[..|o.procs|] == o.procs;
      var t := host.Now();
      taken, byPID, loaded := t, index, true;
      err := None;
    }

    method AixPSFor(pid: int) returns (answer: Answer)
      modifies this, host
      ensures Looked(View(), answer) == Lookup(host.kernel, old(View()), pid)
    {
      var refreshed := false;
      var stale := !loaded;
      if loaded {
        var now := host.Now();
        stale := now - taken >= MAX_AGE;
      }
      if stale {
        var err := RefreshAIXPS();
        if err.Some? {
          return Failed(err.value);
        }
        refreshed := true;
      }
      var ok := pid in byPID;
      if !ok && !refreshed {
        var err := RefreshAIXPS();
        if err.Some? {
          return Failed(err.value);
        }
        ok := pid in byPID;
      }
      if !ok {
        return NotRunning;
      }
      return Found(byPID[pid]);
    }
  }

  /* ---- what every step keeps ---- */

  /** The most recent table read that succeeded. */
  function LastGood(k: Kernel, readLog: seq<nat>): (r: Option<nat>)
    ensures r.Some? ==> r.value in readLog && k.table(r.value).Table?
  {
    if readLog == [] then None
    else
      var n := |readLog| - 1;
      if k.table(readLog[n]).Table? then Some(readLog[n]) else LastGood(k, readLog[..n])
  }

  /** A loaded snapshot is the last table successfully read, stamped right after that read. */
  predicate Inv(k: Kernel, s: State) {
    && (forall i :: 0 <= i < |s.world.readLog| ==> s.world.readLog[i] < s.world.asked)
    && (forall i, j :: 0 <= i < j < |s.world.readLog| ==> s.world.readLog[i] < s.world.readLog[j])
    && (s.cache.loaded ==>
          var g := LastGood(k, s.world.readLog);
          && g.Some?
          && s.cache.taken == k.at(g.value + 1)
          && s.cache.byPID == Index(k.table(g.value).procs))
  }

  lemma RefreshKeepsInv(k: Kernel, s: State)
    requires Inv(k, s)
    ensures Inv(k, Refresh(k, s).state)
  {
    hide Index;
    var readLog := s.world.readLog + [s.world.asked];
    assert readLog[..|readLog| - 1] == s.world.readLog;
  }

  lemma StepKeepsInv(k: Kernel, s: State, op: Op)
    requires Inv(k, s)
    ensures Inv(k, Step(k, s, op))
  {
    if op.LookupOp? {
      assert Inv(k, Checked(s));
      RefreshKeepsInv(k, Checked(s));
      assert Step(k, s, op) == Checked(s) || Step(k, s, op) == Refresh(k, Checked(s)).state;
    }
  }

  lemma {:induction false} RunKeepsInv(k: Kernel, ops: seq<Op>)
    ensures Inv(k, Run(k, START, ops))
  {
    if ops != [] {
      RunKeepsInv(k, ops[..|ops| - 1]);
      StepKeepsInv(k, Run(k, START, ops[..|ops| - 1]), ops[|ops| - 1]);
    }
  }

  /* ---- one call ---- */

  /** The table read `n` gives `e` for `pid`, as a direct look into it would. */
  ghost predicate TableGives(k: Kernel, n: nat, pid: int, e: Entry) {
    k.table(n).Table? && exists i :: IsRowFor(k.table(n).procs, pid, i) && e == EntryOf(k.table(n).procs[i])
  }

  predicate TableLacks(k: Kernel, n: nat, pid: int) {
    k.table(n).Table? && !Listed(k.table(n).procs, pid)
  }

  /** Everything a call can have done, and what its answer then means. */
  ghost predicate CallMeaning(k: Kernel, s: State, pid: int, s': State, answer: Answer) {
    var before, after := s.world.readLog, s'.world.readLog;
    if after == before then
      // answered from the snapshot: the last table read, stamped less than MAX_AGE before the check
      && LastGood(k, before).Some? && s'.cache == s.cache && s.cache.loaded
      && k.at(s.world.asked) - k.at(LastGood(k, before).value + 1) < MAX_AGE
      && answer.Found? && TableGives(k, LastGood(k, before).value, pid, answer.entry)
    else
      // the table was read, once
      && |after| == |before| + 1 && after[..|before|] == before && after[|before|] >= s.world.asked
      && var n := after[|before|];
      match answer
      case Failed(e) => k.table(n) == ReadFailed(e) && s'.cache == s.cache
      case NotRunning => TableLacks(k, n, pid)
      case Found(e) => TableGives(k, n, pid, e)
  }

  lemma LookupMeaning(k: Kernel, s: State, pid: int)
    requires Inv(k, s)
    ensures CallMeaning(k, s, pid, Lookup(k, s, pid).state, Lookup(k, s, pid).answer)
  {
    if s.cache.loaded {
      IndexIsDirect(k.table(LastGood(k, s.world.readLog).value).procs, pid);
    }
    var n := if s.cache.loaded then s.world.asked + 1 else s.world.asked;
    if k.table(n).Table? {
      IndexIsDirect(k.table(n).procs, pid);
    }
  }

  /* ---- whole runs ---- */

  /** Every answer of every run means what it says, whatever lookups, resets and failures came before. */
  lemma RunAnswers(k: Kernel, ops: seq<Op>, i: nat)
    requires i < |ops| && ops[i].LookupOp?
    ensures CallMeaning(k, Run(k, START, ops[..i]), ops[i].pid, Run(k, START, ops[..i + 1]), AnswerAt(k, ops, i))
  {
    RunKeepsInv(k, ops[..i]);
    LookupMeaning(k, Run(k, START, ops[..i]), ops[i].pid);
    assert ops[..i + 1][..i] == ops[..i];
  }

  /** No call reads the table twice, so a run reads it at most once per lookup. */
  lemma {:induction false} ReadsAtMostLookups(k: Kernel, ops: seq<Op>)
    ensures |Run(k, START, ops).world.readLog| <= |ops|
  {
    if ops != [] {
      ReadsAtMostLookups(k, ops[..|ops| - 1]);
    }
  }

  predicate AtMost(a: Entry, b: Entry) {
    a.majorFaults <= b.majorFaults && a.ioChars <= b.ioChars
  }

  /** A pid names one process, and its counters never fall. */
  ghost predicate CountersNeverFall(k: Kernel) {
    forall m: nat, n: nat, pid, a, b ::
      m <= n && TableGives(k, m, pid, a) && TableGives(k, n, pid, b) ==> AtMost(a, b)
  }

  lemma {:induction false} ReadsGrow(k: Kernel, ops: seq<Op>, i: nat, j: nat)
    requires i <= j <= |ops|
    ensures Run(k, START, ops[..i]).world.readLog <= Run(k, START, ops[..j]).world.readLog
    decreases j
  {
    if i < j {
      ReadsGrow(k, ops, i, j - 1);
      assert ops[..j][..j - 1] == ops[..j - 1];
    }
  }

  lemma {:induction false} LastGoodGrows(k: Kernel, short: seq<nat>, long: seq<nat>)
    requires short <= long
    requires forall i, j :: 0 <= i < j < |long| ==> long[i] < long[j]
    requires LastGood(k, short).Some?
    ensures LastGood(k, long).Some? && LastGood(k, short).value <= LastGood(k, long).value
    decreases |long|
  {
    if |short| < |long| {
      LastGoodGrows(k, short, long[..|long| - 1]);
    } else {
      assert short == long;
    }
  }

  lemma FoundIsLastGood(k: Kernel, ops: seq<Op>, i: nat)
    requires i < |ops| && ops[i].LookupOp? && AnswerAt(k, ops, i).Found?
    ensures var g := LastGood(k, Run(k, START, ops[..i + 1]).world.readLog);
            g.Some? && TableGives(k, g.value, ops[i].pid, AnswerAt(k, ops, i).entry)
  {
    RunAnswers(k, ops, i);
    var s, s' := Run(k, START, ops[..i]), Run(k, START, ops[..i + 1]);
    if s'.world.readLog != s.world.readLog {
      assert LastGood(k, s'.world.readLog) == Some(s'.world.readLog[|s.world.readLog|]);
    }
  }

  lemma NeverFalls(k: Kernel, m: nat, n: nat, pid: int, a: Entry, b: Entry)
    requires CountersNeverFall(k) && m <= n && TableGives(k, m, pid, a) && TableGives(k, n, pid, b)
    ensures AtMost(a, b)
  {
  }

  /** Later snapshots come from later reads. */
  lemma SourcesInOrder(k: Kernel, ops: seq<Op>, i: nat, j: nat)
    requires i <= j <= |ops| && LastGood(k, Run(k, START, ops[..i]).world.readLog).Some?
    ensures var a, b := LastGood(k, Run(k, START, ops[..i]).world.readLog), LastGood(k, Run(k, START, ops[..j]).world.readLog);
            b.Some? && a.value <= b.value
  {
    ReadsGrow(k, ops, i, j);
    RunKeepsInv(k, ops[..j]);
    LastGoodGrows(k, Run(k, START, ops[..i]).world.readLog, Run(k, START, ops[..j]).world.readLog);
  }

  /** Successive answers for one process never go backwards, resets and failures included. */
  lemma AnswersNeverGoBack(k: Kernel, ops: seq<Op>, i: nat, j: nat)
    requires CountersNeverFall(k)
    requires i < j < |ops| && ops[i].LookupOp? && ops[j] == ops[i]
    requires AnswerAt(k, ops, i).Found? && AnswerAt(k, ops, j).Found?
    ensures AtMost(AnswerAt(k, ops, i).entry, AnswerAt(k, ops, j).entry)
  {
    hide *;
    FoundIsLastGood(k, ops, i);
    FoundIsLastGood(k, ops, j);
    SourcesInOrder(k, ops, i + 1, j + 1);
    NeverFalls(k, LastGood(k, Run(k, START, ops[..i + 1]).world.readLog).value,
               LastGood(k, Run(k, START, ops[..j + 1]).world.readLog).value,
               ops[i].pid, AnswerAt(k, ops, i).entry, AnswerAt(k, ops, j).entry);
  }

  /* ---- how old an answer is ---- */

  /** Reading the table takes at most `d`, from the moment its rows are taken to the stamp. */
  predicate ReadsWithin(k: Kernel, readLog: seq<nat>, d: Time) {
    forall i :: 0 <= i < |readLog| && k.table(readLog[i]).Table? ==> k.at(readLog[i] + 1) - k.at(readLog[i]) <= d
  }

  /** The read an answer comes from: the last good one when the call is over. */
  function SourceOf(k: Kernel, ops: seq<Op>, i: nat): Option<nat>
    requires i < |ops|
  {
    LastGood(k, Run(k, START, ops[..i + 1]).world.readLog)
  }

  /** The age of the rows behind an answer at the last moment the call looked at the clock. */
  function AgeAt(k: Kernel, ops: seq<Op>, i: nat): Time
    requires i < |ops|
  {
    var asked, source := Run(k, START, ops[..i + 1]).world.asked, SourceOf(k, ops, i);
    if asked == 0 || source.None? then 0 else k.at(asked - 1) - k.at(source.value)
  }

  /** A call that reads the table asks for the time right after it, and for nothing more. */
  lemma LastQuestion(k: Kernel, s: State, pid: int)
    requires Inv(k, s) && Lookup(k, s, pid).answer.Found?
    ensures var s' := Lookup(k, s, pid).state;
            && s'.world.asked > 0 && LastGood(k, s'.world.readLog).Some?
            && var g := LastGood(k, s'.world.readLog).value;
               || s'.world.asked - 1 == g + 1
               || (s'.world == s.world.(asked := s.world.asked + 1) && s.cache.loaded
                   && k.at(s.world.asked) - k.at(g + 1) < MAX_AGE)
  {
    var log := Checked(s).world.readLog + [Checked(s).world.asked];
    assert log[|log| - 1] == Checked(s).world.asked;
  }

  /** Over any run the rows behind an answer are younger than the maximum age plus the longest read. */
  lemma AnswerAge(k: Kernel, ops: seq<Op>, i: nat, d: Time)
    requires i < |ops| && ops[i].LookupOp? && AnswerAt(k, ops, i).Found?
    requires d >= 0 && ReadsWithin(k, Run(k, START, ops[..i + 1]).world.readLog, d)
    ensures SourceOf(k, ops, i).Some? && TableGives(k, SourceOf(k, ops, i).value, ops[i].pid, AnswerAt(k, ops, i).entry)
    ensures AgeAt(k, ops, i) < MAX_AGE + d
  {
    hide Lookup, TableGives, Inv;
    FoundIsLastGood(k, ops, i);
    RunKeepsInv(k, ops[..i]);
    var s := Run(k, START, ops[..i]);
    assert ops[..i + 1][..i] == ops[..i];
    assert Run(k, START, ops[..i + 1]) == Lookup(k, s, ops[i].pid).state;
    LastQuestion(k, s, ops[i].pid);
    var log := Run(k, START, ops[..i + 1]).world.readLog;
    var j :| 0 <= j < |log| && log[j] == LastGood(k, log).value;
  }

  predicate ForwardClock(k: Kernel, n: nat) {
    forall i, j :: 0 <= i <= j < n ==> k.at(i) <= k.at(j)
  }

  /** Whenever reads take at most `d`, the rows behind every answer are younger than the maximum age. */
  ghost predicate AllAnswersYoung(d: Time) {
    forall k: Kernel, ops: seq<Op>, i: nat ::
      && i < |ops| && ops[i].LookupOp? && AnswerAt(k, ops, i).Found?
      && ForwardClock(k, Run(k, START, ops[..i + 1]).world.asked)
      && ReadsWithin(k, Run(k, START, ops[..i + 1]).world.readLog, d)
      ==> AgeAt(k, ops, i) < MAX_AGE
  }

  /** A read that takes `d`, and a second lookup just before the limit counted from the stamp. */
  function SlowRead(d: Time): Kernel {
    Kernel(n => if n == 0 then 0 else if n == 1 then d else MAX_AGE - 1 + d, _ => Table([ProcInfo(1, 0, 0)]))
  }

  const TWO_LOOKUPS: seq<Op> := [LookupOp(1), LookupOp(1)]

  lemma SlowReadAges(d: Time)
    requires d >= 0
    ensures var k := SlowRead(d);
            && AnswerAt(k, TWO_LOOKUPS, 1).Found? && AgeAt(k, TWO_LOOKUPS, 1) == MAX_AGE - 1 + d
            && Run(k, START, TWO_LOOKUPS) == State(Run(k, START, TWO_LOOKUPS).cache, World(3, [0]))
            && ForwardClock(k, 3) && ReadsWithin(k, [0], d)
  {
    var k, procs := SlowRead(d), [ProcInfo(1, 0, 0)];
    var e := EntryOf(procs[0]);
    assert Index(procs) == map[1 := e] by {
      assert procs[..0] == [];
    }
    var first := State(Cache(d, map[1 := e], true), World(2, [0]));
    assert TWO_LOOKUPS[..0] == [] && TWO_LOOKUPS[..1][..0] == [] && TWO_LOOKUPS[..2] == TWO_LOOKUPS;
    assert Run(k, START, TWO_LOOKUPS[..1]) == first;
    assert Lookup(k, first, 1) == Looked(State(first.cache, World(3, [0])), Found(e));
    assert LastGood(k, [0]) == Some(0);
  }

  lemma InstantReadsAreYoung()
    ensures AllAnswersYoung(0)
  {
    hide AgeAt, AnswerAt, Run, ReadsWithin, ForwardClock, TableGives;
    forall k: Kernel, ops: seq<Op>, i: nat |
      && i < |ops| && ops[i].LookupOp? && AnswerAt(k, ops, i).Found?
      && ForwardClock(k, Run(k, START, ops[..i + 1]).world.asked)
      && ReadsWithin(k, Run(k, START, ops[..i + 1]).world.readLog, 0)
      ensures AgeAt(k, ops, i) < MAX_AGE
    {
      AnswerAge(k, ops, i, 0);
    }
  }

  lemma SlowReadsAreNot(d: Time)
    requires d > 0
    ensures !AllAnswersYoung(d)
  {
    hide AgeAt, AnswerAt, Run, ReadsWithin, ForwardClock, SlowRead;
    SlowReadAges(d);
    assert TWO_LOOKUPS[..2] == TWO_LOOKUPS;
    assert !(AgeAt(SlowRead(d), TWO_LOOKUPS, 1) < MAX_AGE);
  }

  /** All answers are younger than the maximum age exactly when reading takes no time. */
  lemma YoungExactlyWhenInstant(d: Time)
    requires d >= 0
    ensures AllAnswersYoung(d) <==> d == 0
  {
    hide AllAnswersYoung;
    if d == 0 {
      InstantReadsAreYoung();
    } else {
      SlowReadsAreNot(d);
    }
  }

  /* ---- what the cache saves ---- */

  /** After a reset the next lookup reads the table, whatever was remembered and however young it was. */
  lemma ResetForcesRead(k: Kernel, s: State, pid: int)
    ensures var n := s.world.asked;
            var looked := Lookup(k, Step(k, s, ResetOp), pid);
            && looked.state.world.readLog == s.world.readLog + [n]
            && (looked.answer.NotRunning? <==> TableLacks(k, n, pid))
            && (looked.answer.Found? ==> TableGives(k, n, pid, looked.answer.entry))
  {
    if k.table(s.world.asked).Table? {
      IndexIsDirect(k.table(s.world.asked).procs, pid);
    }
  }

  /** A scrape within the age limit, over processes of the snapshot, never reads the table. */
  lemma {:induction false} ScrapeReadsNothing(k: Kernel, s: State, ops: seq<Op>)
    requires s.cache.loaded
    requires forall i :: 0 <= i < |ops| ==> ops[i].LookupOp? && ops[i].pid in s.cache.byPID
    requires forall n: nat :: s.world.asked <= n < s.world.asked + |ops| ==> k.at(n) - s.cache.taken < MAX_AGE
    ensures Run(k, s, ops) == s.(world := s.world.(asked := s.world.asked + |ops|))
  {
    if ops != [] {
      var n := |ops| - 1;
      ScrapeReadsNothing(k, s, ops[..n]);
      assert ops[n].LookupOp?;
    }
  }
}
