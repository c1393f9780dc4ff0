/**
 * The resumable checksum (src/examples/internal/xi_coroutine.c) on top of the coroutine macros
 * (src/libxively/xi_coroutine.h): each call processes one portion of the buffer and yields. The content
 * of the look-up table does not matter for what is proved, so it is a parameter.
 */
module CrcCoroutine {
  import opened Common

  type Table = bv8 -> bv32

  /** How one byte changes the checksum. */
  type Mix = (bv32, bv8) -> bv32

  const PORTION := 32
  const INITIAL: bv32 := 0xFFFF_FFFF

  /** Coroutine states: any value but the line of the yield starts from the beginning. */
  const STATE_DONE := 1
  const STATE_YIELDED := 116

  datatype Outcome = Finished | WantsToContinue

  // ---------------------------------------------------------------------------------------------
  // The checksum of a whole buffer

  function Update(mix: Mix, crc: bv32, buf: seq<bv8>): (r: bv32)
  {
    if buf == [] then crc
    else
      var c := Update(mix, crc, buf[..|buf| - 1]);
      mix(c, buf[|buf| - 1])
  }

  function TableMix(table: Table): (mix: Mix)
  {
    (c: bv32, b: bv8) => MixByte(table, c, b)
  }

  function MixByte(table: Table, c: bv32, b: bv8): (r: bv32)
  {
    table(((c ^ (b as bv32)) & 0xFF) as bv8) ^ (c << 8)
  }

  function Complement(c: bv32): (r: bv32)
  {
    c ^ 0xFFFF_FFFF
  }

  function OneShot(mix: Mix, buf: seq<bv8>): (r: bv32)
  {
    Complement(Update(mix, INITIAL, buf))
  }

  lemma {:induction false} UpdateConcat(mix: Mix, crc: bv32, a: seq<bv8>, b: seq<bv8>)
    ensures Update(mix, crc, a + b) == Update(mix, Update(mix, crc, a), b)
    decreases |b|
  {
    if b == [] {
      assert a + b == a;
    } else {
      var n := |b| - 1;
      assert (a + b)[..|a + b| - 1] == a + b[..n];
      UpdateConcat(mix, crc, a, b[..n]);
    }
  }

  method UpdateCrc(table: Table, crc: bv32, buf: seq<bv8>) returns (c: bv32)
    ensures c == Update(TableMix(table), crc, buf)
  {
    c := crc;
    for i := 0 to |buf|
      invariant c == Update(TableMix(table), crc, buf[..i])
    {
      assert buf[..i + 1][..i] == buf[..i];
      c := MixByte(table, c, buf[i]);
    }
    assert buf[..|buf|] == buf;
  }

  // ---------------------------------------------------------------------------------------------
  // One call of the coroutine

  datatype Cr = Cr(state: nat, crc: bv32, pos: nat)

  function Portion(buf: seq<bv8>, pos: nat): (n: nat)
    requires pos <= |buf|
    ensures n <= PORTION && pos + n <= |buf|
  {
    Min(|buf| - pos, PORTION)
  }

  function Process(mix: Mix, buf: seq<bv8>, cr: Cr): (r: (Cr, Outcome))
    requires cr.pos <= |buf|
    ensures r.0.pos <= |buf|
  {
    var next := cr.pos + Portion(buf, cr.pos);
    var start := if cr.state == STATE_YIELDED then cr.crc else INITIAL;
    var crc := Update(mix, start, buf[cr.pos..next]);
    if next < |buf| then (Cr(STATE_YIELDED, crc, next), WantsToContinue)
    else (Cr(STATE_DONE, Complement(crc), next), Finished)
  }

  class CrcTask {
    var state: nat
    var crc: bv32
    var currentPos: nat
    const buf: seq<bv8>

    function Value(): (cr: Cr)
      reads this
    {
      Cr(state, crc, currentPos)
    }

    constructor (buf: seq<bv8>)
      ensures this.buf == buf && Value() == Cr(0, 0, 0)
    {
      this.buf := buf;
      state, crc, currentPos := 0, 0, 0;
    }

    method ProcessCrc(table: Table) returns (r: Outcome)
      requires currentPos <= |buf|
      modifies this
      ensures (Value(), r) == Process(TableMix(table), buf, old(Value()))
    {
      var lenLeft := |buf| - currentPos;
      var toGo := Min(Max(lenLeft, 0), PORTION);
      if state != STATE_YIELDED {
        crc := INITIAL;
      }
      crc := UpdateCrc(table, crc, buf[currentPos..currentPos + toGo]);
      currentPos := currentPos + toGo;
      if currentPos < |buf| {
        state := STATE_YIELDED;
        return WantsToContinue;
      }
      crc := Complement(crc);
      state := STATE_DONE;
      return Finished;
    }
  }

  // ---------------------------------------------------------------------------------------------
  // All calls of one coroutine

  /** A task is called only while it wants to continue. */
  datatype Task = Task(buf: seq<bv8>, cr: Cr, result: Outcome)

  predicate InBuffer(t: Task)
  {
    t.cr.pos <= |t.buf|
  }

  function Fresh(buf: seq<bv8>): (t: Task)
  {
    Task(buf, Cr(0, 0, 0), WantsToContinue)
  }

  function CallTask(mix: Mix, t: Task): (t': Task)
    requires InBuffer(t)
    ensures InBuffer(t') && t'.buf == t.buf
  {
    if t.result == Finished then t
    else
      var (cr, result) := Process(mix, t.buf, t.cr);
      Task(t.buf, cr, result)
  }

  function CallTimes(mix: Mix, t: Task, n: nat): (t': Task)
    requires InBuffer(t)
    ensures InBuffer(t') && t'.buf == t.buf
  {
    if n == 0 then t else CallTask(mix, CallTimes(mix, t, n - 1))
  }

  /** max(1, ceil(n / 32)) */
  function CallsNeeded(buf: seq<bv8>): (n: nat)
  {
    Max(1, (|buf| + PORTION - 1) / PORTION)
  }

  /** After n calls, fewer than needed, the task has the checksum of its first 32 * n bytes and wants to go on. */
  lemma {:induction false} HalfWay(mix: Mix, buf: seq<bv8>, n: nat)
    requires 0 < n < CallsNeeded(buf)
    ensures PORTION * n < |buf|
    ensures CallTimes(mix, Fresh(buf), n)
         == Task(buf, Cr(STATE_YIELDED, Update(mix, INITIAL, buf[..PORTION * n]), PORTION * n), WantsToContinue)
  {
    if n == 1 {
      assert CallTimes(mix, Fresh(buf), 0) == Fresh(buf);
      assert buf[0..PORTION] == buf[..PORTION];
    } else {
      HalfWay(mix, buf, n - 1);
      assert buf[..PORTION * n] == buf[..PORTION * (n - 1)] + buf[PORTION * (n - 1)..PORTION * n];
      UpdateConcat(mix, INITIAL, buf[..PORTION * (n - 1)], buf[PORTION * (n - 1)..PORTION * n]);
    }
  }

  /** The last call of the number needed. */
  lemma LastCall(mix: Mix, buf: seq<bv8>)
    ensures CallTimes(mix, Fresh(buf), CallsNeeded(buf))
         == Task(buf, Cr(STATE_DONE, OneShot(mix, buf), |buf|), Finished)
  {
    var m := CallsNeeded(buf);
    if m > 1 {
      HalfWay(mix, buf, m - 1);
      LastPortion(mix, buf, PORTION * (m - 1));
    } else {
      assert CallTimes(mix, Fresh(buf), 0) == Fresh(buf);
      OnlyPortion(mix, buf);
    }
  }

  lemma LastPortion(mix: Mix, buf: seq<bv8>, p: nat)
    requires p < |buf| <= p + PORTION
    ensures Process(mix, buf, Cr(STATE_YIELDED, Update(mix, INITIAL, buf[..p]), p))
         == (Cr(STATE_DONE, OneShot(mix, buf), |buf|), Finished)
  {
    UpdateConcat(mix, INITIAL, buf[..p], buf[p..|buf|]);
    assert buf == buf[..p] + buf[p..|buf|];
  }

  lemma OnlyPortion(mix: Mix, buf: seq<bv8>)
    requires |buf| <= PORTION
    ensures Process(mix, buf, Cr(0, 0, 0)) == (Cr(STATE_DONE, OneShot(mix, buf), |buf|), Finished)
  {
    assert buf[0..|buf|] == buf;
  }

  /** The task is finished after n calls iff n reaches the number needed, and has the one-shot checksum then. */
  lemma {:induction false} ResumableEqualsOneShot(mix: Mix, buf: seq<bv8>, n: nat)
    ensures CallTimes(mix, Fresh(buf), n).result == Finished <==> CallsNeeded(buf) <= n
    ensures CallsNeeded(buf) <= n ==> CallTimes(mix, Fresh(buf), n).cr.crc == OneShot(mix, buf)
  {
    var m := CallsNeeded(buf);
    if n > m {
      ResumableEqualsOneShot(mix, buf, n - 1);
    } else if n == m {
      LastCall(mix, buf);
    } else if n > 0 {
      HalfWay(mix, buf, n);
    }
  }

  // ---------------------------------------------------------------------------------------------
  // Any number of coroutines, interleaved in any way

  /** The schedule says which task is called next. */
  function Interleave(mix: Mix, tasks: seq<Task>, schedule: seq<nat>): (r: seq<Task>)
    requires forall t :: t in tasks ==> InBuffer(t)
    requires forall j :: 0 <= j < |schedule| ==> schedule[j] < |tasks|
    ensures |r| == |tasks|
    decreases |schedule|
  {
    if schedule == [] then tasks
    else
      var k := schedule[0];
      Interleave(mix, tasks[k := CallTask(mix, tasks[k])], schedule[1..])
  }

  function Calls(schedule: seq<nat>, k: nat): (n: nat)
  {
    multiset(schedule)[k]
  }

  lemma {:induction false} CallTimesFromFront(mix: Mix, t: Task, n: nat)
    requires InBuffer(t)
    ensures CallTimes(mix, CallTask(mix, t), n) == CallTimes(mix, t, n + 1)
  {
    if n > 0 {
      CallTimesFromFront(mix, t, n - 1);
    } else {
      assert CallTimes(mix, t, 0) == t;
    }
  }

  lemma CallsFromFront(schedule: seq<nat>, i: nat)
    requires schedule != []
    ensures Calls(schedule, i) == Calls(schedule[1..], i) + if schedule[0] == i then 1 else 0
  {
    assert schedule == [schedule[0]] + schedule[1..];
  }

  /** Each task ends where it would be after the same number of calls alone. */
  lemma {:induction false} TasksDoNotInterfere(mix: Mix, tasks: seq<Task>, schedule: seq<nat>, i: nat)
    requires forall t :: t in tasks ==> InBuffer(t)
    requires forall j :: 0 <= j < |schedule| ==> schedule[j] < |tasks|
    requires i < |tasks|
    ensures Interleave(mix, tasks, schedule)[i] == CallTimes(mix, tasks[i], Calls(schedule, i))
    decreases |schedule|
  {
    if schedule != [] {
      var k := schedule[0];
      var tasks' := tasks[k := CallTask(mix, tasks[k])];
      CallsFromFront(schedule, i);
      TasksDoNotInterfere(mix, tasks', schedule[1..], i);
      if k == i {
        CallTimesFromFront(mix, tasks[i], Calls(schedule[1..], i));
      }
    }
  }

  /** So under any schedule that calls it often enough, every coroutine finishes with its one-shot checksum. */
  lemma InterleavedEqualsOneShot(mix: Mix, bufs: seq<seq<bv8>>, schedule: seq<nat>, i: nat)
    requires i < |bufs| && forall j :: 0 <= j < |schedule| ==> schedule[j] < |bufs|
    ensures var tasks := seq(|bufs|, k requires 0 <= k < |bufs| => Fresh(bufs[k]));
            var end := Interleave(mix, tasks, schedule)[i];
            && (end.result == Finished <==> CallsNeeded(bufs[i]) <= Calls(schedule, i))
            && (end.result == Finished ==> end.cr.crc == OneShot(mix, bufs[i]))
  {
    var tasks := seq(|bufs|, k requires 0 <= k < |bufs| => Fresh(bufs[k]));
    TasksDoNotInterfere(mix, tasks, schedule, i);
    ResumableEqualsOneShot(mix, bufs[i], Calls(schedule, i));
  }

  method CallIfUnfinished(table: Table, task: CrcTask, result: Outcome, ghost n: nat) returns (result': Outcome)
    requires Task(task.buf, task.Value(), result) == CallTimes(TableMix(table), Fresh(task.buf), n)
    modifies task
    ensures Task(task.buf, task.Value(), result') == CallTimes(TableMix(table), Fresh(task.buf), n + 1)
  {
    result' := result;
    if result == WantsToContinue {
      result' := task.ProcessCrc(table);
    }
  }

  /** The round-robin loop over two tasks. */
  method RunBoth(table: Table, task1: CrcTask, task2: CrcTask)
    requires task1 != task2 && task1.Value() == Cr(0, 0, 0) && task2.Value() == Cr(0, 0, 0)
    modifies task1, task2
    ensures task1.crc == OneShot(TableMix(table), task1.buf) && task2.crc == OneShot(TableMix(table), task2.buf)
  {
    var result1, result2 := WantsToContinue, WantsToContinue;
    ghost var n := 0;
    while result1 == WantsToContinue || result2 == WantsToContinue
      invariant Task(task1.buf, task1.Value(), result1) == CallTimes(TableMix(table), Fresh(task1.buf), n)
      invariant Task(task2.buf, task2.Value(), result2) == CallTimes(TableMix(table), Fresh(task2.buf), n)
      decreases Max(CallsNeeded(task1.buf), CallsNeeded(task2.buf)) - n
    {
      ResumableEqualsOneShot(TableMix(table), task1.buf, n);
      ResumableEqualsOneShot(TableMix(table), task2.buf, n);
      result1 := CallIfUnfinished(table, task1, result1, n);
      result2 := CallIfUnfinished(table, task2, result2, n);
      n := n + 1;
    }
    ResumableEqualsOneShot(TableMix(table), task1.buf, n);
    ResumableEqualsOneShot(TableMix(table), task2.buf, n);
  }
}
