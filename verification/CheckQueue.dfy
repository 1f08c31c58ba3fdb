/** CCheckQueue: a master and its workers share a queue of checks under one mutex. Each critical section is an
    atomic step; between them a thread works on a batch of its own. */
module CheckQueue {
  import opened Common

  // ---------------------------------------------------------------- the guarded state

  /** The fields the mutex guards. */
  datatype Shared<T> = Shared(queue: seq<T>, nIdle: int, nTotal: int, fAllOk: bool, nTodo: int, fQuit: bool)

  /** How a critical section of Loop ends. */
  datatype Section<T> = Return(result: bool) | Sleep | Take(batch: seq<T>, fOk: bool)

  /** Number of checks to take: smaller batches the more threads there are, at least one. A negative count, which
      never arises, is read as the huge unsigned number it would be. */
  function BatchSize(nBatchSize: nat, size: nat, threads: int): nat {
    var share := if threads < 0 then 0 else size / (threads + 1);
    var capped := if nBatchSize < share then nBatchSize else share;
    if capped > 1 then capped else 1
  }

  lemma BatchSizeFits(nBatchSize: nat, size: nat, threads: int)
    requires size > 0
    ensures 1 <= BatchSize(nBatchSize, size, threads) <= size
  {
  }

  /** A batch is an even share of the queue, rounded down, within the limit: the greatest number m there is of that kind, or
      else one check. */
  lemma BatchSizeExact(nBatchSize: nat, size: nat, threads: nat, m: nat)
    requires size > 0
    ensures var k := BatchSize(nBatchSize, size, threads);
            && 1 <= k <= size && (k == 1 || (k <= nBatchSize && k * (threads + 1) <= size))
            && (m <= nBatchSize && m * (threads + 1) <= size ==> m <= k)
  {
    var d := threads + 1;
    var share := size / d;
    Divided(size, d);
    ShareFits(share, d, size % d);
    if m > share {
      MoreThanShare(m, share, d, size);
    }
    if BatchSize(nBatchSize, size, threads) > 1 {
      LessThanShare(BatchSize(nBatchSize, size, threads), share, d, size);
    }
  }

  lemma ShareFits(share: nat, d: nat, left: nat)
    requires left < d
    ensures share <= share * d + left < (share + 1) * d
  {
    assert share * d == share * (d - 1) + share;
    assert (share + 1) * d == share * d + d;
  }

  lemma Distributes(a: nat, b: nat, d: nat)
    ensures (a + b) * d == a * d + b * d && a * d >= 0 && b * d >= 0
  {
  }

  lemma LessThanShare(k: nat, share: nat, d: nat, size: nat)
    requires k <= share && share * d <= size
    ensures k * d <= size
  {
    Distributes(k, share - k, d);
  }

  lemma MoreThanShare(m: nat, share: nat, d: nat, size: nat)
    requires m > share && size < (share + 1) * d
    ensures m * d > size
  {
    Distributes(share + 1, m - share - 1, d);
  }

  /** Start of a round: account for the previous batch, or sign on. */
  function CleanUp<T>(s: Shared<T>, nNow: nat, fOk: bool): Shared<T> {
    if nNow > 0 then s.(fAllOk := s.fAllOk && fOk, nTodo := s.nTodo - nNow) else s.(nTotal := s.nTotal + 1)
  }

  /** Rest of the section, from the test for an empty queue on. */
  function Decide<T>(s: Shared<T>, fMaster: bool, nBatchSize: nat): (Shared<T>, Section<T>)
  {
    if s.queue == [] then
      if (fMaster || s.fQuit) && s.nTodo == 0 then
        (s.(nTotal := s.nTotal - 1, fAllOk := fMaster || s.fAllOk), Return(s.fAllOk))
      else (s.(nIdle := s.nIdle + 1), Sleep)
    else
      BatchSizeFits(nBatchSize, |s.queue|, s.nTotal + s.nIdle);
      var rest := |s.queue| - BatchSize(nBatchSize, |s.queue|, s.nTotal + s.nIdle);
      (s.(queue := s.queue[..rest]), Take(Reversed(s.queue[rest..]), s.fAllOk))
  }

  /** A thread leaves when nothing is left to do, the master always and a worker on shutdown; it sleeps when there is nothing
      to take; otherwise it takes a batch of the size due, from the end of the queue and last first, with the result so far. */
  lemma DecideMeans<T>(s: Shared<T>, fMaster: bool, nBatchSize: nat)
    ensures var (u, section) := Decide(s, fMaster, nBatchSize);
            match section
            case Return(result) =>
              && s.queue == [] == u.queue && s.nTodo == 0 && (fMaster || s.fQuit) && result == s.fAllOk
              && u.fAllOk == (fMaster || s.fAllOk) && u.nTotal == s.nTotal - 1 && u.nIdle == s.nIdle
            case Sleep =>
              && s.queue == [] && (s.nTodo != 0 || !(fMaster || s.fQuit)) && u == s.(nIdle := s.nIdle + 1)
            case Take(batch, fOk) =>
              && s.queue == u.queue + Reversed(batch) && |batch| == BatchSize(nBatchSize, |s.queue|, s.nTotal + s.nIdle)
              && fOk == s.fAllOk && u == s.(queue := u.queue)
  {
    if s.queue != [] {
      BatchSizeFits(nBatchSize, |s.queue|, s.nTotal + s.nIdle);
      var rest := |s.queue| - BatchSize(nBatchSize, |s.queue|, s.nTotal + s.nIdle);
      assert Reversed(Reversed(s.queue[rest..])) == s.queue[rest..];
    }
  }

  function Enqueue<T>(s: Shared<T>, checks: seq<T>): Shared<T> {
    s.(queue := s.queue + checks, nTodo := s.nTodo + |checks|)
  }

  /** Running a batch: once a check has failed, here or elsewhere, the rest is skipped. */
  function RunFrom<T>(ok: T -> bool, batch: seq<T>, i: nat, fOk: bool): bool
    requires i <= |batch|
    decreases |batch| - i
  {
    if i == |batch| then fOk else RunFrom(ok, batch, i + 1, fOk && ok(batch[i]))
  }

  /** The class, critical section by critical section. */
  class CCheckQueue<T(0)> {
    var queue: seq<T>
    var nIdle: int
    var nTotal: int
    var fAllOk: bool
    var nTodo: int
    var fQuit: bool
    const nBatchSize: nat

    constructor (nBatchSizeIn: nat)
      ensures Value() == Shared([], 0, 0, true, 0, false) && nBatchSize == nBatchSizeIn
    {
      queue, nIdle, nTotal, fAllOk, nTodo, fQuit, nBatchSize := [], 0, 0, true, 0, false, nBatchSizeIn;
    }

    function Value(): Shared<T>
      reads this
    {
      Shared(queue, nIdle, nTotal, fAllOk, nTodo, fQuit)
    }

    method StartRound(nNow: nat, fOk: bool, fMaster: bool) returns (notifyMaster: bool)
      modifies this
      ensures Value() == CleanUp(old(Value()), nNow, fOk)
      ensures notifyMaster <==> nNow > 0 && nTodo == 0 && !fMaster
    {
      notifyMaster := false;
      if nNow > 0 {
        fAllOk := fAllOk && fOk;
        nTodo := nTodo - nNow;
        notifyMaster := nTodo == 0 && !fMaster;
      } else {
        nTotal := nTotal + 1;
      }
    }

    method Proceed(fMaster: bool) returns (r: Section<T>)
      modifies this
      ensures (Value(), r) == Decide(old(Value()), fMaster, nBatchSize)
    {
      if |queue| == 0 {
        if (fMaster || fQuit) && nTodo == 0 {
          nTotal := nTotal - 1;
          var fRet := fAllOk;
          if fMaster {
            fAllOk := true;
          }
          return Return(fRet);
        }
        nIdle := nIdle + 1;
        return Sleep;
      }
      BatchSizeFits(nBatchSize, |queue|, nTotal + nIdle);
      var nNow := BatchSize(nBatchSize, |queue|, nTotal + nIdle);
      ghost var all := queue;
      var vChecks := [];
      for i := 0 to nNow
        invariant queue == all[..|all| - i] && vChecks == Reversed(all[|all| - i..])
        invariant Value() == old(Value()).(queue := queue)
      {
        vChecks := vChecks + [queue[|queue| - 1]];
        queue := queue[..|queue| - 1];
      }
      return Take(vChecks, fAllOk);
    }

    method WakeUp()
      modifies this`nIdle
      ensures Value() == old(Value()).(nIdle := old(nIdle) - 1)
    {
      nIdle := nIdle - 1;
    }

    method Add(vChecks: seq<T>) returns (notified: nat)
      modifies this
      ensures Value() == Enqueue(old(Value()), vChecks)
      ensures notified == if |vChecks| < 2 then |vChecks| else 2
    {
      for i := 0 to |vChecks|
        invariant Value() == old(Value()).(queue := old(queue) + vChecks[..i])
      {
        queue := queue + [vChecks[i]];
      }
      nTodo := nTodo + |vChecks|;
      notified := if |vChecks| == 1 then 1 else if |vChecks| > 1 then 2 else 0;
    }

    /** The checks run are counted: all of them, or those up to the first that fails, or none if something had failed. */
    method ExecuteBatch(check: T -> bool, vChecks: seq<T>, start: bool) returns (fOk: bool, ran: nat)
      ensures fOk == RunFrom(check, vChecks, 0, start)
      ensures ran <= |vChecks| && forall k :: 0 <= k < ran && k < ran - (if fOk then 0 else 1) ==> check(vChecks[k])
      ensures if !start then !fOk && ran == 0 else if fOk then ran == |vChecks| else ran > 0 && !check(vChecks[ran - 1])
    {
      fOk, ran := start, 0;
      for i := 0 to |vChecks|
        invariant RunFrom(check, vChecks, 0, start) == RunFrom(check, vChecks, i, fOk)
        invariant ran <= i && (fOk ==> ran == i) && (!start ==> !fOk && ran == 0)
        invariant start && !fOk ==> ran > 0 && !check(vChecks[ran - 1])
        invariant forall k :: 0 <= k < ran && k < ran - (if fOk then 0 else 1) ==> check(vChecks[k])
      {
        if fOk {
          fOk := check(vChecks[i]);
          ran := ran + 1;
        }
      }
    }
  }

  // ---------------------------------------------------------------- threads

  /** A thread is not in Loop, asleep on its condition variable, or working through a batch. */
  datatype Thread<T> = Outside | Waiting(notified: bool) | Working(batch: seq<T>, done: nat, fOk: bool)

  /** Thread 0 is the master. added and checked record what has been added, and accounted for, since the last
      reset of the result. */
  datatype State<T(==)> = State(shared: Shared<T>, threads: seq<Thread<T>>, added: multiset<T>, checked: multiset<T>)

  function Batch<T>(t: Thread<T>): multiset<T> {
    if t.Working? then multiset(t.batch) else multiset{}
  }

  function Held<T>(ts: seq<Thread<T>>): multiset<T> {
    if ts == [] then multiset{} else Held(ts[..|ts| - 1]) + Batch(ts[|ts| - 1])
  }

  function CountIn<T>(ts: seq<Thread<T>>): nat {
    if ts == [] then 0 else CountIn(ts[..|ts| - 1]) + if ts[|ts| - 1].Outside? then 0 else 1
  }

  function CountIdle<T>(ts: seq<Thread<T>>): nat {
    if ts == [] then 0 else CountIdle(ts[..|ts| - 1]) + if ts[|ts| - 1].Waiting? then 1 else 0
  }

  /** Checks still to be looked at by the threads that hold them. */
  function Left<T>(t: Thread<T>): int {
    if t.Working? then |t.batch| - t.done else 0
  }

  function Unlooked<T>(ts: seq<Thread<T>>): int {
    if ts == [] then 0 else Unlooked(ts[..|ts| - 1]) + Left(ts[|ts| - 1])
  }

  lemma {:induction false} ReplaceHeld<T>(ts: seq<Thread<T>>, i: nat, t: Thread<T>)
    requires i < |ts|
    ensures Held(ts[i := t]) + Batch(ts[i]) == Held(ts) + Batch(t)
  {
    var last := |ts| - 1;
    var us := ts[i := t];
    if i == last {
      assert us[..last] == ts[..last];
    } else {
      ReplaceHeld(ts[..last], i, t);
      assert us[..last] == ts[..last][i := t] && us[last] == ts[last] && ts[..last][i] == ts[i];
      assert Held(us) + Batch(ts[i]) == Held(us[..last]) + Batch(ts[i]) + Batch(ts[last]);
    }
  }

  lemma {:induction false} ReplaceCounts<T>(ts: seq<Thread<T>>, i: nat, t: Thread<T>)
    requires i < |ts|
    ensures CountIn(ts[i := t]) + (if ts[i].Outside? then 0 else 1) == CountIn(ts) + if t.Outside? then 0 else 1
    ensures CountIdle(ts[i := t]) + (if ts[i].Waiting? then 1 else 0) == CountIdle(ts) + if t.Waiting? then 1 else 0
    ensures Unlooked(ts[i := t]) - Left(t) == Unlooked(ts) - Left(ts[i])
  {
    var last := |ts| - 1;
    var us := ts[i := t];
    if i == last {
      assert us[..last] == ts[..last];
    } else {
      ReplaceCounts(ts[..last], i, t);
      assert us[..last] == ts[..last][i := t] && us[last] == ts[last];
    }
  }

  // ---------------------------------------------------------------- steps

  datatype Step<T> =
    | Enter(i: nat)                          // a thread calls Loop
    | Check(i: nat)                          // a thread looks at the next check of its batch
    | Finish(i: nat)                         // a thread has been through its batch and takes the lock
    | Wake(i: nat)                           // a sleeping thread wakes, notified or not
    | Add(checks: seq<T>, woken: nat)        // the master, outside Loop, adds checks

  predicate Enabled<T>(s: State<T>, step: Step<T>) {
    match step
    case Enter(i) => i < |s.threads| && s.threads[i].Outside?
    case Check(i) => i < |s.threads| && s.threads[i].Working? && s.threads[i].done < |s.threads[i].batch|
    case Finish(i) => i < |s.threads| && s.threads[i].Working? && s.threads[i].done == |s.threads[i].batch|
    case Wake(i) => i < |s.threads| && s.threads[i].Waiting?
    case Add(_, _) => |s.threads| > 0 && s.threads[0].Outside?
  }

  function NotifyMaster<T>(ts: seq<Thread<T>>): (r: seq<Thread<T>>)
    ensures |r| == |ts|
  {
    if |ts| > 0 && ts[0].Waiting? then ts[0 := Waiting(true)] else ts
  }

  function NotifyWorkers<T>(ts: seq<Thread<T>>, many: bool, woken: nat): (r: seq<Thread<T>>)
    ensures |r| == |ts|
    ensures forall i :: 0 <= i < |ts| ==>
              r[i] == if 0 < i && ts[i].Waiting? && (many || i == woken) then Waiting(true) else ts[i]
  {
    seq(|ts|, i requires 0 <= i < |ts| => if 0 < i && ts[i].Waiting? && (many || i == woken) then Waiting(true) else ts[i])
  }

  /** Thread i has the lock and has accounted for what it did before; it is in no other list of threads. */
  function Locked<T>(s: State<T>, step: Step<T>): State<T>
    requires Enabled(s, step) && !step.Check? && !step.Add?
  {
    var u := s.(threads := s.threads[step.i := Outside]);
    match step
    case Enter(i) => u.(shared := CleanUp(s.shared, 0, true))
    case Wake(i) => u.(shared := s.shared.(nIdle := s.shared.nIdle - 1))
    case Finish(i) =>
      var t := s.threads[i];
      var shared := CleanUp(s.shared, |t.batch|, t.fOk);
      u.(shared := shared, checked := s.checked + multiset(t.batch),
         threads := if shared.nTodo == 0 && i != 0 then NotifyMaster(u.threads) else u.threads)
  }

  /** What thread i finds once it has the lock. */
  function Decision<T>(nBatchSize: nat, s: State<T>, i: nat): (Shared<T>, Section<T>)
  {
    Decide(s.shared, i == 0, nBatchSize)
  }

  /** Thread i gives the lock up again. Only the master's return resets the record. */
  function Release<T>(nBatchSize: nat, s: State<T>, i: nat): State<T>
    requires i < |s.threads|
  {
    var (shared, section) := Decision(nBatchSize, s, i);
    match section
    case Return(_) =>
      var added := if i == 0 then multiset{} else s.added;
      State(shared, s.threads[i := Outside], added, if i == 0 then multiset{} else s.checked)
    case Sleep => s.(shared := shared, threads := s.threads[i := Waiting(false)])
    case Take(batch, fOk) => s.(shared := shared, threads := s.threads[i := Working(batch, 0, fOk)])
  }

  function CheckNext<T>(ok: T -> bool, s: State<T>, i: nat): State<T>
    requires Enabled(s, Check(i))
  {
    var t := s.threads[i];
    s.(threads := s.threads[i := t.(done := t.done + 1, fOk := t.fOk && ok(t.batch[t.done]))])
  }

  function AddChecks<T>(s: State<T>, checks: seq<T>, woken: nat): State<T> {
    s.(shared := Enqueue(s.shared, checks), added := s.added + multiset(checks),
       threads := if checks == [] then s.threads else NotifyWorkers(s.threads, |checks| > 1, woken))
  }

  /** Two checks or more wake every worker that sleeps, one check wakes the one picked; nobody else is touched. */
  lemma AddWakes<T>(s: State<T>, checks: seq<T>, woken: nat)
    requires checks != []
    ensures var u := AddChecks(s, checks, woken);
            && |u.threads| == |s.threads|
            && (forall i :: 0 < i < |s.threads| && (|checks| > 1 || i == woken) ==> u.threads[i] != Waiting(false))
            && (forall i :: 0 <= i < |s.threads| && !s.threads[i].Waiting? ==> u.threads[i] == s.threads[i])
            && (forall i :: 0 <= i < |s.threads| && s.threads[i].Waiting? ==> u.threads[i].Waiting?)
  {
  }

  // ---------------------------------------------------------------- the invariant

  predicate Clean<T(==)>(ok: T -> bool, m: multiset<T>) {
    forall c :: c in m ==> ok(c)
  }

  /** A batch in progress: its result is true only while nothing looked at has failed, and false only if something
      has, here or among the checks accounted for. */
  ghost predicate Progress<T>(ok: T -> bool, t: Thread<T>, checked: multiset<T>) {
    t.Working? ==>
      && t.batch != [] && t.done <= |t.batch|
      && (t.fOk ==> forall j :: 0 <= j < t.done ==> ok(t.batch[j]))
      && (!t.fOk ==> !Clean(ok, checked) || exists j :: 0 <= j < t.done && !ok(t.batch[j]))
  }

  /** What holds whenever the mutex is free -- or is held by one more thread than the counts know of. */
  ghost predicate Consistent<T>(ok: T -> bool, s: State<T>, holders: nat) {
    && |s.threads| > 0
    && s.shared.nTotal == CountIn(s.threads) + holders
    && s.shared.nIdle == CountIdle(s.threads)
    && s.shared.nTodo == |s.shared.queue| + |Held(s.threads)|
    && s.added == multiset(s.shared.queue) + Held(s.threads) + s.checked
    && (s.shared.fAllOk <==> Clean(ok, s.checked))
    && (forall i :: 0 <= i < |s.threads| ==> Progress(ok, s.threads[i], s.checked))
    && (s.threads[0] == Waiting(false) ==> s.shared.queue == [] && s.shared.nTodo > 0)
  }

  ghost predicate Inv<T>(ok: T -> bool, s: State<T>) {
    Consistent(ok, s, 0)
  }

  // ---------------------------------------------------------------- every step keeps it

  /** Being notified changes nothing that is counted. */
  lemma {:induction false} NotifyKeeps<T>(ts: seq<Thread<T>>, us: seq<Thread<T>>)
    requires |ts| == |us|
    requires forall i :: 0 <= i < |ts| ==> us[i] == ts[i] || (ts[i].Waiting? && us[i].Waiting?)
    ensures Held(us) == Held(ts) && CountIn(us) == CountIn(ts) && CountIdle(us) == CountIdle(ts) && Unlooked(us) == Unlooked(ts)
  {
    if ts != [] {
      var last := |ts| - 1;
      NotifyKeeps(ts[..last], us[..last]);
      assert us[last] == ts[last] || (ts[last].Waiting? && us[last].Waiting?);
    }
  }

  /** A finished batch's result joined to the verdict so far is the verdict on everything accounted for. */
  lemma VerdictAfterBatch<T>(ok: T -> bool, t: Thread<T>, checked: multiset<T>)
    requires t.Working? && Progress(ok, t, checked) && t.done == |t.batch|
    ensures Clean(ok, checked + multiset(t.batch)) <==> Clean(ok, checked) && t.fOk
  {
  }

  lemma ProgressGrows<T>(ok: T -> bool, t: Thread<T>, checked: multiset<T>, more: multiset<T>)
    requires Progress(ok, t, checked)
    ensures Progress(ok, t, checked + more)
  {
  }

  lemma FinishConsistent<T>(ok: T -> bool, s: State<T>, i: nat)
    requires Inv(ok, s) && Enabled(s, Finish(i))
    ensures Consistent(ok, Locked(s, Finish(i)), 1)
  {
    hide Clean, Progress, Held, CountIn, CountIdle, Unlooked;
    var t := s.threads[i];
    var u := s.threads[i := Outside];
    var v := Locked(s, Finish(i));
    BatchNotEmpty(ok, t, s.checked);
    ReplaceHeld(s.threads, i, Outside);
    ReplaceCounts(s.threads, i, Outside);
    VerdictAfterBatch(ok, t, s.checked);
    NotifyKeeps(u, v.threads);
    assert Held(u) + multiset(t.batch) == Held(s.threads);
    forall k | 0 <= k < |v.threads|
      ensures Progress(ok, v.threads[k], v.checked)
    {
      IdleProgress(ok, v.threads[k], v.checked);
      ProgressGrows(ok, s.threads[k], s.checked, multiset(t.batch));
    }
  }

  lemma BatchNotEmpty<T>(ok: T -> bool, t: Thread<T>, checked: multiset<T>)
    requires t.Working? && Progress(ok, t, checked)
    ensures |t.batch| > 0
  {
  }

  lemma IdleProgress<T>(ok: T -> bool, t: Thread<T>, checked: multiset<T>)
    ensures !t.Working? ==> Progress(ok, t, checked)
  {
  }

  /** With the lock, a thread is one more than the counts of Loop's threads know of. */
  lemma LockedConsistent<T>(ok: T -> bool, s: State<T>, step: Step<T>)
    requires Inv(ok, s) && Enabled(s, step) && !step.Check? && !step.Add?
    ensures Consistent(ok, Locked(s, step), 1)
    ensures step.i < |Locked(s, step).threads| && Locked(s, step).threads[step.i].Outside?
  {
    hide Clean, Progress, Held, CountIn, CountIdle, Unlooked;
    var i := step.i;
    if step.Finish? {
      FinishConsistent(ok, s, i);
    } else {
      ReplaceHeld(s.threads, i, Outside);
      ReplaceCounts(s.threads, i, Outside);
      IdleProgress(ok, Outside, s.checked);
      SameHeld(s.threads, i, Outside);
    }
  }

  lemma SameHeld<T>(ts: seq<Thread<T>>, i: nat, t: Thread<T>)
    requires i < |ts| && Batch(ts[i]) == Batch(t)
    ensures Held(ts[i := t]) == Held(ts)
  {
    var b := Batch(t);
    ReplaceHeld(ts, i, t);
    assert Held(ts[i := t]) + b - b == Held(ts) + b - b;
    assert Held(ts[i := t]) + b - b == Held(ts[i := t]) && Held(ts) + b - b == Held(ts);
  }

  lemma {:induction false} HeldContains<T>(ts: seq<Thread<T>>, i: nat)
    requires i < |ts|
    ensures Batch(ts[i]) <= Held(ts)
  {
    var last := |ts| - 1;
    if i < last {
      HeldContains(ts[..last], i);
    }
  }

  lemma NobodyWorks<T>(ok: T -> bool, ts: seq<Thread<T>>, i: nat, checked: multiset<T>)
    requires i < |ts| && Held(ts) == multiset{} && Progress(ok, ts[i], checked)
    ensures !ts[i].Working?
  {
  }

  lemma ReturnConsistent<T>(ok: T -> bool, nBatchSize: nat, s: State<T>, i: nat)
    requires Consistent(ok, s, 1) && i < |s.threads| && s.threads[i].Outside?
    requires Decision(nBatchSize, s, i).1.Return?
    ensures Inv(ok, Release(nBatchSize, s, i))
  {
    hide Clean, Progress, Held, CountIn, CountIdle, Unlooked, BatchSize;
    assert s.threads[i := Outside] == s.threads;
    NothingLeft(ok, s);
    forall k | 0 <= k < |s.threads|
      ensures Progress(ok, s.threads[k], multiset{})
    {
      NobodyWorks(ok, s.threads, k, s.checked);
      IdleProgress(ok, s.threads[k], multiset{});
    }
  }

  lemma SleepConsistent<T>(ok: T -> bool, nBatchSize: nat, s: State<T>, i: nat)
    requires Consistent(ok, s, 1) && i < |s.threads| && s.threads[i].Outside?
    requires Decision(nBatchSize, s, i).1.Sleep?
    ensures Inv(ok, Release(nBatchSize, s, i))
  {
    hide Clean, Progress, Held, CountIn, CountIdle, Unlooked, BatchSize;
    SameHeld(s.threads, i, Waiting(false));
    ReplaceCounts(s.threads, i, Waiting(false));
    IdleProgress(ok, Waiting(false), s.checked);
  }

  lemma TakeConsistent<T>(ok: T -> bool, nBatchSize: nat, s: State<T>, i: nat)
    requires Consistent(ok, s, 1) && i < |s.threads| && s.threads[i].Outside?
    requires Decision(nBatchSize, s, i).1.Take?
    ensures Inv(ok, Release(nBatchSize, s, i))
  {
    hide Clean, Progress, Held, CountIn, CountIdle, Unlooked, Decide;
    TakeMoves(s.shared, i == 0, nBatchSize);
    var section := Decision(nBatchSize, s, i).1;
    var t := Working(section.batch, 0, section.fOk);
    GainBatch(s.threads, i, t);
    ReplaceCounts(s.threads, i, t);
    FreshProgress(ok, t, s.checked);
  }

  /** Taking a batch moves checks, each of them once, and changes nothing else. */
  lemma TakeMoves<T>(s: Shared<T>, fMaster: bool, nBatchSize: nat)
    requires Decide(s, fMaster, nBatchSize).1.Take?
    ensures var (s', section) := Decide(s, fMaster, nBatchSize);
            && section.batch != [] && section.fOk == s.fAllOk && s.queue != []
            && s' == s.(queue := s'.queue)
            && multiset(s'.queue) + multiset(section.batch) == multiset(s.queue)
            && |s'.queue| + |section.batch| == |s.queue|
  {
    hide BatchSize;
    BatchSizeFits(nBatchSize, |s.queue|, s.nTotal + s.nIdle);
    TakenFromEnd(s.queue, |s.queue| - BatchSize(nBatchSize, |s.queue|, s.nTotal + s.nIdle));
  }

  lemma GainBatch<T>(ts: seq<Thread<T>>, i: nat, t: Thread<T>)
    requires i < |ts| && ts[i].Outside?
    ensures Held(ts[i := t]) == Held(ts) + Batch(t)
  {
    ReplaceHeld(ts, i, t);
    assert Held(ts[i := t]) + Batch(ts[i]) == Held(ts[i := t]);
  }

  lemma ReleaseConsistent<T>(ok: T -> bool, nBatchSize: nat, s: State<T>, i: nat)
    requires Consistent(ok, s, 1) && i < |s.threads| && s.threads[i].Outside?
    ensures Inv(ok, Release(nBatchSize, s, i))
  {
    hide Consistent, Release, Decide;
    match Decision(nBatchSize, s, i).1
    case Return(_) => ReturnConsistent(ok, nBatchSize, s, i);
    case Sleep => SleepConsistent(ok, nBatchSize, s, i);
    case Take(_, _) => TakeConsistent(ok, nBatchSize, s, i);
  }

  lemma TakenFromEnd<T>(queue: seq<T>, rest: nat)
    requires rest <= |queue|
    ensures multiset(queue[..rest]) + multiset(Reversed(queue[rest..])) == multiset(queue)
  {
    ReversedSame(queue[rest..]);
    assert queue == queue[..rest] + queue[rest..];
  }

  lemma {:induction false} ReversedSame<T>(s: seq<T>)
    ensures multiset(Reversed(s)) == multiset(s)
  {
    if s != [] {
      ReversedSame(s[1..]);
      assert Reversed(s) == Reversed(s[1..]) + [s[0]];
      assert s == [s[0]] + s[1..];
    }
  }

  lemma FreshProgress<T>(ok: T -> bool, t: Thread<T>, checked: multiset<T>)
    requires t.Working? && t.batch != [] && t.done == 0 && (t.fOk <==> Clean(ok, checked))
    ensures Progress(ok, t, checked)
  {
  }

  /** Nothing to do means nothing is queued or held: the record is complete. */
  lemma NothingLeft<T>(ok: T -> bool, s: State<T>)
    requires s.shared.nTodo == |s.shared.queue| + |Held(s.threads)|
    requires s.added == multiset(s.shared.queue) + Held(s.threads) + s.checked
    ensures s.shared.nTodo == 0 ==> Held(s.threads) == multiset{} && s.added == s.checked
    ensures Clean(ok, multiset{})
  {
  }

  lemma CheckConsistent<T>(ok: T -> bool, s: State<T>, i: nat)
    requires Inv(ok, s) && Enabled(s, Check(i))
    ensures Inv(ok, CheckNext(ok, s, i))
  {
    hide Clean, Progress, Held, CountIn, CountIdle, Unlooked;
    var t := s.threads[i];
    var u := t.(done := t.done + 1, fOk := t.fOk && ok(t.batch[t.done]));
    SameHeld(s.threads, i, u);
    ReplaceCounts(s.threads, i, u);
    CheckProgress(ok, t, s.checked);
  }

  lemma CheckProgress<T>(ok: T -> bool, t: Thread<T>, checked: multiset<T>)
    requires t.Working? && Progress(ok, t, checked) && t.done < |t.batch|
    ensures Progress(ok, t.(done := t.done + 1, fOk := t.fOk && ok(t.batch[t.done])), checked)
  {
  }

  lemma AddConsistent<T>(ok: T -> bool, s: State<T>, checks: seq<T>, woken: nat)
    requires Inv(ok, s) && Enabled(s, Add(checks, woken))
    ensures Inv(ok, AddChecks(s, checks, woken))
  {
    hide Clean, Progress, Held, CountIn, CountIdle, Unlooked;
    var u := AddChecks(s, checks, woken);
    NotifyKeeps(s.threads, u.threads);
    forall k | 0 <= k < |u.threads|
      ensures Progress(ok, u.threads[k], s.checked)
    {
      IdleProgress(ok, u.threads[k], s.checked);
    }
  }

  // ---------------------------------------------------------------- whole runs

  function Next<T>(ok: T -> bool, nBatchSize: nat, s: State<T>, step: Step<T>): State<T>
    requires Enabled(s, step)
  {
    match step
    case Check(i) => CheckNext(ok, s, i)
    case Add(checks, woken) => AddChecks(s, checks, woken)
    case _ => Release(nBatchSize, Locked(s, step), step.i)
  }

  lemma NextInv<T>(ok: T -> bool, nBatchSize: nat, s: State<T>, step: Step<T>)
    requires Inv(ok, s) && Enabled(s, step)
    ensures Inv(ok, Next(ok, nBatchSize, s, step))
  {
    hide Inv, Consistent, Locked, Release;
    match step
    case Check(i) => CheckConsistent(ok, s, i);
    case Add(checks, woken) => AddConsistent(ok, s, checks, woken);
    case _ =>
      LockedConsistent(ok, s, step);
      ReleaseConsistent(ok, nBatchSize, Locked(s, step), step.i);
  }

  function Initial<T>(threads: nat): State<T> {
    State(Shared([], 0, 0, true, 0, false), seq(threads, _ => Outside), multiset{}, multiset{})
  }

  lemma {:induction false} AllOutside<T>(ts: seq<Thread<T>>)
    requires forall i :: 0 <= i < |ts| ==> ts[i].Outside?
    ensures Held(ts) == multiset{} && CountIn(ts) == 0 && CountIdle(ts) == 0 && Unlooked(ts) == 0
  {
    if ts != [] {
      AllOutside(ts[..|ts| - 1]);
    }
  }

  /** Any interleaving, of any number of threads. */
  ghost predicate IsRun<T>(ok: T -> bool, nBatchSize: nat, states: seq<State<T>>, steps: seq<Step<T>>) {
    && |states| == |steps| + 1
    && |states[0].threads| > 0 && states[0] == Initial(|states[0].threads|)
    && forall k :: 0 <= k < |steps| ==> Enabled(states[k], steps[k]) && states[k + 1] == Next(ok, nBatchSize, states[k], steps[k])
  }

  /** Every state of every run has the invariant. */
  lemma {:induction false} RunInv<T>(ok: T -> bool, nBatchSize: nat, states: seq<State<T>>, steps: seq<Step<T>>, k: nat)
    requires IsRun(ok, nBatchSize, states, steps) && k < |states|
    ensures Inv(ok, states[k])
  {
    hide Inv, Next, Enabled;
    if k == 0 {
      InitialInv(ok, states[0]);
    } else {
      RunInv(ok, nBatchSize, states, steps, k - 1);
      NextInv(ok, nBatchSize, states[k - 1], steps[k - 1]);
      assert states[k - 1 + 1] == states[k];
    }
  }

  lemma InitialInv<T>(ok: T -> bool, s: State<T>)
    requires |s.threads| > 0 && s == Initial(|s.threads|)
    ensures Inv(ok, s)
  {
    AllOutside(s.threads);
  }

  /** Wait returns the conjunction of all checks added since the last reset, each accounted for exactly once; skipping
      checks after a failure neither hides nor invents one. */
  lemma WaitIsConjunction<T>(ok: T -> bool, nBatchSize: nat, s: State<T>, step: Step<T>)
    requires Inv(ok, s) && Enabled(s, step) && !step.Check? && !step.Add? && step.i == 0
    ensures var u := Locked(s, step);
            var section := Decision(nBatchSize, u, 0).1;
            section.Return? ==> u.checked == s.added && (section.result <==> Clean(ok, s.added))
  {
    hide Clean, Progress, Held, CountIn, CountIdle, Unlooked;
    LockedConsistent(ok, s, step);
    NothingLeft(ok, Locked(s, step));
  }

  lemma EveryWaitIsConjunction<T>(ok: T -> bool, nBatchSize: nat, states: seq<State<T>>, steps: seq<Step<T>>, k: nat)
    requires IsRun(ok, nBatchSize, states, steps) && k < |steps|
    requires !steps[k].Check? && !steps[k].Add? && steps[k].i == 0
    ensures var u := Locked(states[k], steps[k]);
            var section := Decision(nBatchSize, u, 0).1;
            section.Return? ==> u.checked == states[k].added && (section.result <==> Clean(ok, states[k].added))
  {
    hide Inv;
    RunInv(ok, nBatchSize, states, steps, k);
    WaitIsConjunction(ok, nBatchSize, states[k], steps[k]);
  }

  lemma {:induction false} SomebodyHolds<T>(ts: seq<Thread<T>>) returns (i: nat)
    requires Held(ts) != multiset{}
    ensures i < |ts| && ts[i].Working?
  {
    i := |ts| - 1;
    if !ts[i].Working? {
      i := SomebodyHolds(ts[..i]);
    }
  }

  /** No wakeup is lost: while the master sleeps unnotified, the queue is empty and a worker holds a batch, whose end
      will account for it -- and notify the master if it was the last. */
  lemma MasterSleepsSafely<T>(ok: T -> bool, s: State<T>)
    requires Inv(ok, s) && s.threads[0] == Waiting(false)
    ensures s.shared.queue == [] && exists i :: 0 < i < |s.threads| && s.threads[i].Working? && s.threads[i].batch != []
  {
    hide Held;
    if Held(s.threads) == multiset{} {
      assert false;
    }
    var i := SomebodyHolds(s.threads);
    assert i != 0 && Progress(ok, s.threads[i], s.checked);
  }

  /** Whenever the mutex is free, the threads in Loop are the idle ones and the ones with a batch. */
  lemma {:induction false} CountsSplit<T>(ts: seq<Thread<T>>)
    ensures CountIdle(ts) <= CountIn(ts)
    ensures CountIn(ts) == CountIdle(ts) <==> forall i :: 0 <= i < |ts| ==> !ts[i].Working?
  {
    if ts != [] {
      var last := |ts| - 1;
      CountsSplit(ts[..last]);
      assert forall i :: 0 <= i < last ==> ts[..last][i] == ts[i];
    }
  }

  /** Between scopes -- nothing added since the master last returned -- the assertions of the controller hold. */
  lemma UnusedBetweenScopes<T>(ok: T -> bool, s: State<T>)
    requires Inv(ok, s) && s.added == multiset{}
    ensures s.shared.nTotal == s.shared.nIdle && s.shared.nTodo == 0 && s.shared.fAllOk
  {
    hide Held, CountIn, CountIdle;
    var inQueue := multiset(s.shared.queue);
    assert inQueue <= s.added && Held(s.threads) <= s.added && s.checked <= s.added;
    assert |inQueue| == |s.shared.queue| == 0;
    forall i | 0 <= i < |s.threads|
      ensures !s.threads[i].Working?
    {
      NobodyWorks(ok, s.threads, i, s.checked);
    }
    CountsSplit(s.threads);
  }

  // ---------------------------------------------------------------- progress

  /** Work left: checks not looked at, queued, and not accounted for. */
  function Rank<T>(s: State<T>): int {
    Unlooked(s.threads) + |s.shared.queue| + s.shared.nTodo
  }

  lemma LockedRank<T>(ok: T -> bool, s: State<T>, step: Step<T>)
    requires Inv(ok, s) && Enabled(s, step) && !step.Check? && !step.Add?
    ensures Rank(Locked(s, step)) == Rank(s) - if step.Finish? then |s.threads[step.i].batch| else 0
  {
    hide Clean, Progress, Held, CountIn, CountIdle, Unlooked;
    var u := s.threads[step.i := Outside];
    ReplaceCounts(s.threads, step.i, Outside);
    NotifyKeeps(u, Locked(s, step).threads);
    if step.Finish? {
      BatchNotEmpty(ok, s.threads[step.i], s.checked);
    }
  }

  lemma ReleaseRank<T>(nBatchSize: nat, s: State<T>, i: nat)
    requires i < |s.threads| && s.threads[i].Outside?
    ensures Rank(Release(nBatchSize, s, i)) == Rank(s)
  {
    hide Unlooked, Decide;
    var (shared, section) := Decision(nBatchSize, s, i);
    ReplaceCounts(s.threads, i, Release(nBatchSize, s, i).threads[i]);
    DecideTodo(s.shared, i == 0, nBatchSize);
    if section.Take? {
      TakeMoves(s.shared, i == 0, nBatchSize);
    }
  }

  lemma DecideTodo<T>(s: Shared<T>, fMaster: bool, nBatchSize: nat)
    ensures var (s', section) := Decide(s, fMaster, nBatchSize);
            s'.nTodo == s.nTodo && (!section.Take? ==> s'.queue == s.queue)
  {
  }

  lemma {:induction false} UnlookedBound<T>(ok: T -> bool, ts: seq<Thread<T>>, checked: multiset<T>)
    requires forall i :: 0 <= i < |ts| ==> Progress(ok, ts[i], checked)
    ensures 0 <= Unlooked(ts) <= |Held(ts)|
  {
    if ts != [] {
      UnlookedBound(ok, ts[..|ts| - 1], checked);
      assert Progress(ok, ts[|ts| - 1], checked);
    }
  }

  /** Apart from additions, no step adds work, and every step of a thread with a batch takes some away: from n added
      checks the threads make at most 2n such steps before the master can return. */
  lemma WorkRunsOut<T>(ok: T -> bool, nBatchSize: nat, s: State<T>, step: Step<T>)
    requires Inv(ok, s) && Enabled(s, step) && !step.Add?
    ensures 0 <= Rank(s) <= 2 * s.shared.nTodo
    ensures Rank(Next(ok, nBatchSize, s, step)) <= Rank(s)
    ensures step.Check? || step.Finish? ==> Rank(Next(ok, nBatchSize, s, step)) < Rank(s)
  {
    hide Clean, Progress, Held, CountIn, CountIdle, Unlooked, Locked, Release;
    UnlookedBound(ok, s.threads, s.checked);
    if step.Check? {
      ReplaceCounts(s.threads, step.i, CheckNext(ok, s, step.i).threads[step.i]);
    } else {
      LockedConsistent(ok, s, step);
      LockedRank(ok, s, step);
      ReleaseRank(nBatchSize, Locked(s, step), step.i);
      if step.Finish? {
        BatchNotEmpty(ok, s.threads[step.i], s.checked);
      }
    }
  }
}
