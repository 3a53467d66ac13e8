/**
 Sleeping and waking on a pipe: any number of readers and writers, step by step.  A wake
 decided under the lock is delivered after the lock is dropped, so other steps come between.
 */
module PipeWake {
  import opened Basics

  /** The capacity of the pipe, and up to how many bytes a write goes in at once or not at all. */
  datatype Sizes = Sizes(capacity: nat, atomic: nat)

  datatype Reader =
    | RIdle
    | RAsleep                       // on the wait queue, counted as waiting
    | RWoken                        // taken off the queue, still counted
    | RWaking(wake: bool)           // has read and dropped the lock

  datatype Writer =
    | WIdle
    | WTrying(rest: nat, atomic: bool)
    | WAsleep(rest: nat, atomic: bool)
    | WWoken(rest: nat, atomic: bool)
    | WWaking(wake: bool, rest: nat, atomic: bool)

  datatype State = State(
    sizes: Sizes,
    size: nat,
    readWaiters: nat,
    writeWaiters: nat,
    threshold: nat,
    readers: seq<Reader>,
    writers: seq<Writer>)

  datatype Action =
    | Read(i: nat, want: nat)       // take the lock; read, or go to sleep
    | Deliver(i: nat, j: nat)       // wake writer j if a wake was decided and a writer sleeps
    | Resume(i: nat)                // a woken reader takes the lock again
    | Begin(j: nat, n: nat)         // a write call of n bytes
    | Try(j: nat)                   // take the lock; write, or go to sleep
    | Notify(j: nat, i: nat)        // wake reader i if a wake was decided and a reader sleeps
    | Retry(j: nat)                 // a woken writer takes the lock again

  /** The room a sleeping writer asks to be woken for. */
  function Need(z: Sizes, rest: nat, atomic: bool): nat { if atomic then rest else Min(rest, z.atomic) }

  predicate Blocked(s: State, rest: nat, atomic: bool) { if atomic then Room(s) < rest else Room(s) == 0 }

  function Room(s: State): int { s.sizes.capacity - s.size }

  function Init(z: Sizes, n: nat, m: nat): State { State(z, 0, 0, 0, 0, seq(n, _ => RIdle), seq(m, _ => WIdle)) }

  ghost predicate ReaderSleeps(readers: seq<Reader>) { exists i :: 0 <= i < |readers| && readers[i] == RAsleep }

  ghost predicate WriterSleeps(writers: seq<Writer>) { exists j :: 0 <= j < |writers| && writers[j].WAsleep? }

  ghost predicate Enabled(s: State, a: Action) {
    match a
    case Read(i, want) => i < |s.readers| && s.readers[i] == RIdle && want > 0
    case Deliver(i, j) =>
      && i < |s.readers| && s.readers[i].RWaking?
      && (s.readers[i].wake && WriterSleeps(s.writers) ==> j < |s.writers| && s.writers[j].WAsleep?)
    case Resume(i) => i < |s.readers| && s.readers[i] == RWoken
    case Begin(j, n) => j < |s.writers| && s.writers[j] == WIdle && n > 0
    case Try(j) => j < |s.writers| && s.writers[j].WTrying? && s.size <= s.sizes.capacity
    case Notify(j, i) =>
      && j < |s.writers| && s.writers[j].WWaking?
      && (s.writers[j].wake && ReaderSleeps(s.readers) ==> i < |s.readers| && s.readers[i] == RAsleep)
    case Retry(j) => j < |s.writers| && s.writers[j].WWoken?
  }

  function Less(n: nat): nat { if n > 0 then n - 1 else 0 }

  ghost function ReadNext(s: State, i: nat, want: nat): State
    requires i < |s.readers|
  {
    if s.size == 0 then s.(readWaiters := s.readWaiters + 1, readers := s.readers[i := RAsleep])
    else
      var left := s.size - Min(want, s.size);
      var wake := s.writeWaiters != 0 && left + s.threshold <= s.sizes.capacity;
      s.(size := left, readers := s.readers[i := RWaking(wake)])
  }

  ghost function TryNext(s: State, j: nat): State
    requires j < |s.writers| && s.writers[j].WTrying? && s.size <= s.sizes.capacity
  {
    var rest, atomic := s.writers[j].rest, s.writers[j].atomic;
    if Blocked(s, rest, atomic) then
      var need := Need(s.sizes, rest, atomic);
      var threshold := if s.writeWaiters == 0 || need < s.threshold then need else s.threshold;
      s.(writeWaiters := s.writeWaiters + 1, threshold := threshold, writers := s.writers[j := WAsleep(rest, atomic)])
    else
      var chunk := Min(rest, s.sizes.capacity - s.size);
      var wake := s.size == 0 && s.readWaiters != 0;
      s.(size := s.size + chunk, writers := s.writers[j := WWaking(wake, rest - chunk, atomic)])
  }

  ghost function Next(s: State, a: Action): State
    requires Enabled(s, a)
  {
    match a
    case Read(i, want) => ReadNext(s, i, want)
    case Deliver(i, j) =>
      var writers :=
        if s.readers[i].wake && WriterSleeps(s.writers)
            then s.writers[j := WWoken(s.writers[j].rest, s.writers[j].atomic)]
        else s.writers;
      s.(readers := s.readers[i := RIdle], writers := writers)
    case Resume(i) => s.(readWaiters := Less(s.readWaiters), readers := s.readers[i := RIdle])
    case Begin(j, n) => s.(writers := s.writers[j := WTrying(n, n <= s.sizes.atomic)])
    case Try(j) => TryNext(s, j)
    case Notify(j, i) =>
      var w := s.writers[j];
      s.(readers := if w.wake && ReaderSleeps(s.readers) then s.readers[i := RWoken] else s.readers,
         writers := s.writers[j := if w.rest == 0 then WIdle else WTrying(w.rest, w.atomic)])
    case Retry(j) =>
      var waiters := Less(s.writeWaiters);
      s.(writeWaiters := waiters, threshold := if waiters == 0 then 0 else s.threshold,
         writers := s.writers[j := WTrying(s.writers[j].rest, s.writers[j].atomic)])
  }

  // ---- Counting who waits ----

  predicate ReaderWaits(r: Reader) { r in {RAsleep, RWoken} }

  predicate WriterWaits(w: Writer) { w.WAsleep? || w.WWoken? }

  ghost function Count<T>(s: seq<T>, f: T -> bool): nat {
    if s == [] then 0 else Count(s[..|s| - 1], f) + if f(s[|s| - 1]) then 1 else 0
  }

  lemma {:induction false} CountUpdate<T>(s: seq<T>, f: T -> bool, i: nat, x: T)
    requires i < |s|
    ensures Count(s[i := x], f) == Count(s, f) - (if f(s[i]) then 1 else 0) + (if f(x) then 1 else 0)
  {
    var n := |s| - 1;
    if i < n {
      assert s[i := x][..n] == s[..n][i := x];
      CountUpdate(s[..n], f, i, x);
    } else {
      assert s[i := x][..n] == s[..n];
    }
  }

  lemma {:induction false} CountAtLeast<T>(s: seq<T>, f: T -> bool, i: nat)
    requires i < |s| && f(s[i])
    ensures Count(s, f) > 0
  {
    var n := |s| - 1;
    if i < n {
      assert s[..n][i] == s[i];
      CountAtLeast(s[..n], f, i);
    }
  }

  lemma {:induction false} CountNone<T>(s: seq<T>, f: T -> bool)
    requires forall i :: 0 <= i < |s| ==> !f(s[i])
    ensures Count(s, f) == 0
  {
    if s != [] { CountNone(s[..|s| - 1], f); }
  }

  // ---- What every step keeps ----

  ghost predicate AllReadersAsleep(readers: seq<Reader>) { forall i :: 0 <= i < |readers| ==> readers[i] == RAsleep }

  ghost predicate AllWritersAsleep(writers: seq<Writer>) { forall j :: 0 <= j < |writers| ==> writers[j].WAsleep? }

  /** A reader is about to wake a writer. */
  ghost predicate WriterWake(readers: seq<Reader>) { exists i :: 0 <= i < |readers| && readers[i] == RWaking(true) }

  /** A writer is about to wake a reader. */
  ghost predicate ReaderWake(writers: seq<Writer>) {
    exists j :: 0 <= j < |writers| && writers[j].WWaking? && writers[j].wake
  }

  predicate WriterOk(s: State, w: Writer) {
    && (!w.WIdle? && w.atomic ==> w.rest <= s.sizes.atomic)
    && (w.WTrying? || WriterWaits(w) ==> w.rest > 0)
    && (w.WAsleep? ==> s.threshold <= Need(s.sizes, w.rest, w.atomic))
  }

  /** No writer sleeps with the room it asked for, unless a reader is about to wake one. */
  ghost predicate NoWriterForgotten(s: State) {
    forall j :: 0 <= j < |s.writers| && s.writers[j].WAsleep? ==>
      Room(s) < Need(s.sizes, s.writers[j].rest, s.writers[j].atomic) || WriterWake(s.readers)
  }

  /** What goes in at once fits into the pipe. */
  predicate Fits(z: Sizes) { z.atomic <= z.capacity }

  ghost predicate Inv(s: State) {
    && s.sizes.capacity > 0 && s.sizes.atomic > 0
    && s.size <= s.sizes.capacity
    && s.readWaiters == Count(s.readers, ReaderWaits) && s.writeWaiters == Count(s.writers, WriterWaits)
    && (s.writeWaiters > 0 ==> s.threshold <= s.sizes.atomic)
    && (forall j :: 0 <= j < |s.writers| ==> WriterOk(s, s.writers[j]))
    && (Fits(s.sizes) && s.writers != [] && AllWritersAsleep(s.writers) && s.size == 0 ==> WriterWake(s.readers))
    && (s.readers != [] && AllReadersAsleep(s.readers) ==> s.size == 0 || ReaderWake(s.writers))
    && (|s.writers| <= 1 || s.readers == [] ==> NoWriterForgotten(s))
    && (s.writers == [] ==> s.size == 0)
  }

  lemma InitInv(z: Sizes, n: nat, m: nat)
    requires z.capacity > 0 && z.atomic > 0
    ensures Inv(Init(z, n, m))
  {
    var s := Init(z, n, m);
    CountNone(s.readers, ReaderWaits);
    CountNone(s.writers, WriterWaits);
    assert n > 0 ==> s.readers[0] != RAsleep;
    assert m > 0 ==> !s.writers[0].WAsleep?;
  }

  lemma ReadKeeps(s: State, i: nat, want: nat)
    requires Inv(s) && Enabled(s, Read(i, want))
    ensures Inv(ReadNext(s, i, want))
  {
    var s' := ReadNext(s, i, want);
    CountUpdate(s.readers, ReaderWaits, i, s'.readers[i]);
    hide Count;
    assert s'.readers[i] == RWaking(true) ==> WriterWake(s'.readers);
    assert s.size > 0 ==> !AllReadersAsleep(s'.readers);
    OtherWakes(s.readers, i, s'.readers[i]);
    if s.writers != [] && s.writers[0].WAsleep? { CountAtLeast(s.writers, WriterWaits, 0); }
  }

  /** A reader that is not about to wake a writer can change without taking a wake away. */
  lemma OtherWakes(readers: seq<Reader>, i: nat, r: Reader)
    requires i < |readers| && readers[i] != RWaking(true)
    ensures WriterWake(readers) ==> WriterWake(readers[i := r])
  {
    if WriterWake(readers) {
      var k :| 0 <= k < |readers| && readers[k] == RWaking(true);
      assert readers[i := r][k] == RWaking(true);
    }
  }

  lemma DeliverKeeps(s: State, i: nat, j: nat)
    requires Inv(s) && Enabled(s, Deliver(i, j))
    ensures Inv(Next(s, Deliver(i, j)))
  {
    var s' := Next(s, Deliver(i, j));
    CountUpdate(s.readers, ReaderWaits, i, RIdle);
    hide Count;
    assert s'.readers[i] == RIdle;
    if s.readers[i].wake && WriterSleeps(s.writers) {
      CountUpdate(s.writers, WriterWaits, j, s'.writers[j]);
      assert s'.writers[j].WWoken?;
    } else {
      if !s.readers[i].wake { OtherWakes(s.readers, i, RIdle); }
      assert s.writers != [] && s.writers[0].WAsleep? ==> WriterSleeps(s.writers);
    }
  }

  lemma ResumeKeeps(s: State, i: nat)
    requires Inv(s) && Enabled(s, Resume(i))
    ensures Inv(Next(s, Resume(i)))
  {
    CountUpdate(s.readers, ReaderWaits, i, RIdle);
    CountAtLeast(s.readers, ReaderWaits, i);
    hide Count;
    assert s.readers[i := RIdle][i] == RIdle;
    OtherWakes(s.readers, i, RIdle);
  }

  lemma BeginKeeps(s: State, j: nat, n: nat)
    requires Inv(s) && Enabled(s, Begin(j, n))
    ensures Inv(Next(s, Begin(j, n)))
  {
    var s' := Next(s, Begin(j, n));
    CountUpdate(s.writers, WriterWaits, j, s'.writers[j]);
    hide Count;
    assert s'.writers[j].WTrying?;
    OtherNotifies(s.writers, j, s'.writers[j]);
  }

  /** A writer that is not about to wake a reader can change without taking a wake away. */
  lemma OtherNotifies(writers: seq<Writer>, j: nat, w: Writer)
    requires j < |writers| && !(writers[j].WWaking? && writers[j].wake)
    ensures ReaderWake(writers) ==> ReaderWake(writers[j := w])
  {
    if ReaderWake(writers) {
      var k :| 0 <= k < |writers| && writers[k].WWaking? && writers[k].wake;
      assert writers[j := w][k] == writers[k];
    }
  }

  lemma TryKeeps(s: State, j: nat)
    requires Inv(s) && Enabled(s, Try(j))
    ensures Inv(TryNext(s, j))
  {
    var s' := TryNext(s, j);
    assert WriterOk(s, s.writers[j]);
    CountUpdate(s.writers, WriterWaits, j, s'.writers[j]);
    if s.readers != [] && AllReadersAsleep(s.readers) { CountAtLeast(s.readers, ReaderWaits, 0); }
    forall k | 0 <= k < |s.writers| && s.writers[k].WAsleep? ensures s.writeWaiters > 0 {
      CountAtLeast(s.writers, WriterWaits, k);
    }
    hide Count;
    OtherNotifies(s.writers, j, s'.writers[j]);
    assert s'.writers[j].WWaking? && s'.writers[j].wake ==> ReaderWake(s'.writers);
    forall k | 0 <= k < |s.writers| ensures WriterOk(s', s'.writers[k]) { assert WriterOk(s, s.writers[k]); }
  }

  lemma NotifyKeeps(s: State, j: nat, i: nat)
    requires Inv(s) && Enabled(s, Notify(j, i))
    ensures Inv(Next(s, Notify(j, i)))
  {
    var s' := Next(s, Notify(j, i));
    assert WriterOk(s, s.writers[j]);
    CountUpdate(s.writers, WriterWaits, j, s'.writers[j]);
    if s.writers[j].wake && ReaderSleeps(s.readers) {
      CountUpdate(s.readers, ReaderWaits, i, RWoken);
      OtherWakes(s.readers, i, RWoken);
      assert s'.readers[i] == RWoken;
    }
    hide Count;
    assert !s'.writers[j].WAsleep?;
    if !s.writers[j].wake { OtherNotifies(s.writers, j, s'.writers[j]); }
    assert s.readers != [] && AllReadersAsleep(s.readers) ==> s.readers[0] == RAsleep;
    forall k | 0 <= k < |s.writers| ensures WriterOk(s', s'.writers[k]) { assert WriterOk(s, s.writers[k]); }
  }

  lemma RetryKeeps(s: State, j: nat)
    requires Inv(s) && Enabled(s, Retry(j))
    ensures Inv(Next(s, Retry(j)))
  {
    var s' := Next(s, Retry(j));
    assert WriterOk(s, s.writers[j]);
    CountUpdate(s.writers, WriterWaits, j, s'.writers[j]);
    CountAtLeast(s.writers, WriterWaits, j);
    hide Count;
    OtherNotifies(s.writers, j, s'.writers[j]);
    assert s'.writers[j].WTrying?;
    forall k | 0 <= k < |s.writers| ensures WriterOk(s', s'.writers[k]) { assert WriterOk(s, s.writers[k]); }
  }

  // ---- Runs ----

  ghost predicate Steps(s: State, s': State) { exists a :: Enabled(s, a) && s' == Next(s, a) }

  ghost predicate IsRun(run: seq<State>) {
    |run| > 0 && forall k :: 0 <= k < |run| - 1 ==> Steps(run[k], run[k + 1])
  }

  lemma StepKeeps(s: State, s': State)
    requires Inv(s) && Steps(s, s')
    ensures Inv(s') && s'.sizes == s.sizes && |s'.readers| == |s.readers| && |s'.writers| == |s.writers|
  {
    hide Inv;
    var a :| Enabled(s, a) && s' == Next(s, a);
    match a
    case Read(i, want) => ReadKeeps(s, i, want);
    case Deliver(i, j) => DeliverKeeps(s, i, j);
    case Resume(i) => ResumeKeeps(s, i);
    case Begin(j, n) => BeginKeeps(s, j, n);
    case Try(j) => TryKeeps(s, j);
    case Notify(j, i) => NotifyKeeps(s, j, i);
    case Retry(j) => RetryKeeps(s, j);
  }

  lemma {:induction false} RunInv(run: seq<State>, z: Sizes, n: nat, m: nat)
    requires IsRun(run) && run[0] == Init(z, n, m) && z.capacity > 0 && z.atomic > 0
    ensures var s := run[|run| - 1]; Inv(s) && s.sizes == z && |s.readers| == n && |s.writers| == m
  {
    hide Inv, Steps;
    var k := |run| - 1;
    if k == 0 {
      InitInv(z, n, m);
    } else {
      assert IsRun(run[..k]);
      RunInv(run[..k], z, n, m);
      StepKeeps(run[k - 1], run[k]);
    }
  }

  /** A state of a pipe with n readers and m writers. */
  ghost predicate Reachable(s: State, z: Sizes, n: nat, m: nat) {
    exists run :: IsRun(run) && run[0] == Init(z, n, m) && run[|run| - 1] == s
  }

  lemma ReachableInv(s: State, z: Sizes, n: nat, m: nat)
    requires Reachable(s, z, n, m) && z.capacity > 0 && z.atomic > 0
    ensures Inv(s) && s.sizes == z && |s.readers| == n && |s.writers| == m
  {
    hide Inv, Steps;
    var run :| IsRun(run) && run[0] == Init(z, n, m) && run[|run| - 1] == s;
    RunInv(run, z, n, m);
  }

  /** However many readers and writers there are, they are never all asleep at once. */
  lemma NeverAllAsleep(s: State, z: Sizes, n: nat, m: nat)
    requires Reachable(s, z, n, m) && z.capacity > 0 && z.atomic > 0 && Fits(z) && n > 0 && m > 0
    ensures !AllAsleep(s)
  {
    hide Reachable;
    ReachableInv(s, z, n, m);
  }

  ghost predicate AllAsleep(s: State) { AllReadersAsleep(s.readers) && AllWritersAsleep(s.writers) }

  /** That needs the bound on what goes in at once: it holds in every reachable state exactly under it. */
  lemma NeverAllAsleepIff(z: Sizes, n: nat, m: nat)
    requires z.capacity > 0 && z.atomic > 0 && n > 0 && m > 0
    ensures (forall s :: Reachable(s, z, n, m) ==> !AllAsleep(s)) <==> Fits(z)
  {
    if Fits(z) {
      forall s | Reachable(s, z, n, m) ensures !AllAsleep(s) { NeverAllAsleep(s, z, n, m); }
    } else {
      var s := TooMuchAtOnce(z, n, m);
    }
  }

  /** However many sleep, a read that leaves room for one of them decides to wake one. */
  lemma ReadWakes(s: State, z: Sizes, n: nat, m: nat, i: nat, want: nat, j: nat)
    requires Reachable(s, z, n, m) && z.capacity > 0 && z.atomic > 0 && Enabled(s, Read(i, want)) && s.size > 0
    requires j < |s.writers| && s.writers[j].WAsleep?
    requires Need(s.sizes, s.writers[j].rest, s.writers[j].atomic) <= Room(Next(s, Read(i, want)))
    ensures WriterWake(Next(s, Read(i, want)).readers)
  {
    hide Reachable;
    ReachableInv(s, z, n, m);
    CountAtLeast(s.writers, WriterWaits, j);
    assert WriterOk(s, s.writers[j]);
    assert Next(s, Read(i, want)).readers[i] == RWaking(true);
  }

  // ---- Sleepers that are not needed to sleep ----

  /** No writer is forgotten in any reachable state exactly when there is at most one writer, or no reader at all. */
  lemma NoWriterForgottenIff(z: Sizes, n: nat, m: nat)
    requires z.capacity > 0 && z.atomic > 0
    ensures (forall s :: Reachable(s, z, n, m) ==> NoWriterForgotten(s)) <==> n == 0 || m <= 1
  {
    if n == 0 || m <= 1 {
      forall s | Reachable(s, z, n, m) ensures NoWriterForgotten(s) { OneWriter(s, z, n, m); }
    } else {
      var s := SecondWriterForgotten(z, n, m);
    }
  }

  lemma OneWriter(s: State, z: Sizes, n: nat, m: nat)
    requires Reachable(s, z, n, m) && z.capacity > 0 && z.atomic > 0 && (n == 0 || m <= 1)
    ensures NoWriterForgotten(s)
  {
    hide Reachable;
    ReachableInv(s, z, n, m);
  }

  /** No reader sleeps while there is data, unless a writer is about to wake one. */
  ghost predicate NoSleeperWithData(s: State) { ReaderSleeps(s.readers) && s.size > 0 ==> ReaderWake(s.writers) }

  /** That holds in every reachable state exactly when there is at most one reader, or no writer at all. */
  lemma NoSleeperWithDataIff(z: Sizes, n: nat, m: nat)
    requires z.capacity > 0 && z.atomic > 0
    ensures (forall s :: Reachable(s, z, n, m) ==> NoSleeperWithData(s)) <==> n <= 1 || m == 0
  {
    if n <= 1 || m == 0 {
      forall s | Reachable(s, z, n, m) ensures NoSleeperWithData(s) { OneReader(s, z, n, m); }
    } else {
      var s := SecondReaderForgotten(z, n, m);
    }
  }

  lemma OneReader(s: State, z: Sizes, n: nat, m: nat)
    requires Reachable(s, z, n, m) && z.capacity > 0 && z.atomic > 0 && (n <= 1 || m == 0)
    ensures NoSleeperWithData(s)
  {
    hide Reachable;
    ReachableInv(s, z, n, m);
    assert n <= 1 && ReaderSleeps(s.readers) ==> AllReadersAsleep(s.readers);
  }

  lemma Extend(run: seq<State>, a: Action) returns (longer: seq<State>)
    requires IsRun(run) && Enabled(run[|run| - 1], a)
    ensures IsRun(longer) && longer[0] == run[0] && longer[|longer| - 1] == Next(run[|run| - 1], a)
  {
    hide Next, Enabled;
    var last := run[|run| - 1];
    assert Steps(last, Next(last, a));
    hide Steps;
    longer := run + [Next(last, a)];
    forall k | 0 <= k < |longer| - 1 ensures Steps(longer[k], longer[k + 1]) {
      assert longer[k] == run[k];
      if k < |run| - 1 { assert Steps(run[k], run[k + 1]); }
    }
  }

  /** Two readers sleep and data has come; the writer is about to wake one of them. */
  lemma TwoReadersAsleep(z: Sizes, n: nat, m: nat, k: nat) returns (run: seq<State>)
    requires 0 < k <= z.capacity && n >= 2 && m > 0
    ensures IsRun(run) && run[0] == Init(z, n, m)
    ensures var s := run[|run| - 1];
            && s.size == k && |s.readers| == n && |s.writers| == m && s.readers[0] == s.readers[1] == RAsleep
            && s.writers[0].WWaking? && s.writers[0].wake && s.writers[0].rest == 0
            && forall j :: 0 < j < m ==> s.writers[j] == WIdle
  {
    run := [Init(z, n, m)];
    run := Extend(run, Read(0, 1));
    run := Extend(run, Read(1, 1));
    run := Extend(run, Begin(0, k));
    run := Extend(run, Try(0));
  }

  /** Two readers sleep, data comes and one of them is woken; it takes one byte of two: the other sleeps on. */
  lemma SecondReaderForgotten(z: Sizes, n: nat, m: nat) returns (s: State)
    requires z.capacity > 0 && n >= 2 && m > 0
    ensures Reachable(s, z, n, m) && !NoSleeperWithData(s)
  {
    var k := Min(2, z.capacity); // in a pipe of one byte the woken reader has yet to take it
    var run := TwoReadersAsleep(z, n, m, k);
    run := Extend(run, Notify(0, 0));
    run := Extend(run, Resume(0));
    if k == 2 { run := Extend(run, Read(0, 1)); }
    s := run[|run| - 1];
    assert s.readers[1] == RAsleep && s.size == 1 && forall j :: 0 <= j < m ==> s.writers[j] == WIdle;
  }

  /** Two writers of one byte sleep on a full pipe; a reader has emptied it and is about to wake one of them. */
  lemma TwoWritersAsleep(z: Sizes, n: nat, m: nat) returns (run: seq<State>)
    requires z.capacity > 0 && z.atomic > 0 && n > 0 && m >= 2
    ensures IsRun(run) && run[0] == Init(z, n, m)
    ensures var s := run[|run| - 1];
            && s.sizes == z && s.size == 0 && s.readWaiters == 0 && |s.readers| == n && |s.writers| == m
            && s.readers[0] == RWaking(true) && (forall i :: 0 < i < n ==> s.readers[i] == RIdle)
            && s.writers[0] == s.writers[1] == WAsleep(1, true)
  {
    run := FullPipe(z, n, m);
    run := Extend(run, Begin(0, 1));
    run := Extend(run, Try(0));
    run := Extend(run, Begin(1, 1));
    run := Extend(run, Try(1));
    run := Extend(run, Read(0, z.capacity));
  }

  /** The writer that is woken writes its byte and is done: the other sleeps on beside an almost empty pipe. */
  lemma SecondWriterForgotten(z: Sizes, n: nat, m: nat) returns (s: State)
    requires z.capacity > 0 && z.atomic > 0 && n > 0 && m >= 2
    ensures Reachable(s, z, n, m) && !NoWriterForgotten(s)
  {
    var run := TwoWritersAsleep(z, n, m);
    run := Extend(run, Deliver(0, 0));
    if z.capacity > 1 { // in a pipe of one byte the woken writer has yet to fill it
      run := Extend(run, Retry(0));
      run := Extend(run, Try(0));
      run := Extend(run, Notify(0, 0));
    }
    s := run[|run| - 1];
    assert s.size < z.capacity && s.writers[1] == WAsleep(1, true) && forall i :: 0 <= i < n ==> s.readers[i] == RIdle;
  }

  lemma FullPipe(z: Sizes, n: nat, m: nat) returns (run: seq<State>)
    requires z.capacity > 0 && m > 0
    ensures IsRun(run) && run[0] == Init(z, n, m) && run[|run| - 1] == Init(z, n, m).(size := z.capacity)
  {
    run := [Init(z, n, m)];
    run := Extend(run, Begin(0, z.capacity));
    run := Extend(run, Try(0));
    run := Extend(run, Notify(0, 0));
    assert run[|run| - 1].writers == Init(z, n, m).writers;
  }

  // ---- Writes that never fit ----

  /** The first readers, or writers, sleep; the others have done nothing. */
  ghost predicate FirstReaders(s: State, k: nat) {
    && k <= |s.readers|
    && forall i :: 0 <= i < |s.readers| ==> s.readers[i] == if i < k then RAsleep else RIdle
  }

  ghost predicate FirstWriters(s: State, k: nat) {
    && k <= |s.writers|
    && (forall j :: 0 <= j < k ==> s.writers[j].WAsleep?)
       && (forall j :: k <= j < |s.writers| ==> s.writers[j] == WIdle)
  }

  /** Every writer writes at once what does not fit into the pipe, every reader waits: nobody ever goes on. */
  lemma TooMuchAtOnce(z: Sizes, n: nat, m: nat) returns (s: State)
    requires !Fits(z)
    ensures Reachable(s, z, n, m) && AllAsleep(s)
  {
    var run := [Init(z, n, m)];
    for i := 0 to n
      invariant IsRun(run) && run[0] == Init(z, n, m)
      invariant var t := run[|run| - 1]; t.sizes == z && t.size == 0 && |t.readers| == n && |t.writers| == m
      invariant FirstReaders(run[|run| - 1], i) && FirstWriters(run[|run| - 1], 0)
    {
      run := Extend(run, Read(i, 1));
    }
    for j := 0 to m
      invariant IsRun(run) && run[0] == Init(z, n, m)
      invariant var t := run[|run| - 1]; t.sizes == z && t.size == 0 && |t.readers| == n && |t.writers| == m
      invariant FirstReaders(run[|run| - 1], n) && FirstWriters(run[|run| - 1], j)
    {
      run := Extend(run, Begin(j, z.capacity + 1));
      run := Extend(run, Try(j));
    }
    s := run[|run| - 1];
  }
}
