/**
 Write-back errors as descriptors see them.  A file keeps a word that numbers its errors and has a
 bit for whether the latest one has been reported; a descriptor keeps the word it last took.  A
 check reads the word and, in a second step, swaps the bit in and moves its mark, so that errors
 and other checks can come in between.
 */
module WriteErrors {
  type Fd = nat

  /** The highest number; the one after it is 1, because 0 stands for no error. */
  const CYCLE: nat := 0x7fff_ffff

  /** The 31 low bits and the top bit. */
  datatype Word = Word(number: nat, reported: bool)

  const NO_ERROR: Word := Word(0, false)

  /** A word that was taken and, as history, how many errors had happened by then. */
  datatype Mark = Mark(word: Word, seen: nat)

  datatype State = State(
    word: Word,
    errors: nat,                  // history: how many errors there were
    marks: map<Fd, Mark>,         // one for each open descriptor
    checks: map<Fd, Mark>)        // checks that have read the word and owe their second step

  datatype Action =
    | Fail                        // a load or a write-back fails
    | Open(fd: Fd)
    | Close(fd: Fd)
    | Check(fd: Fd)               // the first step: it is decided whether an error is reported
    | Take(fd: Fd)                // the second

  function Following(w: Word): Word {
    var n := (w.number + 1) % (CYCLE + 1);
    Word(if n == 0 then 1 else n, false)
  }

  /**
   The mark of a new descriptor: the current word, or, when its error was never reported, the word that
   differs from every error.
   */
  function Sampled(w: Word): Word { if w.reported then w else NO_ERROR }

  /** A check of the descriptor reports an error. */
  predicate Reports(s: State, fd: Fd)
    requires fd in s.marks
  {
    s.word != NO_ERROR && s.word != s.marks[fd].word
  }

  predicate Enabled(s: State, a: Action) {
    match a
    case Fail => true
    case Open(fd) => fd !in s.marks && fd !in s.checks
    case Close(fd) => fd in s.marks && fd !in s.checks
    case Check(fd) => fd in s.marks && fd !in s.checks
    case Take(fd) => fd in s.checks && fd in s.marks
  }

  function Next(s: State, a: Action): State
    requires Enabled(s, a)
  {
    match a
    case Fail => s.(word := Following(s.word), errors := s.errors + 1)
    case Open(fd) =>
      var owed := if s.word.reported || s.errors == 0 then 0 else 1;
      s.(marks := s.marks[fd := Mark(Sampled(s.word), s.errors - owed)])
    case Close(fd) => s.(marks := s.marks - {fd})
    case Check(fd) => if Reports(s, fd) then s.(checks := s.checks[fd := Mark(s.word, s.errors)]) else s
    case Take(fd) =>
      var m := s.checks[fd];
      var taken := Word(m.word.number, true);
      State(if s.word == m.word then taken else s.word, s.errors,
            s.marks[fd := Mark(taken, m.seen)], s.checks - {fd})
  }

  // ---- Runs ----

  const START: State := State(NO_ERROR, 0, map[], map[])

  ghost predicate Steps(s: State, s': State) { exists a :: Enabled(s, a) && s' == Next(s, a) }

  ghost predicate IsRun(run: seq<State>) {
    |run| > 0 && run[0] == START && forall k :: 0 <= k < |run| - 1 ==> Steps(run[k], run[k + 1])
  }

  ghost predicate Reachable(s: State) { exists run :: IsRun(run) && run[|run| - 1] == s }

  // ---- Invariant ----

  /** The number of the e-th error. */
  function Number(e: nat): nat { if e == 0 then 0 else (e - 1) % CYCLE + 1 }

  predicate MarkOk(s: State, m: Mark) {
    if m.word == NO_ERROR then m.seen < s.errors || m.seen == s.errors == 0
    else m.word == Word(Number(m.seen), true) && 0 < m.seen <= s.errors && (m.seen == s.errors ==> s.word.reported)
  }

  predicate CheckOk(s: State, m: Mark) {
    m.word.number == Number(m.seen) && 0 < m.seen <= s.errors
        && (m.seen == s.errors && m.word.reported ==> s.word.reported)
  }

  ghost predicate Inv(s: State) {
    && s.word.number == Number(s.errors) && (s.word.reported ==> s.errors > 0)
    && (forall fd :: fd in s.marks ==> MarkOk(s, s.marks[fd]))
    && (forall fd :: fd in s.checks ==> CheckOk(s, s.checks[fd]))
  }

  lemma NextNumber(e: nat, w: Word)
    requires w.number == Number(e)
    ensures Following(w).number == Number(e + 1)
  {
    if e > 0 {
      assert e % CYCLE == if (e - 1) % CYCLE + 1 == CYCLE then 0 else (e - 1) % CYCLE + 1;
    }
  }

  /** Two errors have the same number exactly when a multiple of the cycle lies between them. */
  lemma SameNumber(a: nat, b: nat)
    requires 0 < a <= b
    ensures Number(a) == Number(b) <==> (b - a) % CYCLE == 0
  {
    var x, y := a - 1, b - 1;
    var d := y - x;
    assert y == x + d;
    assert y % CYCLE == (x % CYCLE + d % CYCLE) % CYCLE;
  }

  lemma StepKeeps(s: State, a: Action)
    requires Inv(s) && Enabled(s, a)
    ensures Inv(Next(s, a))
  {
    hide Number, Following;
    NextNumber(s.errors, s.word);
    NumberPositive(s.errors);
    WordFollowing(s.word);
    var s' := Next(s, a);
    forall fd | fd in s'.marks ensures MarkOk(s', s'.marks[fd]) {
      if fd in s.marks { assert MarkOk(s, s.marks[fd]); }
      if a == Take(fd) { assert CheckOk(s, s.checks[fd]); NumberPositive(s.checks[fd].seen); }
    }
    forall fd | fd in s'.checks ensures CheckOk(s', s'.checks[fd]) {
      if fd in s.checks { assert CheckOk(s, s.checks[fd]); }
    }
  }

  lemma WordFollowing(w: Word)
    ensures !Following(w).reported
  {}

  lemma NumberPositive(e: nat)
    ensures Number(e) > 0 <==> e > 0
  {}

  lemma {:induction false} RunInv(run: seq<State>)
    requires IsRun(run)
    ensures Inv(run[|run| - 1])
  {
    var n := |run| - 1;
    if n > 0 {
      hide Inv, Next, Enabled;
      RunInv(run[..n]);
      assert Steps(run[n - 1], run[n]);
      var a :| Enabled(run[n - 1], a) && run[n] == Next(run[n - 1], a);
      StepKeeps(run[n - 1], a);
    }
  }

  // ---- What descriptors are told ----

  /** The numbers have gone round since the mark, and somebody else has taken the latest error. */
  predicate GoneRound(s: State, m: Mark)
    requires m.seen <= s.errors
  {
    m.word != NO_ERROR && s.word.reported && (s.errors - m.seen) % CYCLE == 0
  }

  /**
   In every reachable state a check reports exactly when there was an error since the mark, unless the numbers
   have gone round.
   */
  lemma ReportsIff(s: State, fd: Fd)
    requires Reachable(s) && fd in s.marks
    ensures s.marks[fd].seen <= s.errors
    ensures Reports(s, fd) <==> s.marks[fd].seen < s.errors && !GoneRound(s, s.marks[fd])
  {
    var run :| IsRun(run) && run[|run| - 1] == s;
    RunInv(run);
    var m := s.marks[fd];
    assert MarkOk(s, m);
    NumberPositive(s.errors);
    if m.word != NO_ERROR { SameNumber(m.seen, s.errors); }
  }

  /** An error is reported to a descriptor once: with no further error its next check is silent. */
  lemma ReportedOnce(s: State, fd: Fd)
    requires Reachable(s) && fd in s.checks && fd in s.marks && s.checks[fd].seen == s.errors
    ensures Reachable(Next(s, Take(fd))) && !Reports(Next(s, Take(fd)), fd)
  {
    StepReaches(s, Take(fd));
    ReportsIff(Next(s, Take(fd)), fd);
  }

  /** An error that nobody has taken is still there for a descriptor opened later. */
  lemma LeftForLater(s: State, fd: Fd)
    requires Reachable(s) && s.errors > 0 && !s.word.reported && Enabled(s, Open(fd))
    ensures Reports(Next(s, Open(fd)), fd)
  {
    StepReaches(s, Open(fd));
    ReportsIff(Next(s, Open(fd)), fd);
  }

  /** One that has been taken is not. */
  lemma NotForLater(s: State, fd: Fd)
    requires Reachable(s) && (s.errors == 0 || s.word.reported) && Enabled(s, Open(fd))
    ensures !Reports(Next(s, Open(fd)), fd)
  {
    StepReaches(s, Open(fd));
    ReportsIff(Next(s, Open(fd)), fd);
  }

  lemma StepReaches(s: State, a: Action)
    requires Reachable(s) && Enabled(s, a)
    ensures Reachable(Next(s, a))
  {
    hide Next, Enabled;
    var run :| IsRun(run) && run[|run| - 1] == s;
    var run' := run + [Next(s, a)];
    assert Steps(s, Next(s, a));
    assert IsRun(run') && run'[|run'| - 1] == Next(s, a);
  }

  /** n failures in a row. */
  lemma {:induction false} FailuresReach(s: State, n: nat) returns (s': State)
    requires Reachable(s) && Inv(s) && n > 0
    ensures Reachable(s') && s' == State(Word(Number(s.errors + n), false), s.errors + n, s.marks, s.checks)
  {
    hide Number, Following;
    s' := s;
    if n > 1 { s' := FailuresReach(s, n - 1); }
    StepReaches(s', Fail);
    NextNumber(s'.errors, s'.word);
    WordFollowing(s'.word);
    s' := Next(s', Fail);
  }

  /** After a whole cycle of errors a descriptor can miss all of them. */
  lemma CycleMissed() returns (s: State)
    ensures Reachable(s) && 0 in s.marks && s.marks[0].seen < s.errors && !Reports(s, 0)
  {
    assert IsRun([START]);
    s := START;
    StepReaches(s, Open(0)); s := Next(s, Open(0));
    StepReaches(s, Open(1)); s := Next(s, Open(1));
    StepReaches(s, Fail); s := Next(s, Fail);
    StepReaches(s, Check(0)); s := Next(s, Check(0));
    StepReaches(s, Take(0)); s := Next(s, Take(0));
    var mark := s.marks;
    assert mark == map[0 := Mark(Word(1, true), 1), 1 := Mark(NO_ERROR, 0)];
    s := FailuresReach(s, CYCLE);
    StepReaches(s, Check(1)); s := Next(s, Check(1));
    StepReaches(s, Take(1)); s := Next(s, Take(1));
  }
}
