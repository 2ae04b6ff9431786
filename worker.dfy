/** One worker of exe.c, with its blocking waits turned into preconditions: the
    effect of one dequeued operation on the accounts and the progress counters
    (worker_thread, exe.c:159-284), the worker loop that runs until it meets the
    Terminate sentinel, and print_accounts. */
module Worker {
  import opened BankTypes
  import opened Sums
  import opened LockOrder
  import opened OperationQueueModel

  /** How the processing of one operation ended. Processed covers an applied
      deposit, withdrawal or transfer, and also a BalancoGeral operation, which
      touches no account but still reaches the counters. */
  datatype Outcome = Stopped | InvalidAccountId | InsufficientFunds | Processed

  /** The accounts after one operation and the account locks it took and released. */
  datatype StepResult = StepResult(outcome: Outcome, balances: seq<int>, locks: seq<LockEvent>)

  /** Only Processed operations reach the counter increments of exe.c:276-284;
      every rejection leaves the loop body early with `continue`. */
  predicate Counted(o: Outcome)
  {
    o.Processed?
  }

  predicate ValidIndex(i: int)
  {
    0 <= i < NumAccounts
  }

  /** The specification of one pass through the worker body after the dequeue. */
  function Step(b: seq<int>, op: Operation): (r: StepResult)
    requires |b| == NumAccounts
    ensures |r.balances| == NumAccounts
    ensures r.outcome == Stopped <==> op.kind == Terminate
    ensures !r.outcome.Processed? ==> r.balances == b
    ensures r.outcome == Stopped || r.outcome == InvalidAccountId ==> r.locks == []
  {
    match op.kind
    case Terminate => StepResult(Stopped, b, [])
    case SaqueDeposito => SaqueDepositoStep(b, op.accountId, op.amount)
    case Transferencia => TransferenciaStep(b, op.accountId, op.targetAccountId, op.amount)
    case BalancoGeral => StepResult(Processed, b, [])
  }

  /** A deposit (amount >= 0) or withdrawal (amount < 0) on account `accountId`
      (exe.c:166-202). */
  function SaqueDepositoStep(b: seq<int>, accountId: int, amount: int): (r: StepResult)
    requires |b| == NumAccounts
    ensures |r.balances| == NumAccounts && r.outcome != Stopped
    ensures !r.outcome.Processed? ==> r.balances == b
    ensures r.outcome == InvalidAccountId ==> r.locks == []
  {
    var i := accountId - 1;
    if !ValidIndex(i) then StepResult(InvalidAccountId, b, [])
    else if amount < 0 && b[i] + amount < 0 then StepResult(InsufficientFunds, b, [Lock(i), Unlock(i)])
    else StepResult(Processed, Adjust(b, i, amount), [Lock(i), Unlock(i)])
  }

  /** A transfer of `amount` from account `accountId` to `targetAccountId`
      (exe.c:203-274): debit the source, then credit the target. */
  function TransferenciaStep(b: seq<int>, accountId: int, targetAccountId: int, amount: int): (r: StepResult)
    requires |b| == NumAccounts
    ensures |r.balances| == NumAccounts && r.outcome != Stopped
    ensures !r.outcome.Processed? ==> r.balances == b
    ensures r.outcome == InvalidAccountId ==> r.locks == []
  {
    var from, to := accountId - 1, targetAccountId - 1;
    if !ValidIndex(from) || !ValidIndex(to) then StepResult(InvalidAccountId, b, [])
    else if b[from] - amount < 0 then
      StepResult(InsufficientFunds, b, TransferAcquire(from, to) + RejectRelease(from, to))
    else
      StepResult(Processed, Move(b, from, to, amount), TransferAcquire(from, to) + TransferRelease(from, to))
  }

  /** A deposit/withdrawal or transfer naming an account id outside 1..NumAccounts
      changes no balance, takes no lock and is not counted. */
  lemma InvalidAccountRejected(b: seq<int>, op: Operation)
    requires |b| == NumAccounts
    requires op.kind == SaqueDeposito ==> !ValidIndex(op.accountId - 1)
    requires op.kind == Transferencia ==>
               !ValidIndex(op.accountId - 1) || !ValidIndex(op.targetAccountId - 1)
    requires op.kind == SaqueDeposito || op.kind == Transferencia
    ensures Step(b, op).outcome == InvalidAccountId
    ensures Step(b, op).balances == b && Step(b, op).locks == []
    ensures !Counted(Step(b, op).outcome)
  {
  }

  /** A withdrawal is rejected exactly when it would overdraw the account and is
      applied otherwise, so deposits are always applied; an applied withdrawal
      leaves a balance >= 0. Only the
      named account changes. */
  lemma SaqueDepositoGuard(b: seq<int>, op: Operation)
    requires |b| == NumAccounts
    requires op.kind == SaqueDeposito && ValidIndex(op.accountId - 1)
    ensures var i, r := op.accountId - 1, Step(b, op);
      (r.outcome == InsufficientFunds <==> op.amount < 0 && b[i] + op.amount < 0) &&
      (r.outcome == Processed <==> !(op.amount < 0 && b[i] + op.amount < 0)) &&
      (r.outcome == Processed ==> r.balances[i] == b[i] + op.amount) &&
      (r.outcome == Processed && op.amount < 0 ==> r.balances[i] >= 0) &&
      (forall k :: 0 <= k < NumAccounts && k != i ==> r.balances[k] == b[k])
  {
  }

  /** A transfer between valid accounts is rejected exactly when the source would go
      negative; otherwise the source is debited, the target credited, every other
      account is untouched, and a self-transfer changes nothing. */
  lemma TransferEffect(b: seq<int>, op: Operation)
    requires |b| == NumAccounts
    requires op.kind == Transferencia
    requires ValidIndex(op.accountId - 1) && ValidIndex(op.targetAccountId - 1)
    ensures var from, to, r := op.accountId - 1, op.targetAccountId - 1, Step(b, op);
      (r.outcome == InsufficientFunds <==> b[from] - op.amount < 0) &&
      (r.outcome == Processed <==> b[from] - op.amount >= 0) &&
      (r.outcome == Processed && from != to ==>
         r.balances[from] == b[from] - op.amount && r.balances[from] >= 0 &&
         r.balances[to] == b[to] + op.amount) &&
      (from == to ==> r.balances == b) &&
      (forall k :: 0 <= k < NumAccounts && k != from && k != to ==> r.balances[k] == b[k])
  {
    MoveEffect(b, op.accountId - 1, op.targetAccountId - 1, op.amount);
  }

  /** The total of all balances moves only by the amount of an applied
      deposit/withdrawal; transfers and everything else conserve it. */
  lemma StepTotal(b: seq<int>, op: Operation)
    requires |b| == NumAccounts
    ensures Sum(Step(b, op).balances) ==
      Sum(b) + (if op.kind == SaqueDeposito && Step(b, op).outcome == Processed then op.amount else 0)
  {
    match op.kind
    case SaqueDeposito =>
      SaqueDepositoTotal(b, op.accountId, op.amount);
    case Transferencia =>
      TransferenciaTotal(b, op.accountId, op.targetAccountId, op.amount);
    case BalancoGeral =>
    case Terminate =>
  }

  lemma SaqueDepositoTotal(b: seq<int>, accountId: int, amount: int)
    requires |b| == NumAccounts
    ensures var r := SaqueDepositoStep(b, accountId, amount);
      Sum(r.balances) == Sum(b) + (if r.outcome == Processed then amount else 0)
  {
    var i := accountId - 1;
    if ValidIndex(i) && !(amount < 0 && b[i] + amount < 0) {
      AdjustSum(b, i, amount);
    }
  }

  lemma TransferenciaTotal(b: seq<int>, accountId: int, targetAccountId: int, amount: int)
    requires |b| == NumAccounts
    ensures Sum(TransferenciaStep(b, accountId, targetAccountId, amount).balances) == Sum(b)
  {
    var from, to := accountId - 1, targetAccountId - 1;
    if ValidIndex(from) && ValidIndex(to) && b[from] - amount >= 0 {
      MoveKeepsSum(b, from, to, amount);
    }
  }

  /** Every trace of account locks a worker produces keeps the ascending-order
      discipline; an applied transfer releases in exactly the reverse order. */
  lemma StepLocksDisciplined(b: seq<int>, op: Operation)
    requires |b| == NumAccounts
    ensures Disciplined({}, Step(b, op).locks)
    ensures op.kind == Transferencia && Step(b, op).outcome == Processed ==>
      Unlocked(Step(b, op).locks) == Reverse(Locked(Step(b, op).locks))
  {
    match op.kind
    case SaqueDeposito => SaqueDepositoLocks(b, op.accountId, op.amount);
    case Transferencia => TransferenciaLocks(b, op.accountId, op.targetAccountId, op.amount);
    case BalancoGeral =>
    case Terminate =>
  }

  lemma SaqueDepositoLocks(b: seq<int>, accountId: int, amount: int)
    requires |b| == NumAccounts
    ensures Disciplined({}, SaqueDepositoStep(b, accountId, amount).locks)
  {
    var i := accountId - 1;
    if ValidIndex(i) {
      OneLockTrace(i);
      assert SaqueDepositoStep(b, accountId, amount).locks == [Lock(i)] + [Unlock(i)];
    }
  }

  lemma TransferenciaLocks(b: seq<int>, accountId: int, targetAccountId: int, amount: int)
    requires |b| == NumAccounts
    ensures var r := TransferenciaStep(b, accountId, targetAccountId, amount);
      Disciplined({}, r.locks) &&
      (r.outcome == Processed ==> Unlocked(r.locks) == Reverse(Locked(r.locks)))
  {
    var from, to := accountId - 1, targetAccountId - 1;
    if ValidIndex(from) && ValidIndex(to) {
      if b[from] - amount < 0 {
        RejectTraceDisciplined(from, to);
      } else {
        var acquire, release := TransferAcquire(from, to), TransferRelease(from, to);
        TransferTraceOrdered(from, to);
        LockedAppend(acquire, release);
        TransferAcquireOrdered(from, to);
      }
    }
  }

  /** An operation keeps every balance non-negative as long as the ones before it
      were and a transfer's amount is non-negative (as every generated one is). */
  lemma StepKeepsNonNegative(b: seq<int>, op: Operation)
    requires |b| == NumAccounts
    requires forall k :: 0 <= k < NumAccounts ==> b[k] >= 0
    requires op.kind == Transferencia ==> op.amount >= 0
    ensures forall k :: 0 <= k < NumAccounts ==> Step(b, op).balances[k] >= 0
  {
  }

  /** The accounts and the processed count after a worker has handled `ops` in order.
      None of them may be the sentinel: the worker stops at the first one. */
  datatype RunResult = RunResult(balances: seq<int>, processed: nat)

  predicate NoTerminate(ops: seq<Operation>)
  {
    forall i :: 0 <= i < |ops| ==> ops[i].kind != Terminate
  }

  /** A run extended by one more operation: one Step, counted when processed. */
  function Extend(run: RunResult, op: Operation): (r: RunResult)
    requires |run.balances| == NumAccounts
    ensures |r.balances| == NumAccounts
    ensures run.processed <= r.processed <= run.processed + 1
  {
    var s := Step(run.balances, op);
    RunResult(s.balances, run.processed + if Counted(s.outcome) then 1 else 0)
  }

  function Run(b: seq<int>, ops: seq<Operation>): (r: RunResult)
    requires |b| == NumAccounts && NoTerminate(ops)
    ensures |r.balances| == NumAccounts
    ensures r.processed <= |ops|
    decreases |ops|
  {
    if ops == [] then RunResult(b, 0)
    else Extend(Run(b, ops[..|ops| - 1]), ops[|ops| - 1])
  }

  /** Conservation over a whole run: a run of transfers (and snapshot requests)
      leaves the total of all balances where it was. */
  lemma {:induction false} RunConserves(b: seq<int>, ops: seq<Operation>)
    requires |b| == NumAccounts && NoTerminate(ops)
    requires forall i :: 0 <= i < |ops| ==> ops[i].kind != SaqueDeposito
    ensures Sum(Run(b, ops).balances) == Sum(b)
    decreases |ops|
  {
    if ops != [] {
      var init := ops[..|ops| - 1];
      RunConserves(b, init);
      StepTotal(Run(b, init).balances, ops[|ops| - 1]);
    }
  }

  /** Non-negative balances stay non-negative through any run of generated operations. */
  lemma {:induction false} RunKeepsNonNegative(b: seq<int>, ops: seq<Operation>)
    requires |b| == NumAccounts && NoTerminate(ops)
    requires forall k :: 0 <= k < NumAccounts ==> b[k] >= 0
    requires forall i :: 0 <= i < |ops| && ops[i].kind == Transferencia ==> ops[i].amount >= 0
    ensures forall k :: 0 <= k < NumAccounts ==> Run(b, ops).balances[k] >= 0
    decreases |ops|
  {
    if ops != [] {
      var init := ops[..|ops| - 1];
      RunKeepsNonNegative(b, init);
      StepKeepsNonNegative(Run(b, init).balances, ops[|ops| - 1]);
    }
  }

  /** Five accounts at 100..500; a transfer 1 -> 2 of 50, a withdrawal of 350 from
      account 3 (rejected) and a deposit of 25 into account 4. The rejected
      withdrawal is not counted, so the processed count is 2. */
  lemma ExampleRun()
    ensures Run([100, 200, 300, 400, 500],
                [Operation(Transferencia, 1, 1, 2, 50),
                 Operation(SaqueDeposito, 2, 3, 0, -350),
                 Operation(SaqueDeposito, 3, 4, 0, 25)])
            == RunResult([50, 250, 300, 425, 500], 2)
  {
    var ops := [Operation(Transferencia, 1, 1, 2, 50),
                Operation(SaqueDeposito, 2, 3, 0, -350),
                Operation(SaqueDeposito, 3, 4, 0, 25)];
    var b0 := [100, 200, 300, 400, 500];
    assert ops[..1][..0] == [];
    assert ops[..2][..1] == ops[..1];
    assert ops[..3] == ops;
    assert Run(b0, ops[..1]) == RunResult([50, 250, 300, 400, 500], 1);
    assert Run(b0, ops[..2]) == RunResult([50, 250, 300, 400, 500], 1);
  }

  /** One more operation extends a run by exactly one Step. */
  lemma RunSnoc(b: seq<int>, ops: seq<Operation>, j: nat)
    requires |b| == NumAccounts && NoTerminate(ops) && j < |ops|
    ensures NoTerminate(ops[..j]) && NoTerminate(ops[..j + 1])
    ensures Run(b, ops[..j + 1]) == Extend(Run(b, ops[..j]), ops[j])
  {
    var next := ops[..j + 1];
    assert next[..j] == ops[..j] && next[j] == ops[j];
    forall i | 0 <= i < j + 1 ensures next[i].kind != Terminate {
      assert next[i] == ops[i];
    }
    forall i | 0 <= i < j ensures ops[..j][i].kind != Terminate {
      assert ops[..j][i] == ops[i];
    }
  }

  /** A run counts at most one per operation, so the count after all of `ops` is at
      most the count after its first m operations plus the |ops| - m that follow. */
  lemma {:induction false} RunCountAfterPrefix(b: seq<int>, ops: seq<Operation>, m: nat)
    requires |b| == NumAccounts && NoTerminate(ops) && m <= |ops|
    ensures NoTerminate(ops[..m])
    ensures Run(b, ops).processed <= Run(b, ops[..m]).processed + (|ops| - m)
    decreases |ops| - m
  {
    assert forall i :: 0 <= i < m ==> ops[..m][i] == ops[i];
    if m < |ops| {
      var init := ops[..|ops| - 1];
      assert forall i :: 0 <= i < |init| ==> init[i] == ops[i];
      if m == |init| {
        assert init == ops[..m];
      } else {
        RunCountAfterPrefix(b, init, m);
        assert init[..m] == ops[..m];
      }
    } else {
      assert ops[..m] == ops;
    }
  }

  /** As written, one rejected operation anywhere in a run keeps the processed count
      below the number of operations handled: the coordinator of exe.c, which waits
      for operations_processed to reach the number submitted (exe.c:379-382), then
      never stops, never sends the sentinels, and the workers block in dequeue. */
  lemma RejectionStallsCount(b: seq<int>, ops: seq<Operation>, j: nat)
    requires |b| == NumAccounts && NoTerminate(ops) && j < |ops|
    requires NoTerminate(ops[..j]) && !Counted(Step(Run(b, ops[..j]).balances, ops[j]).outcome)
    ensures Run(b, ops).processed < |ops|
  {
    RunSnoc(b, ops, j);
    RunCountAfterPrefix(b, ops, j + 1);
  }

  /** A run that counts every operation a worker takes off the queue, applied or
      rejected: the count the coordinator needs to see all submitted operations
      through. It reaches exactly the number of operations and leaves the balances
      of the run as written. */
  function HandledRun(b: seq<int>, ops: seq<Operation>): (r: RunResult)
    requires |b| == NumAccounts && NoTerminate(ops)
    ensures r.processed == |ops|
    ensures r.balances == Run(b, ops).balances
    decreases |ops|
  {
    if ops == [] then RunResult(b, 0)
    else
      var prev := HandledRun(b, ops[..|ops| - 1]);
      RunResult(Step(prev.balances, ops[|ops| - 1]).balances, prev.processed + 1)
  }

  predicate HasTerminate(ops: seq<Operation>)
  {
    exists i :: 0 <= i < |ops| && ops[i].kind == Terminate
  }

  /** The position of the first sentinel in `ops`. */
  function FirstTerminate(ops: seq<Operation>): (k: nat)
    requires HasTerminate(ops)
    ensures k < |ops| && ops[k].kind == Terminate
    ensures forall i :: 0 <= i < k ==> ops[i].kind != Terminate
    ensures NoTerminate(ops[..k])
    decreases |ops|
  {
    if ops[0].kind == Terminate then 0
    else
      assert HasTerminate(ops[1..]) by {
        var i :| 0 <= i < |ops| && ops[i].kind == Terminate;
        assert ops[1..][i - 1] == ops[i];
      }
      1 + FirstTerminate(ops[1..])
  }

  /** What the worker learns from the `j`-th operation it takes, before the first
      sentinel has been passed: it is either that sentinel or the next operation of
      the prefix before it. */
  lemma NextInLine(ops: seq<Operation>, j: nat)
    requires HasTerminate(ops) && j <= FirstTerminate(ops)
    ensures j < |ops| && ops[j..][1..] == ops[j + 1..]
    ensures ops[j].kind == Terminate ==>
      j == FirstTerminate(ops) && ops[..FirstTerminate(ops)][..j] == ops[..FirstTerminate(ops)]
    ensures ops[j].kind != Terminate ==>
      j < FirstTerminate(ops) && ops[..FirstTerminate(ops)][j] == ops[j]
  {
  }

  /** The account registry and the two progress counters of exe.c. An account's id
      is its index plus one (exe.c:107). */
  class Bank {
    var balances: array<int>
    var operationsProcessed: int
    var operationsSinceLastBalance: int

    ghost predicate Valid()
      reads this
    {
      balances.Length == NumAccounts
    }

    /** The starting state, with the initial balances that exe.c draws at random
        given as a parameter. */
    constructor (initial: seq<int>)
      requires |initial| == NumAccounts
      ensures Valid() && fresh(balances) && balances[..] == initial
      ensures operationsProcessed == 0 && operationsSinceLastBalance == 0
    {
      balances := new int[NumAccounts](i requires 0 <= i < NumAccounts => initial[i]);
      operationsProcessed, operationsSinceLastBalance := 0, 0;
    }

    /** The worker body after the dequeue (exe.c:159-284), locking written out as
        the trace it produces. A sentinel ends the worker before anything is touched;
        a rejection skips the counter increments. */
    method ProcessOperation(op: Operation) returns (outcome: Outcome, locks: seq<LockEvent>)
      requires Valid()
      modifies balances, this`operationsProcessed, this`operationsSinceLastBalance
      ensures Valid()
      ensures var r := Step(old(balances[..]), op);
        outcome == r.outcome && balances[..] == r.balances && locks == r.locks
      ensures operationsProcessed == old(operationsProcessed) + (if Counted(outcome) then 1 else 0)
      ensures operationsSinceLastBalance ==
        old(operationsSinceLastBalance) + (if Counted(outcome) then 1 else 0)
    {
      if op.kind == Terminate {
        return Stopped, [];
      }
      if op.kind == SaqueDeposito {
        outcome, locks := SaqueDepositoOp(op.accountId, op.amount);
      } else if op.kind == Transferencia {
        outcome, locks := TransferenciaOp(op.accountId, op.targetAccountId, op.amount);
      } else {
        outcome, locks := Processed, [];
      }
      if outcome != Processed {
        return;
      }
      operationsProcessed := operationsProcessed + 1;
      operationsSinceLastBalance := operationsSinceLastBalance + 1;
    }

    /** The SAQUE_DEPOSITO branch (exe.c:166-202). */
    method SaqueDepositoOp(accountId: int, amount: int) returns (outcome: Outcome, locks: seq<LockEvent>)
      requires Valid()
      modifies balances
      ensures var r := SaqueDepositoStep(old(balances[..]), accountId, amount);
        outcome == r.outcome && balances[..] == r.balances && locks == r.locks
    {
      var i := accountId - 1;
      if i < 0 || i >= NumAccounts {
        return InvalidAccountId, [];
      }
      locks := [Lock(i)];
      if amount < 0 && balances[i] + amount < 0 {
        return InsufficientFunds, locks + [Unlock(i)];
      }
      balances[i] := balances[i] + amount;
      locks := locks + [Unlock(i)];
      outcome := Processed;
    }

    /** The TRANSFERENCIA branch (exe.c:203-274). */
    method TransferenciaOp(accountId: int, targetAccountId: int, amount: int)
      returns (outcome: Outcome, locks: seq<LockEvent>)
      requires Valid()
      modifies balances
      ensures var r := TransferenciaStep(old(balances[..]), accountId, targetAccountId, amount);
        outcome == r.outcome && balances[..] == r.balances && locks == r.locks
    {
      var from, to := accountId - 1, targetAccountId - 1;
      if from < 0 || from >= NumAccounts || to < 0 || to >= NumAccounts {
        return InvalidAccountId, [];
      }
      if from < to {
        locks := [Lock(from), Lock(to)];
      } else if from > to {
        locks := [Lock(to), Lock(from)];
      } else {
        locks := [Lock(from)];
      }
      if balances[from] - amount < 0 {
        if from != to {
          locks := locks + [Unlock(from), Unlock(to)];
        } else {
          locks := locks + [Unlock(from)];
        }
        return InsufficientFunds, locks;
      }
      ghost var before := balances[..];
      balances[from] := balances[from] - amount;
      balances[to] := balances[to] + amount;
      assert balances[..] == Move(before, from, to, amount);
      if from < to {
        locks := locks + [Unlock(to), Unlock(from)];
      } else if from > to {
        locks := locks + [Unlock(from), Unlock(to)];
      } else {
        locks := locks + [Unlock(from)];
      }
      outcome := Processed;
    }

    /** print_accounts (exe.c:113-136): lock every account in ascending order, read
        every balance, unlock in descending order. The snapshot is what it prints. */
    method PrintAccounts() returns (snapshot: seq<int>, locks: seq<LockEvent>)
      requires Valid()
      ensures snapshot == balances[..]
      ensures locks == PrintTrace(NumAccounts)
    {
      locks := [];
      var i := 0;
      while i < NumAccounts
        invariant 0 <= i <= NumAccounts
        invariant locks == AscendingLocks(0, i)
      {
        AscendingLocksSnoc(0, i);
        locks := locks + [Lock(i)];
        i := i + 1;
      }
      snapshot := [];
      i := 0;
      while i < NumAccounts
        invariant 0 <= i <= NumAccounts
        invariant snapshot == balances[..i]
      {
        assert balances[..i + 1] == balances[..i] + [balances[i]];
        snapshot := snapshot + [balances[i]];
        i := i + 1;
      }
      assert balances[..NumAccounts] == balances[..];
      i := NumAccounts - 1;
      while i >= 0
        invariant -1 <= i < NumAccounts
        invariant locks == AscendingLocks(0, NumAccounts) + DescendingUnlocks(i + 1, NumAccounts)
      {
        DescendingUnlocksSnoc(i, NumAccounts);
        locks := locks + [Unlock(i)];
        i := i - 1;
      }
    }

    /** One pass of the worker loop (exe.c:143-284): take the next operation off
        the queue and process it. A sentinel is taken off and changes nothing. */
    method ServeNext(q: OperationQueue) returns (op: Operation)
      requires Valid() && q.Valid() && q.size > 0
      modifies q, balances, this`operationsProcessed, this`operationsSinceLastBalance
      ensures Valid() && q.Valid() && q.operations == old(q.operations)
      ensures op == old(q.Contents())[0] && q.Contents() == old(q.Contents())[1..]
      ensures var r := Step(old(balances[..]), op);
        balances[..] == r.balances &&
        operationsProcessed == old(operationsProcessed) + (if Counted(r.outcome) then 1 else 0) &&
        operationsSinceLastBalance == old(operationsSinceLastBalance) + (if Counted(r.outcome) then 1 else 0)
    {
      op := q.Dequeue();
      var outcome, locks := ProcessOperation(op);
    }

    /** ServeNext seen from the whole queue contents `ops` the worker started from,
        after it has processed the first `j` operations of the prefix before the
        sentinel: either it consumes that sentinel, or it extends the run by one. */
    method Advance(q: OperationQueue, ghost ops: seq<Operation>, ghost j: nat, ghost b0: seq<int>,
                   ghost run: RunResult)
      returns (stop: bool, ghost next: RunResult)
      requires Valid() && q.Valid() && HasTerminate(ops) && j <= FirstTerminate(ops)
      requires q.Contents() == ops[j..] && |b0| == NumAccounts
      requires run == Run(b0, ops[..FirstTerminate(ops)][..j]) && balances[..] == run.balances
      modifies q, balances, this`operationsProcessed, this`operationsSinceLastBalance
      ensures Valid() && q.Valid() && q.operations == old(q.operations)
      ensures q.Contents() == ops[j + 1..]
      ensures stop ==> j == FirstTerminate(ops) && next == run
      ensures !stop ==> j < FirstTerminate(ops) && next == Run(b0, ops[..FirstTerminate(ops)][..j + 1])
      ensures balances[..] == next.balances
      ensures operationsProcessed == old(operationsProcessed) + (next.processed - run.processed)
      ensures operationsSinceLastBalance == old(operationsSinceLastBalance) + (next.processed - run.processed)
    {
      var op := ServeNext(q);
      NextInLine(ops, j);
      if op.kind == Terminate {
        stop, next := true, run;
      } else {
        RunSnoc(b0, ops[..FirstTerminate(ops)], j);
        stop, next := false, Extend(run, op);
      }
    }

    /** The worker loop (exe.c:140-285) for one worker on its own: it dequeues and
        processes operations until it dequeues a sentinel, which it consumes. The
        queue must hold a sentinel, since the worker would otherwise block forever. */
    method WorkerThread(q: OperationQueue)
      requires Valid() && q.Valid()
      requires HasTerminate(q.Contents())
      modifies q, balances, this`operationsProcessed, this`operationsSinceLastBalance
      ensures Valid() && q.Valid() && q.operations == old(q.operations)
      ensures var ops := old(q.Contents()); var k := FirstTerminate(ops);
        var r := Run(old(balances[..]), ops[..k]);
        q.Contents() == ops[k + 1..] &&
        balances[..] == r.balances &&
        operationsProcessed == old(operationsProcessed) + r.processed &&
        operationsSinceLastBalance == old(operationsSinceLastBalance) + r.processed
    {
      ghost var ops := q.Contents();
      ghost var k := FirstTerminate(ops);
      ghost var pre := ops[..k];
      ghost var b0 := balances[..];
      ghost var j := 0;
      ghost var run := RunResult(b0, 0);
      assert pre[..0] == [];
      while true
        invariant Valid() && q.Valid() && q.operations == old(q.operations)
        invariant 0 <= j <= k
        invariant q.Contents() == ops[j..]
        invariant run == Run(b0, pre[..j])
        invariant balances[..] == run.balances
        invariant operationsProcessed == old(operationsProcessed) + run.processed
        invariant operationsSinceLastBalance == old(operationsSinceLastBalance) + run.processed
        decreases q.size
      {
        var stop;
        stop, run := Advance(q, ops, j, b0, run);
        if stop {
          assert pre[..j] == pre;
          break;
        }
        j := j + 1;
      }
    }
  }
}
