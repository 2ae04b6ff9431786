# Bank simulation: the sequential core, verified

The repository is a pthread bank simulation in two programs.

- `exe.c` is the full version:
  - Client threads push deposit, withdrawal and transfer operations onto a bounded circular queue.
  - Worker threads take them off and apply them to five accounts, each guarded by its own mutex.
  - A coordinator in `main` pauses the workers now and then and prints a balance of all accounts.
- `server.c` is an earlier draft:
  - One client pushes operations onto a shared array used as a stack.
  - Workers pop the most recent one and apply it without any guard.

This project models the sequential skeleton under the threads. Every blocking wait becomes a precondition. Every lock and unlock on an account becomes an event in a trace that the model returns as data.

Modules:

- `BankTypes` (`bank_types.dfy`): NUM_ACCOUNTS, MAX_QUEUE_SIZE, the operation kinds and the Operation record of `exe.c`.
- `OperationQueueModel` (`operation_queue.dfy`): the ring buffer, as a class over an `array<Operation>` with `head`, `tail` and `size` fields.
  - `Valid()` keeps `0 <= head < 10`, `0 <= size <= 10` and `tail == (head + size) % 10`.
  - `Contents()` is the abstract FIFO sequence: the `size` slots starting at `head`, wrapping around.
- `Sums` (`sums.dfy`): the total of all balances, plus the in-place debit/credit that both programs perform.
- `LockOrder` (`lock_order.dfy`): lock traces and the discipline they keep.
  - Acquisition is in ascending index order, which rules out a circular wait.
  - Only held locks are released, and nothing stays held.
  - It also holds the traces of the transfer branch and of `print_accounts`.
- `Worker` (`worker.dfy`):
  - `Step` is a pure specification of one pass through the worker body. It returns the outcome, the new balances and the lock trace.
  - `Run` folds `Step` over a sequence of operations.
  - The `Bank` class holds the balances array and the two progress counters. Its methods mirror the C branches and are proved equal to `Step`.
  - `WorkerThread` drains the queue up to the first Terminate sentinel and is proved equal to `Run`.
- `Server` (`server.dfy`): the stack of `server.c`, as a class over the `accounts` and `operations` arrays and `opCount`. It has push, pop, the application of an operation and the print predicate.

Balances and amounts are `int`. The C code stores them as `double`, but every value it generates is a whole number.

Points of the code worth knowing:

- Rejected operations are not counted. Every rejection leaves the loop body with `continue` (exe.c:174, 185, 214, 248), past the counter increments at exe.c:276-284. `Worker.ExampleRun` shows this: balances 100..500, a transfer 1→2 of 50, a rejected withdrawal of 350 from account 3 and a deposit of 25 into account 4 end with 2 operations counted.
- A BalancoGeral operation is never generated. In the code it falls through both branches and is counted, and the model does the same.
- A transfer rejected for insufficient funds releases the source lock and then the target lock (exe.c:239-247). When the source has the lower index, that is the order of acquisition, not its reverse. The trace still keeps the discipline, which `LockOrder.RejectTraceDisciplined` proves.

## Model

| member | source | states |
|---|---|---|
| OperationQueueModel.OperationQueue.Init | exe.c:49-57 | queue_init gives a valid queue with head = tail = size = 0 and empty contents |
| OperationQueueModel.OperationQueue.Enqueue | exe.c:59-71 | on a non-full queue, the op is written at the old tail, tail advances modulo 10, size grows by one, head is kept, the ring invariant holds, and the contents become old contents ++ [op] |
| OperationQueueModel.OperationQueue.Dequeue | exe.c:73-86 | on a non-empty queue, returns the oldest element (the slot at head); head advances modulo 10, size drops by one, tail is kept, and the contents lose exactly their first element |
| OperationQueueModel.FifoOrder | exe.c:59-86 | two operations enqueued on an empty queue are dequeued in the order they went in |
| OperationQueueModel.Next | exe.c:67 | the index after i wraps from the last slot to 0 and otherwise is i + 1 |
| OperationQueueModel.WindowPush | exe.c:66-68 | writing into the slot at (head + size) mod 10 appends exactly that element to the abstract contents |
| OperationQueueModel.WindowPop | exe.c:80-82 | the slot at head is the first element, and moving head on by one drops exactly that element |
| Worker.Step | exe.c:159-284 | one pass of the worker body: the outcome is Stopped exactly for the sentinel; a rejection or the sentinel leaves the balances unchanged; the sentinel and an invalid id take no lock |
| Worker.SaqueDepositoStep | exe.c:166-202 | deposit/withdrawal: a rejection keeps the balances; an invalid id takes no lock |
| Worker.TransferenciaStep | exe.c:203-274 | transfer: a rejection keeps the balances; invalid ids take no lock |
| Worker.InvalidAccountRejected | exe.c:168-215 | a deposit/withdrawal or transfer with an account id outside 1..5 is rejected, changes no balance, takes no lock and is not counted |
| Worker.SaqueDepositoGuard | exe.c:177-190 | a withdrawal is rejected exactly when balance + amount < 0 and applied exactly when it is covered, so a deposit is always applied; an applied op adds the amount; an applied withdrawal leaves the balance >= 0; other accounts are unchanged |
| Worker.TransferEffect | exe.c:234-252 | a valid transfer is rejected exactly when the source balance minus the amount is negative; otherwise the source is debited (and stays >= 0), the target is credited, a self-transfer changes nothing, and other accounts are unchanged |
| Worker.StepTotal | exe.c:166-274 | the total of all balances changes only by the amount of an applied deposit/withdrawal; transfers, rejections, BalancoGeral and the sentinel conserve it |
| Worker.StepLocksDisciplined | exe.c:177-270 | every operation's lock trace takes locks in ascending order, releases only held locks and ends holding none; an applied transfer releases in the reverse of acquisition order |
| Worker.TransferenciaLocks | exe.c:217-270 | the same for the transfer branch, on both its rejected and its applied path |
| Worker.StepKeepsNonNegative | exe.c:180-252 | with non-negative balances and non-negative transfer amounts (all that the clients generate), every balance stays non-negative |
| Worker.Extend | exe.c:276-284 | one more operation raises the count by at most one and keeps five balances; the effect itself is Step's (see StepTotal, SaqueDepositoGuard, TransferEffect) |
| Worker.Run | exe.c:140-285 | a run over operations without a sentinel keeps five balances and counts at most one per operation; RunSnoc, RunConserves and RunKeepsNonNegative state what it computes |
| Worker.RunSnoc | exe.c:140-285 | handling one more operation extends a run by exactly one Step, counted when processed |
| Worker.RunConserves | exe.c:140-285 | a run with no deposit/withdrawal leaves the total of all balances unchanged |
| Worker.RunKeepsNonNegative | exe.c:140-285 | non-negative balances stay non-negative through any run of generated operations |
| Worker.ExampleRun | exe.c:140-285 | balances 100..500, then a transfer 1→2 of 50, a rejected withdrawal of 350 from account 3 and a deposit of 25 into account 4, end at [50, 250, 300, 425, 500] with 2 operations counted |
| Worker.FirstTerminate | exe.c:157-162 | the index of the first sentinel: the op there is Terminate and none before it is |
| Worker.Bank.constructor | exe.c:102-111 | the accounts start at the given balances and both counters at 0 |
| Worker.Bank.ProcessOperation | exe.c:159-284 | the in-place worker body equals Step on the old balances (outcome, new balances, lock trace); both counters grow by one exactly when the operation is processed |
| Worker.Bank.SaqueDepositoOp | exe.c:166-202 | the in-place deposit/withdrawal branch equals SaqueDepositoStep |
| Worker.Bank.TransferenciaOp | exe.c:203-274 | the in-place transfer branch equals TransferenciaStep |
| Worker.Bank.PrintAccounts | exe.c:113-136 | the printed snapshot is exactly the balances, and the lock trace is ascending locks over 0..4 followed by descending unlocks |
| Worker.Bank.ServeNext | exe.c:157-284 | one loop pass takes the oldest operation off the queue and applies Step to the accounts and counters |
| Worker.Bank.WorkerThread | exe.c:138-287 | a worker on a queue that holds a sentinel consumes everything up to and including the first sentinel, leaves the rest queued, and ends with the balances and counters of Run over the operations before the sentinel |
| LockOrder.TransferAcquire | exe.c:218-232 | the transfer takes one lock when from = to and two otherwise, all of them locks on from or to; the ascending order is TransferAcquireOrdered's |
| LockOrder.TransferRelease | exe.c:257-270 | an applied transfer releases one lock when from = to and two otherwise, only on from or to; that they are the reverse of the locks is TransferTraceOrdered's |
| LockOrder.RejectRelease | exe.c:239-247 | a rejected transfer releases the source first and the target last, one unlock when they coincide and two otherwise; the discipline is RejectTraceDisciplined's |
| LockOrder.AscendingLocks | exe.c:118-121 | the locking loop locks lo, lo + 1, ..., hi - 1: the k-th event is a lock on lo + k |
| LockOrder.DescendingUnlocks | exe.c:130-133 | the unlocking loop unlocks hi - 1, hi - 2, ..., lo: the k-th event is an unlock on hi - 1 - k |
| LockOrder.PrintTrace | exe.c:118-133 | print_accounts over n accounts emits 2n lock events; PrintTraceOrdered gives their order and the discipline |
| LockOrder.TransferAcquireOrdered | exe.c:217-232 | a transfer locks in strictly ascending index order, locks exactly {from, to}, and takes a single lock exactly when from = to |
| LockOrder.TransferTraceOrdered | exe.c:257-270 | after an applied transfer, the unlocks are the reverse of the locks and the whole trace keeps the discipline |
| LockOrder.RejectTraceDisciplined | exe.c:239-247 | after a rejected transfer, exactly the locked accounts are unlocked and the trace keeps the discipline |
| LockOrder.OneLockTrace | exe.c:177-190 | the single lock/unlock of a deposit/withdrawal keeps the discipline |
| LockOrder.PrintTraceOrdered | exe.c:117-133 | print_accounts locks accounts 0..n-1 in ascending order before releasing any, then releases them in exactly the reverse order, keeping the discipline |
| Sums.Adjust | exe.c:188 | adding to one balance keeps the number of accounts; its effect on the total is AdjustSum's |
| Sums.Move | exe.c:251-252 | the debit-then-credit (also server.c:73-74) keeps the number of accounts; MoveEffect and MoveKeepsSum give its effect on each slot and on the total |
| Sums.AdjustSum | exe.c:188 | adding delta to one balance changes the total by exactly delta |
| Sums.MoveEffect | exe.c:251-252 | debit-then-credit changes the source by -amount and the target by +amount, is no change when they coincide, and leaves every other slot alone |
| Sums.MoveKeepsSum | exe.c:251-252 | debit-then-credit keeps the total of all balances |
| Server.Apply | server.c:66-76 | applying a popped operation keeps five balances; SaqueDepositoEffect, TransferenciaEffect and UnknownOperationIgnored give its effect for each operation name |
| Server.SaqueDepositoEffect | server.c:66-70 | "saqueDeposito" adds the amount to its account, changes no other account and moves the total by exactly the amount |
| Server.SaqueDepositoOverdraws | server.c:68 | a withdrawal larger than the balance is applied anyway (10 - 50 = -40) |
| Server.TransferenciaEffect | server.c:71-76 | "transferencia" debits the source, credits the target, changes nothing on a self-transfer, leaves other accounts alone and keeps the total |
| Server.UnknownOperationIgnored | server.c:66-76 | an operation with any other name changes no balance |
| Server.ShouldPrint | server.c:79 | for 0 <= op_count <= 10, (10 - op_count) % 10 == 0 holds exactly when op_count is 0 or 10 |
| Server.Stamped | server.c:112-113 | each stored op carries, in its count field, the stack height at which it was stored |
| Server.ServerState.constructor | server.c:27-41 | the accounts start at the given balances and the stack is empty |
| Server.ServerState.Push | server.c:111-115 | the op is stamped with the current height and stored at index op_count, op_count grows by one, and the pending stack becomes old ++ [stamped op] |
| Server.ServerState.Pop | server.c:56-63 | on a non-empty stack, returns the most recently pushed op (LIFO); op_count drops by one and the pending stack loses its top |
| Server.ServerState.ApplyOperation | server.c:66-76 | the in-place update of the accounts equals Apply on the old balances |
| Server.ServerState.WorkerStep | server.c:52-87 | one worker iteration pops the top op and applies it; the accounts are printed exactly when the pop emptied the stack |
| Server.ServerState.ClientThread | server.c:89-138 | the client pushes its operations in order, stops right after the push that fills the array, and never lets op_count exceed 10 |
| Worker.RunCountAfterPrefix | exe.c:276-284 | a run counts at most one per operation: the count after all operations is at most the count after the first m plus the number that follow |
| Worker.RejectionStallsCount | exe.c:379-382 | one operation whose Step is not counted keeps the processed count of the whole run strictly below the number of operations handled |
| Worker.HandledRun | exe.c:379-382 | a run that counts every dequeued operation, applied or rejected, ends with a count equal to the number of operations and the same balances as Run |
| Server.PrintOnTenth | server.c:78-79 | the test the comment describes never fires before ten operations have been handled; EveryTenthPrinted counts how often it fires |
| Server.EveryTenthPrinted | server.c:78-79 | with that test, n handled operations give exactly n / 10 prints |
| Server.PrintTestAsWritten | server.c:79 | the test as written prints when a pop empties the stack, including after the very first operation, and never prints while the stack holds 9 |
| Server.ServerState.AlternatingPrintsEveryTime | server.c:62-82 | a push followed by a worker step on an empty stack prints the accounts, after a single operation |
| Server.ServerState.CountingWorkerStep | server.c:56-82 | the worker iteration with the intended test: it pops and applies the top op as WorkerStep does, counts the pop, and prints exactly when the new count is a positive multiple of ten |
| Server.ServerState.CountingWorker | server.c:52-87 | n iterations of that worker from a zero count print the accounts exactly n / 10 times |

## Left out

- Threads, pthread mutexes and condition variables (both programs). Each blocking wait is a precondition instead: `Enqueue` needs `size < 10`, `Dequeue` needs `size > 0`, `Pop` needs `op_count > 0`. Interleavings of several workers are not modelled; one worker runs on its own.
- The pause/resume barrier (exe.c:143-154) and the coordinator loop in `main` (exe.c:369-416) that triggers the balance every nine operations. Their whole point is thread rendezvous. `PrintAccounts` models the balance itself.
- The unlocked, racy read of `op_count` at server.c:79. Only the arithmetic predicate is kept (`ShouldPrint`).
- `usleep`/`sleep` and all `printf`/`fprintf` output. `PrintAccounts` returns the snapshot it would print.
- Random operation generation (exe.c:289-335; server.c:93-109), the random initial balances (exe.c:102-111; server.c:33-41) and the `total_operations` submission cap. Operations and initial balances are parameters.
- `double` arithmetic: balances and amounts are unbounded integers.
- Thread creation, joining and resource cleanup in both `main` functions.
- Worker.Bank.WorkerThread: requires the queue to hold a sentinel. Without one the C worker blocks forever in `dequeue`. That case does occur: `main` sends the sentinels only after its loop exits, and the loop exits only once every submitted operation has been counted (exe.c:379-382). After any rejection that never happens. See "## Findings".
- Worker.StepKeepsNonNegative: assumes a non-negative transfer amount, as every generated transfer has. A negative amount would pass the source guard and could drive the target below zero.
- Server.ServerState.Push: requires `op_count < 10` and account ids in 1..5. server.c checks neither. The single client never pushes onto a full array, since it stops after the push that fills it, and it only generates ids in 1..5.
- Server.ServerState.ClientThread: requires a non-full stack at the start, which holds for the client's only run, from an empty stack.
- Server.Apply: requires account ids in 1..5. server.c indexes the accounts without checking, so any other id would be an out-of-bounds access.

## Findings

| source | as written | input that shows it | evidently intended | confidence | as-written member | corrected member |
|---|---|---|---|---|---|---|
| exe.c:379 | `main` stops once `operations_processed >= TOTAL_OPERATIONS`, but only applied operations are counted (exe.c:276-284) | 50 operations submitted, one of them a withdrawal larger than its balance: the count stays at most 49, the sentinels (exe.c:428-434) are never sent and every worker blocks in `dequeue` | the loop ends once every submitted operation has been handled, applied or rejected | high (not executed) | Worker.RejectionStallsCount | Worker.HandledRun |
| server.c:79 | the print test `(MAX_OPERATIONS - op_count) % 10 == 0` depends on the stack height after the pop | client and worker take turns (push, pop, push, pop): every pop empties the stack, so the accounts are printed after every operation | print after every tenth operation, as the comment at server.c:78 says | high (not executed) | Server.PrintTestAsWritten | Server.ServerState.CountingWorker |

The rest of the model keeps the code as written: `Worker.Bank` counts only applied operations, and `Server.ServerState.WorkerStep` uses the height-based test. `Server.ServerState.AlternatingPrintsEveryTime` shows the second discrepancy on the class itself. `Server.ServerState.CountingWorkerStep` is the worker iteration with the intended test; it counts handled operations in a `handled` field that server.c does not have.
