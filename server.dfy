/** The earlier draft of the bank server (server.c): one client pushes operations
    onto a shared array used as a stack, workers pop the most recent one and apply
    it to the accounts without any guard. The mutex and condition variable are not
    modelled; a worker's wait while the stack is empty becomes the precondition of
    Pop. */
module Server {
  import opened Sums

  /** NUM_ACCOUNTS and MAX_OPERATIONS of server.c. */
  const NumAccounts: nat := 5
  const MaxOperations: nat := 10

  /** The two operation names server.c compares against with strcmp. */
  const SaqueDepositoName: string := "saqueDeposito"
  const TransferenciaName: string := "transferencia"

  /** One operation; `count` is the stack height when it was pushed. */
  datatype Operation = Operation(
    operation: string,
    accountId: int,
    count: int,
    targetAccountId: int,
    amount: int)

  /** Whether server.c may apply `op` at all: it indexes the accounts with
      accountId - 1 (and targetAccountId - 1 for a transfer) without checking them,
      so these must be account ids, as the client always generates. */
  predicate WellFormed(op: Operation)
  {
    (op.operation == SaqueDepositoName ==> 1 <= op.accountId <= NumAccounts) &&
    (op.operation == TransferenciaName ==>
       1 <= op.accountId <= NumAccounts && 1 <= op.targetAccountId <= NumAccounts)
  }

  /** The effect of one popped operation on the balances (server.c:66-76). */
  function Apply(b: seq<int>, op: Operation): (r: seq<int>)
    requires |b| == NumAccounts && WellFormed(op)
    ensures |r| == NumAccounts
  {
    if op.operation == SaqueDepositoName then
      Adjust(b, op.accountId - 1, op.amount)
    else if op.operation == TransferenciaName then
      Move(b, op.accountId - 1, op.targetAccountId - 1, op.amount)
    else
      b
  }

  /** saqueDeposito adds the amount to its account with no overdraft check (so a
      withdrawal can drive a balance below zero), changes no other account, and
      moves the total by exactly the amount. */
  lemma SaqueDepositoEffect(b: seq<int>, op: Operation)
    requires |b| == NumAccounts && WellFormed(op) && op.operation == SaqueDepositoName
    ensures Apply(b, op)[op.accountId - 1] == b[op.accountId - 1] + op.amount
    ensures forall k :: 0 <= k < NumAccounts && k != op.accountId - 1 ==> Apply(b, op)[k] == b[k]
    ensures Sum(Apply(b, op)) == Sum(b) + op.amount
  {
    AdjustSum(b, op.accountId - 1, op.amount);
  }

  /** A withdrawal larger than the balance is applied anyway. */
  lemma SaqueDepositoOverdraws()
    ensures Apply([10, 0, 0, 0, 0], Operation(SaqueDepositoName, 1, 0, 0, -50))[0] == -40
  {
  }

  /** transferencia debits the source, credits the target, leaves every other
      account alone and keeps the total; a self-transfer changes nothing. */
  lemma TransferenciaEffect(b: seq<int>, op: Operation)
    requires |b| == NumAccounts && WellFormed(op) && op.operation == TransferenciaName
    ensures var from, to := op.accountId - 1, op.targetAccountId - 1;
      (from != to ==> Apply(b, op)[from] == b[from] - op.amount && Apply(b, op)[to] == b[to] + op.amount) &&
      (from == to ==> Apply(b, op) == b) &&
      (forall k :: 0 <= k < NumAccounts && k != from && k != to ==> Apply(b, op)[k] == b[k])
    ensures Sum(Apply(b, op)) == Sum(b)
  {
    ApplyTransferencia(b, op);
    MoveEffect(b, op.accountId - 1, op.targetAccountId - 1, op.amount);
    MoveKeepsSum(b, op.accountId - 1, op.targetAccountId - 1, op.amount);
  }

  /** A transferencia is applied as a move between its two accounts. */
  lemma ApplyTransferencia(b: seq<int>, op: Operation)
    requires |b| == NumAccounts && WellFormed(op) && op.operation == TransferenciaName
    ensures Apply(b, op) == Move(b, op.accountId - 1, op.targetAccountId - 1, op.amount)
  {
    assert SaqueDepositoName != TransferenciaName by { assert SaqueDepositoName[0] != TransferenciaName[0]; }
  }

  /** Any other operation name changes no balance. */
  lemma UnknownOperationIgnored(b: seq<int>, op: Operation)
    requires |b| == NumAccounts
    requires op.operation != SaqueDepositoName && op.operation != TransferenciaName
    ensures WellFormed(op) && Apply(b, op) == b
  {
  }

  /** The accounts are printed after a pop exactly when
      (MaxOperations - opCount) % 10 == 0 (server.c:79). The operand is never
      negative here, so C's truncating remainder agrees with Dafny's. */
  function ShouldPrint(opCount: int): (r: bool)
    requires 0 <= opCount <= MaxOperations
    ensures r <==> opCount == 0 || opCount == MaxOperations
  {
    (MaxOperations - opCount) % 10 == 0
  }

  /** The print test the comment at server.c:78 describes: print after the tenth,
      twentieth, ... operation a worker has handled. */
  function PrintOnTenth(handled: int): (r: bool)
    ensures r ==> handled >= 10
  {
    handled > 0 && handled % 10 == 0
  }

  /** How many of the operations 1..n are followed by a print under PrintOnTenth. */
  function PrintsUpTo(n: nat): (r: nat)
    ensures r <= n
  {
    if n == 0 then 0 else PrintsUpTo(n - 1) + if PrintOnTenth(n) then 1 else 0
  }

  /** With the intended test, n handled operations give exactly n / 10 prints,
      however pushes and pops interleave. */
  lemma {:induction false} EveryTenthPrinted(n: nat)
    ensures PrintsUpTo(n) == n / 10
  {
    if n > 0 {
      EveryTenthPrinted(n - 1);
      assert n / 10 == (n - 1) / 10 + (if n % 10 == 0 then 1 else 0);
    }
  }

  /** As written, the test depends on the stack height and not on how many
      operations were handled: after the first operation the stack may be empty, so
      the accounts are printed where the intended test does not print, and while the
      stack stays between 1 and 9 they are never printed, even after the tenth. */
  lemma PrintTestAsWritten()
    ensures ShouldPrint(0) && !PrintOnTenth(1)
    ensures !ShouldPrint(9) && PrintOnTenth(10)
  {
  }

  /** `ops` as the client stores them, starting at stack height `from`: each op's
      count field is overwritten with the height it is stored at. */
  function Stamped(ops: seq<Operation>, from: int): (r: seq<Operation>)
    ensures |r| == |ops|
    ensures forall i :: 0 <= i < |ops| ==> r[i] == ops[i].(count := from + i)
    decreases |ops|
  {
    if ops == [] then [] else Stamped(ops[..|ops| - 1], from) + [ops[|ops| - 1].(count := from + |ops| - 1)]
  }

  /** The shared state of server.c: the accounts, the operations array and op_count. */
  class ServerState {
    var accounts: array<int>
    var operations: array<Operation>
    var opCount: int
    /** Operations popped so far by the counting worker; server.c keeps no such
        counter, but the print test its comment describes needs one. */
    var handled: nat

    /** opCount stays within 0..MaxOperations and every pending op may be applied. */
    ghost predicate Valid()
      reads this, operations
    {
      accounts.Length == NumAccounts &&
      operations.Length == MaxOperations &&
      0 <= opCount <= MaxOperations &&
      forall i :: 0 <= i < opCount ==> WellFormed(operations[i])
    }

    /** The pending operations, bottom of the stack first. */
    ghost function Pending(): (s: seq<Operation>)
      requires Valid()
      reads this, operations
      ensures |s| == opCount
    {
      operations[..opCount]
    }

    /** The starting state with the initial balances, which server.c draws at
        random, given as a parameter; no operation is pending. */
    constructor (initial: seq<int>)
      requires |initial| == NumAccounts
      ensures Valid() && fresh(accounts) && fresh(operations)
      ensures accounts[..] == initial && Pending() == [] && handled == 0
    {
      accounts := new int[NumAccounts](i requires 0 <= i < NumAccounts => initial[i]);
      operations := new Operation[MaxOperations](_ => Operation("", 0, 0, 0, 0));
      opCount := 0;
      handled := 0;
    }

    /** The client's push (server.c:111-113): stamp the op with the current height,
        store it on top, and grow the stack by one. The single client never pushes
        onto a full array (it stops once a push fills it), hence the precondition. */
    method Push(op: Operation)
      requires Valid() && WellFormed(op)
      requires opCount < MaxOperations
      modifies this`opCount, operations
      ensures Valid() && opCount == old(opCount) + 1
      ensures operations[..] == old(operations[..])[old(opCount) := op.(count := old(opCount))]
      ensures Pending() == old(Pending()) + [op.(count := old(opCount))]
    {
      var stamped := op.(count := opCount);
      operations[opCount] := stamped;
      opCount := opCount + 1;
      assert Pending() == old(Pending()) + [stamped];
    }

    /** A worker's pop (server.c:57-62): the most recently pushed op is taken and the
        stack shrinks by one, so operations leave in LIFO order. */
    method Pop() returns (op: Operation)
      requires Valid()
      requires opCount > 0
      modifies this`opCount
      ensures Valid() && opCount == old(opCount) - 1
      ensures op == old(Pending())[old(opCount) - 1] && WellFormed(op)
      ensures Pending() == old(Pending())[..old(opCount) - 1]
    {
      opCount := opCount - 1;
      op := operations[opCount];
    }

    /** Applying a popped operation to the accounts in place (server.c:66-76). */
    method ApplyOperation(op: Operation)
      requires Valid() && WellFormed(op)
      modifies accounts
      ensures Valid()
      ensures accounts[..] == Apply(old(accounts[..]), op)
    {
      if op.operation == SaqueDepositoName {
        accounts[op.accountId - 1] := accounts[op.accountId - 1] + op.amount;
      } else if op.operation == TransferenciaName {
        ghost var before := accounts[..];
        accounts[op.accountId - 1] := accounts[op.accountId - 1] - op.amount;
        accounts[op.targetAccountId - 1] := accounts[op.targetAccountId - 1] + op.amount;
        assert accounts[..] == Move(before, op.accountId - 1, op.targetAccountId - 1, op.amount);
      }
    }

    /** One iteration of the worker loop (server.c:56-82): pop, apply, and decide
        whether to print. After a pop the stack is never full, so the accounts are
        printed exactly when the pop emptied it. */
    method WorkerStep() returns (op: Operation, printed: bool)
      requires Valid()
      requires opCount > 0
      modifies this`opCount, accounts
      ensures Valid() && opCount == old(opCount) - 1
      ensures op == old(Pending())[old(opCount) - 1]
      ensures Pending() == old(Pending())[..old(opCount) - 1]
      ensures accounts[..] == Apply(old(accounts[..]), op)
      ensures printed <==> opCount == 0
    {
      op := Pop();
      ApplyOperation(op);
      printed := ShouldPrint(opCount);
    }

    /** The client loop (server.c:91-136) fed with the operations it would generate:
        push them one by one and stop right after the push that fills the array (or
        when the supply runs out). The stack never exceeds MaxOperations. */
    method ClientThread(ops: seq<Operation>) returns (pushed: nat)
      requires Valid() && opCount < MaxOperations
      requires forall i :: 0 <= i < |ops| ==> WellFormed(ops[i])
      modifies this`opCount, operations
      ensures Valid()
      ensures pushed <= |ops| && opCount == old(opCount) + pushed <= MaxOperations
      ensures pushed == |ops| || opCount == MaxOperations
      ensures Pending() == old(Pending()) + Stamped(ops[..pushed], old(opCount))
    {
      pushed := 0;
      while pushed < |ops|
        invariant Valid() && 0 <= pushed <= |ops|
        invariant opCount == old(opCount) + pushed < MaxOperations
        invariant Pending() == old(Pending()) + Stamped(ops[..pushed], old(opCount))
      {
        Push(ops[pushed]);
        assert ops[..pushed + 1][..pushed] == ops[..pushed];
        pushed := pushed + 1;
        if opCount == MaxOperations {
          return;
        }
      }
    }

    /** With the client and a worker taking turns, push then pop, every pop empties
        the stack and the accounts are printed after every single operation. */
    method AlternatingPrintsEveryTime(op: Operation) returns (printed: bool)
      requires Valid() && WellFormed(op) && opCount == 0
      modifies this`opCount, operations, accounts
      ensures printed && opCount == 0
    {
      Push(op);
      var popped;
      popped, printed := WorkerStep();
    }

    /** The worker iteration with the print test the comment at server.c:78 intends:
        pop and apply as server.c does, count the pop, and print after every tenth. */
    method CountingWorkerStep() returns (op: Operation, printed: bool)
      requires Valid()
      requires opCount > 0
      modifies this`opCount, this`handled, accounts
      ensures Valid() && opCount == old(opCount) - 1 && handled == old(handled) + 1
      ensures op == old(Pending())[old(opCount) - 1]
      ensures Pending() == old(Pending())[..old(opCount) - 1]
      ensures accounts[..] == Apply(old(accounts[..]), op)
      ensures printed <==> PrintOnTenth(handled)
    {
      op := Pop();
      ApplyOperation(op);
      handled := handled + 1;
      printed := PrintOnTenth(handled);
    }

    /** `n` iterations of the counting worker from a fresh count print the accounts
        exactly n / 10 times: once per ten operations handled. */
    method CountingWorker(n: nat) returns (prints: nat)
      requires Valid() && handled == 0 && opCount >= n
      modifies this`opCount, this`handled, accounts
      ensures Valid() && opCount == old(opCount) - n && handled == n
      ensures prints == n / 10
    {
      prints := 0;
      var j := 0;
      while j < n
        invariant Valid() && 0 <= j <= n
        invariant opCount == old(opCount) - j && handled == j
        invariant prints == PrintsUpTo(j)
      {
        var op, printed := CountingWorkerStep();
        if printed {
          prints := prints + 1;
        }
        j := j + 1;
      }
      EveryTenthPrinted(n);
    }
  }
}
