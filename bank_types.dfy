/** Constants and the operation record of the queue-based bank server (exe.c). */
module BankTypes {

  /** NUM_ACCOUNTS: accounts have ids 1..NumAccounts and live at index id - 1. */
  const NumAccounts: nat := 5

  /** MAX_QUEUE_SIZE: capacity of the circular operation queue. */
  const MaxQueueSize: nat := 10

  /** OperationType: BALANCO_GERAL is declared but never produced by a client. */
  datatype OperationType = SaqueDeposito | Transferencia | BalancoGeral | Terminate

  /** One operation as a client submits it. For SaqueDeposito a negative amount is a
      withdrawal; targetAccountId is only read by Transferencia. */
  datatype Operation = Operation(
    kind: OperationType,
    clientId: int,
    accountId: int,
    targetAccountId: int,
    amount: int)

  /** The sentinel a coordinator enqueues once per worker to shut the pool down. */
  const TerminateOp: Operation := Operation(Terminate, 0, 0, 0, 0)
}
