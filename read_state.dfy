/**
 * The read state of the current transaction, derived only from the host manager's two
 * ambient flags: is synchronization active, and is the current transaction read-only.
 */
module ReadState {
  import opened Types

  datatype TxnReadState = TxnNone | TxnReadOnly | TxnReadWrite

  /** getTransactionReadState: never creates a context, never fails. */
  function GetTransactionReadState(active: bool, readOnly: bool): (r: TxnReadState)
    ensures r == TxnNone <==> !active
    ensures r == TxnReadOnly <==> active && readOnly
    ensures r == TxnReadWrite <==> active && !readOnly
  {
    if !active then TxnNone
    else if readOnly then TxnReadOnly
    else TxnReadWrite
  }

  /**
   * checkTransactionReadState: fails when there is no transaction, or when a read-write
   * transaction is required and the current one is read-only.
   */
  function CheckTransactionReadState(active: bool, readOnly: bool, requireReadWrite: bool): (r: Outcome)
    ensures r.Fail? <==> !active || (readOnly && requireReadWrite)
    ensures r == Fail(TransactionRequired) <==> !active
    ensures r == Fail(ReadWriteRequired) <==> active && readOnly && requireReadWrite
  {
    if !active then Fail(TransactionRequired)
    else if readOnly && requireReadWrite then Fail(ReadWriteRequired)
    else Pass
  }

  /** The check passes exactly when the read state admits the requested kind of access. */
  lemma CheckAgreesWithReadState(active: bool, readOnly: bool, requireReadWrite: bool)
    ensures CheckTransactionReadState(active, readOnly, requireReadWrite).Pass?
        <==> match GetTransactionReadState(active, readOnly)
             case TxnNone => false
             case TxnReadOnly => !requireReadWrite
             case TxnReadWrite => true
  {
  }
}
