/** The local outcome vocabulary (`ResultCode`) and its translation to and from the
    remote service's `ExecutionStatus`. */
module ResultCodes {

  /** Outcome of a step or a test, as the local result tree records it. */
  datatype ResultCode = NotRun | Success | Skipped | Failure

  /** The remote service's execution states. */
  datatype ExecutionStatus = Passed | Failed | Blocked | NotRun

  /** Maps a numeric status code: 0 is skipped, 1 is success, any other value is a
      failure; a numeric code never means "not run". */
  function ByStatusCode(status: int): (r: ResultCode)
    ensures r != ResultCode.NotRun
    ensures r == Skipped <==> status == 0
    ensures r == Success <==> status == 1
    ensures r == Failure <==> status != 0 && status != 1
  {
    match status
    case 0 => Skipped
    case 1 => Success
    case _ => Failure
  }

  /** Reads a remote status: passed is success, blocked is skipped, not-run stays
      not-run, and every other status is a failure. */
  function FromExecutionStatus(status: ExecutionStatus): (r: ResultCode)
    ensures r == Success <==> status == Passed
    ensures r == Skipped <==> status == Blocked
    ensures r == ResultCode.NotRun <==> status == ExecutionStatus.NotRun
    ensures r == Failure <==> status == Failed
  {
    match status
    case Passed => Success
    case Blocked => Skipped
    case NotRun => ResultCode.NotRun
    case _ => Failure
  }

  /** Writes a local outcome as a remote status. */
  function ToExecutionStatus(r: ResultCode): (status: ExecutionStatus)
    ensures status == Passed <==> r == Success
    ensures status == Blocked <==> r == Skipped
    ensures status == ExecutionStatus.NotRun <==> r == ResultCode.NotRun
    ensures status == Failed <==> r == Failure
  {
    match r
    case Success => Passed
    case Skipped => Blocked
    case NotRun => ExecutionStatus.NotRun
    case _ => Failed
  }

  /** Writing an outcome and reading it back is lossless. */
  lemma ToFromRoundTrip(r: ResultCode)
    ensures FromExecutionStatus(ToExecutionStatus(r)) == r
  {
  }

  /** Reading a remote status and writing it back is lossless too: the two
      vocabularies are in one-to-one correspondence. */
  lemma FromToRoundTrip(status: ExecutionStatus)
    ensures ToExecutionStatus(FromExecutionStatus(status)) == status
  {
  }

  /** Only a not-run outcome is sent as the remote not-run state. */
  lemma NotRunOnlyFromNotRun(r: ResultCode)
    ensures ToExecutionStatus(r) == ExecutionStatus.NotRun <==> r == ResultCode.NotRun
  {
  }
}
