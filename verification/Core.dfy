/** The statuses that node hibernators keep and report. */
module Core {

  /** Whether the blockchain client and its privacy manager are up; Unknown and
      Unset are the zero values of the two types. */
  datatype ClientStatus = Unknown | Up | Down

  datatype NodeStatus = Unset | ShutdownInprogress | StartupInprogress | ConsensusWait | OK

  /** The statuses in which requests and stops are turned away; waiting for
      consensus is not one of them. */
  predicate Busy(status: NodeStatus) {
    status == ShutdownInprogress || status == StartupInprogress
  }
}
