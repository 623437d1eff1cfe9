/**
 * The object `validateEmail` returns: `valid`, a `reason` and the four
 * stage flags `syntax`, `mailServer`, `mailbox` and `catchAll`. The last
 * flag is named as in the source and means the catch-all check PASSED: the
 * domain was not found to accept any recipient.
 */
module Verdicts {

  /** The five reasons the pipeline can give, one per exit. */
  datatype Reason = InvalidSyntax | NoMxRecords | CannotConnect | CatchAll | ValidAddress

  /** The reason text the source returns for each exit. */
  function Message(r: Reason): string {
    match r
    case InvalidSyntax => "Invalid syntax"
    case NoMxRecords => "Domain has no MX records"
    case CannotConnect => "Cannot connect to mail server"
    case CatchAll => "Domain is catch-all"
    case ValidAddress => "Valid email address"
  }

  /** Each reason has its own text, so the text identifies the exit. */
  lemma MessagesDistinct(r1: Reason, r2: Reason)
    requires r1 != r2
    ensures Message(r1) != Message(r2)
  {
    match r1
    case InvalidSyntax => assert Message(r1)[0] == 'I';
    case NoMxRecords => assert Message(r1)[0] == 'D' && Message(r1)[7] == 'h';
    case CannotConnect => assert Message(r1)[0] == 'C';
    case CatchAll => assert Message(r1)[0] == 'D' && Message(r1)[7] == 'i';
    case ValidAddress => assert Message(r1)[0] == 'V';
  }

  datatype Flags = Flags(syntax: bool, mailServer: bool, mailbox: bool, catchAll: bool)

  datatype Verdict = Verdict(valid: bool, reason: Reason, flags: Flags)

  /** The stages pass in order: a flag is set only when every earlier one is. */
  predicate Monotone(f: Flags) {
    && (f.mailServer ==> f.syntax)
    && (f.mailbox ==> f.mailServer)
    && (f.catchAll ==> f.mailbox)
  }

  predicate AllPassed(f: Flags) {
    f.syntax && f.mailServer && f.mailbox && f.catchAll
  }

  /** The reason that names the first stage whose flag is false. */
  function FirstFailure(f: Flags): Reason {
    if !f.syntax then InvalidSyntax
    else if !f.mailServer then NoMxRecords
    else if !f.mailbox then CannotConnect
    else if !f.catchAll then CatchAll
    else ValidAddress
  }

  /**
   * What every return of the pipeline satisfies: the flags are monotone,
   * the reason names the first stage that did not pass, and the address is
   * valid exactly when all four stages passed.
   */
  predicate Consistent(v: Verdict) {
    && Monotone(v.flags)
    && v.reason == FirstFailure(v.flags)
    && (v.valid <==> AllPassed(v.flags))
  }

  /** The flags each exit of the pipeline reports. */
  function FlagsAt(r: Reason): (f: Flags)
    ensures Monotone(f) && FirstFailure(f) == r
    ensures AllPassed(f) <==> r == ValidAddress
  {
    match r
    case InvalidSyntax => Flags(false, false, false, false)
    case NoMxRecords => Flags(true, false, false, false)
    case CannotConnect => Flags(true, true, false, false)
    case CatchAll => Flags(true, true, true, false)
    case ValidAddress => Flags(true, true, true, true)
  }

  /**
   * In a consistent verdict the reason alone fixes everything else: the
   * flags are those of its exit, and it is valid only with ValidAddress.
   */
  lemma ConsistentDeterminedByReason(v: Verdict)
    requires Consistent(v)
    ensures v.flags == FlagsAt(v.reason)
    ensures v.valid <==> v.reason == ValidAddress
  {
  }
}
