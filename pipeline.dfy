/**
 * `validateEmail`: the four-stage verdict pipeline. The syntax library, the
 * DNS resolver and the mail servers are inputs (an `Environment`); over
 * them the method below does what the source does, step by step: it sets
 * the stage flags in order, leaves at the first stage that fails with that
 * stage's reason, sorts the MX records in place, probes the hosts in that
 * order until one gets through the whole conversation, and finally probes
 * the most-preferred host with a made-up recipient to detect a catch-all
 * domain.
 */
module Pipeline {
  import opened Wrappers
  import opened Address
  import opened Mx
  import opened Smtp
  import opened Verdicts

  /** The outcome of `dns.promises.resolveMx`: it throws, or yields records. */
  datatype DnsAnswer = DnsError | Resolved(records: seq<MxRecord>)

  /**
   * What the pipeline learns from outside: the verdict of the syntax
   * library (`validator.isEmail`), the MX lookup for a domain, and the
   * replies of the mail servers.
   */
  datatype Environment = Environment(
    isEmail: string -> bool,
    resolveMx: string -> DnsAnswer,
    smtp: Server)

  /** The local part of the fabricated recipient of the catch-all probe. */
  const ProbeLocalPart: string := "random_address"

  /** The recipient that should not exist at `domain`. */
  function CatchAllRecipient(domain: string): string {
    ProbeLocalPart + [At] + domain
  }

  /** The fabricated recipient lies in the domain under test. */
  lemma CatchAllRecipientInDomain(domain: string)
    requires At !in domain
    ensures DomainOf(CatchAllRecipient(domain)) == Some(domain)
  {
    DomainOfSegment(ProbeLocalPart, domain, []);
    assert CatchAllRecipient(domain) + [] == CatchAllRecipient(domain);
  }

  /**
   * The MX lookup for the address's domain. Without an '@' the domain is
   * `undefined`, the resolver call throws inside the `try`, and the lookup
   * counts as failed.
   */
  function Lookup(env: Environment, email: string): (answer: DnsAnswer)
    ensures At !in email ==> answer == DnsError
  {
    match DomainOf(email)
    case None => DnsError
    case Some(d) => env.resolveMx(d)
  }

  /**
   * The resolver is asked about the text after the first '@', up to the
   * next '@' or the end of the address.
   */
  lemma LookupQueriesDomain(env: Environment, local: string, domain: string, rest: string)
    requires At !in local && At !in domain
    requires rest == [] || rest[0] == At
    ensures Lookup(env, local + [At] + domain + rest) == env.resolveMx(domain)
  {
    DomainOfSegment(local, domain, rest);
  }

  /**
   * The domain has at least one mail exchanger. An address without '@', a
   * lookup that throws and an empty answer all fail this stage alike.
   */
  function HasMailServer(env: Environment, email: string): (b: bool)
    ensures b <==> At in email && env.resolveMx(DomainOf(email).value) != DnsError
                   && env.resolveMx(DomainOf(email).value).records != []
  {
    var answer := Lookup(env, email);
    answer.Resolved? && answer.records != []
  }

  /** The exchange hosts in the order they are tried. */
  function Hosts(env: Environment, email: string): (hosts: seq<MxRecord>)
    requires HasMailServer(env, email)
    ensures hosts != [] && Sorted(hosts)
    ensures multiset(hosts) == multiset(Lookup(env, email).records)
  {
    var records := Lookup(env, email).records;
    SortByPriorityStable(records);
    SameTiesPermutation(SortByPriority(records), records);
    SortByPriority(records)
  }

  /** The domain of an address whose MX lookup succeeded. */
  function Domain(env: Environment, email: string): (d: string)
    requires HasMailServer(env, email)
    ensures DomainOf(email) == Some(d)
  {
    DomainOf(email).value
  }

  /**
   * The index of the first host that gets through the whole probe
   * conversation for `recipient`, or `|hosts|` when none does.
   */
  function FirstAccepting(server: Server, hosts: seq<MxRecord>, recipient: string): (k: nat)
    ensures k <= |hosts|
    ensures forall j :: 0 <= j < k ==> !Completes(server, hosts[j].exchange, recipient)
    ensures k < |hosts| ==> Completes(server, hosts[k].exchange, recipient)
  {
    if hosts == [] then 0
    else if Completes(server, hosts[0].exchange, recipient) then 0
    else 1 + FirstAccepting(server, hosts[1..], recipient)
  }

  /**
   * Some exchange host accepts the probe for the address itself; then the
   * host loop, which stops at the first such host, finds one.
   */
  function MailboxAccepted(env: Environment, email: string): (b: bool)
    requires HasMailServer(env, email)
    ensures b <==> FirstAccepting(env.smtp, Hosts(env, email), email) < |Hosts(env, email)|
  {
    var hosts := Hosts(env, email);
    exists i :: 0 <= i < |hosts| && Completes(env.smtp, hosts[i].exchange, email)
  }

  /**
   * The catch-all probe, always sent to the most-preferred host (not the one
   * that accepted the address), completes with RCPT reply code exactly 250.
   */
  function IsCatchAll(env: Environment, email: string): (b: bool)
    requires HasMailServer(env, email)
    ensures var host, recipient := Hosts(env, email)[0].exchange, CatchAllRecipient(Domain(env, email));
            b <==> Completes(env.smtp, host, recipient) && env.smtp(host, RcptTo(recipient)).code == 250
  {
    var hosts := Hosts(env, email);
    Probe(env.smtp, hosts[0].exchange, CatchAllRecipient(Domain(env, email))).outcome == Completed(250)
  }

  /** One probe the pipeline opens: the host it targets and the recipient it declares. */
  datatype Attempt = Attempt(host: MxRecord, recipient: string)

  /** Probes of each of `hosts`, in order, for `recipient`. */
  function Attempts(hosts: seq<MxRecord>, recipient: string): (r: seq<Attempt>)
    ensures |r| == |hosts|
    ensures forall i :: 0 <= i < |r| ==> r[i] == Attempt(hosts[i], recipient)
  {
    if hosts == [] then [] else [Attempt(hosts[0], recipient)] + Attempts(hosts[1..], recipient)
  }

  /**
   * The probes the pipeline opens, in order: none before the MX stage
   * passes; then the hosts in sorted order up to and including the first
   * that accepts; then, if one accepted, the catch-all probe of the first
   * host for the fabricated recipient.
   */
  function ProbeLog(env: Environment, email: string): (log: seq<Attempt>)
    ensures log == [] <==> !env.isEmail(email) || !HasMailServer(env, email)
    ensures env.isEmail(email) && HasMailServer(env, email) && !MailboxAccepted(env, email) ==>
              log == Attempts(Hosts(env, email), email) &&
              forall i :: 0 <= i < |log| ==> !Completes(env.smtp, log[i].host.exchange, email)
    ensures env.isEmail(email) && HasMailServer(env, email) && MailboxAccepted(env, email) ==>
              && 2 <= |log| <= |Hosts(env, email)| + 1
              && log[|log| - 1] == Attempt(Hosts(env, email)[0], CatchAllRecipient(Domain(env, email)))
              && (forall i :: 0 <= i < |log| - 1 ==> log[i] == Attempt(Hosts(env, email)[i], email))
              && (forall i :: 0 <= i < |log| - 2 ==> !Completes(env.smtp, log[i].host.exchange, email))
              && Completes(env.smtp, log[|log| - 2].host.exchange, email)
  {
    if !env.isEmail(email) || !HasMailServer(env, email) then []
    else
      var hosts := Hosts(env, email);
      var k := FirstAccepting(env.smtp, hosts, email);
      if k == |hosts| then Attempts(hosts, email)
      else Attempts(hosts[..k + 1], email) + [Attempt(hosts[0], CatchAllRecipient(Domain(env, email)))]
  }

  /** The resolver's records as the array the pipeline sorts in place. */
  method SortedRecords(records: seq<MxRecord>) returns (mxRecords: array<MxRecord>)
    ensures fresh(mxRecords)
    ensures mxRecords[..] == SortByPriority(records)
  {
    mxRecords := new MxRecord[|records|](i requires 0 <= i < |records| => records[i]);
    assert mxRecords[..] == records;
    SortInPlace(mxRecords);
  }

  /**
   * The host loop: probe the records in array order, stop at the first one
   * whose conversation completes, and report whether one did. Every host
   * before it was probed and failed; no host after it is probed.
   */
  method TryHosts(server: Server, mxRecords: array<MxRecord>, email: string)
    returns (connected: bool, ghost probes: seq<Attempt>)
    ensures connected <==> FirstAccepting(server, mxRecords[..], email) < mxRecords.Length
    ensures connected ==>
              probes == Attempts(mxRecords[..FirstAccepting(server, mxRecords[..], email) + 1], email)
    ensures !connected ==> probes == Attempts(mxRecords[..], email)
  {
    ghost var hosts := mxRecords[..];
    probes := [];
    connected := false;
    var i := 0;
    while i < mxRecords.Length
      invariant 0 <= i <= mxRecords.Length
      invariant !connected
      invariant forall j :: 0 <= j < i ==> !Completes(server, hosts[j].exchange, email)
      invariant probes == Attempts(hosts[..i], email)
    {
      var mxRecord := mxRecords[i];
      var session := Probe(server, mxRecord.exchange, email);
      probes := probes + [Attempt(mxRecord, email)];
      assert probes == Attempts(hosts[..i + 1], email);
      if session.outcome.Completed? {
        connected := true;
        break;
      }
      i := i + 1;
    }
    ghost var k := FirstAccepting(server, hosts, email);
    if connected {
      assert k == i;
    } else {
      assert k == |hosts| && hosts[..i] == hosts;
    }
  }

  /**
   * Which of the four stages pass for `email`. A stage counts as passed only
   * when every earlier one passed too, since the pipeline stops at the
   * first failure.
   */
  function Passed(env: Environment, email: string): (f: Flags)
    ensures Monotone(f)
  {
    var syntax := env.isEmail(email);
    var mailServer := syntax && HasMailServer(env, email);
    var mailbox := mailServer && MailboxAccepted(env, email);
    var catchAll := mailbox && !IsCatchAll(env, email);
    Flags(syntax, mailServer, mailbox, catchAll)
  }

  /**
   * The decision table of the pipeline: the reason names the first stage
   * that does not pass. A failed lookup and an empty answer are one case; a
   * catch-all probe that throws counts as "not catch-all".
   */
  function Judge(env: Environment, email: string): (r: Reason)
    ensures r == FirstFailure(Passed(env, email))
    ensures r == ValidAddress <==> AllPassed(Passed(env, email))
  {
    if !env.isEmail(email) then InvalidSyntax
    else if !HasMailServer(env, email) then NoMxRecords
    else if !MailboxAccepted(env, email) then CannotConnect
    else if IsCatchAll(env, email) then CatchAll
    else ValidAddress
  }

  /** The verdict the pipeline should return: the reason with its exit's flags. */
  function Expected(env: Environment, email: string): (v: Verdict)
    ensures v.flags == Passed(env, email)
    ensures v.valid <==> AllPassed(Passed(env, email))
  {
    var r := Judge(env, email);
    Verdict(r == ValidAddress, r, FlagsAt(r))
  }

  /**
   * Every verdict of the table is consistent: monotone flags, the reason of
   * the first stage that did not pass, valid exactly when all four passed.
   */
  lemma ExpectedConsistent(env: Environment, email: string)
    ensures Consistent(Expected(env, email))
  {
  }

  /**
   * The pipeline. It sets the flags one stage at a time and returns at the
   * first stage that fails, and the verdict it builds is the one of the
   * decision table; the probes it opens are those of ProbeLog.
   */
  method ValidateEmail(email: string, env: Environment) returns (v: Verdict, ghost probes: seq<Attempt>)
    ensures v == Expected(env, email)
    ensures probes == ProbeLog(env, email)
  {
    probes := [];
    var result := Flags(false, false, false, false);

    if !env.isEmail(email) {
      v := Verdict(false, InvalidSyntax, result);
      return;
    }
    result := result.(syntax := true);

    var domain := DomainOf(email);
    var answer := if domain.None? then DnsError else env.resolveMx(domain.value);
    if answer.DnsError? {
      v := Verdict(false, NoMxRecords, result);
      return;
    }
    if |answer.records| == 0 {
      v := Verdict(false, NoMxRecords, result);
      return;
    }
    result := result.(mailServer := true);
    assert Lookup(env, email) == answer && HasMailServer(env, email);

    var mxRecords := SortedRecords(answer.records);
    ghost var hosts := Hosts(env, email);

    var connected;
    ghost var mailboxProbes;
    connected, mailboxProbes := TryHosts(env.smtp, mxRecords, email);
    probes := mailboxProbes;
    ghost var k := FirstAccepting(env.smtp, hosts, email);
    if !connected {
      assert k == |hosts| && probes == Attempts(hosts, email);
      assert probes == ProbeLog(env, email);
      v := Verdict(false, CannotConnect, result);
      return;
    }
    result := result.(mailbox := true);

    var recipient := CatchAllRecipient(domain.value);
    var catchAllSession := Probe(env.smtp, mxRecords[0].exchange, recipient);
    probes := probes + [Attempt(mxRecords[0], recipient)];
    assert k < |hosts| && recipient == CatchAllRecipient(Domain(env, email));
    assert probes == Attempts(hosts[..k + 1], email) + [Attempt(hosts[0], recipient)];
    assert probes == ProbeLog(env, email);
    if catchAllSession.outcome == Completed(250) {
      v := Verdict(false, CatchAll, result);
      return;
    }
    result := result.(catchAll := true);
    v := Verdict(true, ValidAddress, result);
  }

  /**
   * The host the catch-all probe targets, the first after sorting, has the
   * lowest preference value of all the records the resolver returned.
   */
  lemma CatchAllTargetsMostPreferred(env: Environment, email: string)
    requires HasMailServer(env, email)
    ensures forall r :: r in Lookup(env, email).records ==> Hosts(env, email)[0].priority <= r.priority
  {
    var hosts := Hosts(env, email);
    forall r | r in Lookup(env, email).records
      ensures hosts[0].priority <= r.priority
    {
      assert r in multiset(hosts);
      var i :| 0 <= i < |hosts| && hosts[i] == r;
    }
  }

  /**
   * When the most-preferred host refuses connections the catch-all probe
   * fails, so the domain is never reported as catch-all: if a backup host
   * accepted the address, the verdict is valid whatever that backup would
   * answer for a made-up recipient.
   */
  lemma PrimaryDownReportsValid(env: Environment, email: string)
    requires env.isEmail(email) && HasMailServer(env, email)
    requires env.smtp(Hosts(env, email)[0].exchange, Connect(Hosts(env, email)[0].exchange, Port)).Failed?
    ensures !IsCatchAll(env, email)
    ensures MailboxAccepted(env, email) ==> Expected(env, email).valid
  {
    var host := Hosts(env, email)[0].exchange;
    RefusedConnectionFailsProbe(env.smtp, host, CatchAllRecipient(Domain(env, email)));
  }
}
