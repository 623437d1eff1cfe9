/**
 * The probe conversation the pipeline holds with an exchange host: connect
 * on port 25, greet, MAIL FROM a fixed sender, RCPT TO the recipient under
 * test, QUIT. The network and the SMTP client library are not modelled; a
 * `Server` says, for each host and each command, whether the client call
 * throws or which reply code it returns.
 */
module Smtp {

  const Port: nat := 25
  const Helo: string := "localhost"
  const Sender: string := "test@example.com"

  datatype Command =
    | Connect(host: string, port: nat)
    | Greet(hostname: string)
    | MailFrom(sender: string)
    | RcptTo(recipient: string)
    | Quit

  /** What one client call does: throw, or resolve with the server's reply code. */
  datatype Reply = Failed | Replied(code: int)

  /** The behaviour of the mail servers: the reply `host` gives to a command. */
  type Server = (string, Command) -> Reply

  /** The five calls of one probe, in the order the source awaits them. */
  function Script(host: string, recipient: string): seq<Command> {
    [Connect(host, Port), Greet(Helo), MailFrom(Sender), RcptTo(recipient), Quit]
  }

  /**
   * The commands actually issued when the calls `cmds` are awaited one after
   * another inside one `try`: every call up to and including the first one
   * that throws, and nothing after it.
   */
  function Transmit(server: Server, host: string, cmds: seq<Command>): (sent: seq<Command>)
    ensures sent <= cmds
    ensures cmds != [] ==> sent != []
    ensures forall i :: 0 <= i < |sent| - 1 ==> server(host, sent[i]).Replied?
    ensures |sent| < |cmds| ==> server(host, sent[|sent| - 1]).Failed?
  {
    if cmds == [] then []
    else if server(host, cmds[0]).Failed? then [cmds[0]]
    else [cmds[0]] + Transmit(server, host, cmds[1..])
  }

  /** How a probe ended: every call resolved, with RCPT's reply code, or one threw. */
  datatype Outcome = Completed(rcptCode: int) | Aborted

  datatype Session = Session(sent: seq<Command>, outcome: Outcome)

  /** The connection, the greeting, MAIL FROM and RCPT TO all resolve. */
  predicate ReachesQuit(server: Server, host: string, recipient: string) {
    && server(host, Connect(host, Port)).Replied?
    && server(host, Greet(Helo)).Replied?
    && server(host, MailFrom(Sender)).Replied?
    && server(host, RcptTo(recipient)).Replied?
  }

  /**
   * None of the five calls of a probe of `host` for `recipient` throws. Only
   * whether a call throws matters here, never the reply code it resolves
   * with, RCPT's included.
   */
  predicate Completes(server: Server, host: string, recipient: string) {
    ReachesQuit(server, host, recipient) && server(host, Quit).Replied?
  }

  /**
   * One probe of `host` for `recipient`. It completes exactly when none of
   * the five calls throws, and then carries RCPT's reply code. QUIT is
   * issued only when the four calls before it resolved: on every error path
   * the session is left without QUIT. Every call before the last one sent
   * resolved, and a session that did not complete ended on the call that
   * threw.
   */
  function Probe(server: Server, host: string, recipient: string): (s: Session)
    ensures s.sent <= Script(host, recipient) && s.sent != []
    ensures s.sent[0] == Connect(host, Port)
    ensures s.outcome.Completed? <==> Completes(server, host, recipient)
    ensures s.outcome.Completed? ==>
              s.sent == Script(host, recipient) &&
              s.outcome.rcptCode == server(host, RcptTo(recipient)).code
    ensures forall i :: 0 <= i < |s.sent| - 1 ==> server(host, s.sent[i]).Replied?
    ensures s.outcome.Aborted? ==> server(host, s.sent[|s.sent| - 1]).Failed?
    ensures Quit in s.sent <==> ReachesQuit(server, host, recipient)
  {
    var script := Script(host, recipient);
    var sent := Transmit(server, host, script);
    assert sent == script[..|sent|];
    assert Quit in sent <==> |sent| == 5 by {
      if Quit in sent {
        var i :| 0 <= i < |sent| && sent[i] == Quit;
        assert script[i] == Quit;
      }
      if |sent| == 5 {
        assert sent[4] == Quit;
      }
    }
    assert |sent| == 5 <==> ReachesQuit(server, host, recipient) by {
      assert script[0] == Connect(host, Port) && script[1] == Greet(Helo);
      assert script[2] == MailFrom(Sender) && script[3] == RcptTo(recipient);
      if |sent| == 5 {
        assert server(host, sent[0]).Replied? && server(host, sent[1]).Replied?;
        assert server(host, sent[2]).Replied? && server(host, sent[3]).Replied?;
      } else {
        assert sent[|sent| - 1] == script[|sent| - 1];
      }
    }
    var finished := |sent| == 5 && server(host, Quit).Replied?;
    if finished then
      assert sent == script && server(host, sent[3]).Replied?;
      Session(sent, Completed(server(host, RcptTo(recipient)).code))
    else
      Session(sent, Aborted)
  }

  /**
   * A host that refuses the connection fails every probe, whatever the
   * recipient and whatever it would answer afterwards.
   */
  lemma RefusedConnectionFailsProbe(server: Server, host: string, recipient: string)
    requires server(host, Connect(host, Port)).Failed?
    ensures !Completes(server, host, recipient)
    ensures Probe(server, host, recipient).sent == [Connect(host, Port)]
  {
    assert Script(host, recipient)[0] == Connect(host, Port);
  }
}
