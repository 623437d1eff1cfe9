# Email verification pipeline

A Dafny model of `validateEmail` from the Email-Verification web service.
The function decides whether an e-mail address is deliverable in four
stages, and stops at the first stage that fails:

1. syntax, by the `validator` library;
2. mail server: the MX lookup of the domain returns at least one record;
3. mailbox: some exchange host, tried in ascending preference order, accepts
   a probe conversation (connect on port 25, greet as `localhost`,
   `MAIL FROM test@example.com`, `RCPT TO` the address, `QUIT`);
4. catch-all: the most-preferred host is probed for
   `random_address@<domain>`. A reply code of exactly 250 marks the domain
   as catch-all.

The result is an object with `valid`, a `reason` text and four stage flags.

The syntax library, the DNS resolver and the mail servers are inputs of the
model. They form an `Environment` of three functions:

- `isEmail` gives the syntax verdict;
- `resolveMx` gives, for a domain, either an error or a list of records;
- `smtp` gives, for a host and one client call, either "the call throws" or
  the reply code it resolves with.

Over such an environment, `Pipeline.ValidateEmail` follows the source step
by step:

- it sets the flags as it goes;
- it sorts the records in place in an array (an insertion sort with
  adjacent exchanges);
- it loops over the hosts and leaves the loop at the first probe that
  completes;
- it then runs the catch-all probe.

It is proved to return exactly the verdict of the decision table
`Pipeline.Expected`. It is also proved to open exactly the probes that
`Pipeline.ProbeLog` lists. Both are functions of the environment and the
address alone, so two calls on the same inputs give the same verdict.

Modules:

- `Wrappers`: `Option`.
- `Address`: JavaScript's `split("@")`, and the domain taken from it.
- `Mx`: MX records and the stable sort by priority, as a function and as an
  in-place array method.
- `Smtp`: the probe conversation over a server oracle.
- `Verdicts`: reasons, their texts, flags, and the consistency of a verdict.
- `Pipeline`: the environment and the pipeline itself.

## Model

| member | source | states |
|---|---|---|
| Address.Split | index.js:36 | `split("@")` gives one more segment than there are '@' characters, and no segment contains an '@' |
| Address.JoinSplit | index.js:36 | splitting loses nothing: joining the segments with '@' gives back the address |
| Address.SplitJoin | index.js:36 | segments free of '@', joined and split again, come back unchanged |
| Address.DomainOf | index.js:36 | the domain is absent (`undefined`) exactly when the address has no '@'; when present it holds no '@' |
| Address.DomainOfSegment | index.js:36 | the domain is exactly the text between the first '@' and the next '@' or the end of the address |
| Mx.SortByPriority | index.js:54 | the sorted records are in non-decreasing priority order and as many as before |
| Mx.Insert | index.js:54 | inserting one record into a sorted list keeps it sorted |
| Mx.InsertTies | index.js:54 | inserting a record in front of the records it ties with keeps the per-priority order of `[x] + s` |
| Mx.SortByPriorityStable | index.js:54 | the sort is stable: for every priority, the records with that priority keep their resolver order |
| Mx.SameTiesPermutation | index.js:54 | keeping every priority's records in order implies the result is a permutation of the input |
| Mx.SortedUnique | index.js:54 | two sorted lists with the same per-priority order are equal, so a stable sort by priority has exactly one answer |
| Mx.SwapKeepsTies | index.js:54 | exchanging neighbours of different priority keeps every priority's records in order |
| Mx.SwapNeighbours | index.js:54 | the in-place exchange of two adjacent records of different priority swaps them, leaves the rest, and keeps every tie's order |
| Mx.SameTiesPrefix | index.js:54 | when two sequences keep the same per-priority order and share a suffix, their prefixes keep the same per-priority order |
| Mx.InsertionStep | index.js:54 | one insertion step extends the sorted prefix by one record: the records after it are untouched, and the new prefix is the old one reordered only across different priorities |
| Mx.SortInPlace | index.js:54 | the in-place sort of the array leaves exactly `SortByPriority` of its old contents |
| Smtp.Transmit | index.js:65-73 | awaited calls in one `try` are issued up to and including the first that throws; every earlier one resolved; a cut-short run ends on a throwing call |
| Smtp.Probe | index.js:59-78 | a probe sends a prefix of connect, greet, MAIL FROM, RCPT TO, QUIT, starting with the connect to port 25 of the host; every call before the last one sent resolved; it completes exactly when no call throws, and then carries RCPT's reply code; QUIT is sent exactly when the four calls before it resolved; an aborted probe ended on a throwing call |
| Smtp.RefusedConnectionFailsProbe | index.js:65-66 | a host that refuses the connection fails every probe after the connect alone |
| Verdicts.MessagesDistinct | index.js:31-111 | the five reason texts are pairwise different, so the text identifies the exit |
| Verdicts.FlagsAt | index.js:22-111 | the flags of each exit are monotone, their first false flag names that exit's reason, and all are true only at the valid exit |
| Verdicts.ConsistentDeterminedByReason | index.js:22-111 | in a consistent verdict the reason fixes the flags, and the verdict is valid exactly with "Valid email address" |
| Pipeline.CatchAllRecipientInDomain | index.js:98-99 | the made-up catch-all recipient lies in the domain under test |
| Pipeline.Lookup | index.js:36-45 | an address without '@' gives `undefined` as domain, and the lookup counts as a DNS error |
| Pipeline.LookupQueriesDomain | index.js:36-41 | the resolver is queried with the text after the first '@', up to the next '@' or the end |
| Pipeline.HasMailServer | index.js:36-49 | the mail-server stage passes exactly when the address has an '@' and the resolver answers its domain with a non-empty list; no '@', a DNS error and an empty list fail alike |
| Pipeline.Hosts | index.js:39-54 | the hosts tried are the resolver's records, a permutation of them, in non-decreasing priority |
| Pipeline.FirstAccepting | index.js:57-79 | the first accepting host: every host before it fails its probe, and it completes its probe (or none does) |
| Pipeline.MailboxAccepted | index.js:57-83 | some host completes the probe for the address exactly when the host loop, stopping at the first such host, finds one |
| Pipeline.IsCatchAll | index.js:88-108 | the domain is catch-all exactly when the probe of the first sorted host for the made-up recipient has no call throwing and RCPT replies exactly 250; any throw or other code is not catch-all |
| Pipeline.Attempts | index.js:58-69 | one probe per host, in order, all for the same recipient |
| Pipeline.ProbeLog | index.js:56-101 | no probe before the mail-server stage passes; with no accepting host, every host is probed in sorted order and each fails; otherwise the hosts are probed in sorted order up to the first that completes, every earlier one fails, and the last probe is the catch-all probe of the first host |
| Pipeline.Passed | index.js:29-110 | the stages that pass form a monotone set of flags |
| Pipeline.Judge | index.js:21-112 | the reason is the first stage that does not pass, and "Valid email address" exactly when all four pass |
| Pipeline.Expected | index.js:22-111 | the verdict's flags are exactly the stages that pass, and it is valid exactly when all four pass |
| Pipeline.SortedRecords | index.js:39-54 | the array the pipeline sorts holds the resolver's records in `SortByPriority` order |
| Pipeline.TryHosts | index.js:56-79 | the host loop succeeds exactly when some host completes its probe; it probes the hosts in order up to and including the first that completes, or all of them when none does |
| Pipeline.ValidateEmail | index.js:21-112 | the verdict is the decision table's for every environment and address; the probes opened are exactly those of `ProbeLog` |
| Pipeline.ExpectedConsistent | index.js:22-111 | every verdict has monotone flags, the reason of the first stage that did not pass, and is valid exactly when all four stages passed |
| Pipeline.CatchAllTargetsMostPreferred | index.js:88-90 | the catch-all probe targets a host whose preference value is no larger than that of any record the resolver returned |
| Pipeline.PrimaryDownReportsValid | index.js:85-111 | when the most-preferred host refuses connections, the domain is never reported catch-all, and an address some backup host accepted is reported valid |

## Left out

- The Express application, its routes, view rendering, the `PORT`
  setting and the handling of an empty form field (index.js:1-19,
  114-141) are not part of this model.
- The network is not modelled. DNS and SMTP are the oracles
  `resolveMx` and `smtp`. The SMTP client's 5000 ms timeout is one of the
  ways a call throws.
- `validator.isEmail` is an oracle. Its grammar is not modelled.
- Awaiting, concurrency between requests, and the `console.error`
  logging are left out.
- A client that is never closed is left out. Only which commands were
  issued is recorded, not the connection's life.
- The 16-bit width of MX preference values is not modelled. Priorities
  are natural numbers, and the comparator's subtraction cannot overflow on
  them.
- One oracle answers the mailbox probes and the catch-all probe. A host's
  reply to a command does not depend on earlier sessions. A server whose
  answers change between connections is not modelled.
- An exception that escapes `validateEmail` is not modelled. In the
  source none does, except through a failure inside the oracles
  themselves.
- The catch-all probe goes to the first host in sorted order
  (index.js:90), not to the host that accepted the address, so a catch-all
  verdict can come from a host other than the one that accepted it.
  `Pipeline.PrimaryDownReportsValid` states one consequence.
- No probe sends QUIT after a call has thrown. Connections are left to the
  client library and the server on every error path. The model follows
  the code, and `Smtp.Probe` states it.
- An address without '@' that passes the syntax check would make the
  resolver throw on `undefined`. The model takes the "Domain has no MX
  records" exit for it, the same as for a DNS error.
- The RCPT reply code of a mailbox probe is never inspected. A probe that
  completes counts as an accepted mailbox whatever the code. In the
  catch-all probe, a QUIT that throws after a 250 reply counts as "not
  catch-all".
