# gentlsa, verified

A Dafny model of the parts of gentlsa that can go wrong quietly: the TLSA rollover with its crashes
and resumes, the RRset algebra and its two kinds of backend, the verdict of `verify`, and the
byte-level readers and printers underneath. Everything is proved for all inputs, all runs and all
points of failure; nothing in it is executed.

`dafny verify dfyconfig.toml` checks the project (Dafny 4.11).

## How it is laid out

| files | what they hold |
|---|---|
| `Publish.dfy`, `Rollover.dfy` | the RRset algebra of publish and prune; the job, its phases and deadlines |
| `Machine.dfy` | a rollover as a state machine: the program's steps, the clock, crashes, commands, the service and the name server with the whole history of every RRset |
| `Safety.dfy`, `Timing.dfy`, `CrashEquivalence.dfy` | theorems about every run of that machine |
| `Replay.dfy`, `ReplayCounterexample.dfy` | what running a job from an older copy of itself does to safety |
| `Execute.dfy`, `JobStore.dfy`, `JobIds.dfy` | `execute_rollover` and its commands as imperative code that refines the machine; the job file as file-system steps, and its name |
| `Nsupdate.dfy`, `WholeRrset.dfy`, `Hex.dfy` | the record-by-record backend and the whole-RRset backend against the algebra |
| `Calendar.dfy`, `Rdata.dfy` | time stamps and TLSA data: closed form against reference, printer against parser |
| `Xml.dfy`, `Escaping.dfy`, `ChangeDocument.dfy`, `ChangeShape.dfy`, `Listing.dfy`, `Route53.dfy` | the XML scanner, the change document and listings, and what the one reads in the others |
| `Wire.dfy`, `Utf8.dfy`, `Smtp.dfy`, `MailStores.dfy`, `Xmpp.dfy`, `Deadline.dfy` | the STARTTLS readers, their dialogues and the time budget they run under |
| `Mx.dfy`, `Placement.dfy`, `Verify.dfy`, `Text.dfy` | MX lists, names and zones, the verify verdict, strings |

## What is assumed

- The clock counts whole seconds and never goes back; one clock serves both the saved deadlines and the sleeps.
- The machine is that of one job id, which names its ports; other ids have other ports. Each id has one execution at a
  time, and nothing else writes the RRsets.
- For `rollover`, reading the saved job and starting it is one step. For `rollover --resume` it need not be: `Replay` is
  about copies read earlier.
- A crash is a kill of the process at any point. Losing power is not: a save does not sync.
- The certificate file does not change during an execution. A port's certificate changes only when a reload command
  runs, to the one in the file, and for any subset of the job's ports.
- `dryrun` is false and every job has a reload command. Time stamps are unbounded.
- An RRset is in view at time `t` if it was authoritative at some second of the `2 * ttl` before `t`, or is so now. The
  version written at second `s` takes over at `s`.
- Leaving an execution early, with an error or an exit code, is the same as being killed at that point.
- SHA-256, SHA-512 and key extraction are functions about which nothing is assumed.

## What the proofs found

- **Replaying an older copy of a job can break clients.** `rollover --resume` loads every job before it runs the first,
  so the copy it runs may be older than the one on disk. If a reload has no effect on a port and the job goes on to
  prune it to the key still in service, the new key's record is gone; an older copy that still has its reload to do
  passes the certificate check, reloads, and puts an unpinned key into service. `ReplayCanBreakClients` is such a run,
  under one certificate file. The same happens when the file goes back to an earlier certificate after a later rollover
  has pruned it. The branch at fault is the prune, which goes by the hash in service alone. What it would have to check
  is that this is the hash of every copy that some process still holds with its reload ahead (or, deleting record by
  record, that it does not delete the last record of such a hash). Runs in which every prune meets that guard are safe
  under any replays and any changes of the file (`GuardedReplaysAreSafe`), and at every moment of a run all held copies
  can be replayed safely if and only if its prunes have met it (`ReplaysExact`, and `PruneExact` for a single prune).
  Running the copy that is on disk at that moment needs no guard (`ViewsPinLiveKeys`).
- **An interrupted `--replace` over nsupdate can lose a record.** It deletes one 3 1 1 record and then adds the new
  one. Cut between the two and run again, it replaces a second one. It ends as it should exactly if the deleted record
  was the only 3 1 1 record (`InterruptedReplace`). The whole-RRset backend has no such state.
- **Owner names are escaped on the way to Route 53 and not un-escaped on the way back.** A name survives exactly if it
  has none of `& < > "` and trimming leaves it alone (`NameSurvives`). Record values always survive.
- **The reader of the XMPP reply takes the first `>` for the end of the tag, quoted or not.** `<proceed a='>'/>` is
  well-formed and is refused (`QuotedBracketRefused`). An empty reply is consumed to the byte if and only if its attributes
  have no `>` in them (`EmptyProceedExact`); a paired one if and only if the text before the first `>` does not end in a
  slash and the reply ends in the first `</proceed>`, written without white space (`PairedProceedExact`).
- **SMTP reply lines are sliced by byte.** A greeting of `220` and an accented letter ends in a panic
  (`AccentedGreetingPanics`). A line panics if and only if its fourth byte goes on with a character, or its fifth does
  and the first three are a code (`SplitPanics`), and a reply if and only if one of its lines does (`ReplyPanics`). No
  dialogue in ASCII panics (`AsciiDialogue`).
- **White space inside an MX name can be trimmed away.** The name connected to is the exchange if and only if trimming
  leaves what stands before the zone alone (`MxConnectsExact`); for names without white space it always does.

## Model

| member | source | states |
|---|---|---|
| Safety.ViewsPinLiveKeys | src/main.rs:827-979 | in every run from disk, whatever crashes, resumes, schedules, replaced certificates and failed, repeated or partial reloads it has, every RRset a client may still hold pins the key it meets (section 8.1 of RFC 7671) |
| Safety.AlwaysSafeFrom | src/main.rs:827-979 | the same at every moment of the run, from any state such a run can be in |
| Safety.ReloadGuardExact | src/main.rs:912-950 | reloads of a sound state stay safe for every subset of ports exactly if the file's key is pinned in every view already |
| Safety.SinceCoversView | src/rollover.rs:27-29 | a hash pinned ever since a moment at least one wait ago is pinned in every view |
| Safety.SoundStep | src/main.rs:827-979 | every step keeps the job's phase, its four deadlines and the program counter in agreement |
| Safety.PinnedStep | src/main.rs:840-979 | every step keeps: a port that has been published for the job in memory or on disk stays pinned to its hash until the reload |
| Machine.AfterPublishPort | src/main.rs:842-879 | publishing a port writes the algebra's RRset there and touches no other port |
| Timing.NoEarlyReload | src/main.rs:880-911 | no reload command runs before `published_at + 2 * ttl` |
| Timing.NoEarlyPrune | src/main.rs:880-911 | no prune write happens before the later of `published_at + 4 * ttl` and `reloaded_at + 2 * ttl` |
| Timing.ResumedSleepKeepsDeadline | src/rollover.rs:136-138 | a sleep taken up again after a crash ends at the deadline of the first one, or at once if that has passed |
| Timing.ChainAdvances | src/main.rs:823-838 | along executions each started from the saved job, every save raises the phase index, at most four times in all, and `prune_after` never falls |
| Timing.SaveAdvances | src/rollover.rs:163-171 | one save moves to a strictly later phase |
| CrashEquivalence.CrashesLeaveNoTrace | src/main.rs:840-979 | any run that ends with the job removed leaves each of its ports at prune(publish(initial), live hash) and every other port alone, as an uninterrupted one does |
| CrashEquivalence.StageStep | src/main.rs:840-979 | between any two steps each port's RRset is one of the stages that lead there |
| Replay.GuardedReplaysAreSafe | src/main.rs:649-722 | runs that also replay any held copy, under any changes of the certificate file, are safe as long as every prune spares the hashes of the held copies with their reload ahead |
| Replay.ReplaysExact | src/main.rs:649-722 | at all moments of a run every held copy can be replayed up to its reload safely, if and only if every prune of the run met that guard |
| Replay.ReplayExact | src/main.rs:798-808 | replaying one held copy, from either phase before its reload, is safe exactly if its hash is pinned in all copies in view when the reload comes |
| Replay.PruneExact | src/main.rs:952-979 | a prune of the whole RRset spares a held copy if the hash in service is the copy's, one of a record if it is not the last of that hash; exactly then the copy can still be run, whatever the file says now |
| ReplayCounterexample.ReplayCanBreakClients | src/main.rs:649-722 | a concrete run from a safe start in which a replayed copy puts an unpinned key into service |
| Execute.ExecuteRollover | src/main.rs:758-979 | whatever fails, the execution is a run of the machine; with code 0 its log holds exactly the steps from the job's own phase on, each once: the saves, waits and writes, and one run of the reload command, or none if the job was past it or all ports were seen to present the new key; then the job is gone; without faults the code is 0 |
| Execute.RunPhase | src/main.rs:839-979 | each phase ends where the next one starts, and only the wait before the reload can find it unnecessary |
| Execute.World.PublishPort | src/main.rs:855-877 | deciding and writing one port is the machine's publish step, or fails before or after it |
| Execute.World.PruneByRecord | src/nsupdate.rs:300-328 | deleting the stale records one by one is a sequence of machine steps that leaves none; a delete may fail before or after it takes effect |
| Execute.World.PruneByRrset | src/route53.rs:228-266 | so is writing what is left, in one step or none, which may fail before or after it takes effect |
| Execute.World.LiveMatchesFile | src/main.rs:1011-1030 | true only if there are ports and all of them present the file's key, and without faults exactly then |
| Execute.World.RunReload | src/main.rs:912-950 | the reload command is run once, whether or not it reports success, and the ports it reached present the file's key |
| Execute.RolloverCommand | src/main.rs:724-757 | the command takes up the saved job for the same certificate or a new one; from a safe world, every moment of an execution that started was safe, whether it completed or failed |
| Execute.ResumeCommand | src/main.rs:649-722 | a copy for another certificate changes nothing; the copy on disk is as safe to run as a new start, to its end or its failure |
| JobStore.CrashesAreAtomic | src/rollover.rs:336-386 | through any history of saves and removals each cut after any of its file-system steps, loading gives what the last finished command left |
| JobStore.CutCommand | src/rollover.rs:336-361 | a command cut short changes what can be loaded in full or not at all, for every id |
| JobStore.NeverTorn | src/rollover.rs:367-386 | a job that loads or is missing does so again after any history of cut saves and removals by this version |
| JobStore.StateDir.SaveJob | src/rollover.rs:336-345 | a save is three system calls: truncate, fill and rename, in this order |
| JobStore.SavedIsLoaded | src/rollover.rs:336-386 | loading gives back the job that was saved, nothing after a removal, and every other job as it was |
| JobIds.KeptExactly | src/rollover.rs:277-308 | the job of a rollover can be kept, and so resumed, exactly if its id is shorter than 200 and no name in it has two dots in a row |
| JobIds.SharedExactly | src/rollover.rs:277-299 | two rollovers share a job exactly if they have the same ports in the same order and names that differ in unusual characters at most |
| Rollover.Job.MarkPublished | src/rollover.rs:240-250 | the new record of the job, field by field, and no other change |
| Rollover.Job.MarkReloaded | src/rollover.rs:252-257 | the prune deadline is the later of the old one and a wait from now |
| Publish.RrsetAfterPublish | src/publish.rs:203-232 | the loop replaces the first 3 1 1 record, or appends, or leaves the RRset alone |
| Publish.PublishThenNothingToDo | src/publish.rs:62-86 | after any publish the hash is pinned and the next decision, in any mode, is that it is published already |
| Publish.RolloverPublishPins | src/publish.rs:62-86 | a rollover publish pins exactly one more hash |
| Publish.PrunePins | src/publish.rs:234-239 | a prune un-pins every hash but the live one |
| Publish.PruneConserves | src/publish.rs:234-250 | stale and kept records together are a reordering of the RRset |
| Publish.PruneStable | src/publish.rs:234-250 | prune is idempotent and leaves nothing stale |
| Publish.ForeignSurvive | src/publish.rs:203-239 | records that are not 3 1 1 survive every sequence of rollover publishes and prunes, in their order |
| Nsupdate.Server.PublishTlsa | src/nsupdate.rs:196-283 | on success the server holds the algebra's records, and without faults it succeeds; a pinned hash is not written again; in rollover mode an interruption leaves the old RRset or the new one, and a replace leaves it without the first 3 1 1 record in between |
| Nsupdate.Server.PruneTlsa | src/nsupdate.rs:300-328 | on success the RRset is the algebra's, and without faults it succeeds; every RRset on the way keeps the live hash and the foreign records and prunes to the same result |
| Nsupdate.InterruptedReplace | src/nsupdate.rs:263-272 | a replace cut after its delete and run again ends as an uninterrupted one exactly if the deleted record was the only 3 1 1 record |
| Nsupdate.SecondRecordLost | src/nsupdate.rs:263-272 | with two 3 1 1 records, one is kept by an uninterrupted replace and lost by that one |
| Nsupdate.ReplaceElements | src/nsupdate.rs:263-272 | delete-then-add holds the same records as the algebra's replacement |
| WholeRrset.HostedZone.PublishTlsa | src/route53.rs:145-218 | the RRset is written at most once, from the old one to the algebra's result, and not at all in a dry run or if the hash is pinned; on success the hash is pinned, and without faults it succeeds |
| WholeRrset.HostedZone.PruneTlsa | src/route53.rs:220-270 | one write of what is left or, when nothing is, a delete that names the RRset as it stands; never an empty write |
| WholeRrset.ListedIsData | src/route53.rs:419-426 | what is read from values is always in the form in which it is written |
| Hex.EncodeDecode | src/nsupdate.rs:376-418 | decoding a hash and listing it again gives its lower-case form |
| Hex.DecodeEncode | src/nsupdate.rs:431-442 | decoding what was listed gives the data back |
| Hex.StandsFor | src/tlsa.rs:242-244 | text stands for data, in whatever case, exactly if it decodes to it |
| Calendar.CivilIsTheCalendar | src/route53.rs:748-772 | for every day since 1970 the closed form is the date of the Gregorian calendar turned page by page, and a valid one |
| Calendar.AmzTimestamps | src/route53.rs:748-772 | both stamps show the calendar's date and the time of day |
| Calendar.FieldsRecompose | src/route53.rs:748-772 | the fields of a stamp give back the second |
| Calendar.StampsIncrease | src/route53.rs:748-772 | with four-digit years a later second has the greater stamp, as text |
| Rdata.ParseFormat | src/publish.rs:174-191 | parsing a printed record gives it back (section 2.2 of RFC 6698) |
| Rdata.FormatParse | src/publish.rs:174-191 | whatever parses is printed so that it parses to the same record |
| Rdata.SplitData | src/publish.rs:174-184 | white space anywhere in the data makes no difference |
| Xml.ScanAgrees | src/route53.rs:485-519 | on every document of tags and text the scanner finds exactly the blocks that the tags enclose |
| Xml.XmlBlocks | src/route53.rs:485-499 | the loop with `find` and slices collects the text between each opening tag and the closing tag after it |
| ChangeDocument.ReadsBack | src/route53.rs:428-483 | the client's scanner reads its own change document back as one TLSA record set with the same records in the same order; the owner name is the same exactly if nothing in it is escaped or trimmed |
| ChangeDocument.HexReadsBack | src/route53.rs:428-483 | so for every list of records with lower-case hexadecimal data |
| Route53.ChangeBatch | src/route53.rs:428-455 | the loop and the template build that document, with the one action that was asked for and the one time to live |
| ChangeShape.ActionAndTtl | src/route53.rs:428-455 | the scanner finds one action in it, UPSERT for a publish and DELETE for a removal, and one time to live, whatever the name and the records hold |
| ChangeShape.Nesting | src/route53.rs:428-455 | the batch holds one list of one change, the change one record set and the set one list of records, each found where it belongs |
| Listing.ListingReadsBack | src/route53.rs:472-483 | of a listing of any number of record sets each is read in its place with its own records |
| Listing.DocumentsConcat | src/route53.rs:472-483 | two documents one after the other list what the one does and then what the other does |
| Escaping.NameSurvives | src/route53.rs:472-526 | escaping and trimming leave a name alone exactly if it has no special character and no white space at its ends |
| Escaping.AmpersandLost | src/route53.rs:472-526 | an ampersand comes back as its entity |
| Escaping.EscapeOnce | src/route53.rs:521-526 | replacing `&` before the others escapes every character exactly once |
| Wire.ReadCrlfLine | src/cert.rs:617-636 | reads up to and with the line feed and nothing more, with the limits and errors of the source |
| Wire.LineRoundTrip | src/cert.rs:617-636 | a line written with CR LF is read back, whatever follows it |
| Wire.LimitExactly | src/cert.rs:617-636 | exactly up to 8192 bytes; a longer one is refused |
| Utf8.ValidExactly | src/cert.rs:635-636 | the bytes accepted as text are exactly the encodings of texts (section 3 of RFC 3629) |
| Utf8.BoundaryExactly | src/cert.rs:455-461 | a text can be cut at a byte exactly if that is between two of its characters |
| Utf8.TrimAgrees | src/cert.rs:593-597 | trimming the bytes of a text is trimming its characters: the two tables of white space agree |
| Smtp.SmtpReadResponse | src/cert.rs:445-467 | reads exactly one reply, every error included |
| Smtp.ReplyRoundTrip | src/cert.rs:445-467 | a rendered reply (section 4.2.1 of RFC 5321) of any number of lines is read back with nothing after it consumed, and exactly those of more than 257 lines are refused |
| Smtp.HeldIsBounded | src/cert.rs:445-467 | at every moment of reading a reply, accepted or refused in the end, the text held is bounded whatever the peer sends |
| Smtp.TextIsBounded | src/cert.rs:445-467 | so is the text of an accepted reply |
| Smtp.SplitPanics | src/cert.rs:450-460 | a line is cut inside a character exactly if its fourth byte goes on with one, or its fifth does after a code |
| Smtp.ReplyPanics | src/cert.rs:445-467 | reading a reply panics exactly if a line of it, after lines that announced another one, is so cut |
| Smtp.AccentedGreetingPanics | src/cert.rs:413-432 | a greeting of `220` and an accented letter panics, whatever follows |
| Smtp.AsciiDialogue | src/cert.rs:413-432 | no dialogue in ASCII panics |
| Smtp.SmtpNegotiate | src/cert.rs:413-432 | the dialogue upgrades or fails as its replies say, leaving what follows the last one unread |
| Smtp.WillingServerUpgrades | src/cert.rs:413-432 | a server that greets, offers and accepts in any well-formed way is upgraded, leaving exactly what it sent after that |
| Smtp.CodesDecide | src/cert.rs:413-432 | with replies of any three-digit codes the dialogue upgrades if they are 220, 250 and 220, and otherwise fails with the error of the first that differs |
| Smtp.CodeExactly | src/cert.rs:455-457 | the first three bytes are a code exactly if they are three digits, or a plus sign and two |
| MailStores.ImapNegotiate | src/cert.rs:475-503 | the dialogue upgrades or fails as the lines say, leaving what follows the answer unread |
| MailStores.WillingImapServer | src/cert.rs:475-503 | a server that greets and answers is upgraded exactly if it sends at most 255 untagged lines before its answer |
| MailStores.ImapDecides | src/cert.rs:475-503 | the first tagged line or farewell decides, after at most 255 others: `A001 OK` in any case is an upgrade, `A001` and anything else a rejection, `* BYE` a farewell |
| MailStores.ImapGreets | src/cert.rs:475-483 | a greeting that is not untagged, or says goodbye, is refused |
| MailStores.Pop3Negotiate | src/cert.rs:511-526 | the same for the two lines of POP3 |
| MailStores.WillingPop3Server | src/cert.rs:511-526 | a server that greets is upgraded exactly if its answer is positive, and what it sends after that stays unread |
| Xmpp.ReadUntilMarkers | src/cert.rs:638-661 | takes the shortest prefix that ends in a marker, ignoring case, of at most 65536 bytes |
| Xmpp.UntilIs | src/cert.rs:638-661 | which prefix that is, for every input |
| Xmpp.UntilExactly | src/cert.rs:638-661 | it is taken exactly if it has at most 65536 bytes |
| Xmpp.XmppReadElement | src/cert.rs:570-591 | takes one empty or paired element and no byte more |
| Xmpp.XmppNegotiate | src/cert.rs:536-568 | the dialogue upgrades or fails as the elements read say |
| Xmpp.OnlyProceedUpgrades | src/cert.rs:536-568 | whatever is sent, an upgrade comes only after features that offer it and a reply with `<proceed` and no `<failure` in it, and leaves exactly what follows them |
| Xmpp.RefusalsStand | src/cert.rs:536-568 | features that do not offer it and a `<failure` are never an upgrade, however they go on |
| Xmpp.DomainReadBack | src/cert.rs:599-612 | the server reads any domain back from the attribute that is sent |
| Xmpp.EmptyProceedFramed | src/cert.rs:536-597 | after any feature block that offers STARTTLS, an empty proceed element whose attributes have no bracket in them is consumed exactly, leaving arbitrary bytes unread |
| Xmpp.EmptyProceedExact | src/cert.rs:536-597 | with attributes free of `<`, it is consumed to the byte if and only if they have no `>` |
| Xmpp.QuotedBracketRefused | src/cert.rs:570-597 | a well-formed element with a quoted `>` is refused after every feature block |
| Xmpp.WellFormedReplyRefused | src/cert.rs:536-597 | the same at one whole input |
| Xmpp.PairedProceedFramed | src/cert.rs:536-597 | so is a paired element, its first tag read up to the first `>` |
| Xmpp.PairedProceedExact | src/cert.rs:536-597 | for any bytes after the first `>`: they are consumed to the byte if and only if that first tag is not an empty one and they end in the first `</proceed>`, within the limit and with no failure in them |
| Xmpp.SpacedCloseRefused | src/cert.rs:570-591 | a closing tag with white space in it is not seen |
| Deadline.BudgetIsDeadline | src/timeout.rs:29-58 | for every peer and every sequence of operations and re-armings, an operation begun within the limit of the last arming is over by then and a later one fails on the spot |
| Deadline.TimedStream.Command | src/main.rs:57-61 | every command arms the budget first, so all its operations are so bounded |
| Deadline.TimedStream.Perform | src/cert.rs:346-388 | operations armed with what is left, and waits that re-arm, run as one deadline after the other |
| Deadline.AnsweredInTime | src/timeout.rs:45-58 | a peer that dribbles bytes cannot get more of them in than there are units of time |
| Deadline.NoBudgetNoDeadline | src/timeout.rs:45-50 | without that first arming, which no command lacks, there would be no deadline at all |
| Mx.NormalizeMx | src/dns.rs:219-245 | of any two exchanges the first has the lower preference, or the same one and the lower-cased name that comes first; every name of the answer is there once, with its least preference and its first spelling |
| Mx.OrderedIsSorted | src/dns.rs:238-244 | the order in which exchanges are inserted is that of preferences, then of names character by character |
| Mx.KnownIsLeast | src/dns.rs:224-237 | an entry's preference is the least among the records that name it, and there is one exactly if some record does |
| Mx.KnownSpelling | src/dns.rs:224-237 | its spelling is that of the first record that names it |
| Mx.NormalDetermined | src/dns.rs:219-245 | that description leaves exactly one list |
| Mx.AnyOrder | src/dns.rs:219-245 | answers with the same records in any order, with or without duplicates, give the same list up to letter case |
| Mx.WorstPoisons | src/dns.rs:93-106 | an answer is secure only if every record is, and one bogus record makes it bogus |
| Placement.MxConnects | src/tlsa.rs:139-156 | wherever an exchange without white space in its name is placed, the name connected to is the exchange up to case and trailing dots |
| Placement.MxConnectsExact | src/tlsa.rs:125-156 | for all names, it is exactly if trimming leaves what stands before the zone alone |
| Placement.OwnerNamesTarget | src/tlsa.rs:99-109 | its TLSA owner is `_port._tcp.` and that same name (section 3 of RFC 6698) |
| Placement.InZoneByLabels | src/tlsa.rs:139-161 | it is placed in the zone exactly if it is the zone or below it, counted in labels |
| Placement.PortReadBack | src/tlsa.rs:164-173 | the port read from an owner name is the one it was made for, for any zone and host |
| Placement.PortExact | src/tlsa.rs:164-173 | a name has a port exactly if it is an underscore, a port number, a dot and `_tcp` with anything after it |
| Placement.HostReadBack | src/publish.rs:267-282 | the host read from an owner name is the one it was made for, less trailing dots |
| Verify.Verify | src/main.rs:1685-1875 | the exit code is 3 without a certificate or records, else the worst of four independent verdicts (hash, expiry, TLSA DNSSEC, MX DNSSEC), and the status agrees with it |
| Verify.MatchesTlsa | src/cert.rs:124-138 | a record is not comparable if any candidate's data cannot be computed or its usage is unknown, else it matches if some candidate does |
| Verify.EndEntityMatched | src/cert.rs:124-138 | for usages 1 and 3 the answer depends on the leaf alone |
| Verify.TrustAnchorMatched | src/cert.rs:124-138 | for usages 0 and 2 a record matches exactly if the leaf or some certificate of the chain has its data, once all data can be computed |
| Verify.MatchesData | src/cert.rs:218-234 | that data, decoded from the record: the certificate or its key, as it is or hashed with SHA-256 or SHA-512, and nothing for other parameters (section 2.1 of RFC 6698) |
| Verify.ExitMeans | src/main.rs:1685-1875 | when the exit code is 0, 1 and 2, in terms of the match, the days left and the two DNSSEC answers |
| Verify.UnknownMeans | src/main.rs:1685-1875 | and that it is 3 exactly without a certificate, a key or records |
| Verify.FoldsCommute | src/report.rs:569-600 | the two DNSSEC folds give the same exit code in either order |
| Verify.NeverImproves | src/report.rs:536-563 | with everything else the same the verdict never gets better once the certificate is valid |
| Verify.ImprovesOnlyAtStart | src/report.rs:536-563 | it gets better only across the start of validity |
| Verify.DaysByTheSecond | src/cert.rs:156-161 | what a number of days left means in seconds |
| Verify.VerifiesOnlyPinned | src/cert.rs:124-138 | among 3 1 1 records verify accepts exactly those that the rollover counts as pinning the key |
| Verify.ClientsAccept | src/cert.rs:124-138 | at every moment of every run, a client that compares the certificate in service with a copy it may still hold finds a match |
| Verify.UnknownMasksNothing | src/report.rs:635-645 | over several exchanges a CRITICAL always shows, a WARNING unless something is CRITICAL, and an UNKNOWN hides only OK |

## Left out

- ViewsPinLiveKeys: promises nothing for runs that replay an older copy of a job, because there it is false; `Replay` states when it holds.
- CrashesLeaveNoTrace: is about one job from its first start to its removal; a job replaced half-way leaves its record for the next prune.
- WillingServerUpgrades: takes ASCII reply lines within the line limit, which is what the protocol allows.
- HeldIsBounded: bounds the text kept and not the number of lines read, because lines without text are not counted.
- HostReadBack: is about names that the program builds; on others the code does not look for a dot before the zone.
- RolloverCommand: is of one job id; the loop of `rollover --resume` over several jobs is that many commands on that many worlds.
- Verify: leaves out the messages, and a DNS lookup that fails counts as no certificate.
- ReadsBack: takes record data without white space, in lower case and without XML specials, as all hexadecimal data is.
- HTTP, TSIG, OAuth, request signing, DNS resolution, TLS handshakes and certificate parsing are foreign libraries.
- Google and Azure write whole RRsets as Route 53 does. Cloudflare with a hostname also looks at the zone apex, so it is not compared.
- A dry run of a resumed job still marks and saves it; dry runs of the rollover are not modelled.
- The lock directory is not modelled below one executor for each job id: its pid file is written after it is made.
- A switch of the certificate that no job scheduled, as by a reboot, is not an event; a job that finds the key live waits two TTLs from then.
- Paging through Route 53 zones and RRsets, and percent-encoding of its query strings.
- Command line, configuration, credentials, JSON and text output.
