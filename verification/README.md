# Nodetide, verified

A Dafny model of the parts of Nodetide whose correctness rests on more than one function: identities as hash-linked
chains of signed events, the canonical JSON they are hashed and signed over, trust delegation, the SMS queue and its
gateway, the identity fetcher, the explorer's index, the OIDC bridge, and the statements people sign with an eID.

`dafny verify dfyconfig.toml` checks everything.

## How it is built

Each module models one component. Code that changes state step by step is a method or a class whose contracts equate
its effect with a function; lemmas then tell that function's answers in other terms (events, positions, literal text, what it
takes for a step to happen), and prove what it is for. Components that run side by side (the SMS
system, the OIDC bridge, the fetch queue) are also state machines over atomic steps, and their theorems are about every finite run.

Laws of single functions that pin a field, a constant or a line of text stand beside the others without a row of their own.

| files | what they model |
|---|---|
| `Json`, `Canonical`, `Text` | canonical JSON: an encoding and its decoder, the Go writer that appends to a buffer, the order of keys |
| `Events`, `Sigchains`, `ChainLaws`, `DeviceLaws`, `ClaimOrderLaws` | sigchain events, the one-pass verifier, the replay queries, and what a verified chain guarantees |
| `Validity`, `QueryLaws` | which chains are verified and what the queries answer, told from the events alone |
| `GoSigchains`, `GoAgreement`, `GoParting`, `GoDeviceLists` | the Go verifier over raw JSON objects, when it agrees with the Python one, and where they part |
| `Trust`, `TrustLoader` | the trust path search and the breadth-first loader in front of it |
| `RollingWindow`, `SlidingWindows`, `CodeVerifier` | rate limits and one-time codes |
| `SmsOutbox`, `SmsGateway`, `SmsSystem`, `SmsLaws`, `SmsExact`, `SmsCounts`, `SmsDoubleSend` | the SMS queue, the gateway with its ledger and policy, and both as one system |
| `Fetcher`, `FetchQueue`, `FetchLaws`, `FetchRuns` | choosing between copies of a chain, ingesting fetched data, the fetch queue, and attempts under which the queue changes |
| `Explorer` | stored chains, the event and identity rows derived from them, lookups and rebuilds |
| `Assertions`, `Attestations`, `AuthLaws` | which sign-in assertions and claim attestations are accepted, and what that proves |
| `Oidc`, `OidcLaws`, `OidcRuns` | sign-in attempts, authorization codes and access tokens, under every interleaving |
| `Calendar`, `TimeText`, `Lines`, `Patterns`, `Statement`, `NotaryStatement`, `StatementLaws` | the two statement formats, down to the calendar |
| `Options`, `Lists`, `Dicts`, `Sorting` | optional values, list comprehensions, insertion-ordered dictionaries, sorting |

Digests and signature checks are functions passed in. Where a theorem needs it, the digest is assumed to have no
collisions (`CollisionFree`); that event hashes then identify events is proved from the canonical encoding.
Clocks never run backwards, and random ids, nonces, codes and tokens are ones not drawn before. A window of a rate
limit is open at its start and closed at its end, as the code compares: two events exactly one window apart are not in
one window.

## Where the code falls short of its promise

These are properties the code does not have as documented; each is stated with the exact condition under which it holds.

- A message id can be sent twice if jobs may live longer than the ledger keeps ids and are handed out more than once,
  and only then (`SmsDoubleSend.AtMostOnceExactly`). The shipped lifetimes are far below that limit.
- A fetch that awaits a source when a sign-in asks for another head of the same identity can end as done without that
  head (`FetchRuns.LosingEnds`). The head is stored in every run exactly if it stands on the chain up to the head the
  attempt began with, or there is no source to await, with no seed configured and no address acceptable
  (`FetchRuns.HeadIsKeptExactly`, `FetchRuns.WithoutSourcesHeadsAreKept`); a head that extends that chain can be lost.
- The statement patterns end in `$`, which also matches before a final line break, and some platforms do not pad years
  before 1000. So statements can be built that do not parse (`Statements.BuiltButNotRead`,
  `Statements.OrdinaryStatementsReadBack`, and their twins in `NotaryStatements`). What is built parses exactly if the
  fields match to the end and the years have four digits (`Statements.BuiltParsesIffClean`,
  `NotaryStatements.BuiltNotaryParsesIffClean`).
- The Go reader takes a timestamp or device expiry beyond 64 bits for zero. The two verifiers then agree exactly until a
  claim event that only the right to manage claims can stop is signed by a device that one of them takes for expired and
  the other does not (`GoAgreement.VerifiersAgree`); each accepts chains the other refuses
  (`GoPartings.EachAcceptsAlone`). At any time that fits, their lists of active devices differ only where a device is
  added whose expiry is below the 64-bit integers (`GoDeviceLists.ActiveDevicesAgree`, `GoDeviceLists.MisreadExactly`).
  Go also refuses chains with a social recovery or whose genesis event names another signer.

## Model

| member | source | states |
|---|---|---|
| Json.DecodeOfEncode | golang/auth/canonical.go:38-134 | a decoder recovers every value whose numbers are integers from its canonical text, escapes and surrogate pairs included, and stops where the text ends |
| Json.EncodeUnambiguous | golang/auth/canonical.go:38-134 | two values with one canonical text are equal, so a hash or signature over the text is over the value |
| Json.EncodePrintable | golang/auth/canonical.go:105-134 | every character of a canonical text is printable ASCII |
| Json.EscapeExactly | golang/auth/canonical.go:108-132 | each character is written as itself if it is plain, as its letter if it has one, and otherwise as the four lower-case hex digits of its one or two UTF-16 units |
| Text.LexExactly | golang/auth/canonical.go:72-74 | one key comes before another if it is a beginning of it or is smaller where they first differ |
| Text.IntIsPlain | golang/auth/canonical.go:44-55 | an integer is written in decimal, without zeros in front, with a minus sign exactly if it is negative |
| Json.SortedKeysUnique | golang/auth/canonical.go:67-74 | there is one way to write the keys of an object in order, so map iteration order plays no part |
| Text.Utf8OrderIsCodePointOrder | golang/auth/canonical.go:72-74 | comparing keys by their UTF-8 bytes is comparing them by code points |
| Canonical.Utf8SortIsSortedKeys | golang/auth/canonical.go:67-74 | sorting the collected keys by bytes, in whatever order the map yields them, gives the order by code points |
| Canonical.WriteUnicodeEscape | golang/auth/canonical.go:95-101 | appends the four hex digits of one code unit |
| Canonical.WriteRune | golang/auth/canonical.go:108-132 | appends the escape, the surrogate pair or the character that the encoding gives a code point |
| Canonical.WriteCanonicalString | golang/auth/canonical.go:105-134 | appends the quoted and escaped text of a string |
| Canonical.WriteCanonical | golang/auth/canonical.go:38-91 | appends the canonical text of a value, and fails exactly if it holds a number that is not an integer |
| Canonical.Canonicalize | golang/auth/canonical.go:30-36 | returns the canonical text, or an error exactly for values with a number that is not an integer |
| Events.FromDictOfToDict | python/src/nodetide/core/identity.py:75-121 | reading an event dictionary gives back the event it was written from, for all eleven event types |
| Events.HashIdentifiesEvent | python/src/nodetide/core/identity.py:94-96 | with a collision-free digest no two events share an event hash, because no two have one text |
| Sigchains.Authorize | python/src/nodetide/core/identity.py:1013-1065 | applies one event to the state, or refuses it, by its type and signer; what that allows is told from the events by Validity.ApplyPermits and Validity.StateIsTold |
| Sigchains.CheckGenesis | python/src/nodetide/core/identity.py:978-997 | accepts a first event exactly if it is a genesis event signed by its own key, and sets up the state |
| Sigchains.CheckEvent | python/src/nodetide/core/identity.py:1000-1067 | accepts a later event exactly if it names the head, is signed and authorized, and moves the head to its hash |
| Sigchains.Sigchain.Verify | python/src/nodetide/core/identity.py:970-1069 | the one-pass verification succeeds exactly if replaying the events does, which is exactly if the events meet the conditions of Validity.ValidExactly |
| Validity.ValidExactly | python/src/nodetide/core/identity.py:970-1069 | a chain is verified exactly if its first event is a genesis event signed by its own key and each later one names the hash of the one before, is signed, and is permitted by the events before it: a claim event is signed by the master of the time, or by a key whose last add event grants manage_claims unexpired and that no event revokes; other events by the master of the time, but for recoveries; claims are made once, and ended or ordered only while they stand |
| Validity.StateIsTold | python/src/nodetide/core/identity.py:1013-1065 | the verifier ends with the key the last genesis, rotation or recovery event names as master, the keys that some event revokes as revoked, the last grant of every key ever added, and the claims ever made with their types and whether some event ended them |
| Validity.ApplyPermits | python/src/nodetide/core/identity.py:1013-1065 | an event is applied exactly if the events before it permit it |
| Sigchains.Sigchain.GetCurrentMasterKey | python/src/nodetide/core/identity.py:866-879 | finds the key of the last event that sets a master |
| Sigchains.Sigchain.GetActiveDevices | python/src/nodetide/core/identity.py:881-924 | lists the devices that the dictionary built in event order holds and that are neither revoked nor expired |
| Sigchains.Sigchain.GetClaims | python/src/nodetide/core/identity.py:926-943 | lists the claim records in the order the claims were first made, with revocations applied |
| Sigchains.Sigchain.GetClaimOrder | python/src/nodetide/core/identity.py:948-960 | lists the active claims of a type, those of the listed order first; the listed order is the one in force (QueryLaws.NewestOrderIsInForce) |
| QueryLaws.MasterIsTold | python/src/nodetide/core/identity.py:866-879 | the master found is the key that the last event that makes a key the master names |
| QueryLaws.DevicesAreTold | python/src/nodetide/core/identity.py:881-924 | a device is listed exactly if no event revokes its key, and its keys, name, capabilities, times are those of the last event that lists the key |
| QueryLaws.ClaimsAreTold | python/src/nodetide/core/identity.py:926-943 | a claim is recorded exactly if some event makes it; its record has the type, commitment, times, hash and signer of the last such event, and is revoked with the time and reason of the last event behind it that ends the claim, if there is one |
| QueryLaws.NewestOrderIsInForce | python/src/nodetide/core/identity.py:955-959 | the order used is that of the last event that orders claims of the type, or the empty one if there is none |
| QueryLaws.OneOrderInForce | python/src/nodetide/core/identity.py:955-959 | at most one order is in force |
| ChainLaws.PrefixesAreValid | python/src/nodetide/core/identity.py:970-1069 | every nonempty prefix of a verified chain verifies |
| ChainLaws.HashBinding | python/src/nodetide/core/identity.py:990-1067 | if two verified chains share an event hash it stands at one position and they agree on every event up to it |
| ChainLaws.HashesDistinct | python/src/nodetide/core/identity.py:970-1069 | no two positions of a verified chain have the same hash |
| ChainLaws.ContainsHeadIffExtends | python/src/nodetide/core/auth.py:236-242 | our verified chain contains the signer's head hash exactly if the signer's verified chain is a prefix of ours |
| ChainLaws.MasterAgrees | python/src/nodetide/core/identity.py:866-879 | the master the one-pass verification ends with is the one the query finds |
| ChainLaws.ClaimsAgree | python/src/nodetide/core/identity.py:926-943 | the claim states of the one-pass verification and the claim records describe the same claims with the same types and revocations |
| ChainLaws.ClaimsInCreationOrder | python/src/nodetide/core/identity.py:926-943 | the claim records stand in the order of the add events, each id once |
| ChainLaws.ClaimsStayEnded | python/src/nodetide/core/identity.py:795-800 | a claim that is not active is not active at any later time in any longer verified chain |
| DeviceLaws.DeviceActivity | python/src/nodetide/core/identity.py:881-924 | a device is listed exactly if no event revokes its key and some event puts the key on the list at that time; its details are those of the last such event |
| DeviceLaws.ActiveKeyOfValidChain | python/src/nodetide/core/identity.py:881-924 | on a verified chain a key is active exactly if it is unrevoked and is the genesis key or has an unexpired add event |
| DeviceLaws.ActiveKeysShrink | python/src/nodetide/core/identity.py:881-924 | on a fixed chain time only removes active keys |
| DeviceLaws.RevocationIsFinal | python/src/nodetide/core/identity.py:915-924 | a revoked key is never active in any extension |
| DeviceLaws.OneEntryPerKey | python/src/nodetide/core/identity.py:881-924 | no key is listed twice |
| ClaimOrderLaws.ClaimOrderIsPermutation | python/src/nodetide/core/identity.py:948-960 | the claim order of a verified chain holds each active claim of the type exactly once and nothing else |
| ClaimOrderLaws.ClaimOrderFollowsPreference | python/src/nodetide/core/identity.py:948-960 | two active claims stand in the order of the last event that orders claims of the type, listed ones before others, and unlisted ones as they were made |
| ClaimOrderLaws.RevokingRemovesOne | python/src/nodetide/core/identity.py:948-960 | revoking a claim takes just that id off the order and moves nothing else |
| GoSigchains.CheckSigned | golang/auth/sigchain.go:113-125 | checks a signature of the event without its signature field by a hex key |
| GoSigchains.CheckOrder | golang/auth/sigchain.go:179-205 | accepts a claim order exactly if it is not empty, repeats nothing and lists unrevoked claims of the type |
| GoSigchains.CheckByType | golang/auth/sigchain.go:151-244 | applies one event to the maps, or refuses it, by its type |
| GoSigchains.ParseSigchain | golang/auth/sigchain.go:70-252 | parsing succeeds exactly if replaying the raw events does, and ends with that state and those hashes |
| GoSigchains.ListActiveDevices | golang/auth/sigchain.go:283-346 | lists the active devices in insertion order |
| GoSigchains.GrantsExactly | golang/auth/sigchain.go:348-364 | an added device may do what its capabilities list, and the six default ones exactly where that member is absent; a null or malformed member grants nothing |
| GoAgreement.StepAgrees | golang/auth/sigchain.go:151-244 | from the same state the verdicts on one event differ exactly if Go supports it, only the right to manage claims can stop it, and the two differ on whether its signer's device has expired |
| GoAgreement.VerifiersAgree | golang/auth/sigchain.go:70-252 | Go accepts a chain and all its beginnings exactly when Python does and they use the default algorithms, hold no social recovery and begin with a genesis that names its own key as signer, if and only if no event parts the two; whatever both accept leaves both with the same masters, devices, revocations and claim states |
| GoDeviceLists.ActiveDevicesAgree | golang/auth/sigchain.go:283-346 | Go and Python list the same active devices, with the same details in the same order, for a chain and all its beginnings exactly if no event adds an unrevoked key that Python alone takes for expired and that would change the list |
| GoDeviceLists.MisreadExactly | golang/auth/sigchain.go:313-320 | at a time of 64 bits such an event is an added device whose expiry is below the 64-bit integers |
| GoPartings.FittingTimesNeverPart | golang/auth/sigchain.go:160-178 | no event parts the verifiers while timestamps and device expiries fit 64 bits |
| GoPartings.PartingSplits | golang/auth/sigchain.go:169-178 | where the last event of a chain parts them, Go accepts it and Python refuses it if Python takes the device for expired, and the other way round if Go does |
| GoPartings.PartingChainVerdicts | golang/auth/sigchain.go:70-252 | for every scheme that can sign, the chain that adds a device and lets it add a claim is accepted by each verifier exactly if that verifier does not take the device for expired |
| GoPartings.EachAcceptsAlone | golang/auth/sigchain.go:169-178 | so there are chains only Go accepts, with a timestamp beyond 64 bits or an expiry below them, and chains only Python accepts |
| Trust.BelowIsExact | python/src/nodetide/core/trust.py:130-151 | the tree the search explores below an entry ends in exactly the trust paths that continue the entry |
| Trust.BelowOnce | python/src/nodetide/core/trust.py:130-151 | the search reaches no path twice |
| Trust.BudgetMeaning | python/src/nodetide/core/trust.py:148-151 | the budget carried along a path says exactly whether every delegation but the last allows the hops behind it |
| Trust.TrustGraph.AddDelegation | python/src/nodetide/core/trust.py:104-106 | appends a delegation to the list of the identity that made it |
| Trust.TrustGraph.CalculateTrust | python/src/nodetide/core/trust.py:112-154 | answers with one entry for each trust path, best score first, and the best score or zero; a score is the product of the weights (Trust.ScoreOfHop, Trust.ScoreOfLonger) |
| Trust.ScoreOfHop | python/src/nodetide/core/trust.py:140-146 | a path of one delegation scores its weight |
| Trust.ScoreOfLonger | python/src/nodetide/core/trust.py:140-146 | one delegation more multiplies the score by its weight |
| Trust.ScoreOfParts | python/src/nodetide/core/trust.py:140-146 | a path in two parts scores the product of the scores of the parts |
| Trust.ScoreIsAtMostWeakest | python/src/nodetide/core/trust.py:140-146 | no path is trusted more than any delegation on it |
| TrustLoader.Load | python/src/nodetide/api/routes.py:674-685 | the loaded graph holds exactly the delegations of a set of identities that includes every identity fewer than the depth away from us |
| TrustLoader.SamePaths | python/src/nodetide/api/routes.py:674-687 | the loaded graph and the whole store have the same trust paths |
| TrustLoader.LoadLosesNothing | python/src/nodetide/api/routes.py:674-687 | an answer for the loaded graph is an answer for the whole store |
| TrustLoader.CalculateFromStore | python/src/nodetide/api/routes.py:653-699 | the handler's answer is one the search gives on the whole store at the clamped depth |
| RollingWindow.AdmissionKeepsBound | python/src/nodetide/verifiers/email_verifier.py:60-68 | one more event, admitted while the window behind the check holds fewer than the limit, keeps every window within the limit |
| RollingWindow.KeptCounts | python/src/nodetide/verifiers/email_verifier.py:63-65 | once its front lies inside the window, what is kept of a log is what the window holds of the whole log |
| RollingWindow.CountsPositions | python/src/nodetide/verifiers/email_verifier.py:60-68 | a window's count is the number of logged events less than its length before its end |
| SlidingWindows.SlidingWindow.Allow | python/src/nodetide/verifiers/email_verifier.py:60-68 | answers as a log that never forgets would: yes exactly if fewer than the limit of all successes ever lie in the window; no window ever holds more than the limit |
| SlidingWindows.SlidingWindow.Trim | python/src/nodetide/verifiers/email_verifier.py:63-64 | keeps exactly the times the window still holds |
| SlidingWindows.SlidingWindow.Cleanup | python/src/nodetide/verifiers/email_verifier.py:70-73 | forgetting keys whose window is empty leaves the log every answer refers to unchanged |
| CodeVerifiers.Limits.Allow | python/src/nodetide/verifiers/email_verifier.py:160-167 | counts an attempt in each of the three windows that has room, and allows it exactly if all three had |
| CodeVerifiers.CodeVerifier.Start | python/src/nodetide/verifiers/email_verifier.py:139-191 | refuses, in this order, a wrong document, chain or claim, a full table, a bad address and an exceeded limit; otherwise a code is out for the claim and older codes of the same claim are void |
| CodeVerifiers.CodeVerifier.Withdraw | python/src/nodetide/verifiers/email_verifier.py:186-190 | withdraws a code that could not be delivered, whatever happened while it was being sent |
| CodeVerifiers.CodeVerifier.Compare | python/src/nodetide/verifiers/email_verifier.py:201-210 | compares the normalized code, counts the try, and ends the code when it is right or was tried five times |
| CodeVerifiers.CodeVerifier.Confirm | python/src/nodetide/verifiers/email_verifier.py:193-226 | a code is compared at most five times and leads to at most one attestation: exactly when it is right, in time, and the claim is active on the longer of the stored and the shown chain |
| CodeVerifiers.AttestsWhatWasShown | python/src/nodetide/verifiers/email_verifier.py:211-224 | whichever copy of the chain is chosen in the end, the record attested has the type and commitment of the one the code was asked for, and is active; the head attested is the chosen copy's |
| CodeVerifiers.AttestsExactly | python/src/nodetide/verifiers/email_verifier.py:211-224 | a right code is attested exactly if one copy of the chain extends the other and the claim stands, by its events, on the longer one |
| CodeVerifiers.ObjectsExactly | python/src/nodetide/verifiers/email_verifier.py:140-153 | why no code is drawn, told from the events: another claim type, a chain that is not verified or not the identity's, no such claim, another type or commitment, a claim that is ended or has expired |
| CodeVerifiers.CodeVerifier.Cleanup | python/src/nodetide/verifiers/email_verifier.py:132-137 | drops expired codes, and cleans the three windows without changing what they answer |
| SmsOutboxes.SmsOutbox.Enqueue | python/src/nodetide/verifiers/sms.py:49-56 | cleans up, refuses exactly if too many jobs wait, and otherwise appends the new job |
| SmsOutboxes.SmsOutbox.Lease | python/src/nodetide/verifiers/sms.py:58-74 | leases, in order and up to the limit, the queued jobs and those whose lease ran out, gives up those out of attempts, and returns the leased ones |
| SmsOutboxes.SmsOutbox.Report | python/src/nodetide/verifiers/sms.py:84-90 | changes the one job of that id if it still waits, and says whether there was one |
| SmsOutboxes.SmsOutbox.Cleanup | python/src/nodetide/verifiers/sms.py:95-98 | keeps exactly the jobs that expired less than an hour ago or not at all |
| SmsOutboxes.LeaseEffect | python/src/nodetide/verifiers/sms.py:58-74 | a lease hands out at most the limit, treats each job at most once, and hands out exactly what it granted |
| SmsOutboxes.ReportEffect | python/src/nodetide/verifiers/sms.py:84-90 | a report changes nothing but a waiting job of its id |
| SmsExact.LeasesExactly | python/src/nodetide/verifiers/sms.py:58-74 | while fewer than the limit are due before it a job is handed out if it is due, given up if only its attempts are used up, and otherwise left alone; the first due ones are handed out, as many as the limit allows |
| SmsExact.ReportsExactly | python/src/nodetide/verifiers/sms.py:84-90 | a waiting job of that id becomes sent, or failed with the first 64 characters of the reason, or of the status if there is none; other jobs stay |
| SmsExact.CleansExactly | python/src/nodetide/verifiers/sms.py:95-98 | a job stays exactly until it has been expired for an hour |
| SmsGateways.Ledger.Counts | tools/sms-gateway/sms_gateway.py:81-89 | counts the recorded sends of the window, in all and for one number |
| SmsGateways.Ledger.RecordSend | tools/sms-gateway/sms_gateway.py:94-98 | prunes old sends and ids and records the new send under its id |
| SmsGateways.CheckPolicy | tools/sms-gateway/sms_gateway.py:115-127 | answers as the policy does, which SmsExact.CheckExactly tells |
| SmsGateways.Process | tools/sms-gateway/sms_gateway.py:264-291 | handles one message as SmsExact.HandledExactly tells: duplicate, expired and refused ones never reach the modem, and a send is on record before it is tried |
| SmsExact.CheckExactly | tools/sms-gateway/sms_gateway.py:115-127 | a message is refused, in this order, for a number the operator does not allow, a text that is empty, too long or not printable ASCII, as many sends in the window as are allowed in all, or as many to its number; and otherwise approved |
| SmsExact.HandledExactly | tools/sms-gateway/sms_gateway.py:264-291 | the modem is asked exactly for a message that is named, new, not expired and approved, and what came of it is reported; a duplicate and an expired message are reported as such, and nothing else changes the ledger |
| SmsExact.RecordedExactly | tools/sms-gateway/sms_gateway.py:94-98 | what is recorded is the send and its id; sends are forgotten once they leave the window, ids after seven days |
| SmsExact.OnlyAllowedReachModem | tools/sms-gateway/sms_gateway.py:264-291 | in every run each id that reaches the modem is that of an offered message to a number the operator allows, with a nonempty printable ASCII text within the length limit |
| SmsSystems.HandlingIsRun | tools/sms-gateway/sms_gateway.py:264-291 | the gateway's handling of an offered message is a run of the system's steps with the clock moving between them |
| SmsSystems.TriedIsKnownOrStale | tools/sms-gateway/sms_gateway.py:271-277 | a message that was tried before is still in the ledger or has expired |
| SmsSystems.AtMostOnce | tools/sms-gateway/sms_gateway.py:264-291 | in every run with redelivery, lost reports, lease expiry, crashes and restarts no id reaches the modem twice if no job outlives the ledger's memory of ids |
| SmsDoubleSend.SendTwice | tools/sms-gateway/sms_gateway.py:64-98 | for any longer job lifetime with a second attempt allowed there is a run that sends one message twice: both leases run out, one more lease hands both jobs out again, and recording the other message makes the ledger forget this one |
| SmsDoubleSend.AtMostOnceExactly | tools/sms-gateway/sms_gateway.py:64-98 | for a configuration that lets messages through, every run sends each id at most once if and only if the longest job lifetime is at most the time ids are kept, or no job is handed out again |
| SmsCounts.SentAtMostAsLeased | python/src/nodetide/verifiers/sms.py:58-74 | in every run, whatever the lifetime of jobs, no id is sent more often than its job was handed out, and so at most max_attempts times |
| SmsCounts.OneAttemptSendsOnce | python/src/nodetide/verifiers/sms.py:58-74 | with at most one attempt every run sends each id at most once |
| SmsLaws.LeasesAreSpaced | python/src/nodetide/verifiers/sms.py:58-74 | in every run a job is handed out at most max_attempts times, each at least lease_seconds after the one before |
| SmsLaws.SentMeansTried | python/src/nodetide/verifiers/sms.py:84-90 | in every run a job is marked sent only if a send was recorded for its id |
| SmsLaws.LimitsHoldInEveryRun | tools/sms-gateway/sms_gateway.py:81-127 | in every run no window holds more recorded sends than allowed, in all or for one number hash, although old sends are pruned and across restarts |
| SmsLaws.LedgerCountsHistory | tools/sms-gateway/sms_gateway.py:81-98 | in every run the pruned ledger counts exactly what the full history of sends holds in the window, in all and for each number hash |
| Fetchers.HashesPrefixIffPrefix | python/src/nodetide/core/auth.py:146-167 | on verified chains comparing lists of hashes is comparing the chains |
| Fetchers.IngestExtends | python/src/nodetide/oidc/fetcher.py:166-185 | what is kept after one fetch is verified and the identity's own; it changes only to a fetched copy that extends it |
| Fetchers.GrowsByExtension | python/src/nodetide/oidc/fetcher.py:166-185 | under any sequence of fetched data the stored chain stays verified, hashes to its identity, and only grows by extension |
| Fetchers.DivergingIsIgnored | python/src/nodetide/oidc/fetcher.py:166-185 | a chain that diverges from the stored one never changes it |
| Fetchers.Converges | python/src/nodetide/oidc/fetcher.py:166-185 | if the acceptable copies fetched are prefixes of one another, the longest is kept, whatever the order and whatever else was fetched |
| Fetchers.ReplicasAgree | python/src/nodetide/oidc/fetcher.py:166-185 | two fetchers offered the same data in any order keep the same chain |
| FetchQueues.Choose | python/src/nodetide/core/auth.py:146-167 | keeps the longer copy if one extends the other and otherwise reports a conflict |
| FetchLaws.ChoosesExactly | python/src/nodetide/core/auth.py:146-167 | of two verified copies the longer is chosen where it extends the other, and neither where they diverge |
| FetchLaws.HintsExactly | python/src/nodetide/oidc/fetcher.py:97-102 | at most eight of the acceptable hints are kept, each once, and all if there are fewer |
| FetchLaws.SchedulesExactly | python/src/nodetide/oidc/fetcher.py:84-143 | a fetch is taken exactly for a well-formed identity that is known or while fewer than a thousand wait; it joins the waiting one or starts anew |
| FetchLaws.RescheduledExactly | python/src/nodetide/oidc/fetcher.py:108-127 | a waiting fetch keeps its hints in front of new ones, takes over a wanted head, and is due at once unless it was tried less than five seconds ago |
| FetchQueues.IdentityFetcher.Schedule | python/src/nodetide/oidc/fetcher.py:84-143 | merges into a waiting fetch or starts one anew, and refuses exactly malformed identities and new ones while the queue is full |
| FetchQueues.IdentityFetcher.IsSatisfied | python/src/nodetide/oidc/fetcher.py:158-164 | says whether a chain is stored that contains the wanted event, if any |
| FetchLaws.SatisfiedExactly | python/src/nodetide/oidc/fetcher.py:158-164 | a fetch is satisfied exactly by a stored chain on which the wanted event stands, if one is wanted |
| FetchLaws.AcceptsExactly | python/src/nodetide/oidc/fetcher.py:166-185 | a chain comes through as it was sent exactly if it is verified, the identity's and at most 1000 events long |
| FetchLaws.SourcesExactly | python/src/nodetide/oidc/fetcher.py:187-199 | at most eight places are asked: hints first, then acceptable addresses that the stored chain names, then seed nodes, and all of them if there are fewer |
| FetchQueues.IdentityFetcher.Ingest | python/src/nodetide/oidc/fetcher.py:166-185 | stores fetched data exactly when it is a longer verified copy; no other chain changes, and finished fetches stay satisfied |
| FetchQueues.IdentityFetcher.FetchAll | python/src/nodetide/oidc/fetcher.py:210-225 | leaves the chain that asking the sources in turn leads to, up to the first whose data satisfies the fetch, and says whether anything changed |
| FetchQueues.FetchingIsIngesting | python/src/nodetide/oidc/fetcher.py:210-225 | asking the sources is ingesting the data of some first ones, and if not all were asked the fetch was satisfied |
| FetchQueues.IdentityFetcher.Process | python/src/nodetide/oidc/fetcher.py:201-237 | gives up after a day, and otherwise marks a fetch done exactly if what it waited for is stored, or schedules the next attempt by the backoff table (FetchLaws.AttemptedExactly) |
| FetchRuns.UninterruptedAttempt | python/src/nodetide/oidc/fetcher.py:201-252 | the steps of an attempt that nothing interrupts leave the rows and the chain that one call of the handler does |
| FetchRuns.DoneHasWhatItBeganWith | python/src/nodetide/oidc/fetcher.py:201-252 | in every run, where fetches are scheduled and chains saved whenever the worker awaits a source or its listener, a fetch marked done has stored what its last attempt began with |
| FetchRuns.LosingEnds | python/src/nodetide/oidc/fetcher.py:201-252 | given a source to await there is a run in which a head asked for during the attempt ends up in the row of a finished fetch while only the chain the attempt began to look for is stored |
| FetchRuns.HeadIsKeptExactly | python/src/nodetide/oidc/fetcher.py:84-143 | every run that ends a fetch has stored the head its row then wants if and only if that head stands on the chain up to the head the attempt began with (up to the genesis event, if it began with none), or no seed is configured and no address is acceptable |
| FetchRuns.WithoutSourcesHeadsAreKept | python/src/nodetide/oidc/fetcher.py:186-231 | where no source can be asked an attempt awaits nothing, and in every run a finished fetch has stored the head its row wants |
| Explorers.IndexingIsExact | python/src/nodetide/core/storage.py:341-365 | indexing a verified chain keeps every row true and gives every position of every stored chain its row |
| Explorers.OthersStay | python/src/nodetide/core/storage.py:341-357 | no save removes or changes a row of another identity |
| Explorers.ExactUnique | python/src/nodetide/core/explorer_index.py:73-86 | the stored chains determine the event rows |
| Explorers.RowsDescribeEvents | python/src/nodetide/core/explorer_index.py:73-86 | the row of a hash in a true index has the identity, position, type name, timestamp and signer of the one event with that hash |
| Explorers.IdentityRowExactly | python/src/nodetide/core/explorer_index.py:89-104 | an identity's row has the name, type and time of its genesis event, the time and hash of its last event, the number of events, the master and the number of active devices |
| Explorers.Store.IndexSigchain | python/src/nodetide/core/storage.py:341-365 | replaces the rows of one identity by those of its chain, verified or not, and does nothing for a chain without a genesis event |
| Explorers.Store.SaveSigchain | python/src/nodetide/core/storage.py:328-339 | stores a chain under the hash of its genesis event, or under no identity if it has none, and indexes it; if it is verified the whole index stays what the stored chains say |
| Explorers.Store.ReindexExplorer | python/src/nodetide/core/storage.py:367-381 | a rebuild in any order gives the same event rows, and the same identity rows but for updated_at and device_count |
| Explorers.Store.GetEvent | python/src/nodetide/explorer/service.py:347-371 | looking up a hash returns the event with that hash exactly if a stored chain contains it |
| Fetchers.StoredChainReadsBack | python/src/nodetide/core/identity.py:847-859 | the dictionaries a chain is stored and sent as parse back to the chain |
| Assertions.AcceptedAssertion | python/src/nodetide/core/auth.py:188-270 | an accepted assertion is by a device that the master of its time enrolled for signing in and no event revokes, that is not the master; the signer's chain is a prefix of ours; audience and time are right |
| AuthLaws.AcceptedExactly | python/src/nodetide/core/auth.py:188-270 | an assertion is accepted exactly if it is for this party, lasts at most ten minutes and is in time up to one, the chain is verified, the identity's and holds the head the signer knew, the last event that lists the signing key adds it for signing in by then and no event revokes it, it is not the master, and the signature is its |
| AuthLaws.FieldsAreRead | python/src/nodetide/core/auth.py:202-216 | what is read of an assertion is what its members say; all but the claims must be there |
| AuthLaws.BehindExactly | python/src/nodetide/core/auth.py:236-242 | it is put off for a fetch exactly if it is right up to the head, which the chain does not hold |
| AuthLaws.ExpiredExactly | python/src/nodetide/core/auth.py:218-227 | it is expired exactly if party and lifetime are right and the time is not |
| AuthLaws.MayActExactly | python/src/nodetide/core/auth.py:244-255 | the checks of a signing key by way of the device list are about the events: the last that lists the key gives it the capability in time, none revokes it, and it is not the master |
| Assertions.RevokedDeviceIsRejected | python/src/nodetide/core/auth.py:244-255 | nothing a revoked device signs is accepted with that chain or any extension |
| Assertions.SignatureBindsFields | python/src/nodetide/core/auth.py:40-43 | the signed text binds every field but the signature |
| Assertions.EachAssertionIsSigned | python/src/nodetide/core/auth.py:256-263 | two accepted assertions that differ in any field but the signature carry signatures of different texts |
| Assertions.AssertionsAreNotEvents | python/src/nodetide/core/auth.py:21-23 | no assertion's signed text is the text of an event |
| Attestations.CheckRecovered | python/src/nodetide/core/relying_party.py:85-93 | finds a social recovery after an event with the given hash exactly if there is one |
| Attestations.RecoveredAfterPosition | python/src/nodetide/core/relying_party.py:85-93 | on a verified chain that means a social recovery strictly after the one position of the hash |
| Attestations.NotRecoveredOnlyRotated | python/src/nodetide/core/relying_party.py:85-93 | there was none exactly if every master since was appointed by a rotation the master before signed |
| Attestations.AcceptedSinceSameHolder | python/src/nodetide/core/relying_party.py:96-136 | a claim accepted under a rule that rejects recoveries was verified at a position of the chain since which every new master was appointed by the one before |
| AuthLaws.EvaluatesExactly | python/src/nodetide/core/relying_party.py:96-136 | a claim is accepted exactly if document, attestation and rule are about one claim, which stands, by its events, on the verified chain of the attestation's subject; the attestation is in time, was made at a head the chain holds, since which there was no recovery if the rule minds; method, assurance and age suit the rule; it is not revoked; and a proof or an issuer the rule accepts backs it |
| AuthLaws.ClaimStandsExactly | python/src/nodetide/core/claims.py:527-579 | the claim query finds an active record of the type and commitment exactly if the last event that makes the claim says so, none behind it ends it, and it has not expired |
| Attestations.AcceptedIsVouchedFor | python/src/nodetide/core/claims.py:500-579 | an accepted claim without a proof is vouched for by a trusted issuer, with a device its master enrolled for that and no event revokes |
| Attestations.AttestationSignatureBinds | python/src/nodetide/core/claims.py:274-308 | the signed text of an attestation binds every field but the signature |
| Attestations.EachAttestationIsSigned | python/src/nodetide/core/claims.py:527-579 | two accepted attestations without a proof that differ in any field but the signature carry signatures of different texts |
| Oidc.ReleasedIsStrongest | python/src/nodetide/oidc/provider.py:345-398 | of each claim type asked for, a claim is released exactly if some presentation passes the rule for its type as a claim of the chain's own identity; it is one of those, and none is stronger |
| OidcLaws.ReleasesExactly | python/src/nodetide/oidc/provider.py:345-398 | a claim type is released exactly if some presentation of that type passes; the claim released says what the first of the strongest that pass shows |
| OidcLaws.PassesExactly | python/src/nodetide/oidc/provider.py:358-392 | a presentation passes exactly if its type was asked for and has a rule, it is about the chain's own identity, and the rule accepts it with the issuer's chain chosen of the stored copy and the one shown |
| OidcLaws.RequestedExactly | python/src/nodetide/oidc/provider.py:329-336 | the profile scope asks for the legal name, and the scopes email, phone, birthdate and age_over_18 for the claim of their name |
| Oidc.OidcProvider.EvaluateItem | python/src/nodetide/oidc/provider.py:358-392 | yields a claim exactly if the presentation is readable, of a type asked for that has a rule, of this identity, and passes the rule with the issuer's chain chosen from the stored and the supplied copy |
| Oidc.OidcProvider.ReleaseClaims | python/src/nodetide/oidc/provider.py:345-398 | releases, presentation by presentation, the strongest claim of each type |
| Oidc.OidcProvider.CreateAttempt | python/src/nodetide/oidc/provider.py:232-268 | cleans up, refuses exactly if too many attempts are open, and otherwise opens one |
| Oidc.OidcProvider.SubmitAssertion | python/src/nodetide/oidc/provider.py:443-546 | takes a submission up to the point where presentations are evaluated: refused, held for a fetch, or accepted with the presentations given last |
| OidcLaws.ApprovesExactly | python/src/nodetide/oidc/provider.py:443-546 | a submission is approved exactly if the attempt is open, the assertion answers its live challenge and is accepted with the chain chosen, does not outlive the challenge by more than a minute, and at most five presentations come with it |
| OidcLaws.RejectedExactly | python/src/nodetide/oidc/provider.py:511-546 | a rejected assertion waits for a fetch if our chain is behind, is asked for again if it expired meanwhile, and else counts a failure, the fifth of which ends the attempt |
| Oidc.OidcProvider.Approve | python/src/nodetide/oidc/provider.py:548-573 | issues the code of an accepted assertion with the claims its presentations release, and completes the attempt |
| OidcLaws.ApprovalLeaves | python/src/nodetide/oidc/provider.py:548-573 | an approval puts out one code and completes the attempt if it is still there, and changes no other attempt or code |
| Oidc.OidcProvider.ExchangeCode | python/src/nodetide/oidc/provider.py:591-644 | removes the code, and yields a token as OidcLaws.RedeemsExactly and OidcLaws.RedeemingLeaves tell |
| OidcLaws.RedeemsExactly | python/src/nodetide/oidc/provider.py:591-644 | a token is yielded exactly if the code is out and in time, client and redirect address are its own, a challenge, if not empty, is the hash of a verifier of 43 to 128 characters, and without one the client is not public |
| OidcLaws.RedeemingLeaves | python/src/nodetide/oidc/provider.py:591-644 | the code is gone in any case; a token has its identity, scopes and claims and a lifetime of its own; nothing else changes |
| Oidc.OidcProvider.Cleanup | python/src/nodetide/oidc/provider.py:654-665 | drops exactly what has expired, attempts five minutes later (OidcLaws.CleanedExactly) |
| OidcRuns.CodesYieldTokensOnce | python/src/nodetide/oidc/provider.py:591-644 | in every interleaving each code yields tokens at most once |
| OidcRuns.TokensAreTraced | python/src/nodetide/oidc/provider.py:443-644 | in every interleaving each access token has the identity, scope and claims of one assertion accepted for this issuer in answer to the attempt's own challenge; it was redeemed in time with the client and redirect address of that attempt, by a verifier of 43 to 128 characters whose hash is the attempt's code challenge or, if it has none, by a client that is not public |
| OidcRuns.AssertionServesOneAttempt | python/src/nodetide/oidc/provider.py:457-464 | an assertion never signs anyone in at an attempt other than the one whose challenge it answers |
| OidcRuns.TokenHolderIsEnrolled | python/src/nodetide/oidc/provider.py:511-573 | whoever a token speaks for has a verified chain on which the master of the time enrolled the very device that signed in, which is not revoked there and is not the master |
| OidcRuns.CopiesHideNothing | python/src/nodetide/core/auth.py:146-167 | a submission is accepted only with a chain that extends the stored one, so no copy sent along lets a device sign in that the stored chain revokes |
| OidcRuns.TokenClaimsAreVouchedFor | python/src/nodetide/oidc/provider.py:345-573 | in every interleaving each claim of an access token passed the bridge's rule for its type as a claim of the token's own identity, from a presentation of that sign-in; without a proof a device that a trusted issuer enrolled and has not revoked vouches for it, and under a rule that rejects recoveries the holder is the one it was verified for |
| OidcRuns.UserinfoIsTraced | python/src/nodetide/oidc/provider.py:646-650 | a token presented later speaks for the identity and claims of the approval it comes from, and only within its lifetime |
| OidcRuns.RejectionsAreFew | python/src/nodetide/oidc/provider.py:511-546 | in every interleaving an attempt is rejected at most five times, and one rejected that often has failed unless an approval under way completed it |
| Calendar.DateOfDays | python/src/nodetide/eidas/statement.py:34-37 | a day is one date only, for any leap-year rule |
| Calendar.MomentOfSeconds | python/src/nodetide/eidas/statement.py:34-37 | every valid date and time of day is the moment of its seconds |
| Calendar.RepresentableRange | python/src/nodetide/eidas/statement.py:30-31 | the times that can be written are those of the years 1 to 9999; from which second on years have four digits |
| TimeText.TimeReadsBack | python/src/nodetide/eidas/statement.py:30-37 | a time is read back from its text exactly if its year is written with four digits |
| TimeText.MomentIsWritten | python/src/nodetide/eidas/statement.py:30-31 | a time is written as year, month, day, hour, minute and second in decimal with two digits each, the year padded to four on platforms that pad |
| Lines.SplitOfJoin | python/src/nodetide/eidas/statement.py:92 | lines without line breaks survive joining and splitting |
| Lines.ValuesOfIffLabelled | python/src/nodetide/eidas/statement.py:95-100 | what is read behind the labels is exactly what was written there |
| Statements.BuiltFits | python/src/nodetide/eidas/statement.py:75-90 | every statement that is built fits the length limit of what is parsed |
| Statements.ParsesIffBuiltClean | python/src/nodetide/eidas/statement.py:57-114 | a text parses to a statement exactly if the statement is built as that text, its fields match their patterns to the end, and its years have four digits |
| Statements.BuiltParsesIffClean | python/src/nodetide/eidas/statement.py:57-114 | the text a statement is built as parses, to whatever statement, exactly if its fields match their patterns to the end and its years have four digits |
| Statements.BuiltButNotRead | python/src/nodetide/eidas/statement.py:57-114 | every statement that is read back can also be built with a line break behind its claim id, and that text does not parse |
| Statements.OrdinaryStatementsReadBack | python/src/nodetide/eidas/statement.py:57-114 | fields that match fully and times of the years 1 to 9999 are always built; they are read back from year 1000 on, and before it exactly on platforms that pad years |
| Statements.BuildStatement | python/src/nodetide/eidas/statement.py:57-86 | builds the text, or refuses it |
| StatementLaws.BuildsExactly | python/src/nodetide/eidas/statement.py:57-86 | a statement is built exactly if identity, claim id, type, commitment and chain head match their patterns, it ends after it begins, and both times can be written |
| StatementLaws.LinesAreWritten | python/src/nodetide/eidas/statement.py:75-86 | which field stands behind which label on which of the ten lines that Statements.BuildStatement joins |
| Patterns.HashExactly | python/src/nodetide/eidas/statement.py:20 | a hash is 64 lower-case hex digits |
| Patterns.ClaimIdExactly | python/src/nodetide/eidas/statement.py:21 | a claim id is 16 to 64 letters, digits, underscores and hyphens |
| Patterns.ClaimTypeExactly | python/src/nodetide/eidas/statement.py:22 | a claim type is 1 to 32 lower-case letters and underscores, or x- with a namespace of 1 to 32 and a name of 1 to 48 characters |
| Statements.ParseStatement | python/src/nodetide/eidas/statement.py:89-114 | parses the text, or refuses it |
| NotaryStatements.ClaimOrderIsIgnored | python/src/nodetide/eidas/notary_statement.py:51-63 | permuting the claims does not change the text |
| NotaryStatements.NotaryFits | python/src/nodetide/eidas/notary_statement.py:54-67 | every notary statement that is built fits the length limit of what is parsed |
| NotaryStatements.CleanNotaryReadsBack | python/src/nodetide/eidas/notary_statement.py:40-94 | what is built of fields that match fully parses back to the statement with its claims sorted |
| NotaryStatements.BuiltNotaryParsesIffClean | python/src/nodetide/eidas/notary_statement.py:40-94 | the text a notary statement is built as parses, to whatever statement, exactly if its fields match to the end and its years have four digits |
| NotaryStatements.BuiltNotaryButNotRead | python/src/nodetide/eidas/notary_statement.py:40-94 | every notary statement that is read back can also be built with a line break behind its chain head, and that text does not parse |
| NotaryStatements.OrdinaryNotaryReadsBack | python/src/nodetide/eidas/notary_statement.py:40-94 | notary statements with fields that match fully and times of the years 1 to 9999 are read back with their claims sorted from year 1000 on, and before it exactly on platforms that pad years |
| NotaryStatements.NotaryParsesIffBuiltClean | python/src/nodetide/eidas/notary_statement.py:40-94 | a text parses to a notary statement exactly if it is built as that text, its fields match to the end, its years have four digits and its claims are sorted |
| NotaryStatements.BuildNotaryStatement | python/src/nodetide/eidas/notary_statement.py:40-63 | builds the text, or refuses it |
| StatementLaws.BuildsNotaryExactly | python/src/nodetide/eidas/notary_statement.py:40-63 | a notary statement is built exactly if its hashes and its one to five claims match their patterns and kinds, no claim id is given twice, it ends after it begins, and both times can be written |
| StatementLaws.NotaryLinesAreWritten | python/src/nodetide/eidas/notary_statement.py:54-63 | which field stands behind which label on which line, and the claims in order behind the fields |
| StatementLaws.OrderedByTriple | python/src/nodetide/eidas/notary_statement.py:49-52 | claims come by id, then type, then commitment, each by code points |
| NotaryStatements.ParseNotaryStatement | python/src/nodetide/eidas/notary_statement.py:66-94 | parses the text, or refuses it |

## Left out

- Cryptography, encryption, certificates, CMS and PKCS#11: signature checks and digests are uninterpreted functions. Python skips white space in hex keys and signatures and Go refuses it; both are inside the uninterpreted check.
- Raised exceptions and negative answers of `Sigchain.verify` are one outcome, "not accepted"; error texts are left out, and so is which of several failing checks is reported, except where a later step branches on the code.
- JSON values of a type the Python constructors do not expect: such an event does not parse in the model. Go keeps number literals as text, so a literal such as `-0` passes it; the agreement theorem is about events as Python writes them.
- Trustee signatures and thresholds of a social recovery, which the verifier does not check.
- Trust.TrustGraph.CalculateTrust: weights are exact reals between 0 and 1, and the order of paths with equal scores is not fixed; the other checks of a delegation's constructor are left out.
- SmsSystems.AtMostOnce: a message counts as sent when it is handed to the modem; what the modem does with it is not modelled. Each message handed out is begun at most once, however late and in whatever order, or lost on the way; to be begun again it must be leased again.
- SmsDoubleSend.AtMostOnceExactly: leases end within the memory of ids, and a window admits two messages to one number, or three if it is longer than that memory; tighter limits are only covered by the direction that promises at most once.
- SmsLaws.LimitsHoldInEveryRun: a send counts at the moment it is recorded, the gateway is one process at a time, and a restart keeps its window and limits.
- SmsOutboxes.SmsOutbox.Lease: the outbox holds job values, so that a caller and the queue share job objects is not modelled.
- The long poll, the bearer token, the modem's AT commands and reading and writing the ledger file, which is replaced atomically.
- CodeVerifiers.CodeVerifier.Start: which addresses are accepted, their lower-case form and the normal form of codes are parameters, and the clock is read once in a call.
- CodeVerifiers.CodeVerifier.Confirm: the attestation itself is the record and the chain head that are attested; signing and storing it is left out.
- FetchQueues.IdentityFetcher.Process: one call that nothing interrupts; what happens when the queue changes while it awaits answers is in `FetchRuns`.
- FetchRuns.HeadIsKeptExactly: sign-ins and other parts of the node are steps of one event loop with the worker; the chain up to the head has at most 1000 events, as longer copies are never ingested, and the wanted head is not the empty text, which scheduling ignores.
- Which addresses the fetcher accepts (a function), redirects, sizes and timeouts of requests, and the order in which due fetches are processed.
- Other writers of stored chains (relay polling, the daemon, event submission): the growth theorem is about the fetcher, and in `FetchRuns` they save only chains that extend what is stored, while the worker is suspended.
- Search and paging of the explorer; the JSON library under the stored chains.
- Explorers.Store.IndexSigchain: the summary text of each row is left out, and both readings of the clock are parameters.
- Claim documents' salted commitments and normal forms, the self-contained proof verifiers and the comparison of legal names, which are parameters of the evaluation.
- Attestations.AcceptedIsVouchedFor: structural checks made when an attestation is parsed are left out; an attestation without issuer, key or signature simply fails.
- Oidc.OidcProvider.CreateAttempt: the fetch that a login hint starts in advance is left out; it changes nothing of the attempt.
- Oidc.OidcProvider.SubmitAssertion: whether a fetch could be queued is a parameter, which `FetchQueues.IdentityFetcher.Schedule` answers; a submission ends where presentations are evaluated, and `Approve` is the rest. In between any other step may happen.
- Oidc.OidcProvider.Approve: what storage holds of each presentation's issuer, and the time it is evaluated, are parameters; the report to the app and the mapping of verified claims to OIDC claims are left out.
- Oidc.OidcProvider.ExchangeCode: the signed ID token is left out.
- One code per attempt, which does not hold while approvals interleave.
- Sessions, pages and HTTP handlers.
- TimeText.TimeReadsBack: digits that are not ASCII are refused when a time is read; in the code they are refused when the text is compared.
- The web client's own canonical form, name transliteration, message content, bundles and groups.
