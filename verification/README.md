# Payout signer, audit chain and network agent: a model

A Dafny model of the parts of the repository whose guarantees are about whole runs, and proofs
of those guarantees for every run and every input.

- **The payout signer** (`signer/`). `SignerState` gives the events and the fold that turns
  them into the signer's state, `SignerRules` says which event each socket may cause in which
  state, `SignerRuns` the runs that follow and the invariant of every reachable state. A stamp of
  a run carries two clock readings, the one the checks used and the later one stored in the
  event; the clock never goes back. On these runs `Budgets`, `Payments`, `Conservation`, `Addresses`,
  `Fees`, `Authorisation`, `Finality` and `Brakes` prove what the signer promises; `FirstPayout` gives one
  run in full. `History` proves that the state says exactly what the events of the run say, and
  `Admissions` gives for every kind of event, in those terms and in numbers, the condition under
  which it is recorded, and proves it equivalent to the rules. `Policies` and `Spending` hold the policy and the plans that become transactions.
- **The signer as it works**: `SignerStores.SignerStore` changes its fields in place and is proved
  to compute the fold; `Signers.Signer` has the commands with their checks in the order of the
  source, each proved to record its event exactly when the rules permit it. The ghost field `run`
  ties the object to the runs, so every theorem about runs is a theorem about the object.
- **The journal** (`Journals`, `Durability`): the hash-chained file, its parser, crashes in the
  middle of a line, failing and short writes, restarts.
- **The audit chain** (`AuditChain`, `AuditWriters`): verification in blocks, and concurrent
  writers at read committed with the advisory lock as one step among others.
- **The network agent** (`Networks`, `Tunnels`, `TunnelFaults`, `TunnelJobs`, `SitePlans`): address
  ranges, the reconciliation of tunnels with kernel tables and configuration files, what failing
  commands leave behind, the job that brings the agent in line with the database round after
  round, and the plan by which tunnels come into the database.
- **Paging, CSV, rate limit** (`ActivityPages`, `Csv`, `RateLimit`).

`dafny verify dfyconfig.toml` checks everything.

Where code and documentation or intention differ, the model follows the code:

- The journal's writer bounds the body of a line by 1 MiB, its parser the whole line, which is 65
  characters longer. A journal with a body in between is written and answered but no longer
  opens. Most recorded texts are short; the way in is `policy.tighten` and `policy.set`
  (signer/service.ts:992-998 and 1193-1198), which journal the received policy object although
  nothing looks at fields it does not know; the request that carries such a policy is shorter than
  the line it leaves, so it passes the bound on requests as well. `Durability.PolicyLocksOut` gives such a command for
  every state of a signer that has a policy, `Durability.ServedLongLocksOut` says that no restart in
  any continuation brings the signer back, and `Journals.ReopenExactly` that a journal reopens if
  and only if every body leaves room for hash and tab.
- The journal ignores how much of a line was written, and after an error goes on from its old
  position. The next line then leaves an openable file if and only if nothing of the failed line
  got into it (`Journals.AppendAfterFailure`), or all of a line taken for written did
  (`Journals.AppendAfterShortWrite`), short of a hash collision. `Durability.SurvivesExactly` puts it
  together for every course of crashes, failing and short writes and restarts: opening the file
  gives a valid run that holds every answered command if and only if no write fell short, every
  complete line has a body that fits, and no complete line was written to a file that was not
  what the signer took it for, short of a collision.
- `isTightening` is described as stricter in every respect, but the step from solo to four eyes
  drops the number of keys and the delay. `Policies.TighteningQuorumExactly` and
  `Policies.TighteningDelayExactly` say exactly when quorum and delay really get no looser,
  `Brakes.StretchQuorumExactly` says it of any stretch of app commands, and `Brakes.AppLoosens` is a
  run in which a fresh signer accepts the switch from the app.
- The header of a CSV export is written bare, and a row without cells reads back as one empty
  cell: `Csv.ExportRoundTrip` and `Csv.CsvRoundTrip` are equivalences.
- `audit` accepts a connection without a transaction by type; its lock would then end with its
  statement. `AuditWriters.ChainsVerifyExactly`: every possible run's chains verify if and only if no
  caller passes one. All callers pass transactions.
- The agent accepts a changed specification under a known id, but forgets the earlier form before
  its commands have worked: `TunnelFaults.ResidueExactly` says which entries then stay. The
  application never changes a tunnel once it exists, and for such tunnels nothing stays
  (`TunnelFaults.FailureHeals`) and the job always arrives (`SitePlans.TunnelsSettle`). For rows of
  any other origin `TunnelJobs.JobConvergesExactly` gives the exact condition.

## Model

| member | source | states |
|---|---|---|
| Policies.TighteningTransitive | lib/wallet/core/policy.ts:116-134 | tightening twice is tightening, so any number of app changes stays a tightening of the start |
| Policies.TighteningKeepsLimits | lib/wallet/core/policy.ts:116-150 | whatever spend a tightened policy lets through was let through before |
| Policies.TighteningQuorumExactly | lib/wallet/core/policy.ts:115-167 | a tightening makes the quorum stricter if and only if the mode stays or solo asked for at most one key |
| Policies.TighteningDelayExactly | lib/wallet/core/policy.ts:115-134 | a tightening never shortens the signing delay if and only if the mode stays or there was none |
| SignerRuns.ReplayIsStateOf | signer/state.ts:307-308 | replaying the stored entries gives the state the run had |
| SignerRuns.IntentsChange | signer/state.ts:204-264 | a permitted event replaces exactly the record it names, adds one at the end, or leaves all intents alone |
| SignerRuns.InvStep | signer/state.ts:151-305 | every permitted event keeps the invariant over all intent records |
| SignerRuns.RunInv | signer/service.ts:343-788 | in every reachable state ids are unique, a signed intent is approved and uncancelled, signatures pay what the intent says and compete for the same coins |
| SignerRuns.SignedIsRecorded | signer/state.ts:250-252 | every signed event of a run is found in the record of its intent ever after |
| SignerRuns.SameInputsSameSet | signer/service.ts:847-854 | the count-and-membership comparison of inputs, on distinct inputs, is equality of sets |
| SignerRuns.MandateFixed | signer/state.ts:268-302 | a recorded mandate's terms never change |
| History.StateIsHistory | signer/state.ts:151-305 | in every run the state holds a key, a mandate, an approval, a cancellation, the policy and so on if and only if an event set it and none took it away since |
| Admissions.RecordedExactly | signer/service.ts:291-1204 | an event of any kind is permitted if and only if the run before it satisfies the condition written out for its kind, in events, times and numbers |
| Admissions.SignatureExactly | signer/service.ts:720-970 | the same for signatures: what a first signature, a replacement and a recall need on each chain |
| Admissions.OrderExactly | signer/service.ts:343-461 | the same for new intents: limits on open and daily intents, destination, account, fee ceiling, limits, mandate |
| Admissions.MandateExactly | signer/service.ts:506-539 | the same for new mandates: terms, destinations usable now, at most 50 waiting |
| Admissions.PolicyExactly | signer/service.ts:981-998 | the same for policies: next version, hash of the one in force, the bounds as numbers, and from the app no field looser |
| Admissions.KeyFromInvitation | signer/service.ts:1019-1046 | every key of a run came from an invitation of the admin to its person, in time, and no invitation and no key id served twice |
| Budgets.MandateBudget | signer/service.ts:408-423 | over every run, everything ever signed under a mandate plus what is open at any time from now on stays within its total |
| Budgets.PaidIsTally | signer/service.ts:473-484 | the sum over the signed events of a run under a mandate is the sum over its signed records |
| Budgets.WindowIsTally | signer/service.ts:710-718 | the signer's own 24-hour sum over its records is the sum over the events of the run |
| Budgets.SlidingLimit | signer/service.ts:760-766 | in every 24-hour window of every run the first signatures of an asset sum to at most the daily limit in force at the last of them |
| Budgets.OpenLimit | signer/service.ts:349-350 | at no time are more than 50 intents open |
| Budgets.CreationLimit | signer/service.ts:351-352 | no 24-hour window sees more than 200 new intents |
| Budgets.DroppedNeverSigned | signer/service.ts:257-265 | an unsigned payout that left the sums by expiry or cancellation is never signed later |
| Payments.SignatureHistory | signer/service.ts:767-771 | an intent's signatures are exactly its signed events, shaped as one first, bumps, cancels, each for the approved amount; a signed intent is neither cancelled nor vetoed |
| Payments.RecordedIsRun | signer/state.ts:250-252 | the record of an intent lists its signed events in the order of the run, for every id |
| Payments.CoinRun | signer/state.ts:253-258 | in every reachable state each signed outpoint is reserved for its intent, and no nonce is held by two |
| Payments.BitcoinExclusive | signer/service.ts:840-856 | two signed Bitcoin transactions share an outpoint if and only if they belong to one intent, and then spend the same set |
| Payments.NonceRun | signer/state.ts:254-258 | the stored nonce of an account is the last of its first signatures', which are consecutive |
| Payments.EthereumNonces | signer/service.ts:923-930 | first signatures of an account use one gap-free interval of nonces; two signatures share a nonce if and only if they belong to one intent |
| Addresses.AccountRun | signer/state.ts:161-172 | in every reachable state the accounts of a network hold exactly the indices below the next one, each once |
| Addresses.ChangeRun | signer/state.ts:259-263 | in every reachable state all change indices in use lie below the next one, and no two intents share one |
| Addresses.ChangeNumbered | signer/service.ts:843-876 | the change addresses of an account used so far are exactly those below its next index |
| Addresses.ChangeExclusive | signer/service.ts:846-876 | two signed transactions of an account that pay back to one address belong to one intent |
| Conservation.ReplacementConserves | signer/service.ts:847-876 | two transactions of one payout spend coins of the same value and neither returns less than nothing, so a higher fee comes out of the change alone |
| Conservation.CoinsConserved | signer/service.ts:840-898 | whichever transaction of each payout is confirmed, all coins ever committed are worth exactly the payments, fees and change of the chosen ones |
| Fees.EthereumFeesGrow | signer/service.ts:931-937 | after n replacements both fees have grown by at least 1.1 to the n |
| Fees.EthereumReplacementsBounded | signer/service.ts:952-953 | the approved fee cap alone bounds the number of replacements: 11^n * fee * 21000 <= 10^n * cap |
| Fees.BitcoinReplacementsBounded | signer/service.ts:855-856 | the first fee plus the number of replacements stays within the fee cap |
| Authorisation.AuthRun | signer/service.ts:572-575 | in every reachable state approvals belong to the owner of their key, no grantee approved their own mandate, and every intent under a mandate is within its scope and not older than its start |
| Authorisation.MandateInTime | lib/wallet/core/mandate.ts:189-210 | every intent of a run under a mandate was checked, and its creation dated, not before the mandate's start, and checked before its end |
| Authorisation.QuorumIsBacked | signer/state.ts:110-119 | a quorum means two people with two active keys of their own, or one with enough active keys |
| Authorisation.BackedIsQuorum | lib/wallet/core/policy.ts:153-167 | and whoever is backed like this has a quorum |
| Authorisation.ApprovalProvenance | signer/state.ts:137-149 | every approved intent was brought to quorum by one step of the run, and its times follow from the policy of that moment |
| Authorisation.ApprovedExactly | signer/state.ts:138-147 | an intent is approved if and only if some step of the run, an approval of it or its creation, left it with a quorum |
| Authorisation.MandateApprovedExactly | signer/state.ts:289-297 | a mandate counts as approved if and only if some approval of the run left it with a quorum |
| Authorisation.PaymentAuthorised | signer/service.ts:720-766 | every first signature was given unfrozen, uncancelled, in its window, on a test network of the policy in force, backed by keys active at that moment or by a standing mandate within its validity, to a destination that a full cooldown earlier was itself backed by people with keys active then |
| Authorisation.NetworkStaysOff | signer/service.ts:616-620 | while a network is out of the policy, no first signature is given on it |
| Finality.OverNeverSigned | signer/service.ts:741-756 | a revoked or expired mandate or a closed window is final: the payout stays unsigned in every continuation of the run |
| Brakes.AppOnlyBrakes | signer/protocol.ts:15-54 | over every stretch of app commands a freeze, a revoked key, a cancel, a veto and a revocation stay, and the policy is a tightening of the start |
| Brakes.StretchNoLooser | lib/wallet/core/policy.ts:116-134 | over any stretch of app commands, field by field: cooldown, delay and key count not lower, window, limits and both fee caps not higher, networks and assets a subset |
| Brakes.StretchTimes | signer/service.ts:992-998 | what is approved in such a stretch has a cooldown of at least, and a window of at most, that in force at its start |
| Brakes.StretchPayments | signer/service.ts:992-998 | what is signed in such a stretch keeps the networks, the limit per payout and the gas price cap in force at its start |
| Brakes.AppGainsOnlyInvitedKeys | signer/service.ts:1019-1054 | in such a stretch no more keys become active than enrolments the admin had left open |
| Brakes.StretchQuorumExactly | signer/service.ts:992-998 | over a stretch of app commands the quorum gets no looser if and only if the mode stays or solo asked for one key; likewise the delay |
| Brakes.AppLoosens | signer/service.ts:992-998 | a run in which a fresh production signer accepts four eyes from the app, with a looser quorum and a shorter delay |
| SignerRuns.PolicyAcceptable | signer/service.ts:981-990 | in every reachable state the policy in force is within the bounds against misconfiguration |
| FirstPayout.PayoutHappens | signer/service.ts:720-788 | a run of a development signer from set-up to a signed payout, all of whose steps the rules permit |
| SignerStores.CountActiveKeys | signer/state.ts:103-108 | the counting loop gives each person the number of their active keys |
| SignerStores.SignerStore.HasQuorum | signer/state.ts:110-119 | decides the quorum of a list of approvals with the keys active now |
| SignerStores.SignerStore.IntentQuorum | signer/state.ts:129-135 | under a mandate the mandate's quorum decides, otherwise the intent's own |
| SignerStores.SignerStore.SettleAt | signer/state.ts:138-149 | fixes a record's times once, when its quorum is reached, and touches nothing else |
| SignerStores.SignerStore.Reserve | signer/state.ts:250-265 | the loop reserves exactly the outpoints of the event, the nonce only rises, the change index moves past the one used |
| SignerStores.SignerStore.Apply | signer/state.ts:151-305 | changing the fields in place computes the field-wise fold, for every event |
| Spending.BuildBtc | lib/wallet/core/btc-spend.ts:62-129 | accepts exactly when distinct genuine inputs of the account cover amount and fee, fee cap and fee rate hold, and change is nothing or no dust with an address; what is left over is the change |
| Spending.BuiltExactly | lib/wallet/core/btc-spend.ts:62-129 | when a payment, its replacement or its recall can be built, in terms of the plan, the intent and the policy; a recall needs only something left behind the fee |
| Spending.BuiltIsBalanced | signer/service.ts:861-898 | a plan the builder accepts leads to a balanced transaction, and what the run's theorems call change is the change the builder pays back, or in a cancel the one output there is |
| Spending.SignBtc | signer/service.ts:803-903 | succeeds exactly when the coins are free or those of the first signature, the fee is higher, and the builder accepts; the transaction carries the plan's values and pays back exactly when something is left; each refusal names what is wrong |
| Spending.SignEth | signer/service.ts:905-970 | succeeds exactly when the nonce is the next or the same, fees outbid by ten per cent, and the builder accepts; the transaction carries the plan's values; each refusal names what is wrong |
| Spending.BuildTx | signer/service.ts:772-776 | the plan goes to the builder of the intent's chain; the result is the transaction of the plan, value by value |
| Signers.ReplayInto | signer/state.ts:307-308 | the replay loop leaves an empty store in the fold of the entries |
| Signers.Signer.constructor | signer/service.ts:159-167 | a signer started on the entries of a run is in that run's state |
| Signers.OpenSigner | signer/service.ts:159-184 | a signer starts on the file a run left behind, torn line or not, exactly when the journal reopens and the seeds' fingerprints match, and then is in that run's state |
| Signers.Signer.Record | signer/service.ts:194-203 | a line is written and applied exactly when it is not too long, and state, journal and run move together |
| Signers.Signer.MandateUsed | signer/service.ts:473-484 | the loop's sum is the tally the budget theorem speaks of |
| Signers.Signer.SignedLast24h | signer/service.ts:710-718 | the loop's sum is the tally the sliding limit speaks of |
| Signers.Signer.ActiveDestination | signer/service.ts:319-332 | finds the first usable whitelist entry, and finds one exactly when there is one |
| Signers.Signer.IntentCreate | signer/service.ts:343-461 | records the intent exactly when it may be added, with the requested values in their places, and otherwise nothing |
| Signers.Signer.CheckMandate | signer/service.ts:408-423 | lets a payout pass exactly when the mandate has quorum and covers it at this time, the amounts in use included; tells an unknown, an unapproved and an insufficient mandate apart |
| Signers.Signer.Approve | signer/service.ts:645-691 | records the approval exactly when it may be given |
| Signers.Signer.IntentCancel | signer/service.ts:693-699 | cancels an unsigned intent once; never after a signature |
| Signers.Signer.WhitelistVeto | signer/service.ts:701-706 | vetoes a whitelist intent once |
| Signers.Signer.CheckFirst | signer/service.ts:741-766 | passes exactly when a first signature may be given; each refusal names what is wrong, and never "not approved" where the reason is final |
| Signers.Signer.Sign | signer/service.ts:720-788 | a repeated first returns the latest recorded signature and writes nothing; any other request is signed exactly when signable, and recorded before it is returned |
| Signers.SignableIsPermitted | signer/service.ts:720-788 | a sign command goes through if and only if the rules permit its payment, its network is loaded and its plan can be built |
| Signers.Signer.MandateCreate | signer/service.ts:506-538 | records a new mandate exactly when it may be added; the same one again changes nothing |
| Signers.Signer.MandateApprove | signer/service.ts:559-605 | records the approval exactly when it may be given, never by the grantee |
| Signers.Signer.MandateRevoke | signer/service.ts:609-614 | the mandate is revoked afterwards, recorded once |
| Signers.Signer.Freeze | signer/service.ts:974-979 | frozen afterwards, recorded once |
| Signers.Signer.Unfreeze | signer/service.ts:1200-1204 | recorded for the admin only, and only when frozen |
| Signers.Signer.ChangePolicy | signer/service.ts:981-998 | accepted exactly when it follows the current policy's version and hash, is within the bounds and, from the app, tightens |
| Signers.Signer.EnrolFinish | signer/service.ts:1019-1062 | adds a key exactly when the enrolment is open, unexpired and the key new |
| Signers.Signer.KeyRevoke | signer/service.ts:1185-1191 | the key is inactive afterwards, recorded once |
| Signers.Signer.AccountCreate | signer/service.ts:291-314 | assigns the network's next index once; the same account again gets its index back |
| Journals.ParseJournal | signer/journal.ts:66-93 | the loop computes the fold over the complete lines, or the first fault with its line |
| Journals.FaultExactly | signer/journal.ts:71-91 | a journal is refused with this code at this line if and only if the lines before it are written lines that fit and the line is flawed in the way the code says |
| Journals.ReopenExactly | signer/journal.ts:66-93 | a written journal with any torn tail parses to exactly the written events if and only if every body leaves 65 characters of room |
| Journals.LongBodyLocksOut | signer/journal.ts:131-136 | one body the writer accepts and the parser does not, and the journal never opens again |
| Journals.CrashedWrite | signer/journal.ts:131-141 | whatever prefix of a line a crash leaves, only the complete line counts, and what is kept is the rendering of the events |
| Journals.AcceptedIsWritten | signer/journal.ts:66-93 | an accepted text is the rendering of its events and a torn tail: there is no second spelling |
| Journals.SameHead | signer/journal.ts:54-55 | equal heads mean equal histories, or the lemma returns a hash collision |
| Journals.HeadDeterminesHistory | signer/journal.ts:54-93 | two accepted journals with one head hold the same events, whatever their lengths, or exhibit a collision |
| Journals.Journal.Append | signer/journal.ts:131-141 | writes one line, head and number moving along; refuses exactly a body over the bound |
| Journals.Open | signer/journal.ts:109-121 | opens exactly what parses, cuts the torn tail off and goes on behind the last event |
| Journals.AppendAfterFailure | signer/journal.ts:131-141 | after a write that failed with some characters in the file the next line leaves an openable journal if and only if there were none, short of a collision |
| Journals.AppendAfterShortWrite | signer/journal.ts:136-139 | after a write whose count nobody looked at, if and only if the line was whole |
| Durability.RestartStep | signer/service.ts:159-184 | a restart succeeds if and only if every written body fits, and then lands in the state of the written run |
| Durability.SurvivesExactly | signer/journal.ts:66-141 | for every course of crashes, failing and short writes and restarts, opening the file gives a valid run with every answered command, in order, if and only if no write fell short, every complete line's body fits and none was written behind a dirty file, short of a collision |
| Durability.CrashRefinement | signer/journal.ts:66-141 | with crashes and failing writes anywhere, also inside a line and several in a row, and no complete line behind a dirty file, the written events are a valid run, a live signer in step is in its state, and a stopped one restarts into it exactly when every body fits |
| Durability.DisorderLocksOut | signer/journal.ts:131-141 | a complete line behind a dirty file, whatever incomplete writes left there, and the journal does not open any more, short of a collision |
| Journals.StaleLine | signer/journal.ts:66-93 | the parser refuses a complete line behind the scrap of incomplete ones, or from a writer with another idea of the journal, short of a collision |
| Durability.LockedOutForever | signer/journal.ts:66-93 | a journal that does not open never opens again, whatever happens |
| Durability.ServedLongLocksOut | signer/journal.ts:131-136 | after a served command with a body over the parser's bound no restart in any continuation succeeds |
| Durability.PolicyLocksOut | signer/service.ts:992-998 | in every state of a signer with a policy whose own line is within the bound there is a policy change from the app that is served and locks it out for good |
| AuditChain.ContinueChain | lib/audit-hash.ts:101-126 | the loop computes verdict, count, broken number and reason of the recursive pass |
| AuditChain.IntactIsVerified | lib/audit-hash.ts:94-126 | the pass says intact, with the number of rows, if and only if every row names its predecessor's hash and carries its own |
| AuditChain.BrokenExactly | lib/audit-hash.ts:101-126 | broken, after so many rows, at this number and for this reason, if and only if the rows before verify, this one does not, and its previous hash is not or is the one before |
| AuditChain.ContinueSplit | lib/audit-hash.ts:98-107 | verifying two stretches one after the other is verifying them at once |
| AuditChain.VerifyInBlocks | lib/audit.ts:99-130 | for every positive block size the loop ends with the verdict of one pass: intact exactly when the chain verifies, else the first row that does not, its number and the reason |
| AuditWriters.NewestIsGreatest | lib/audit.ts:51-60 | the row whose hash a writer takes has the greatest number of those it sees |
| AuditWriters.InvRun | lib/audit.ts:41-80 | over every interleaving, each writer's view of each chain is in order and verifies |
| AuditWriters.CommittedChainsVerify | lib/audit.ts:41-80 | over every interleaving with aborts and several chains, the committed rows of each chain in order of their numbers verify |
| AuditWriters.PrevUsedOnce | lib/audit.ts:51-61 | no previous hash is used twice, unless two rows of the chain hash alike |
| AuditWriters.NoTransactionNoChain | lib/audit.ts:39-50 | a run of two writers without transactions whose chain does not verify, for any digest |
| AuditWriters.ChainsVerifyExactly | lib/audit.ts:39-80 | for the modes callers use, every possible run's chains verify if and only if none is without a transaction |
| Networks.OverlapIsShared | lib/site-tunnels/rules.ts:69-74 | two networks overlap if and only if an address lies in both |
| Networks.WithinIsContained | lib/site-tunnels/rules.ts:77-79 | when a network lies within another, so do all its addresses |
| Networks.AgentNetsAllowed | lib/site-tunnels/rules.ts:191-206 | the loop accepts exactly one to eight canonical private networks from /16 on, apart from one another and from the service's own |
| Networks.AllowedAddresses | lib/site-tunnels/rules.ts:191-206 | every address of an accepted network is private, and none belongs to the service |
| Networks.NetAllowedExactly | lib/site-tunnels/rules.ts:191-206 | a network is accepted if and only if it is written with its host bits zero, from /16 on, and all its addresses are private and none the service's, by octets |
| Networks.NetsAllowedExactly | lib/site-tunnels/rules.ts:191-206 | a list is accepted if and only if it has one to eight accepted networks and no address lies in two |
| Networks.PeerAllowedExactly | lib/site-tunnels/rules.ts:82-93 | a peer is allowed if and only if it lies in none of the fifteen ranges that are not public, by octets |
| Tunnels.AddressesApart | netz-agent/agent.ts:202-219 | in consistent specifications no address lies in networks of two tunnels |
| Tunnels.PeersApart | netz-agent/spec.ts:54-66 | in consistent specifications no tunnel's peer lies in a network of any tunnel |
| Tunnels.HostClashExactly | netz-agent/agent.ts:202-219 | a specification clashes with the machine if and only if an address lies in a network of each |
| Tunnels.DemandExactly | netz-agent/agent.ts:255-312 | a set of specifications demands every peer and network, a route for the networks of WireGuard tunnels alone, a file for the others |
| Tunnels.DemandReplaced | netz-agent/agent.ts:222-252 | what all specifications demand after one is replaced is the old demand without its old share, with its new one |
| Tunnels.DemandedNoClash | netz-agent/agent.ts:202-219 | the networks demanded never overlap, so the interval set takes them |
| Tunnels.SwapFollowsDemand | netz-agent/agent.ts:222-252 | taking the old share out and the new one in keeps tables within the demand, keeps complete ones complete, and never clashes in the interval set |
| Tunnels.ReadSpecs | netz-agent/agent.ts:79-89 | exactly the files that pass and carry their own name become specifications |
| Tunnels.NetzAgent.constructor | netz-agent/agent.ts:76-90 | an agent started on the files of an earlier one has its specifications |
| Tunnels.NetzAgent.Conflicts | netz-agent/agent.ts:202-219 | reports nothing exactly when no host network overlaps and every other tunnel has another peer and other networks |
| Tunnels.NetzAgent.ApplyRuntime | netz-agent/agent.ts:255-312 | routes and sets lose the earlier form's entries and gain the new one's, whatever changed between them |
| Tunnels.NetzAgent.Teardown | netz-agent/agent.ts:328-352 | takes exactly one tunnel's share out of tables, files and loaded connections |
| Tunnels.NetzAgent.Install | netz-agent/agent.ts:235-249 | across changes of peer, networks and technology the tables swap the shares and the files follow |
| Tunnels.NetzAgent.Apply | netz-agent/agent.ts:222-252 | succeeds exactly when the specification is allowed and fits; then it is stored, and reconciled tables, routes, files and connections stay exactly what all specifications demand |
| Tunnels.NetzAgent.Remove | netz-agent/agent.ts:355-365 | forgets the tunnel and keeps everything reconciled; an unknown id changes nothing |
| Tunnels.NetzAgent.Start | netz-agent/agent.ts:115-127 | after any restart, with whatever is left of the tables, everything is exactly what the specifications demand |
| TunnelJobs.RunJob | lib/jobs/site-tunnels.ts:63-136 | one round, refusals and removals included, does what the rows say and keeps everything reconciled; emptied tables are full again once every tunnel kept was applied |
| TunnelJobs.JobSettles | lib/jobs/site-tunnels.ts:19-23 | for tunnels that never change, two rounds bring the agent from any state to exactly the wanted tunnels off the machine's own networks, or there already, and further rounds leave it there |
| TunnelJobs.JobConvergesExactly | lib/jobs/site-tunnels.ts:19-23 | for rows of any origin, from any state: rounds reach the wanted tunnels if and only if no group of tunnels waits for one another, and then one more round than tunnels were stale is enough |
| SitePlans.CheckCustomerNets | lib/site-tunnels/rules.ts:124-145 | the loops accept exactly one to eight readable private networks from /16 on, apart from one another, and report a conflict exactly when one overlaps a reserved or taken network |
| SitePlans.TransferFor | lib/site-tunnels/rules.ts:164-179 | the loop finds the first network of the pool that overlaps neither the customer's own nor a taken one |
| SitePlans.NormalAddresses | lib/net/ip.ts:144-152 | the normal form of a network has exactly the addresses that begin with the same bits |
| SitePlans.PlannableExactly | lib/site-tunnels/rules.ts:124-143 | a plan takes exactly one to eight networks, /16 to /32, of private addresses alone, no address in two |
| SitePlans.ConflictExactly | lib/site-tunnels/rules.ts:144-156 | a network has to make way if and only if some address of it is the service's, in the transfer pool or taken |
| SitePlans.TransferExactly | lib/site-tunnels/rules.ts:164-179 | a transfer network exists if and only if there is one network from /24 on and a vacant place in the pool; it is the first vacant one |
| SitePlans.PlanWith | lib/db/site-tunnels.ts:92-132 | plans exactly when peer, limits and networks allow, with the customer's networks or the transfer network |
| SitePlans.PlannedExactly | lib/db/site-tunnels.ts:92-132 | the networks can be planned if and only if they can be taken and none is blocked, or there is one from /24 on and a vacant place; unblocked they stay, blocked they become that place |
| SitePlans.PlannedAllowed | lib/db/site-tunnels.ts:111-131 | planned networks pass the agent's own check and overlap nothing that was taken |
| SitePlans.PlannedFits | lib/db/site-tunnels.ts:144-171 | a planned tunnel goes together with every active one |
| SitePlans.InvRun | lib/db/site-tunnels.ts:144-273 | over any run of creations, removals and jobs, however late or half done, active rows go together and the agent knows no tunnel in another form |
| SitePlans.TunnelsSettle | lib/jobs/site-tunnels.ts:63-136 | after any such run two rounds bring the agent to exactly the wanted tunnels that can be had |
| TunnelFaults.AllWork | netz-agent/agent.ts:222-352 | the agent's calls in their order, all working, swap the old share for the new one |
| TunnelFaults.ResidueExactly | netz-agent/agent.ts:228-240 | after an attempt with any failing calls, applying the same specification again leaves the demand and exactly the entries of the earlier form whose deletion did not happen; none if and only if all were deleted before the first failing call the agent insists on |
| TunnelFaults.FailureHeals | netz-agent/agent.ts:221-252 | a tunnel that never changes heals: whatever failed, the next working attempt leaves exactly what is demanded |
| ActivityPages.TakeActivityPage | lib/activity-page.ts:64-99 | the merge loop takes the specified piece of each list and the specified cursor |
| ActivityPages.PageOfMerge | lib/activity-page.ts:77-86 | a page is the newest entries of the merge, and what it leaves merges to the rest |
| ActivityPages.MergeNewestFirst | lib/activity-page.ts:59-63 | when both lists descend in time, so does all that the pages show |
| ActivityPages.MergeTies | lib/activity-page.ts:79-84 | at one moment the audit rows are shown before the comments |
| ActivityPages.FetchedPage | lib/activity-page.ts:59-63 | fetching size + 1 rows of each list gives the page of the whole lists |
| ActivityPages.CursorRoundTrip | lib/activity-page.ts:25-54 | reading the printed cursor gives it back |
| ActivityPages.ParsedIsGood | lib/activity-page.ts:32-54 | whatever stands in the link, the cursor read from it is well formed |
| ActivityPages.ParsedExactly | lib/activity-page.ts:32-54 | each cursor but the start is read from exactly the links of at most 120 characters that spell its number and its mark in the fixed formats |
| ActivityPages.CursorAdvances | lib/activity-page.ts:85-98 | behind the next cursor are exactly the rows and comments the page left |
| ActivityPages.ReadAll | lib/activity-page.ts:25-99 | following the cursors through the link ends after as many pages as the size demands and delivers every row and comment exactly once, in full pages whose contents are the merge |
| ActivityPages.PagesEnough | lib/activity-page.ts:79-86 | the number of pages is the least whose full pages hold everything |
| Csv.SplitRecords | lib/csv.ts:38-71 | the character loop computes the recursive reading |
| Csv.CsvRoundTrip | lib/csv.ts:73-95 | splitting the written rows gives exactly the defused cells, whatever they contain, if and only if no row is empty |
| Csv.ExportRoundTrip | lib/csv.ts:85-95 | a whole export reads back as header and defused rows if and only if no row is empty and the header has cells without quotes, semicolons and line breaks |
| Csv.NothingEvaluated | lib/csv.ts:73-83 | no cell read back from an export is a formula; each is the original, or the original behind one apostrophe, exactly where it would have been evaluated |
| Csv.FileReads | lib/csv.ts:38-71 | any file of records, bare or quoted cells, any separator, any line breaks, with or without one at the end, reads as its cells, except that a lone empty cell at the end is lost |
| RateLimit.SlidingWindowLimiter.Check | lib/rate-limit.ts:20-47 | allows a call exactly when fewer than limit earlier allowed calls of its key lie in the window, and the delay it reports is the least after which the idle key is allowed |
| RateLimit.SlidingWindowLimiter.Sweep | lib/rate-limit.ts:49-56 | forgets only what no window reaches any more |
| RateLimit.FullUntil | lib/rate-limit.ts:29-36 | a full window has room again exactly from the oldest call's age of one window on |

## Left out

- Cryptography: SHA-256, key derivation, signing and transaction bytes. Digests and codecs are function parameters; that a codec reads back what it wrote, without line breaks or tabs, is an assumption of the journal theorems (`Sound`), canonical JSON itself is not modelled.
- WebAuthn: a verified assertion is an optional counter, a verified enrolment an optional credential and counter. Counter rules and parsing are not modelled.
- The text formats of intents and mandates: events carry the parsed values, and which strings are addresses in their normal form is a parameter.
- Seed ceremony, first set-up, adding a network, opening an enrolment, re-encryption: their events take part in every run with their conditions, but there are no command methods for them; status and view functions, sockets and request lines are not modelled.
- SignerStores.SignerStore.Apply: records are values in the store's collections, so aliasing between a record held by a caller and the stored one is not captured; a mandate text that a later version can no longer read, which is then skipped, does not occur.
- Signers.Signer.constructor: the self-test of the keys is not modelled.
- Signers.OpenSigner: the self-test of the keys and the reading of the seed file are not modelled.
- Signers.Signer.Sign: refusals for limits, mandate use and the builder are one code each; validation of raw JSON arguments and `handleLine`'s error texts are not modelled.
- Signers.Signer.IntentCreate: formats of ids are not checked, since arguments arrive typed.
- Signers.Signer.Freeze: a reason has 1 to 200 characters; which characters is not checked.
- Signers.Signer.Record: the clock is assumed never to go back, and random ids to be new.
- Spending.BuildBtc: the decoding of previous transactions is reduced to a value and ownership per input, and virtual size is given with the plan.
- Journals.Journal.Append: the class writes whole lines; crashes, failing and short writes are steps of `Durability`.
- Journals.Open: the file is a sequence of characters, not UTF-8 bytes.
- Durability.CrashRefinement: what a complete line written behind a dirty file leads to is in `Durability.DisorderLocksOut`, not here.
- Durability.PolicyLocksOut: assumes that a text field of the policy is written into the line character by character (`Spells`).
- AuditWriters.CommittedChainsVerify: the database is a sequence of rows with a lock table; deadlocks and lock waits are steps that do not happen.
- Networks.AgentNetsAllowed: networks are IPv4 values; the accepted text is the canonical one, so equal texts are equal values, and the parser of addresses is not modelled.
- Tunnels.NetzAgent.Apply: every external command is taken to succeed, failing ones are in `TunnelFaults`; the error map is not modelled; formats of ids and keys are not checked; a stop between writing the state file and the configuration file is not covered, since a start renders no files.
- Tunnels.NetzAgent.ApplyRuntime: WireGuard peer entries are left out, and every external command is taken to succeed.
- Tunnels.NetzAgent.Teardown: WireGuard peer entries and the termination of IKE sessions are left out.
- Tunnels.NetzAgent.Install: every external command is taken to succeed.
- Tunnels.NetzAgent.Remove: every external command is taken to succeed.
- Tunnels.NetzAgent.Start: the base interfaces, their errors and the status are not modelled.
- TunnelJobs.RunJob: an agent that cannot be reached, rows without a secret and the observations written back are not modelled.
- TunnelJobs.JobConvergesExactly: rows and host networks do not change between the rounds.
- TunnelFaults.ResidueExactly: an interval set that refuses new networks because of a residue is one of the failing calls; files, WireGuard peers and IKE sessions are not tables.
- SitePlans.PlanWith: the parser of addresses and the wording of conflicts are not modelled; secrets, audit rows and notices are left out.
- SitePlans.TunnelsSettle: a creation is one step, as its transaction lock makes it; server address and limits per organisation only refuse more.
- Csv.ExportRoundTrip: the byte order mark and `parseCsv` with its separator guess, trimming and header lookup are not modelled; cells are strings already.
- ActivityPages.ReadAll: the two lists do not change while the reader pages; page size zero, which never ends, is outside.
- RateLimit.SlidingWindowLimiter.Check: the clock handed in is assumed never to go back.
