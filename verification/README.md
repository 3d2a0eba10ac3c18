# Stammtisch, modelled and proved

This project models the parts of the Stammtisch server whose correctness is an argument rather
than a reading: how presence reaches many clients without ever sending the whole of it twice, how a
client that dropped comes back without having missed anything, how the voice-delay rig can be
trusted to a sample, what a signalling connection accepts before it knows its peer, and what the
in-memory media plane keeps true while it is being told to misbehave.

`dafny verify dfyconfig.toml` checks everything.

## How it is laid out

Where the Go code updates something in place, there is a class with the same fields whose methods
are proved against step functions on a plain value; the theorems about whole runs are about those
functions. Where the Go code only computes, there are functions and lemmas.

- **Presence.** `Listing`, `Ids` and `Texts` give identifiers and the one sorted listing of a set,
  so that Go's map order cannot matter. `Presence` is the projection, a register per member in which
  the highest sequence number wins. `Hub` is the coalescing fan-out, and `HubMeaning` says what each
  of its operations answers and leaves to be sent. `Replica` folds the messages a client is sent and
  proves that every client converges; `Convergence` says exactly which runs leave a client behind.
  `Visibility` proves that a client learns nothing about what it may not see.
  `Resume` and `Resumption` are the register of dropped clients, its accounting, and the proof that
  refreshing what it names loses nothing; `ResumeMeaning` states each of its operations.
- **The rig.** `Bits`, `Complex` and `Polynomial` carry the algebra; `Fft` is the transform as it
  runs, in place; `Signals` and `Roots` are inner products and square roots; `Correlator` and
  `Detection` are the correlator and what its answer means; `DelayLine` is the masked ring buffer;
  `Stats` the percentiles; `Rig` the driver and the theorem that the rig measures exactly.
- **Signalling.** `Frames` is the frame codec, `Negotiation` the field codec, the version
  negotiation and the gate on a connection.
- **The media plane and the log.** `Port` is the port and its error lists, `Fake` the state machine
  behind it, `FakeMeaning` each operation by its conditions, `FakePlane` the object itself; `Logging`
  is the record printer, read back, and `LogMeaning` what a line says, word for word;
  `Decimals` is decimal notation, used by credentials, refusals and records.

Numbers that Go holds in floating point are exact reals. `math.Sqrt` is any function whose square is
its argument, and `cmplx.Rect(1, -2π/2^s)` is the root obtained from it by halving the angle, which
is proved to have the powers the transform needs. Identifiers, sequence numbers and sample counts
are unbounded; the revision counter wraps at 2^64 as Go's does.

## Where the code and its comments part

- `Correlator.Find` documents a score between 0 and 1. A window equal to minus the reference is
  answered with -1, whatever the reference (`Detection.OppositeWindow`); the
  score lies in [-1, 1], and is at least 0 exactly when some offset with energy under it has a
  correlation that is not negative, or none has energy.
- `PresenceHub.Flush` drops what is pending for a channel the hub does not know. A channel added
  while somebody is already in it, with nothing pending for it, is never announced to the clients
  who can see it (`Replicas.OccupiedChannelMissed`). Such a channel is owed to each client in whose
  sight it was added, until a flush finds its count changed, the client subscribes to it, or it
  detaches; a run that ends in a flush has converged if and only if nothing is owed
  (`Convergences.ConvergenceExact`). `Replicas.KnownReportsAllowed` gives a condition a caller can
  keep: report only known channels, or none.
- A resume answer is documented as the difference: the channels that moved while the client was
  away. A channel added meanwhile that was occupied before the hub knew it did not move, so it is
  not named, and a client that may see it goes on showing it empty (`ResumeRuns.AddedWhileAway`).
  `ResumeRuns.ResumeIsLossless` says that nothing else is lost.
- `Conn.ReadFrame` keeps a refusal for ever, but not a framing error: after a header that is refused
  for its length or its kind, the next read starts right behind it, inside the refused frame's
  payload (`Negotiations.DecodingErrorIsNotTerminal`). A stream that ran out is final. Every use of
  a connection hands out the wire's frames and nothing else if and only if what they leave, read on
  past each refused header, reaches no frame the gate would pass (`Negotiations.WireExact`).
- `encodeFields` cuts a value's length to sixteen bits. Decoding what it encoded gives the fields
  back exactly when every value fits (`Negotiations.FieldsRoundTrip`); the caller in the tree keeps
  within that.
- `Held` rounds to the nearest millisecond except in the last half millisecond of Go's duration
  range, where it rounds the wrong way (`Logging.MillisecondsNearest`).

## Model

| member | source | states |
|---|---|---|
| Listings.ListingUnique | internal/orchestration/resume.go:362-369 | a finite set has one strictly sorted listing, so the order in which a map is ranged over cannot be seen |
| Listings.Sort | internal/orchestration/presence_hub.go:357-364 | collecting a set in any order and sorting it gives its strictly increasing listing, every element once |
| Listings.IsListing | internal/orchestration/resume.go:362-369 | whatever a sort of the set returns is that one listing |
| Ids.ParseFormats | internal/orchestration/id.go:53-68 | parsing a formatted identifier gives it back |
| Ids.FormatParses | internal/orchestration/id.go:53-68 | any accepted text is formatted back to itself |
| Ids.StringInjective | internal/orchestration/id.go:63-68 | identifiers that are written alike are one, the zero identifier included |
| Ids.IdsOrdered | internal/orchestration/id.go:63-92 | comparing the strings is a strict total order on any set of identifiers |
| Ids.NewIDMeans | internal/orchestration/id.go:79-92 | an identifier is made exactly of two parts that are not empty and hold no separator, space, control or delete character |
| Ids.ParseIDMeans | internal/orchestration/id.go:53-61 | exactly the texts local@host of two such parts are parsed |
| Ids.BeforeMeans | internal/orchestration/presence_hub.go:357-364 | strings are compared at their first difference, and a beginning comes before what it begins |
| Presences.ApplyExact | internal/orchestration/presence.go:122-179 | every report, accepted or refused, keeps each count equal to the number of members present in the channel, with no entry for an empty channel |
| Presences.ApplyMeans | internal/orchestration/presence.go:122-168 | a report is accepted exactly if it names a member and its number is above nought and above that member's last; then the member is where it says, with its whole second and its mark, or nowhere, and a change is told exactly where what is published of them changed |
| Presences.FoldIsLatest | internal/orchestration/presence.go:114-168 | after any sequence of reports the projection holds for each member the number, channel, second and mark of exactly that member's highest-sequence report |
| Presences.FoldExact | internal/orchestration/presence.go:170-182 | after any sequence of reports the counts are exact |
| Presences.FoldOrderIndependent | internal/orchestration/presence.go:55-76 | reordering, repeating, and losing what a later report overtakes make no difference to the projection, counts included |
| Presences.OccupantsOrdered | internal/orchestration/presence.go:190-212 | longest present first, then identifier, is a strict total order on the members of a channel |
| Presences.OccupantsMean | internal/orchestration/presence.go:198-212 | the occupants are exactly the members whose register names the channel, by second and then by identifier |
| Presences.PresenceProjection.constructor | internal/orchestration/presence.go:106-112 | a new projection is the empty one |
| Presences.PresenceProjection.Apply | internal/orchestration/presence.go:122-168 | the maps updated in place, the change and the flag are the ones of the fold, whose parts `ApplyMeans` states one by one |
| Presences.PresenceProjection.Decrement | internal/orchestration/presence.go:173-179 | one occupancy less, and the entry gone when the channel empties |
| Presences.PresenceProjection.Occupants | internal/orchestration/presence.go:198-212 | exactly the members of the channel in the documented order, whatever order the map gave them in |
| Hubs.AddChannelSound | internal/orchestration/presence_hub.go:150-160 | adding a channel keeps the hub's order a duplicate-free listing of the known channels and the projection exact |
| Hubs.AttachSound | internal/orchestration/presence_hub.go:169-195 | attaching keeps the attachment order a duplicate-free listing of the clients |
| Hubs.DetachSound | internal/orchestration/presence_hub.go:200-211 | detaching does too |
| Hubs.SubscribeSound | internal/orchestration/presence_hub.go:221-254 | so do subscribing and unsubscribing |
| Hubs.ApplySound | internal/orchestration/presence_hub.go:258-303 | a report keeps every pending update filed under its own channel and member |
| Hubs.FlushSound | internal/orchestration/presence_hub.go:312-353 | a flush keeps the bookkeeping |
| Hubs.PresenceHub.constructor | internal/orchestration/presence_hub.go:125-140 | a new hub knows no channel, holds no client and has nothing pending |
| Hubs.PresenceHub.AddChannel | internal/orchestration/presence_hub.go:150-160 | the new state and the refusals are the model's |
| Hubs.PresenceHub.Attach | internal/orchestration/presence_hub.go:169-195 | the new state, and the answer: the count of every visible channel, in the hub's order, as a snapshot, or the refusal |
| Hubs.PresenceHub.Detach | internal/orchestration/presence_hub.go:200-211 | the client is gone from the map and from the order, the others keep their places |
| Hubs.PresenceHub.Subscribe | internal/orchestration/presence_hub.go:221-244 | the new state, and the answer: the channel's count and its members in order, with one error for invisible and unknown channels alike |
| Hubs.PresenceHub.Unsubscribe | internal/orchestration/presence_hub.go:250-254 | the channel leaves the client's set and nothing else changes |
| Hubs.PresenceHub.Note | internal/orchestration/presence_hub.go:264-303 | a channel's pending entry is made if missing, its mark kept, and the member's last update replaces the one before |
| Hubs.PresenceHub.Apply | internal/orchestration/presence_hub.go:258-294 | projection, pending changes and result after a report, for the three cases of a move and the case within a channel |
| Hubs.PresenceHub.SortUpdates | internal/orchestration/presence_hub.go:357-364 | one channel's updates as the one listing in identifier order |
| Hubs.PresenceHub.ChangedChannels | internal/orchestration/presence_hub.go:317-324 | the channels with something pending, in the hub's order, those it does not know left out |
| Hubs.PresenceHub.Compose | internal/orchestration/presence_hub.go:328-344 | one client's message, filtered by sight and by subscription |
| Hubs.PresenceHub.Flush | internal/orchestration/presence_hub.go:312-353 | the deliveries, in attachment order and without empty messages, and nothing pending afterwards |
| HubMeaning.AddChannelMeans | internal/orchestration/presence_hub.go:150-160 | a channel is added last, unless it has no identifier or is known, which change nothing |
| HubMeaning.AttachMeans | internal/orchestration/presence_hub.go:169-195 | each refusal has its own condition and changes nothing; otherwise the client is attached last, following nothing, and told the number of members of exactly the known channels its grants show it, in the hub's order |
| HubMeaning.DetachMeans | internal/orchestration/presence_hub.go:200-211 | the client goes and the others keep their order; an unknown client changes nothing |
| HubMeaning.SubscribeMeans | internal/orchestration/presence_hub.go:221-244 | a known channel the grants show is added to the client's set and answered with its number of members and all its occupants in order; one hidden and one unknown get the same error |
| HubMeaning.UnsubscribeMeans | internal/orchestration/presence_hub.go:250-254 | the channel alone leaves the client's set |
| HubMeaning.ReportMeans | internal/orchestration/presence_hub.go:258-294 | a report leaves something pending in a channel exactly where the member came, went or differs there: a moved count exactly where they came or went, and one update, saying what is published of them now or that they are gone |
| HubMeaning.MessageMeans | internal/orchestration/presence_hub.go:326-344 | a message holds exactly the numbers of members of the visible channels whose count moved, and exactly the updates pending in the visible channels the client follows |
| HubMeaning.MessageInOrder | internal/orchestration/presence_hub.go:316-344 | it lists channels in the hub's order, and the members of each by identifier |
| HubMeaning.FlushMeans | internal/orchestration/presence_hub.go:312-353 | a client is sent its message exactly if there is something to tell it, and nothing is pending afterwards |
| Replicas.MessageTells | internal/orchestration/presence_hub.go:326-350 | a flush tells a client the truth about exactly the changed channels it can see, and about the members of exactly those it is subscribed to |
| Replicas.FlushTells | internal/orchestration/presence_hub.go:312-353 | the same of a whole flush, as the replica takes it |
| Replicas.ListTells | internal/orchestration/presence_hub.go:221-244 | the answer to a subscription, folded as a snapshot, replaces the channel's list and count by the projection's |
| Replicas.SnapshotCounts | internal/orchestration/presence_hub.go:169-195 | the snapshot an attaching client folds gives it the count of every channel it can see |
| Replicas.ReportKeeps | internal/orchestration/presence_hub.go:258-294 | after a report every pending update still says what is true, and every replica is right about whatever is not pending |
| Replicas.FlushKeeps | internal/orchestration/presence_hub.go:305-353 | a flush keeps the invariant and leaves every client converged |
| Replicas.StepKeeps | internal/orchestration/presence_hub.go:150-353 | every operation keeps the replication invariant, a channel being added only while empty, with its count pending, or out of every attached client's sight |
| Replicas.RunKeeps | internal/orchestration/presence_hub.go:150-353 | so does every run |
| Replicas.Convergence | internal/orchestration/presence_hub.go:150-353 | in any run of such operations ending in a flush, every attached client's folded counts equal the projection on all channels it can see, and its lists equal it on all it is subscribed to |
| HubMeaning.ConvergedMeans | internal/orchestration/presence_hub.go:12-25 | converged means that every attached client shows, of every known channel its grants show it, the number of members whose register names it, and of every channel it follows, those members and what is published of each |
| Replicas.OneMessageEach | internal/orchestration/presence_hub.go:305-311 | a flush sends each attached client at most one message, never an empty one, in attachment order |
| Replicas.KnownReportsAllowed | internal/orchestration/presence_hub.go:317-324 | reports that name known channels, or none, are enough for convergence |
| Convergences.InformedKeeps | internal/orchestration/presence_hub.go:150-353 | if every client were told a channel's count as it is added, no condition on adding would be needed |
| Convergences.StepTrails | internal/orchestration/presence_hub.go:150-353 | after every operation a client is behind one so informed by exactly the counts it is owed |
| Convergences.FailingRun | internal/orchestration/presence_hub.go:317-324 | a run from the start that does not converge: a client attaches, a member is reported into an unknown channel, an interval ends, the channel is added, another ends |
| Convergences.ConvergenceExact | internal/orchestration/presence_hub.go:312-353 | whatever happens in a run, a flush at its end leaves every client converged if and only if no client is owed the count of a channel added to its sight while occupied and since neither flushed with its count changed, nor subscribed to, nor left behind by detaching |
| Replicas.AddChannelExact | internal/orchestration/presence_hub.go:150-160 | after a channel is added the next flush converges if and only if it was empty, its count was pending, or no attached client may see it |
| Replicas.OccupiedChannelMissed | internal/orchestration/presence_hub.go:317-324 | a client that may see a channel added while occupied, with nothing pending, is left wrong by the next flush |
| Visibility.SameAttach | internal/orchestration/presence_hub.go:169-195 | hubs alike to a client answer its attachment alike |
| Visibility.SameSubscribe | internal/orchestration/presence_hub.go:221-244 | and its subscription, to any channel, visible or not |
| Visibility.SameFlush | internal/orchestration/presence_hub.go:326-350 | and push it the same messages |
| Visibility.SameObservation | internal/orchestration/presence_hub.go:366-377 | whatever event happens, hubs alike to a client show it the same |
| Visibility.ReplicaLearns | internal/orchestration/presence_hub.go:366-377 | what a client holds after an event is what it held before and what it observed of the event, so what it may not observe it cannot hold |
| Visibility.ReportStep | internal/orchestration/presence_hub.go:258-294 | reports that differ only in which hidden channel, or none, they name keep two hubs alike |
| Visibility.StaysAlike | internal/orchestration/presence_hub.go:366-377 | events a client cannot tell apart keep two hubs alike to it |
| Visibility.Noninterference | internal/orchestration/presence_hub.go:25-34 | over whole runs from hubs alike to it, a client observes the same of events paired one by one that differ only in what it may not see |
| Visibility.HiddenReportExact | internal/orchestration/presence_hub.go:258-294 | a report that names no visible channel shows in none if and only if it is refused or its member was in none |
| Visibility.WovenNoninterference | internal/orchestration/presence_hub.go:25-34 | the same of runs of different lengths: reports and other events out of the client's sight may happen in one run and be absent from the other, as long as the reports both share are accepted in both or in neither |
| Visibility.ParallelNoninterference | internal/orchestration/presence.go:55-76 | the same from the two streams of events alone: where each member's numbers rise in each run for itself, whatever one run reports of members out of the client's sight, and the other does not, is never heard |
| Resumes.Grace.constructor | internal/orchestration/grace.go:22-24 | the deadline is the period after now |
| Resumes.Grace.Remaining | internal/orchestration/grace.go:36-41 | what is left is nought exactly once the period has expired, and otherwise reaches the deadline |
| Resumes.Grace.Extend | internal/orchestration/grace.go:46-48 | the period starts again from now |
| Resumes.KeptExactly | internal/orchestration/resume.go:336-347 | reaping keeps a session if and only if it had not expired when it was asked about |
| Resumes.ReapSound | internal/orchestration/resume.go:336-358 | the order stays a duplicate-free listing of the held sessions, and what is kept and what is gone add up |
| Resumes.ForgetSound | internal/orchestration/resume.go:350-358 | forgetting keeps that listing and removes one |
| Resumes.Resumptions.constructor | internal/orchestration/resume.go:212-228 | a new register holds nobody at revision nought |
| Resumes.Resumptions.Published | internal/orchestration/resume.go:244-264 | the revision, wrapping, and every held set after a batch, with those past the bound given up for good |
| Resumes.Resumptions.Suspend | internal/orchestration/resume.go:271-289 | the three refusals change nothing; otherwise one suspension more, last in order |
| Resumes.Resumptions.Resume | internal/orchestration/resume.go:303-327 | the answer or the refusal, and the register after it |
| Resumes.Resumptions.Forget | internal/orchestration/resume.go:350-358 | the session is gone from the map and from the order |
| Resumes.Resumptions.Reap | internal/orchestration/resume.go:336-347 | walking a copy of the order while the original is spliced gives the same register and members as deciding each session by itself, even with a clock that moves during the call |
| ResumeMeaning.PublishMeans | internal/orchestration/resume.go:244-264 | a batch of no channel changes nothing; any other takes the next revision, 0 after 2^64 - 1, and adds its channels to what each suspension missed, given up once those are more than the bound |
| ResumeMeaning.SuspendMeans | internal/orchestration/resume.go:271-289 | each refusal has its own condition and changes nothing; otherwise the place is held until one window from now, from this revision, with nothing missed, last in order |
| ResumeMeaning.ResumeAnswers | internal/orchestration/resume.go:303-327 | each refusal, the full answer and the difference have their own conditions on deadline, member and revision; the difference is the sorted missed channels; a refusal changes nothing and an answer removes that session alone |
| ResumeMeaning.ReapMeans | internal/orchestration/resume.go:336-347 | a session goes exactly if the clock had reached its deadline when it was asked about; members are reported, and sessions kept, in the order of suspension |
| ResumeMeaning.MovedSinceMeans | internal/orchestration/resume.go:244-264 | what moved since a batch is the channels of every batch from it on |
| ResumeRuns.ActKeeps | internal/orchestration/resume.go:244-358 | in every run, accepted suspensions are accepted resumes, reaped ones and those still held, and each held one remembers exactly the channels published since it began or has given up |
| ResumeRuns.ResumeMeans | internal/orchestration/resume.go:298-327 | when each of the four refusals is given, in order, each changing nothing; an accepted ticket is answered in full exactly when it folds less than the revision the suspension began at or more channels than the bound moved since, and otherwise with the sorted channels that did |
| ResumeRuns.RevisionsAreBatches | internal/orchestration/resume.go:244-264 | a register's revision is the number of batches it has published exactly until 2^64 of them |
| ResumeRuns.ReapTakesPrefix | internal/orchestration/resume.go:329-347 | with a still clock, reaping removes exactly a prefix of the order and reports its members in that order |
| ResumeRuns.PrefixExists | internal/orchestration/resume.go:336-347 | where deadlines rise with the order, the expired sessions are a prefix of it |
| ResumeRuns.RunInTime | internal/orchestration/resume.go:271-289 | in any run on a clock that does not go back, deadlines rise with the order |
| ResumeRuns.RegisterRuns | internal/orchestration/resume.go:206-347 | every run of a new register on a clock that does not go back keeps the account, and reaping at its end takes exactly a prefix of the order |
| ResumeRuns.ExpiredNeverResumes | internal/orchestration/resume.go:123-128 | a session whose window has run out never resumes, whatever happens, until it is suspended again |
| ResumeRuns.ToldOrUnmoved | internal/orchestration/resume.go:233-246 | if each flush's channels are published, a channel neither published nor pending is as it was |
| ResumeRuns.ResumeIsLossless | internal/orchestration/resume.go:54-59 | a client faithful at the batch its ticket folds, before or after its suspension, that is given a difference and refreshes exactly the channels named, agrees with the projection on the members of every channel it is subscribed to, and on the count of every channel it now sees, that has no unflushed change; for a count exactly unless the channel was occupied before the hub knew it and has not moved since |
| ResumeRuns.AddedWhileAway | internal/orchestration/resume.go:54-59 | that exception is real: such a channel, added while the client was away, is not named, and the client goes on showing it empty |
| Bits.NextPow2 | bench/dsp.go:82-88 | the least power of two that is at least n |
| Bits.MaskIsMod | bench/system.go:110-114 | masking with one less than a power of two is reduction modulo it |
| Bits.CarryDownReverses | bench/dsp.go:51-60 | adding one at the top and carrying downwards steps through the bit reversals in order |
| Bits.ReverseInvolution | bench/dsp.go:57-59 | bit reversal undoes itself, so swapping once per pair realises it |
| FastTransform.ReversedIncrement | bench/dsp.go:52-56 | the carry loop takes the reversal of one index to the reversal of the next |
| FastTransform.BitReverse | bench/dsp.go:50-60 | the swaps leave every sample at its bit-reversed place |
| FastTransform.Butterfly | bench/dsp.go:70-76 | one butterfly turns two values of half-length transforms into two of the transform twice as long |
| FastTransform.Block | bench/dsp.go:69-76 | the butterflies of one block, with the running twiddle, do to the sequence what powers of the root say, and nothing outside the block |
| FastTransform.Stage | bench/dsp.go:65-78 | one stage makes every block's transform twice as long |
| FastTransform.Fft | bench/dsp.go:45-79 | the array is left holding the discrete Fourier transform of what it held, forward or inverse, for every power-of-two length and for none |
| Roots.TableIsRootTable | bench/dsp.go:61-67 | the roots obtained by halving the angle square to one another from 1 and -1 on, and lie on the unit circle |
| Roots.Quarter | bench/dsp.go:61-67 | from the third on the roots lie in the lower right quarter, so they are those of the angles -2π/2^s and no others |
| Polynomials.InverseAt | bench/dsp.go:38-39 | transforming back reads each coefficient off, multiplied by the length |
| Polynomials.RoundTrip | bench/dsp.go:38-39 | forward and then the unnormalised inverse is multiplication by the length |
| Polynomials.CorrelationTheorem | bench/dsp.go:133-137 | the product with the conjugate transform, transformed back, is the circular correlation multiplied by the length |
| Correlators.ProductIsLag | bench/dsp.go:133-138 | for real signals and a padded reference, its scaled real part is the circular correlation |
| Correlators.LagNoWrap | bench/dsp.go:147-157 | at an offset whose reference ends inside the samples nothing wraps around |
| Correlators.EnergySlides | bench/dsp.go:140-152 | one sample on and one off is the energy under the next offset |
| Correlators.Correlator.constructor | bench/dsp.go:101-111 | the reference's transform and norm, at a power of two at least the window and the reference together |
| Correlators.Correlator.Lags | bench/dsp.go:126-138 | the two transforms and the product give the circular correlation at every offset |
| Correlators.Correlator.Find | bench/dsp.go:122-166 | the first offset of greatest normalised correlation among those with energy, computed directly, or (0, 0) where there is none or the signal is shorter than the reference, for every signal without energy beyond the transform |
| Detection.AnswerUnique | bench/dsp.go:147-165 | there is one such answer |
| Detection.AnswerMeans | bench/dsp.go:122-166 | the answer is the first offset of the greatest inner product over the two energies' roots, with that score, among the offsets where the roots are not nought, and (0, 0) where there is none |
| Detection.LagIsDot | bench/dsp.go:113-116 | within the window's length the correlation at an offset is the plain inner product there |
| Detection.ScoreFacts | bench/dsp.go:117-121 | a score lies in [-1, 1], is 1 exactly in the equality case of Cauchy-Schwarz, and has the sign of the inner product |
| Detection.AnswerRange | bench/dsp.go:113-116 | the returned score lies in [-1, 1] and the offset between 0 and the length left over |
| Detection.AnswerNonNegative | bench/dsp.go:113-116 | the documented lower bound of 0 holds if and only if some offset with energy correlates non-negatively or none has energy |
| Detection.OppositeWindow | bench/dsp.go:113-116 | a window equal to minus any reference that is not silent is answered with offset 0 and score -1 |
| Detection.DelayedIsFound | bench/dsp.go:147-165 | a window holding one copy of a reference that is not silent is answered with its true offset and score 1, every earlier offset scoring less |
| DelayLines.Line.FramingIsInvisible | bench/system.go:103-122 | how the input is split into frames makes no difference to the output |
| DelayLines.DelayLine.constructor | bench/system.go:76-95 | a line whose ring outlasts the longest delay it can draw |
| DelayLines.DelayLine.Exchange | bench/system.go:104-122 | each output sample is the input one delay earlier in the unbounded history, or silence before it, with the delay drawn once per block |
| DelayLines.Line.CarriesEcho | bench/system.go:104-122 | in full: the sample at t is the one at t less the delay drawn for block t / resample, or silence where that is before the first |
| DelayLines.DelayLine.Step | bench/system.go:105-121 | the same of one sample |
| Statistics.SortInPlace | bench/stats.go:19-32 | the array is sorted and a permutation of what it was |
| Statistics.Percentile | bench/stats.go:19-32 | for p in (0, 100] the least sample with at least p percent of all the samples at or below it, the least sample for a p below and the greatest for one above, the array sorted in place, and no number for no samples |
| Statistics.RankBounds | bench/stats.go:19-32 | the rank stays within the samples, and is the share rounded up, that is the integer less than one above it, for percentiles in (0, 100] |
| Statistics.SortedUnique | bench/stats.go:19-32 | samples sort in one way, so sorting again changes nothing |
| Statistics.PercentileIsLeast | bench/stats.go:19-32 | the element of rank r of the sorted samples is the least of the unsorted ones with r at or below it |
| Statistics.AtMostCounts | bench/stats.go:19-32 | the samples at or below a value are counted by position |
| Statistics.RankShare | bench/stats.go:19-32 | so many samples reach the rank exactly where they are p percent of all |
| Statistics.LeastShare | bench/stats.go:19-32 | the nearest rank without ranks: the least sample with p percent of all at or below it |
| MeasurementRig.Validate | bench/bench.go:67-85 | a configuration is accepted exactly when rate, frame, chirp and trials are positive, the period is longer than the chirp and a whole number of frames |
| MeasurementRig.RunTrial | bench/bench.go:137-149 | driving one trial frame by frame fills the window with what leaves the line while the padded chirp enters it |
| MeasurementRig.Measure | bench/bench.go:122-175 | each trial is the correlator's answer on its own window, and the pass accounts for all of them |
| MeasurementRig.Summarise | bench/bench.go:160-174 | the reported figures are those of the accepted trials, in trial order, although sorting happens in place on another array |
| MeasurementRig.AcceptedOf | bench/bench.go:150-158 | a trial is accepted exactly if its score is at least the threshold, and the accepted ones keep their order |
| MeasurementRig.SummaryMeans | bench/bench.go:168-174 | each of p50, p95 and p99 is the least listed delay with that percentage of them at or below it, the extremes are theirs, and least, p50, p95, p99 and greatest rise |
| MeasurementRig.WindowIsDelayed | bench/system.go:62-65 | redrawing once per period, where the block's delay is no longer than the silence after the chirp, a trial's window is the chirp at its block's delay and nothing else |
| MeasurementRig.AnswerSize | bench/dsp.go:101-111 | the answer does not depend on how long the transform is, once the window fits |
| MeasurementRig.RigIsExact | bench/bench.go:119-175 | with no noise, one delay per trial and room for each delay drawn, the rig misses no trial and reports for trial k exactly the delay drawn for block k, with score 1 |
| MeasurementRig.TrialExactly | bench/bench.go:92-98 | with one delay per trial, whatever the jitter, a trial answers with its block's delay if and only if that leaves room for the chirp, and then with score 1 |
| MeasurementRig.MeasureFresh | bench/cmd/mouth-to-ear/main.go:61-71 | so does driving a fresh line that redraws once per trial, as the rig's own fixture is built |
| MeasurementRig.MeasurableExactly | bench/bench.go:92-98 | a line without jitter, redrawn at whatever period, is measured at its delay in every trial, and in any, if and only if the delay leaves room for the chirp |
| Frames.DecodeEncoded | internal/signalling/frame.go:85-131 | reading a written frame gives it back and consumes exactly its bytes |
| Frames.EncodeDecoded | internal/signalling/frame.go:85-131 | writing an accepted frame gives exactly the bytes that were consumed |
| Frames.StreamRoundTrip | internal/signalling/frame.go:85-131 | a stream of frames reads back as those frames with nothing left |
| Frames.StreamReencodes | internal/signalling/frame.go:85-131 | any bytes are the frames read from them, written again, and what was left |
| Frames.EncodeMeans | internal/signalling/frame.go:114-131 | nothing is written for more than 65536 bytes or for kind 0; else the length in four bytes, most significant first, the kind and the payload |
| Frames.DecodeMeans | internal/signalling/frame.go:85-106 | each refusal and the frame, by the five bytes of the header and the number of bytes behind them |
| Frames.Stream.Decode | internal/signalling/frame.go:76-106 | the result and the bytes consumed, for every refusal as for a frame |
| Frames.Stream.Encode | internal/signalling/frame.go:108-131 | the whole frame or nothing is written, and why |
| Negotiations.EncodeFields | internal/signalling/negotiation.go:115-130 | the buffer holds the fields' bytes in order |
| Negotiations.DecodeFields | internal/signalling/negotiation.go:139-158 | walking the payload by offset parses it as cutting field after field does, refusals included |
| Negotiations.FieldsRoundTrip | internal/signalling/negotiation.go:107-158 | decoding what was encoded gives the fields back if and only if every value fits sixteen bits of length |
| Negotiations.FieldsReencode | internal/signalling/negotiation.go:115-158 | any accepted payload is encoded again as it was |
| Negotiations.FieldsLayout | internal/signalling/negotiation.go:115-130 | a field adds two bytes of identifier, two of length and its value, each number most significant first |
| Negotiations.ParsesExactly | internal/signalling/negotiation.go:139-158 | a payload parses as given fields if and only if it is what they are laid out as and none is longer than 65535 |
| Negotiations.FindVersion | internal/signalling/negotiation.go:163-174 | the first field with the identifier, where it is two bytes wide |
| Negotiations.VersionOfOnly | internal/signalling/negotiation.go:160-174 | fields with other identifiers do not matter to it |
| Negotiations.VersionMeans | internal/signalling/negotiation.go:163-174 | a version is read if and only if the first field with the identifier holds its two bytes, most significant first |
| Negotiations.FirstValueMeans | internal/signalling/negotiation.go:220-226 | the sentence is the value of the first field with its identifier |
| Negotiations.AgreementReadBack | internal/signalling/negotiation.go:187-254 | a client reads the agreed version back from the acceptance |
| Negotiations.RefusalReadBack | internal/signalling/negotiation.go:205-244 | a client reads exactly the range and the sentence back from the refusal |
| Negotiations.RepliesMean | internal/signalling/negotiation.go:229-254 | the acceptance and the refusal, byte by byte |
| Negotiations.ReasonMeans | internal/signalling/negotiation.go:229-244 | the sentence, letter by letter |
| Decimals.DecimalMeans | internal/signalling/negotiation.go:234-234 | a number is its leading digits followed by its last, and a digit is itself |
| Negotiations.ClientReads | internal/signalling/negotiation.go:187-227 | a client reads a version exactly from kind 4 with a version in its first field 1, and a refusal exactly from kind 5 with fields 1, 2 and 3 |
| Negotiations.ProposesMeans | internal/signalling/negotiation.go:271-290 | a first frame proposes v if and only if it is of kind 3, its payload parses, and its first field 1 is v |
| Negotiations.NegotiationMeans | internal/signalling/negotiation.go:271-304 | every outcome if and only if its condition: v is spoken if it is proposed and min <= v <= max, refused if it is below or above, and each other error by the first frame alone |
| Negotiations.ProposalInRange | internal/signalling/negotiation.go:271-304 | a version v with min <= v <= max is agreed, one frame read and one written, and the client reads the server's own result |
| Negotiations.ProposalOutOfRange | internal/signalling/negotiation.go:292-297 | a version below the least or above the greatest is refused, one frame read and one written, and the client reads the range and the reason |
| Negotiations.OtherwiseSilent | internal/signalling/negotiation.go:271-303 | anything else ends the negotiation with nothing written and at most one frame read |
| Negotiations.HelloNegotiates | internal/signalling/negotiation.go:177-184 | a client's own hello, given byte by byte, is agreed exactly when min <= v <= max, and nothing after it is read |
| Negotiations.UnknownFieldsIgnored | internal/signalling/negotiation.go:160-174 | hellos whose fields agree on the proposal's identifier get the same outcome and the same reply bytes |
| Negotiations.InsertedFieldsIgnored | internal/signalling/negotiation.go:160-174 | so inserting other fields anywhere changes nothing |
| Negotiations.Conn.Negotiate | internal/signalling/negotiation.go:271-304 | a version is spoken if and only if it is proposed, min <= v <= max, and the reply could be written; outcome, bytes consumed and bytes written, with the gate untouched |
| Negotiations.Conn.ReadFrame | internal/signalling/conn.go:56-82 | the frame or the error, and the gate and stream after it |
| Negotiations.Conn.MarkAuthenticated | internal/signalling/conn.go:47-47 | the gate opens and nothing else changes |
| Negotiations.ReadFrameMeans | internal/signalling/conn.go:56-82 | a frame passes if and only if no refusal is kept, the bytes hold one, its kind is from 1 to 5, and the peer is authenticated or the kind is 1; each error has its own condition, and only a whole frame of another kind is kept as a refusal |
| Negotiations.GateHolds | internal/signalling/conn.go:49-82 | over any use, every frame handed out is of a known kind, and each of those handed out before the first mark is the authentication frame, whatever follows |
| Negotiations.RefusalIsTerminal | internal/signalling/conn.go:49-60 | after a refusal every read returns the same error and no further byte is read |
| Negotiations.ReadsAreTheFrames | internal/signalling/conn.go:56-82 | until the first error, what is handed out are the frames of the wire in order |
| Negotiations.DecodingErrorIsNotTerminal | internal/signalling/conn.go:61-64 | behind a header declaring any length over the bound, the next read hands out a frame from inside the refused one |
| Negotiations.AfterError | internal/signalling/conn.go:56-82 | the read after a first error gives a message if and only if the error was a whole header refused for its length or kind and the gate passes the frame right behind it, so a stream that ran out and a refusal by the gate are final |
| Negotiations.WireExact | internal/signalling/conn.go:56-82 | every use of a connection hands out the wire's frames in order and nothing else if and only if what they leave, read on past each refused header, reaches no frame the gate would pass |
| MediaPort.WithAllows | internal/media/port.go:87-91 | adding a capability adds that one and takes none away |
| FakeMedia.StepKeepsSound | internal/media/fake/fake.go:206-701 | every operation, whatever it answers, and every induced fault keeps each subscriber admitted and allowed to subscribe, each received source published, and each source's owner admitted with the capability for its kind |
| FakeMedia.RunsAreSound | internal/media/fake/fake.go:206-701 | so does every run |
| FakeMedia.RevokeUndoesAdmit | internal/media/fake/fake.go:378-462 | admitting and then revoking a member leaves every room as it was, but for what was observed of them: nothing of theirs survives |
| FakeMedia.ReadmittedIsNameless | internal/media/fake/fake.go:378-462 | from any sound plane, after a revocation, and again after a later re-admission with any capabilities and whatever happened in between, no source and no subscription in the room names the member |
| FakeMedia.UnpublishUndoesPublish | internal/media/fake/fake.go:465-525 | taking a source back undoes its publication |
| FakeMedia.Idempotent | internal/media/port.go:245-290 | the five idempotent operations may be repeated: the second answers as the first and changes nothing |
| FakeMedia.NotIdempotent | internal/media/fake/fake.go:403-493 | a second admission or publication is refused as such, except for a source that never arrived |
| FakeMedia.PortContract | internal/media/port.go:140-322 | an operation returns only its declared errors and the common ones, records exactly itself, and where it fails changes nothing but a drained room's mark |
| FakeMeaning.AnyOperation | internal/media/fake/fake.go:307-327 | what every operation asks first, what it records, and that it leaves the rooms alone where it fails, but for a drain |
| FakeMeaning.CreateMeans | internal/media/fake/fake.go:330-359 | a room is made empty, exactly if it has a name, is not there and there is room for it; each refusal by its own condition |
| FakeMeaning.DestroyMeans | internal/media/fake/fake.go:362-375 | the room goes, there or not, and no other |
| FakeMeaning.AdmitMeans | internal/media/fake/fake.go:378-426 | the six refusals, each if and only if its condition, and one member more with the capabilities asked for |
| FakeMeaning.RevokeMeans | internal/media/fake/fake.go:429-462 | the member, what was observed of them, their sources and every subscription by or to them go, and nothing else |
| FakeMeaning.PublishMeans | internal/media/fake/fake.go:465-496 | the five refusals, each if and only if its condition, and one source more, or none where it was set never to arrive |
| FakeMeaning.UnpublishMeans | internal/media/fake/fake.go:499-525 | the three refusals, and the source goes with exactly the subscriptions to it |
| FakeMeaning.SubscribeMeans | internal/media/fake/fake.go:528-560 | the five refusals, each if and only if its condition, and one subscription more |
| FakeMeaning.UnsubscribeMeans | internal/media/fake/fake.go:563-583 | the three refusals, and one subscription less |
| FakeMeaning.GainMeans | internal/media/fake/fake.go:586-614 | the three refusals in their order, a gain within the range, ends included, accepted, and the rooms as they were |
| FakeMeaning.ObservingMeans | internal/media/fake/fake.go:617-674 | a room that is not there, a unit that does not observe, and otherwise an answer, with the rooms as they were |
| FakeMeaning.DrainMeans | internal/media/fake/fake.go:677-701 | a drain succeeds exactly in an empty room and begins in any |
| FakeMeaning.RoomSettingsMean | internal/media/fake/fake.go:227-285 | the three settings that touch a room touch that part of that room alone |
| FakeMeaning.SpeakingPersists | internal/media/fake/fake.go:227-233 | what was set of a speaker holds over any run until it is set again, they are revoked or the room is destroyed |
| FakeMedia.EveryErrorOccurs | internal/media/fake/fake.go:8-13 | every one of those errors but the internal one is returned by that operation in some reachable state |
| FakeMedia.LogIsTheRun | internal/media/fake/fake.go:15-26 | over every run the log is complete, in order, and within the contract |
| FakeMedia.LogExplains | internal/media/fake/fake.go:15-20 | replaying the log gives every room's members and draining mark, and no source or subscription is there that it does not explain; where nothing was set to be lost it gives those exactly |
| FakeMedia.DrainingStep | internal/media/fake/fake.go:411-417 | a draining room admits nobody |
| FakeMedia.DrainingOnlyShrinks | internal/media/fake/fake.go:677-701 | over any run, until it is destroyed, a draining room stays draining and its members only leave |
| FakeMedia.CredentialNumber | internal/media/fake/fake.go:422-425 | an admission's number can be read off its credential, whatever hyphens the identities hold |
| FakeMedia.CredentialsDistinct | internal/media/fake/fake.go:422-425 | no two credentials of a run are the same string |
| FakeMedia.SeatsCollide | internal/media/fake/fake.go:424-424 | without the number, two seats' credentials could be |
| FakePlanes.Fake.constructor | internal/media/fake/fake.go:138-153 | a new plane has no room and no call, no limit, gains from 0 to 4 not applied, observable, and no fault |
| FakePlanes.Fake.Begin | internal/media/fake/fake.go:318-327 | an expired deadline first, then an unreachable unit |
| FakePlanes.Fake.Record | internal/media/fake/fake.go:307-310 | the call is appended and its outcome returned |
| FakePlanes.Fake.MemberOf | internal/media/fake/fake.go:705-715 | no such room, then no such member, otherwise the capabilities |
| FakePlanes.Fake.CreateRoom | internal/media/fake/fake.go:330-359 | outcome and whole new state, and the invariant kept |
| FakePlanes.Fake.DestroyRoom | internal/media/fake/fake.go:362-375 | the same, and alreadyGone exactly where there was no room |
| FakePlanes.Fake.AdmitMember | internal/media/fake/fake.go:378-426 | the same, and a credential exactly where the member was admitted |
| FakePlanes.Fake.RevokeMember | internal/media/fake/fake.go:429-462 | the same, the member's sources and every subscription by them or to them deleted one by one |
| FakePlanes.Fake.PublishSource | internal/media/fake/fake.go:465-496 | outcome and whole new state, with a source set never to arrive accepted and absent |
| FakePlanes.Fake.UnpublishSource | internal/media/fake/fake.go:499-525 | outcome and whole new state, its subscriptions gone with it |
| FakePlanes.Fake.Subscribe | internal/media/fake/fake.go:528-560 | outcome and whole new state |
| FakePlanes.Fake.Unsubscribe | internal/media/fake/fake.go:563-583 | outcome and whole new state |
| FakePlanes.Fake.SetSubscriberGain | internal/media/fake/fake.go:586-614 | the capability answer before the subscription and the range, and nothing changed |
| FakePlanes.Fake.SpeakingState | internal/media/fake/fake.go:617-642 | one entry for each member and nobody else, by strictly rising names, each telling whether the room marks that member as speaking, and nothing changed |
| FakePlanes.SpeakingIsTold | internal/media/fake/fake.go:227-233 | setting a member as speaking or silent shows in the answer after it, and every other entry is as in the answer before |
| FakePlanes.Fake.HopMetrics | internal/media/fake/fake.go:645-674 | one entry for each member and nobody else, by strictly rising names, holding what was set of the member or else no delay and no loss, as of the clock's next answer when they were met, whatever order they were met in |
| FakePlanes.StillHops | internal/media/fake/fake.go:664-673 | with a clock that does not move during the call, the order of meeting does not show |
| FakePlanes.Fake.DrainRoom | internal/media/fake/fake.go:677-701 | the mark is set whether or not anybody is left |
| FakePlanes.Fake.SetRoomLimit | internal/media/fake/fake.go:210-210 | the limit and nothing else |
| FakePlanes.Fake.SetGainSupported | internal/media/fake/fake.go:215-215 | the answer and nothing else |
| FakePlanes.Fake.SetGainRange | internal/media/fake/fake.go:218-220 | the range and nothing else |
| FakePlanes.Fake.SetObservable | internal/media/fake/fake.go:224-224 | the answer and nothing else |
| FakePlanes.Fake.SetSpeaking | internal/media/fake/fake.go:227-233 | one member's mark in an existing room |
| FakePlanes.Fake.SetHop | internal/media/fake/fake.go:239-246 | one member's hop, stamped now, in an existing room |
| FakePlanes.Fake.SetUnreachable | internal/media/fake/fake.go:254-254 | the mark alone, the rooms untouched |
| FakePlanes.Fake.FailRoomCreation | internal/media/fake/fake.go:258-260 | the fault and nothing else |
| FakePlanes.Fake.TimeOutAdmission | internal/media/fake/fake.go:265-267 | the fault and nothing else |
| FakePlanes.Fake.NeverDeliverSource | internal/media/fake/fake.go:273-275 | the fault and nothing else |
| FakePlanes.Fake.DropSubscription | internal/media/fake/fake.go:279-285 | one subscription gone, and the invariant kept |
| FakePlanes.Fake.RefuseCapability | internal/media/fake/fake.go:290-292 | the fault and nothing else |
| Logging.IdentifierGrammar | internal/logging/logging.go:63-110 | exactly the texts local@host of at most 128 bytes are admitted, and as they are, whose parts are not empty and hold no separator, no space and nothing that does not print |
| Logging.MillisecondsNearest | internal/logging/logging.go:246-255 | a duration is recorded as the nearest millisecond if and only if it is outside the last half millisecond of the range |
| Logging.LineParsesBack | internal/logging/logging.go:312-327 | splitting a line on spaces and cutting at the first equals sign gives its values in the declared order, and it is one line |
| Logging.RecordParsesBack | internal/logging/logging.go:290-337 | a record is written exactly when the event is known and every field is named and given once, and then reads back as its stamp, event and arguments in the declared order; which name and value each argument has is stated by `RecordTellsIdentifiers` and those after it |
| LogMeaning.RecordTellsIdentifiers | internal/logging/logging.go:224-239 | a record reads "space" as an identifier if and only if a space of that identifier was given, and so for "channel", "member" and "client" |
| LogMeaning.RecordTellsVersions | internal/logging/logging.go:241-244 | "version" as exactly the version given, in decimal |
| LogMeaning.RecordTellsCounts | internal/logging/logging.go:246-248 | "count" as exactly the count given, in decimal, with a sign where it is negative |
| LogMeaning.RecordTellsDurations | internal/logging/logging.go:250-255 | "held" as exactly the duration given, in whole milliseconds and with their unit |
| LogMeaning.RecordTellsEvent | internal/logging/logging.go:313-314 | "at" as the stamp and "event" as the event's name, and as nothing else |
| LogMeaning.EventsAre | internal/logging/logging.go:140-168 | the twelve events by number and name, and no other |
| LogMeaning.LineText | internal/logging/logging.go:315-328 | a line, letter by letter: the stamp, the event, and what was given, in one order |
| LogMeaning.ReadsParts | internal/logging/logging.go:315-328 | how such a line is read: part by part, each cut at its first equals sign |
| LogMeaning.RefusedFor | internal/logging/logging.go:296-311 | a record is refused for its event first, and else for its first argument that gives no field or the name of one before it |
| LogMeaning.MillisecondsMeans | internal/logging/logging.go:246-255 | a duration is rounded with halves away from zero, and past the last half millisecond of the range held to its ends |
| LogMeaning.LengthMeans | internal/logging/logging.go:63-66 | the length of text is its characters' own, of one to four bytes each |
| Logging.RecordInjective | internal/logging/logging.go:290-337 | two records at one stamp with the same line are the same event with the same fields |
| Logging.FieldTellsArgument | internal/logging/logging.go:224-265 | different arguments make different fields, but for durations of the same millisecond |
| Logging.OrderIndependent | internal/logging/logging.go:197-216 | the order of the arguments changes neither whether a record is written nor its line |
| Logging.CollectMeans | internal/logging/logging.go:302-311 | the fields are refused exactly where one has no name or two share one |
| Logging.LogSplits | internal/logging/logging.go:328-335 | a log of such lines splits into them |
| Logging.Log.Record | internal/logging/logging.go:296-337 | what is appended to the log, or the refusal with the log untouched |
| Logging.Log.Build | internal/logging/logging.go:315-327 | the builder's text is the pairs joined by single spaces |

## Left out

- Floating-point rounding, overflow and NaN: all arithmetic of the rig, gains and losses is over exact reals.
- The chirp's spectrum and `Chirp` itself: the reference is any signal, and for the exactness theorem any that is not silent.
- White noise and the random generator: the delay line's draws are any sequence of values up to the jitter, and noise is taken as absent.
- `NewDelayLine`'s rounding of durations to samples, and the durations `TrialPeriod` and `MaxMeasurableDelay` report: the model starts from the sample counts.
- Correlators.Correlator.Find: requires that no offset beyond the transform has energy under the reference, because the source indexes past its transform at such an offset; without energy it skips the offset before reading.
- Correlators.Correlator.constructor: requires a window with which the transform still holds the reference, because the source indexes past it otherwise; a negative window may be such a one.
- DelayLines.DelayLine.Exchange: requires the output frame to be as long as the input and neither to be the ring, as the source's callers provide.
- DelayLines.DelayLine.constructor: requires a base and a jitter that are not negative and a positive block or frame; with neither the source divides by zero at the first sample.
- MeasurementRig.Measure: drives a delay line, the one implementation of `System` in the tree.
- Statistics.SortInPlace: `sort.Float64s` is replaced by an insertion sort, whose result is the only one possible; the same holds for `sort.Slice` throughout.
- Presences.FoldOrderIndependent: assumes that one member and one sequence number name one report, which the source documents of its callers and does not check.
- Replicas.Convergence: takes the grantor as one fixed predicate; what a client keeps when its grants change is not modelled. Its condition on adding channels is sufficient at every flush of a run; which runs converge is Convergences.ConvergenceExact.
- Hubs.PresenceHub: the source's `presenceClient` and `pendingChannel` objects, reached only through the hub's maps, are values in those maps; so are the suspensions of Resumes.Resumptions, each holding its deadline instead of a `Grace`, and the rooms of FakePlanes.Fake. Aliasing of those objects is not modelled.
- Resumes.Resumptions.constructor: `NewResumptions`, `NewPresenceHub`, `New` of the media plane and `New` of the log refuse missing collaborators and empty windows; the models start after those checks.
- Visibility.Noninterference: covers what messages and answers say, not how long an operation takes.
- `internal/orchestration/permission.go`, `always_on.go` and `domain.go`: case analyses settled by one branch; `Allow` appears as the fixed visibility predicate.
- `PresenceProjection.Where` and the accessors that only return a field: nothing to state beyond the field.
- Identifiers and log text are sequences of Unicode scalars; bytes that are not valid UTF-8 are not modelled. Which characters are spaces and which print is a parameter of Logging, of which only the space and the line feed are assumed to be spaces.
- Partial writes: a stream takes a frame whole or not at all, as `Encode` documents.
- Messages of errors: errors are told apart by kind, not by their text, except the refusal's sentence, which is sent to the peer.
- The log's stamp is a parameter without spaces or line ends; RFC 3339 formatting and the clock are not modelled.
- FakeMedia.CredentialsDistinct: the count of admissions is unbounded, where Go's `int` would wrap after 2^63 of them.
- FakeMedia.EveryErrorOccurs: no operation of the in-memory plane returns the internal error, which the port allows.
- The three queries on the media plane's state (`Subscribed`, `Published`, `Admitted`) and copies of its log: reads of what the model states already.
- Mutexes and goroutines: the hub and the register are documented as single-owner, and the media plane and the log take one lock per operation, so each call is one step.
- `internal/transport`, `internal/store`, `internal/auth`, `internal/config`, `main.go` and the benchmark's command line: network, database, password hashing and process plumbing over libraries whose code is not visible here.
