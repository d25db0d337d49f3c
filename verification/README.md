# VehiNode: telemetry delivery, configuration, hooks, parsers and accounts

VehiNode puts an agent in a vehicle. The agent reads a position and vehicle metrics, queues
samples on disk and uploads them; a server stores them, keeps one current-state row per vehicle
and runs user-written hooks over them with any number of workers. The server also serves each
agent a versioned configuration with the vehicle profile that its CAN decoder needs.

This project models the parts of that system whose correctness is not visible in one function
and proves what they promise: over every run, with any interleaving of losses, delays, repeats,
crashes and restarts, or over every input.

`dafny verify dfyconfig.toml` checks everything.

## How it is built

Each module follows one part of the system. Where the source changes state, the module has a
class with the source's fields and methods, and each method is proved against a specification
function on plain values; laws over whole runs are then lemmas about those functions. What such a
function computes is in turn stated in fields, bytes and numbers, without naming it.

| module | part |
|---|---|
| `Prelude`, `Ordering`, `Samples`, `Bits` | shared vocabulary: sequences, stable sorting by a pair, the records that travel, bitwise arithmetic on integers |
| `AgentQueue`, `Activity`, `AgentRuntime` | the agent's durable queue, the in-use verdict, and the agent that joins them |
| `Ingestion`, `IngestionLaws`, `HookQueueing`, `HookTables` | storing a batch, the current-state row, triggers, executions and jobs; which hooks a batch queues |
| `Delivery` | agents, network and server together |
| `ConfigServer`, `ConfigSync`, `ConfigRaces` | configuration versions on the server, their installation on agents, and edits that overlap |
| `JobStore`, `HookWorkers`, `HookPaths` | job claims, leases and hook locks, any number of workers; concrete runs step by step |
| `JobOutcomes`, `JobEnds`, `HookChildren` | what a claim, a start, a commit and a failure leave in the tables; when the end of a job is final; which children of one hook run together |
| `HookStateLaws`, `HookRecorders`, `HookQuietRuns`, `HookLosses` | the state a hook accumulates; when nothing of it is lost, and when something is |
| `NmeaStream`, `NmeaSentences`, `NmeaReadings` | reassembly of a serial stream; sentences, checksums and the last fix; what each kind of sentence says, field by field |
| `Masks`, `MaskTexts`, `CanDecoder`, `CanText`, `FrameTexts` | bit masks as each implementation reads them; CAN bit fields in both; capture files and adapter lines, character by character |
| `Jpeg`, `History` | picture dimensions; thinned history |
| `UserAdmin`, `AdminRaces` | accounts and the last administrator; guarded changes that overlap |

Runs are sequences of events. Every event is enabled or does nothing, so a statement about all
sequences of events is a statement about all runs. Where a property fails of the code, the
module keeps the code as it is, shows a failing case and proves the condition under which the
property holds:

* A cut in a serial stream that leaves more than 4096 unterminated bytes changes what is consumed
  exactly in the cases that `NmeaStream.CutMatters` names.
* A restarted agent whose read of the largest queued sequence fails counts from zero again. Queued
  sequences then stay distinct and ordered, whatever follows, if and only if the queue was empty
  (`AgentQueue.FailedReadIsHarmlessExactly`); no sample is lost either way.
* An agent refuses the configuration it is served exactly when the vehicle's profile is the empty
  string, which the selection route lets through, or a numeric bit mask, which the schema does not
  bound, is beyond the 64-bit floats (`ConfigSync.ServedConfigIsValid`).
* A device's settings are written back with the version that was read before. Version numbers go
  on determining content, whatever is written, if and only if no bump of the device was committed
  since (`ConfigRaces.WriteIsSafeExactly`).
* A worker can outlast its lease, so the end of a job is not always final. It is if and only if no
  worker has the job with a commit still ahead (`JobEnds.EndIsFinalExactly`).
* The child of a worker that was killed, or whose lock died with its connection, runs on. Two
  children of one hook run together at some time if and only if one is started beside such a child
  (`HookChildren.ChildrenOverlapExactly`).
* The hook lock is released before the final commit, and it dies with its connection, so two
  successes of a hook can overlap. While they do not, the hook's state is the fold of all of them
  (`HookStateLaws.StateIsFoldOfSuccesses`); for hooks that record their runs the record is complete
  if and only if they do not (`HookRecorders.RecordsAreCompleteExactly`). Two runs in which an update
  is lost are `HookLosses.SplitUnlockLosesUpdate` and `HookLosses.DroppedLockLosesUpdate`.
* The Go and Python CAN decoders differ on masks they read differently, on signed fields under a
  mask or a shift, and on byte fields without a stated length; `CanDecoder.DecodersAgree` is the
  exact condition for one payload, `CanDecoder.DecodersAlwaysAgree` for all payloads of a signal.
* Two guarded changes can overlap and leave no administrator. Committing one keeps one if and only
  if its target is not by then the only one, which takes an overlap (`AdminRaces.CommitIsSafeExactly`).
* A CAN line without separators is read with a three-digit identifier even when it has eight
  (`CanText.CompactFrameParses`).
* A first account provisioned by single sign-on need not be an administrator, and then
  registration and bootstrap are closed without there being one (`UserAdmin.FirstAccountDecides`,
  `UserAdmin.WithoutGroupNobodyAdministers`).

## Model

| member | source | states |
|---|---|---|
| `AgentQueue.Queue.Enqueue` | agent/internal/store/queue.go:43-50 | the row is appended unless its id is queued already, and then nothing changes |
| `AgentQueue.Queue.Pending` | agent/internal/store/queue.go:52-71 | the samples in sequence and queueing order, up to the limit |
| `AgentQueue.Queue.Acknowledge` | agent/internal/store/queue.go:73-101 | exactly the rows with a listed id are gone, in any order and with repeats in the list, and the count is the number removed |
| `AgentQueue.Queue.LastSequence` | agent/internal/store/queue.go:109-113 | the maximum queued sequence, zero for an empty queue |
| `AgentQueue.LargestSequenceIsMaximum` | agent/internal/store/queue.go:109-113 | no queued sequence is larger and some row has it |
| `AgentQueue.StepKeepsHeld` | agent/internal/runtime/runtime.go:81-89 | each collect, failed write, acknowledgement and restart keeps the queue equal to the unacknowledged samples, also when the restart cannot read the largest sequence |
| `AgentQueue.StepKeepsOrdered` | agent/internal/runtime/runtime.go:81-89 | and, unless such a read fails with samples queued, keeps their sequences distinct and in the order of collection |
| `AgentQueue.PendingIsOldestUnacknowledged` | agent/internal/store/queue.go:52-71 | over every life of an agent without such a failed read a pending read is a prefix of the unacknowledged samples in collection order, as long as the limit says, and queued sequences are distinct |
| `AgentQueue.PendingTakesFirst` | agent/internal/store/queue.go:52-71 | no unsent row has a smaller sequence, or the same and an earlier queueing time, than a sent one; as many are sent as the limit says, all when it is negative |
| `AgentQueue.RestartCountsFrom` | agent/internal/store/queue.go:109-113 | after a restart the next sample is numbered one more than the largest queued sequence, or one when nothing is queued or the read fails |
| `AgentQueue.FailedReadIsHarmlessExactly` | agent/cmd/vehinode-agent/main.go:1007 | a restart that cannot read the largest sequence leaves queued sequences distinct and in order, whatever follows, if and only if the queue is empty |
| `AgentRuntime.Agent.constructor` | agent/cmd/vehinode-agent/main.go:1007-1008 | a restarted agent is the restart step of its life: the sequence continues from the largest queued one, or from zero when that cannot be read |
| `AgentRuntime.Agent.Collect` | agent/internal/runtime/runtime.go:63-90 | one collect step of the agent's life, with the activity verdict kept and published in the queued sample, whether or not the write succeeds |
| `AgentRuntime.Agent.Upload` | agent/internal/runtime/runtime.go:92-102 | the oldest queued samples are sent; only an answer removes anything, and then exactly the accepted and duplicate ids |
| `AgentRuntime.PublishedSays` | agent/internal/runtime/runtime.go:84-87 | the published source is the word of the evidence that a sample shows, the published verdict is false exactly when it is idle, and all else in the sample is the reading |
| `Ingestion.Database.UpdateCurrentState` | backend/app/telemetry/services.py:43-65 | an older sample changes nothing; any other replaces time and position and overlays metrics |
| `Ingestion.Database.StoreSample` | backend/app/telemetry/services.py:119-129 | a new id is stored and merged, a known id changes nothing, and the answer says which |
| `Ingestion.Database.EnqueueHooks` | backend/app/telemetry/services.py:68-109 | one trigger for the batch, one execution and one waiting job per enabled matching hook, nothing for an empty batch |
| `Ingestion.Database.IngestBatch` | backend/app/telemetry/services.py:112-133 | the whole transaction: accepted and duplicate ids in batch order, rows stored, state merged, hooks queued over the rows sorted by time and sequence |
| `Ingestion.Database.QueueManualExecution` | backend/app/hooks/services.py:69-97 | one manual trigger, execution and job are added and nothing else changes |
| `IngestionLaws.StoringKeepsIdsUnique` | backend/app/telemetry/services.py:118-126 | the server never holds an id twice |
| `IngestionLaws.EveryRowIsAnsweredOnce` | backend/app/telemetry/services.py:116-129 | every sample of a batch is answered exactly once, accepted or duplicate |
| `IngestionLaws.ResentBatchChangesNothing` | backend/app/telemetry/services.py:112-131 | sending a stored batch again changes no table: no state, trigger, execution or job |
| `IngestionLaws.MergeDescribes` | backend/app/telemetry/services.py:43-65 | one merge keeps the row equal to what its arrivals say |
| `IngestionLaws.CurrentStateIsFunctionOfArrivals` | backend/app/telemetry/services.py:43-65 | after every server run the row has the maximum time, the position of the last arrival with it, and per metric the last value among arrivals at least as new as all before them |
| `IngestionLaws.InOrderArrivalsShowLastValues` | backend/app/telemetry/services.py:58-59 | when arrivals are in time order every metric shows its last reported value |
| `IngestionLaws.EveryStoredIdInOneTrigger` | backend/app/telemetry/services.py:78-90 | every stored id is listed by exactly one telemetry trigger, in time and sequence order, and no other id is |
| `HookQueueing.TriggerRunsWantingHooks` | backend/app/telemetry/services.py:68-109 | a batch makes one trigger, for its vehicle, its device and its last new sample by time and sequence; for ever after each hook has as many executions under it as it has rows that are enabled, for telemetry and for this vehicle or any, each with a waiting job due at once |
| `HookQueueing.OldBatchQueuesNothing` | backend/app/telemetry/services.py:74-75 | a batch without a new sample makes no trigger, execution or job |
| `HookQueueing.ManualRunQueues` | backend/app/hooks/services.py:69-97 | a manual run adds a trigger for its reading, one pending execution of the hook, dry or not as asked, and its waiting job |
| `IngestionLaws.BatchOrderIsKept` | backend/app/telemetry/services.py:116-126 | accepted samples, and refused ones, are answered in the order of the batch |
| `IngestionLaws.ExecutionsAndJobsPaired` | backend/app/telemetry/services.py:100-109 | in every run each execution, automatic or manual, has exactly one job |
| `Delivery.RunIsSafe` | backend/app/telemetry/routes.py:11-19 | the invariant of all agents, messages in flight and server tables holds after every run |
| `Delivery.NoSampleIsLost` | agent/internal/runtime/runtime.go:92-102 | in every run, failed sequence reads included, every queued sample is still queued or stored with the content collected, and the server holds each id once |
| `Delivery.QueueAndTableConserveIds` | agent/internal/client/client.go:99-112 | the ids ever queued are exactly the ids in some queue or in the table |
| `Delivery.RemovalNeedsCommit` | agent/internal/store/queue.go:73-101 | no step takes a sample out of a queue before the server has committed it |
| `Delivery.StoredIsWhatWasCollected` | backend/app/telemetry/services.py:23-40 | a stored row with a sample's id carries that device's sample |
| `Delivery.ServerRunsIngestion` | backend/app/telemetry/routes.py:11-19 | the server half of every distributed run is a run of the ingestion service, so its laws hold there |
| `ConfigServer.Database.EnrollDevice` | backend/app/devices/services.py:68-101 | a new device starts at version one and is answered its configuration |
| `ConfigServer.Database.GetConfig` | backend/app/devices/services.py:31-44 | what is served is a function of the device row, the vehicle's choice and that profile |
| `ConfigServer.ServedFieldByField` | backend/app/vehicle_profiles/services.py:115-142 | a device is served its own row's version and cadence, its vehicle's choice, and of a shipped profile before a stored one the id, the computed metrics and each signal's decoding; nothing for no choice or the empty one |
| `ConfigServer.ChosenProfileIsServed` | backend/app/vehicle_profiles/services.py:135-142 | in every sound state a chosen profile is served under its own id |
| `ConfigServer.ProfileEditLeaves` | backend/app/vehicle_profiles/services.py:159-175 | a profile edit leaves the new text and signals under the next number, one version more on the devices of the vehicles that chose it, and all else as it was |
| `ConfigServer.ProfileDeletionLeaves` | backend/app/vehicle_profiles/services.py:178-183 | a deletion leaves no profile, no choice of it, one version more on those devices, and all else as it was |
| `ConfigServer.ChoiceLeaves` | backend/app/vehicle_profiles/services.py:186-194 | an existing, empty or absent choice is taken, another refused, and only a different one moves the vehicle's devices on |
| `ConfigServer.EnrollmentLeaves` | backend/app/devices/services.py:68-101 | an enrolment adds one device of its vehicle, with its name and intervals, at version one, and leaves every other row |
| `ConfigServer.SettingsLeave` | backend/app/devices/services.py:104-125 | new settings replace the name and the four intervals of one device, whose version rises by one if an interval differs |
| `ConfigServer.Database.UpdateSettings` | backend/app/devices/services.py:104-125 | a rename keeps the version, a cadence change raises it by one |
| `ConfigServer.Database.EditProfile` | backend/app/vehicle_profiles/services.py:168-175 | the profile is rewritten and every device of every vehicle that uses it, and no other, moves one version on |
| `ConfigServer.Database.RemoveProfile` | backend/app/vehicle_profiles/services.py:178-183 | the profile goes, its vehicles have none, and their devices move one version on |
| `ConfigServer.Database.SelectProfile` | backend/app/vehicle_profiles/services.py:186-194 | choosing the same profile changes nothing, another moves the vehicle's devices one version on |
| `ConfigServer.EditKeepsSound` | backend/app/vehicle_profiles/services.py:159-194 | every edit leaves profiles well formed and every choice existing |
| `ConfigServer.EditBumps` | backend/app/vehicle_profiles/services.py:159-194 | one edit never lowers a device's version, and keeps it only if what the device is served stays |
| `ConfigServer.VersionDeterminesContent` | backend/app/devices/services.py:31-44 | between any two reachable states an equal version means equal content, across every kind of edit |
| `ConfigRaces.TimelyWritesDetermine` | backend/app/devices/services.py:104-125 | in every run of any number of overlapping settings edits and other edits in which each new cadence finds the version it read, an equal version means equal content |
| `ConfigRaces.WriteIsSafeExactly` | backend/app/devices/services.py:112-125 | after any such run, versions go on determining content whatever an edit under way will write, if and only if the device still has the version that was read |
| `ConfigRaces.OvertakenMeansBumped` | backend/app/devices/services.py:124 | the version differs from the one read exactly when some step since has changed it, of whatever kind |
| `ConfigRaces.OverlappingEditsRepeatVersion` | backend/app/devices/services.py:120-124 | two cadence edits that read the same row give one version two contents |
| `ConfigRaces.StaleReadRepeatsVersion` | backend/app/vehicle_profiles/services.py:159-175 | so does a profile edit committed between the read and the write of a cadence edit |
| `ConfigSync.ConfigurationStore.Load` | agent/internal/store/config.go:76-85 | the stored configuration if it is there and valid, an error otherwise |
| `ConfigSync.ConfigurationStore.InstallIfNewer` | agent/internal/store/config.go:87-106 | invalid and older answers are errors, an equal one returns what is stored, a newer one replaces it or, when the file cannot be written, leaves it |
| `ConfigSync.ValidIsTaken` | agent/internal/store/config.go:44-72 | a configuration is valid exactly under the conditions written out: version, intervals of a second to a day, profile and definition together and under one id, signals and computed metrics that a decoder can be built from |
| `ConfigSync.InstallIsExact` | agent/internal/store/config.go:87-106 | of valid configurations an older one is refused, an equal one gives the stored one, a newer one replaces it if the file can be written; nothing else changes the file |
| `ConfigSync.ValidCadenceIsBounded` | agent/internal/store/config.go:29-56 | a validated cadence is at least one second, at most a day, in use or parked, and at most the longest |
| `ConfigSync.ServedConfigIsValid` | agent/internal/store/config.go:44-72 | an agent accepts what a well-formed server serves exactly when the profile is not the empty string and every numeric mask is within half a last place of 2^1024 |
| `ConfigSync.AdmittedSignalsDecode` | backend/app/vehicle_profiles/schemas.py:8-54 | what the schema admits passes the checks of agent/internal/profile/decoder.go:98-125 exactly when its numeric masks are in reach |
| `ConfigSync.EmptyProfileIsServedInvalid` | backend/app/vehicles/routes.py:91-97 | the server accepts the empty profile, and the agent then refuses what it is served |
| `ConfigSync.HugeMaskIsServedInvalid` | backend/app/vehicle_profiles/schemas.py:24 | the server accepts a profile whose mask is the integer 2^1024, and the agent then refuses what it is served |
| `ConfigSync.ProfileReachesAgents` | backend/app/vehicle_profiles/services.py:115-175 | a profile edit reaches exactly the devices of the vehicles that use it, signal by signal and one version on |
| `ConfigSync.StoredIsWhatThatVersionServes` | agent/internal/store/config.go:87-106 | in every run a stored configuration is what the server serves that device in every state with that version |
| `ConfigSync.StoredVersionNeverFalls` | agent/internal/store/config.go:91-98 | no late, lost or repeated answer lowers a stored version |
| `ConfigSync.SyncMakesEqual` | agent/internal/store/config.go:87-106 | delivering the server's present answer makes agent and server equal, if the profile is acceptable |
| `JobStore.Database.RecoverExpiredLeases` | backend/app/jobs/services.py:16-34 | exactly the running jobs whose lease has run out fail, with their running executions |
| `JobStore.Database.ClaimJob` | backend/app/jobs/services.py:37-58 | after recovery the oldest claimable job becomes this worker's; none is claimed only if none is claimable |
| `JobStore.Database.FinishExecution` | backend/app/worker.py:89-115 | execution, hook state with its version, and job are settled together |
| `JobStore.Database.RecordFailure` | backend/app/worker.py:131-145 | the job fails, and its execution only if it had not ended |
| `JobStore.ClaimableIsExact` | backend/app/jobs/services.py:39-50 | a job may be claimed that waits and is due, unless it was locked within the last 180 seconds |
| `JobStore.RecoveryTouchesOnlyExpired` | backend/app/jobs/services.py:16-34 | recovery leaves every other job, every ended execution and every hook state alone |
| `JobOutcomes.CommitSettles` | backend/app/worker.py:89-115 | in every reachable state a commit makes the execution a success, timed out or failed as its child ended, its job completed and unlocked, stores a success's row and no other, and touches no other row |
| `JobOutcomes.RefusedCommitStoresNothing` | backend/app/worker.py:109-111 | a first state row that another worker has stored meanwhile makes the commit fail, and nothing is stored |
| `JobOutcomes.SuccessIsCommitted` | backend/app/worker.py:89-145 | in every run an execution is a success if and only if its update was committed; no recovery, exception or retry takes it back |
| `JobOutcomes.RecoveryIsExact` | backend/app/jobs/services.py:16-34 | a running job locked more than 180 seconds ago has failed, its execution too if it was running, and no other row has changed |
| `JobOutcomes.ClaimTakesExactly` | backend/app/jobs/services.py:37-58 | in every reachable state an idle worker can take exactly the waiting jobs, first the oldest; it is then locked by the worker from now on and tried once |
| `JobOutcomes.ReadGoesOnOrCompletes` | backend/app/worker.py:63-75 | a claimed job whose execution has ended is completed without a child, any other goes on to the lock of its hook |
| `JobOutcomes.StartRuns` | backend/app/worker.py:76-82 | a start makes the execution running and changes nothing else in the tables |
| `JobOutcomes.RecordedFailureFails` | backend/app/worker.py:131-145 | an exception fails the job, and the execution exactly if it is pending or running |
| `JobOutcomes.RetryStartsOver` | backend/app/hooks/routes.py:139-170 | a retry of a failed or timed-out execution adds another for the same hook and reading with a job due now, and changes no row |
| `HookWorkers.StepKeepsConsistent` | backend/app/worker.py:62-147 | each claim, wait, lock, start, end, commit, unlock, exception, crash and lost connection keeps who holds which job and lock consistent |
| `HookWorkers.ChildStartsAtMostOnce` | backend/app/worker.py:79-86 | in every run each execution's child is started at most once, and each execution has exactly one job |
| `HookWorkers.NoStepReturnsAJob` | backend/app/jobs/services.py:37-58 | no step makes a claimed job waiting again |
| `JobEnds.EndIsFinalExactly` | backend/app/worker.py:112-115 | in every reachable state a settled job keeps its status in every further run if and only if no worker has it with a commit still ahead |
| `JobEnds.OutlastedLeaseIsOverwritten` | backend/app/jobs/services.py:16-34 | a run exists in which a job failed by lease recovery is completed after all when its worker commits |
| `HookChildren.ChildrenOverlapExactly` | backend/app/worker.py:75-86 | in every run two children of a hook are alive together at some time if and only if one is started while another still runs whose worker crashed or lost its lock |
| `HookChildren.ChildrenOfOneHookExcludeEachOther` | backend/app/worker.py:26-36 | so they never are while no worker of the hook has crashed or lost its lock with its child running |
| `HookChildren.CrashLeavesTwoRunning` | backend/app/hooks/runtime.py:134-151 | a run exists in which a worker is killed and the hook's next child starts beside its child |
| `HookStateLaws.HolderUpdates` | backend/app/worker.py:101-111 | a commit by a lock holder is one more step of the fold, also when others have had the lock since but not committed |
| `HookStateLaws.StepStaysSerial` | backend/app/worker.py:75-130 | every step, of any kind and in any place, keeps each hook whose successes do not overlap equal to their fold |
| `HookStateLaws.StateIsFoldOfSuccesses` | backend/app/worker.py:75-130 | in every run, if no success of a hook had its child started while another was started and uncommitted, the state is the left fold of the successes in lock order and its version their number, whatever the hook's code does |
| `HookRecorders.RecordsAreCompleteExactly` | backend/app/worker.py:101-111 | in every run of hooks that record their successes, the stored list is all of them in lock order if and only if no two overlapped |
| `HookQuietRuns.QuietRunsKeepEveryUpdate` | backend/app/worker.py:36 | with no lock lost under a running child and no child started between an unlock and its commit, every state is the fold |
| `HookQuietRuns.JointUnlockKeepsEveryUpdate` | backend/app/worker.py:118-130 | with unlock and commit in one step and no lock lost under a running child, the fold holds in every run |
| `HookLosses.SplitUnlockLosesUpdate` | backend/app/worker.py:36 | a run exists in which a start between unlock and commit leaves one of two recorded successes out |
| `HookLosses.DroppedLockLosesUpdate` | backend/app/common/database.py:12 | a run exists, each unlock with its commit, in which a connection that dies under a running child does the same |
| `NmeaStream.NmeaProvider.Consume` | agent/internal/providers/nmea.go:256-275 | one read completes the sentences of pending bytes and read together, and at most 4096 bytes stay pending |
| `NmeaStream.CutAnywhere` | agent/internal/providers/nmea.go:256-275 | consuming a prefix and carrying its tail over completes the same sentences and leaves the same tail |
| `NmeaStream.ReadsMayCutAnywhere` | agent/internal/providers/nmea.go:256-275 | any cutting into reads that leaves no tail over 4096 bytes ends like one read of the whole |
| `NmeaStream.CutMatters` | agent/internal/providers/nmea.go:272-274 | the exact condition under which one cut makes no difference |
| `NmeaStream.ProviderStaysReady` | agent/internal/providers/nmea.go:166-168 | after every read the pending bytes hold no terminator and are at most 4096 |
| `NmeaStream.LinesAreConsumed` | agent/internal/providers/nmea.go:256-275 | of any lines ended by carriage returns and line feeds the ones that are not empty are handed over in order, and what follows stays pending up to 4096 bytes |
| `NmeaSentences.CheckSentence` | agent/internal/providers/nmea.go:285-299 | the loop accepts exactly what the checksum rule accepts |
| `NmeaSentences.ChecksumMeansFramed` | agent/internal/providers/nmea.go:285-299 | accepted means a dollar, a body without a star, a star and two digits that spell the XOR of the body |
| `NmeaReadings.ChecksumIsParity` | agent/internal/providers/nmea.go:285-299 | accepted means that the two digits spell the number with those bits set that oddly many bytes of the body have |
| `NmeaSentences.PrintedSentenceIsAccepted` | agent/internal/providers/nmea_test.go:108-114 | every body without a star printed with its checksum is accepted, whatever follows |
| `NmeaSentences.OneByteChangeIsRejected` | agent/internal/providers/nmea.go:294-298 | changing one body byte to another that is no star is always caught |
| `NmeaSentences.PrintedFieldsComeBack` | agent/internal/providers/nmea.go:16-25 | a sentence printed from fields without commas and stars passes the check and comes apart into those fields |
| `NmeaSentences.NmeaAccumulator.Consume` | agent/internal/providers/nmea.go:122-159 | the last fix after a sentence, and what is returned |
| `NmeaSentences.LastFixMeaning` | agent/internal/providers/nmea.go:122-159 | after any sentences the last fix has the latest valid coordinates, and each optional field the most recent value since the last jump or none |
| `NmeaSentences.LastFixAfterAnyReads` | agent/internal/providers/nmea.go:256-275 | the same of provider and accumulator together, however the reads cut the stream |
| `NmeaReadings.PrintedInBytes` | agent/internal/providers/nmea.go:16-25 | the printed sentence is a dollar, the fields with commas between, a star and two digits |
| `NmeaReadings.RmcSays` | agent/internal/providers/nmea.go:27-58 | a printed RMC sentence moves the last fix to the latitude of fields 3 and 4 and the longitude of fields 5 and 6, degrees and sixtieths with the sign of the letter, knots times 1.852, heading and time; if void or unreadable it says nothing |
| `NmeaReadings.GgaSays` | agent/internal/providers/nmea.go:59-93 | a printed GGA sentence does so of fields 2 to 5, with satellites, altitude and quality; without a fix or unreadable it says nothing |
| `NmeaReadings.GstSays` | agent/internal/providers/nmea.go:99-119 | a printed GST sentence gives the last fix the hypotenuse of fields 6 and 7 as accuracy, and without a last fix says nothing |
| `NmeaReadings.OthersSayNothing` | agent/internal/providers/nmea.go:94-96 | a sentence of any other type says nothing |
| `NmeaReadings.PaddingSaysNothing` | agent/internal/providers/nmea.go:17 | spaces around a sentence change nothing of what it says |
| `CanDecoder.DecodeValue` | agent/internal/profile/decoder.go:169-223 | the shift-or loop, the mask as text or as a rounded number, the shift and the sign fill in a 64-bit word answer what the number the bytes stand for says |
| `CanDecoder.ReadWord` | agent/internal/profile/decoder.go:190-199 | the loop reads the number that the bytes spell, in either order |
| `CanDecoder.ExtendSign` | agent/internal/profile/decoder.go:211-219 | the sign test and fill give the two's complement for every width up to the whole word |
| `CanDecoder.EncodedFieldIsRead` | agent/internal/profile/decoder.go:169-223 | any number in range, written in any width from one to eight, either order, anywhere in a payload, is read back |
| `CanDecoder.ReadFieldIsEncoded` | agent/internal/profile/decoder.go:169-223 | what is read is in range, and encoding it gives the addressed bytes |
| `CanDecoder.OneByteKinds` | agent/internal/profile/decoder.go:15-21 | a uint8 is its byte, an int8 is 256 less from 128 on, in both decoders |
| `CanDecoder.TwoByteKinds` | agent/internal/profile/decoder.go:15-21 | a uint16 is 256 times one byte and the other, the first byte the higher when big-endian, an int16 65536 less from 32768 on |
| `CanDecoder.FourByteKinds` | agent/internal/profile/decoder.go:15-21 | a uint32 and an int32 in the same way from four bytes |
| `CanDecoder.ByteFields` | agent/internal/profile/decoder.go:182-187 | a byte field is the number of as many bytes as its definition says, one to eight |
| `CanDecoder.EveryKindRoundTrips` | agent/internal/profile/decoder.go:169-223 | every number of a kind's range, written out, is read back by both decoders |
| `CanDecoder.ShortPayloadIsRefused` | agent/internal/profile/decoder.go:185-187 | a payload that ends within the field is refused by both |
| `CanDecoder.FlagIsOneBit` | agent/internal/profile/decoder.go:174-179 | a flag is one bit of one byte, counted from the lowest; a bit or byte that is not there is refused |
| `CanDecoder.MaskedAndShifted` | agent/internal/profile/decoder.go:200-210 | of an unsigned field each binary digit of the answer is the digit `shift` places higher, where the mask has one |
| `CanDecoder.LittleIsReversedBig` | agent/internal/profile/decoder.go:191-198 | little-endian is big-endian of the reversed field, masked, shifted and refused alike |
| `Masks.AcceptedTextsReadAlike` | agent/internal/profile/decoder.go:256-257 | of the texts Go accepts, Python reads differently exactly those with a zero in front of a number, and zeros too long for it |
| `Masks.RefusedTexts` | agent/vehicle_agent/profile_decoder.py:84-87 | of the texts Python accepts, Go refuses exactly those with a sign, with space around them or over 64 bits, and reads the rest alike |
| `Masks.NumbersReadAlike` | agent/internal/profile/decoder.go:254-255 | a number means the same to both, on every machine, if and only if a 64-bit word and a 64-bit float both hold it |
| `Masks.RefusedNumbers` | agent/internal/profile/decoder.go:50 | the agent cannot read exactly the integers from half a last place below 2^1024 on, of either sign |
| `MaskTexts.PrefixedTextsMean` | agent/internal/profile/decoder.go:256-257 | a text after 0x, 0o or 0b is the number its digits spell in that base, for both, in Go below 2^64 |
| `MaskTexts.DecimalTextsMean` | agent/internal/profile/decoder.go:256-257 | a decimal text without a leading zero is the number its digits spell, in Python up to 4300 digits |
| `MaskTexts.ZeroLedTextsMean` | agent/vehicle_agent/profile_decoder.py:84-87 | after a leading zero Go reads octal and Python only zeros |
| `MaskTexts.SignedTextsMean` | agent/vehicle_agent/profile_decoder.py:84-87 | a sign is taken by Python and refused by Go |
| `MaskTexts.PaddedTextsMean` | agent/vehicle_agent/profile_decoder.py:84-87 | so are spaces around |
| `CanDecoder.DecodersAgree` | agent/vehicle_agent/profile_decoder.py:62-90 | on every payload the two decoders answer alike if and only if both refuse the field, or both read it and their masks agree on the set bits the shift leaves and, for a negative field, above it |
| `CanDecoder.DecodersAlwaysAgree` | agent/vehicle_agent/profile_decoder.py:62-90 | they answer alike on all payloads if and only if the two masks have the same bits where the field has any and, for a signed field, above it the sign that Go fills in |
| `CanDecoder.NumbersAgree` | agent/vehicle_agent/profile_decoder.py:83-89 | masking and shifting any field, under any two masks, gives the same number in a word and in an unbounded integer if and only if the masks agree on it bit by bit |
| `CanDecoder.UsualFieldsAgree` | agent/vehicle_agent/profile_decoder.py:62-90 | unsigned fields of a stated width agree under every shift and every mask that a word and a float hold, signed ones with neither |
| `CanDecoder.SignedShiftDiffers` | agent/internal/profile/decoder.go:207-216 | a signed byte 0x80 shifted by one is 64 in Go and -64 in Python |
| `CanDecoder.LargeNumberMaskDiffers` | agent/internal/profile/decoder.go:248-255 | under the number 2^53 + 1 as a mask an eight-byte one is 0 in Go and 1 in Python |
| `CanText.Read` | agent/internal/capture/capture.go:47-92 | the frames of the lines after a proper header in order, other lines skipped, nothing when any line is invalid |
| `CanText.CaptureRoundTrip` | agent/internal/capture/capture.go:28-92 | reading what was recorded gives the frames if every id fits 32 bits and every payload 8 bytes, and fails otherwise |
| `FrameTexts.CaptureMeans` | agent/internal/capture/capture.go:47-92 | a file is read exactly when its first line names format and version and no later line is bad, and then gives its frame lines one by one |
| `FrameTexts.LineMeans` | agent/internal/capture/capture.go:82-89 | a line is this frame exactly when its data spells at most eight bytes, two hexadecimal digits each, and its identifier, after 0x or not, is a 32-bit number |
| `FrameTexts.RecordedLine` | agent/internal/capture/capture.go:28-30 | a recorded line has the frame's time, its identifier after 0x, and two digits for each byte |
| `FrameTexts.PrintedNumber` | agent/internal/capture/capture.go:28-30 | an identifier is printed in upper case with zeros up to the width and none beyond |
| `CanText.SpacedFrameParses` | agent/internal/providers/obd.go:294-329 | a frame printed with any padding, any spaces and colons, with or without its length digit, is parsed back, except an empty frame without one |
| `CanText.WrongLengthIsRefused` | agent/internal/providers/obd.go:322-324 | a length digit that disagrees with the data is refused |
| `CanText.CompactFrameParses` | agent/internal/providers/obd.go:15 | without separators a three-digit identifier with data is parsed back, one without data and an eight-digit one always refused |
| `Activity.ActivityDetector.Observe` | agent/internal/runtime/activity.go:69-93 | verdict, source, last evidence and anchor after one sample |
| `Activity.ActivityDetector.Look` | agent/internal/runtime/activity.go:95-128 | the loop and the checks after it give the strongest evidence, a stated readiness deciding alone |
| `Activity.EvidenceIsExact` | agent/internal/runtime/activity.go:95-143 | a readiness signal decides alone, the vehicle's before the charger's; without one a turning engine is evidence, then 3 km/h by vehicle or receiver, then 60 m from the anchor, and nothing else |
| `Activity.VerdictIsExact` | agent/internal/runtime/activity.go:69-93 | in use means evidence now or less than the grace period ago, three minutes unless set, and the source says which |
| `Activity.MemoryIsExact` | agent/internal/runtime/activity.go:71-81 | the time of the last evidence and the anchor that are remembered |
| `Activity.InUseMeansRecentEvidence` | agent/internal/runtime/activity.go:78-92 | with a clock that never goes back, in use exactly when some sample so far had evidence less than a grace period ago |
| `Activity.AnchorMeaning` | agent/internal/runtime/activity.go:71-77 | the anchor is where the latest positioned sample was that had evidence or was the first |
| `Activity.SlowDriftStaysNear` | agent/internal/runtime/activity.go:119-126 | through any stretch without evidence every positioned sample without a readiness signal is under 60 m from one place |
| `Jpeg.JpegDimensions` | backend/app/vehicles/photos.py:26-67 | the loop answers what the walk over marker segments answers, reading nothing out of range |
| `Jpeg.FrameHeaderIsFound` | backend/app/vehicles/photos.py:46-67 | after any number of other segments and fill bytes the first frame header's width and height are found, whatever follows |
| `Jpeg.FoundIsSpelled` | backend/app/vehicles/photos.py:46-67 | dimensions are found only from such a frame header |
| `Jpeg.DimensionsAreTheFrames` | backend/app/vehicles/photos.py:26-67 | a picture has these dimensions if and only if its header spells them |
| `Jpeg.FrameInNumbers` | backend/app/vehicles/photos.py:46-67 | a frame header in numbers: fill bytes, one of the thirteen markers, a length, and the height before the width, each 256 times its first byte and its second |
| `Jpeg.WrittenPictureIsMeasured` | backend/app/vehicles/photos.py:26-67 | a picture written byte by byte, with any segments, markers and fill before its frame header and anything after, has the dimensions written there |
| `History.GetHistory` | backend/app/history/routes.py:95-140 | an empty interval is refused; otherwise the sampled rows and the appended last one are every stride-th reading and the last |
| `History.SelectedIsEveryNth` | backend/app/history/routes.py:115-132 | selecting by id from the numbered subquery gives every stride-th matching reading in order |
| `History.ThinnedFits` | backend/app/history/routes.py:113-114 | at most one point more than asked for, however many readings there are |
| `History.ThinnedKeepsEnds` | backend/app/history/routes.py:133-140 | the first and the last reading are always there |
| `History.ThinnedKeepsOrder` | backend/app/history/routes.py:126-132 | points are matching readings in strict order of time and id |
| `History.ThinnedSkipsLittle` | backend/app/history/routes.py:114-124 | neighbouring points are at most a stride apart |
| `History.FewReadingsAreKept` | backend/app/history/routes.py:113-114 | when no more readings match than were asked for, all are returned |
| `History.PointsAreAsked` | backend/app/history/routes.py:108-132 | points are rows of this vehicle within the time asked for, both ends included, oldest first and by id at one time; none only when there are none |
| `History.EndsAreKept` | backend/app/history/routes.py:133-140 | no such row is older than the first point or newer than the last |
| `History.GapsAreEvenAndSmall` | backend/app/history/routes.py:113-124 | between neighbouring points lies the same number of rows, before the last at most that, and to skip one fewer would make more steps than points were asked for |
| `UserAdmin.Database.OtherActiveAdminExists` | backend/app/users/services.py:17-21 | whether an active administrator other than this account exists |
| `UserAdmin.Database.SetAdmin` | backend/app/users/services.py:35-43 | the flag changes unless that demotes the last active administrator |
| `UserAdmin.Database.SetActive` | backend/app/users/services.py:46-49 | the flag changes unless that suspends the last active administrator |
| `UserAdmin.Database.DeleteUser` | backend/app/users/services.py:52-55 | the account and its sign-on subjects go unless it is the last active administrator |
| `UserAdmin.Database.UpdateAccount` | backend/app/users/routes.py:69-90 | both changes or neither, only by an active administrator, never on one's own access |
| `UserAdmin.Database.RemoveAccount` | backend/app/users/routes.py:93-104 | only by an active administrator, never oneself |
| `UserAdmin.Database.CreateLocalUser` | backend/app/auth/services.py:66-98 | an active account with an unused email, or nothing |
| `UserAdmin.Database.RegisterFirstLocalAdmin` | backend/app/auth/services.py:101-109 | an administrator, only without sign-on and without any account |
| `UserAdmin.Database.BootstrapLocalAdmin` | backend/app/auth/services.py:112-118 | an administrator, only without any account |
| `UserAdmin.Database.FinishLogin` | backend/app/auth/oidc.py:117-161 | an active account's flag follows its groups, except that a refused demotion is skipped |
| `UserAdmin.Database.Login` | backend/app/auth/oidc.py:164-198 | a known subject, an account with the email, or a provisioned one; nothing stays behind when refused |
| `UserAdmin.NextIsValid` | backend/app/users/models.py:16 | every request keeps emails unique and every subject with an account |
| `UserAdmin.AnAdministratorRemains` | backend/app/users/services.py:24-32 | once an active administrator exists every run keeps one, and registration and bootstrap never succeed again |
| `UserAdmin.GuardIsExact` | backend/app/users/services.py:24-55 | while one exists, a change is refused if and only if it would leave none |
| `UserAdmin.FlagChangeIsExact` | backend/app/users/services.py:24-49 | an allowed change sets that flag of that account and leaves every other field and account; it is refused exactly to the last account that may administer |
| `UserAdmin.UpdateIsExact` | backend/app/users/routes.py:69-90 | an update is allowed exactly to an active administrator, on oneself only if nothing is taken away, and leaves both flags as asked and all else as it was |
| `UserAdmin.RemovalIsExact` | backend/app/users/routes.py:93-104 | a removal is allowed exactly to an active administrator on another account, which goes with its own sign-on subjects only |
| `UserAdmin.CreationIsExact` | backend/app/auth/services.py:66-118 | an account is created exactly with a name of 1 to 120 and a password of 12 to 256 characters and an unused email, by an administrator or as the first account |
| `UserAdmin.SignInIsExact` | backend/app/auth/oidc.py:117-198 | a sign-on succeeds exactly for the active account of its subject or email, or a new one if these may be provisioned, and leaves that account, its rights mapped, and all others as they were |
| `AdminRaces.CommitIsSafeExactly` | backend/app/users/services.py:17-55 | after any run of overlapping guarded changes of which none was committed after an administrator had been lost since its guard, there is one, and committing one more keeps one if and only if its target is not by then the only one |
| `AdminRaces.MutualDemotionLeavesNone` | backend/app/users/services.py:35-43 | two administrators who demote each other at once leave none |
| `UserAdmin.FirstAccountDecides` | backend/app/auth/oidc.py:181-188 | the first account is an active administrator unless sign-on provisioned it outside the administrator group |
| `UserAdmin.WithoutGroupNobodyAdministers` | backend/app/auth/services.py:101-118 | and then, without such a group, no run ever has one |

## Left out

Simplifications of what is modelled:

- Database transactions are one step each, one after another, but for those that the code itself splits or whose reads may be old: a hook job, an edit of a device's settings and a guarded account change. Row locks, autoflush and the object cache of the database library are not modelled otherwise; the session's copy of a hook's row is either the one it read before or a new one.
- Every configuration edit but that of a device's settings is one step, so a profile edit that misses a vehicle assigned at the same moment is not shown; nor is an answer whose version and profile were read in two transactions.
- A hook's connection is lost only while its child runs, which is when it is idle; a loss at another point is an exception or a crash.
- Identifiers are opaque numbers and new ones are never repeated, as for random UUIDs; an insert of a sample fails only because its id is stored.
- `reset_vehicle_telemetry` and device deletion, which remove readings and forget ids, are not part of the delivery model.
- One enrolment per device: a new enrolment is another device, starting at version one.
- Enrolment tokens, credentials, sessions, password hashing, cross-site checks and the token exchange of single sign-on are outside the model; a request is made by an account that is or is not an active administrator.
- Clocks, random ids, measured distances and readings are parameters of the steps that use them.
- Hook source, redaction, time limits and logs: a child's outcome is any outcome. A hook's state is a list of numbers that its code may map to any other.
- HookWorkers.KeyOf: the 32-bit hash of a hook's id is a fixed function; only that it has few values, so that hooks may share a lock, matters.
- Upload stops at a batch the server rejects as invalid; nothing here says that uploads go on.
- JSON encoding, file writes in parts and, but for bit masks, number formats are not modelled: rows, lines and configurations are typed records.

Members stated weaker or narrower than the source:

- EnrollDevice: an enrolment whose token is good; token expiry and refusals are left out.
- DecodeValue: the raw value before scale, offset, limits and enumeration, as an integer rather than a rounded float; for definitions that came as JSON, so a number is a float, and a definition with a number that no float is near to is refused as a whole.
- DecodersAgree: what a float outside the word converts to differs between machines and is a parameter; mask texts are of ASCII characters, and Python's limit of 4300 decimal digits is its default.
- PythonRaw: for definitions the profile schema admits; a missing optional key takes the decoder's default, and any error is a refusal.
- ServedConfigIsValid: scale, offset and enumeration, and a signal's unit and bounds, are opaque numbers that reach the agent unchanged.
- CommitIsSafeExactly: whether the account that asks may administer is not checked again; any target may be guarded at any time.
- ParseNmea: number and date parsing and the hypotenuse are parameters, and trimming is that of ASCII.
- Consume: the time at which the last fix was consumed, which only ages it, is not kept.
- ParseCanFrame: fields are split at ASCII white space.
- Observe: the distance is any function of two positions, so the trigonometry is not modelled.
- IngestBatch: the device's last-seen time is not kept.
- JpegDimensions: markers without a segment other than the start and end of image are taken to have one, as the source does.
- CeilDiv: exact, where the source divides floats, which agrees for every count below 2^53.

Not modelled because it would only add easy members or is another matter:

- `DecoderEngine.Decode`, computed metrics, `validate_photo` with its PNG and WebP headers, history filters and statistics, and the OBD, VIN and fault-code parsers.
- The Python agent's queue, which does not continue its sequence, and its capture replay, whose line parser can take data for a length.
- Serial ports, sleeps, HTTP, TLS, service management, probes and timeouts.
- Vehicle access grants, default access, audit, dashboards, translations and everything in the browser.
