# Durable results, prompts, cache and worker of tkr-cloud-video, modelled and proved in Dafny

The service turns a structured prompt into a video on a rented worker and stores the result in
an object store that a reaper cleans. This project models five of its parts and proves what
they promise over all inputs, runs and interleavings.

* **Durable results** (`Keys`, `Policy`, `Retention`, `RetentionLaws`, `SubjectRequests`,
  `Results`, `ResultLaws`, `UploadLaws`, `FaultLaws`, `Durability`, `OverlapRuns`, `Submission`,
  `SubmitRuns`). Uploads and commits are step machines of one store call a step, so that any
  number of them interleave with the sweeps of the reaper; the imperative classes run one machine
  from start to end, and `UploadLaws` and `FaultLaws` say how it ends. `Durability` holds the
  theorem over whole runs, `OverlapRuns` the runs that show its exclusion to be needed,
  `Submission` the lock table of concurrent submits and `SubmitRuns` what one submit comes to.
* **Prompts** (`Grammar`, `Prompts`, `Validation`, `Containment`, `CutTimes`, `Render`, and the
  laws in `CheckLaws`, `SpeakerLaws`, `TimelineLaws`, `Scanner`, `Pieces`, `DialogueLaws`,
  `ReadbackLaws`, `Readings`, `AcceptedReadback`, `RenderLaws`, `PlacesLaws`, `CountLaws`,
  `HeaderLaws`, `SectionLaws`, `ShotLaws`). A typed prompt is composed, validated, contained and
  rendered to wire text. `CheckLaws` states acceptance on the fields. `HeaderLaws`, `SectionLaws`
  and `ShotLaws` hold readers that know the words of the wire text and nothing of the renderer,
  and prove what they get back. `Scanner` gives the reader of the dialogue and says how it sees
  concatenated text; `Pieces` spells the wire text in gaps, mentions and utterances,
  `ReadbackLaws` decides when its dialogue reads back and `AcceptedReadback` asks that of the
  fields, `PlacesLaws` says where each caller text stands and `CountLaws` how often.
* **Artifacts** (`Cache`, `CacheRuns`, `Catalog`, `PublishLaws`). The bounded content-addressed
  cache, alone and under interleaved use, and the publish-last catalog beside other publishers;
  `PublishLaws` and `FaultLaws` say how a publication and a resolution end.
* **Worker** (`Worker`). The lifecycle, the supervisor that drives it, and the serving gate.
* **Jobs** (`Envelope`, `Executor`). Default dimensions and bounds of a request, and the polling
  of one submitted prompt.

`Prelude`, `Text`, `Decimal` and `Ordering` hold what they share. `dafny verify dfyconfig.toml`
checks everything.

## Conventions

* Where the source accumulates in a loop or updates an object, the model does too, as a method
  or a class proved against a specification function; the laws are about that function.
* A provider call is answered, is lost before it takes effect, or takes effect and loses its
  reply. A process that dies takes no further step.
* `put` creates or raises, and never overwrites, as its port promises. Hashing, canonical JSON
  and its parser are arbitrary functions; a law that needs more of them says so in its premises.
* Times are whole units or reals, never floats; rounding half to even is written out.
* Awaited steps may be cancelled; a cancellation is no `Exception` and passes the handlers.

## Where the code and its words differ

* The reaper deletes the marker last so that a resumed sweep derives the same class. It also
  deletes past refusals, so a refused object with a deleted marker flips the class
  (`RefusalFlipsTheClass`), and a resumed sweep can judge by a later date (`ResumeCanWait`).
* Containment with the verbatim check is said to make the caller's words appear exactly once.
  The check asks for at least one occurrence and can never fail (`VerbatimNeverFails`); the words
  can appear again where the service writes them (`MentionedOnceFoundTwice`). They appear as often
  as they are mentioned exactly when `WordsCountExactly` says; what always holds is that
  each mention has a place of its own that no grammar token touches (`EveryMentionIsUntouched`).
* Validation reads delimiters in descriptions and identities only. Sound sections, definitions,
  summary, retention text and language tags can carry them past all fourteen checks
  (`UncheckedSoundscapeSpeaks`); `AcceptedDialogueRoundTrip` says exactly when that matters.
* Strictly increasing cuts can print alike (`OneMillisecondApartCanPrintAlike`), and the opening
  shot's window is empty when the first cut is at zero (`ShotsTileTheClip`).
* Describing a record reads any key that ends like the marker as the marker; the reaper asks for
  the exact key (`StrayMarkerNameMisleads`).
* A passing drift check does not mean that inputs are hidden as declared
  (`RepeatedPrefixHidesDrift`); `NoDriftHidesAsDeclaredExactly` says when it does.
* Erasing leaves the marker for last so that an interrupted erasure still reads as committed; a
  subject who names the marker among the inputs undoes that (`InterruptedErasureExactly`).
* A lease protects a blob from eviction; a hydration that names another size unlinks it all the
  same (`LeaseDoesNotShield`).
* Publishing compares declared digest and size of a manifest it finds; resolving hashes the bytes
  (`ResolvesExactlyWhen`).
* The titles of the sections can be forged by what the service writes of the sounds, the timeline
  and the references; `SectionsReadBack` says exactly when a reader is misled.
* No production path calls `ensure_capacity`.

## Model

| member | source | states |
|---|---|---|
| `Durability.CommittedStaysWhole` | src/tkr_cloud_video/delivery/reconciler.py:123-205 | Over every run that interleaves uploads, commits and sweeps with failed heads, refused deletes and dying processes: if no delete that takes effect hits an object that a commit under way has checked, or the marker or an artifact of a marker made after that sweep listed, save one made before the sweep read it with nothing of the namespace deleted in between, then each commit that reported a new marker has a record, and each recorded attempt keeps its marker and every listed artifact, unchanged, until the deliverable period after its oldest upload at the commit |
| `Durability.OverlapBreaksTheCommit` | src/tkr_cloud_video/delivery/reconciler.py:188-205 | From every state of the invariant in which a sweep may delete an artifact while the marker is put, the put and that delete leave a marker over a broken attempt |
| `OverlapRuns.PendingOverlap` | src/tkr_cloud_video/delivery/reconciler.py:152-186 | Such a state is reached, for every policy and attempt, by a run that keeps the exclusion at every step |
| `OverlapRuns.CommitAfterReadIsLost` | src/tkr_cloud_video/delivery/reconciler.py:176-205 | Markers made after the sweep's read must be excluded: for every policy that keeps failed attempts shorter, a run that breaks the exclusion in its last delete alone loses an artifact of a commit whose period is not over |
| `OverlapRuns.CommitAfterDeletionIsLost` | src/tkr_cloud_video/delivery/reconciler.py:152-186 | So must markers made before the read, over a namespace deleted from since the listing: for every policy a run that breaks the exclusion in its last delete alone loses such a commit too |
| `OverlapRuns.CommitOverDeletionIsHollow` | src/tkr_cloud_video/delivery/commit.py:17-50 | And so must objects a commit under way has checked: a run that breaks the exclusion in one delete alone, and then puts the marker, ends with a commit that reports success while an artifact it lists is gone |
| `Durability.MarkersAreBackedAndAgreed` | src/tkr_cloud_video/delivery/commit.py:17-50 | While nothing is deleted, from any store, under every interleaving and failure, a marker that was not there before stands over artifacts held with the size, digest and version it records, and all commit calls that returned for one key, True or False, agree on the exact bytes of its marker, new or old |
| `Durability.StepKeeps` | src/tkr_cloud_video/delivery/reconciler.py:123-205 | Every single store call of an uploader, committer or sweep keeps the invariant behind the two run theorems |
| `ResultLaws.CommitIsAllOrNothing` | src/tkr_cloud_video/delivery/commit.py:17-50 | Whatever fails around it, one commit either leaves the store alone or adds the exact marker over artifacts that all hold; it reports success only when those bytes are stored, and never reaches its last verification error |
| `ResultLaws.CommitExact` | src/tkr_cloud_video/delivery/commit.py:19-50 | Without faults the four outcomes (conflict, accepted retry, missing evidence, new marker) are decided by the store as stated |
| `Results.ResultCommitter.Commit` | src/tkr_cloud_video/delivery/commit.py:17-50 | The imperative loop is the step machine the laws are about, run alone |
| `ResultLaws.UploadVerified` | src/tkr_cloud_video/delivery/uploader.py:56-88 | An upload only adds objects; when it returns, every artifact of every role is stored byte for byte as the local one, with the recorded evidence |
| `ResultLaws.UploadIsIdempotent` | src/tkr_cloud_video/delivery/uploader.py:71-88 | Uploading again on any store that only grew returns the same evidence and stores nothing |
| `ResultLaws.UploadThenCommit` | src/tkr_cloud_video/application.py:160-174 | The evidence an upload returned is what a commit asks for: on any later store without the marker a faultless commit of it succeeds |
| `UploadLaws.UploadEndsExactly` | src/tkr_cloud_video/delivery/uploader.py:56-88 | How every faultless upload ends, decided by the files and the store before it: it returns exactly when every role is brought and every file is as recorded, not empty, agrees with what is stored for its role and gets an identifier as version, with one evidence entry an artifact and just the missing role objects stored; else it raises what is wrong with the first artifact, or at once that a role is missing |
| `FaultLaws.CommitFaultsExactly` | src/tkr_cloud_video/delivery/commit.py:17-50 | A commit by itself ends in a store failure exactly when one of the calls it made failed |
| `FaultLaws.UploadFaultsExactly` | src/tkr_cloud_video/delivery/uploader.py:56-88 | So does an upload |
| `Results.VerifiedUploader.Upload` | src/tkr_cloud_video/delivery/uploader.py:56-88 | The imperative loop is the upload step machine, run alone |
| `Retention.RetentionReconciler.Run` | src/tkr_cloud_video/delivery/reconciler.py:102-150 | Report and remaining store are functions of what was stored and which calls failed: neither listing order nor deletion order shows in them |
| `Retention.RetentionReconciler.Attempts` | src/tkr_cloud_video/delivery/reconciler.py:152-174 | Attempts come in name order, one a namespace, each with exactly its keys, its oldest date and the class its marker reads as |
| `Retention.RetentionReconciler.DeleteAttempt` | src/tkr_cloud_video/delivery/reconciler.py:188-205 | After any number of deletes the store is the fold of that prefix of the marker-last order; removed and errors count it |
| `Retention.DeleteOrderExact` | src/tkr_cloud_video/delivery/reconciler.py:192-197 | The deletion order holds each object once and visits no unmarked key after a key named like the marker |
| `Retention.GroupDescribes` | src/tkr_cloud_video/delivery/reconciler.py:155-173 | The group of a namespace holds exactly its listed keys and is dated by its oldest object |
| `Keys.AttemptPrefixExact` | src/tkr_cloud_video/delivery/reconciler.py:208-215 | A key is grouped under a prefix exactly when that prefix is a job and attempt namespace the key starts with |
| `RetentionLaws.AttemptsPartitionKeys` | src/tkr_cloud_video/delivery/reconciler.py:155-161 | Every output key of four or more segments lies in exactly one attempt, no other key in any |
| `RetentionLaws.SweepAccounting` | src/tkr_cloud_video/delivery/reconciler.py:123-150 | Evaluated is expired plus skipped; deleted plus failures is all objects of expired attempts; counts hold class by class; the three class lists together are exactly the enforced set; the store left is what was not deleted |
| `RetentionLaws.SweepRemovesExactly` | src/tkr_cloud_video/delivery/reconciler.py:123-205 | Of every stored object: a sweep takes it away exactly when it is no dry run, the delete is not refused, and its attempt holds an object as old, in microseconds, as the days declared for its class, a deliverable when the marker is stored or cannot be headed |
| `RetentionLaws.DryRunPredicts` | src/tkr_cloud_video/delivery/reconciler.py:132-137 | A dry run deletes nothing and reports what a real sweep reports when no delete fails |
| `RetentionLaws.CrashKeepsTheClass` | src/tkr_cloud_video/delivery/reconciler.py:188-205 | After a death at any point of unrefused deletes the marker outlives every key not named like it, so a resumed sweep derives the same class |
| `RetentionLaws.RefusalFlipsTheClass` | src/tkr_cloud_video/delivery/reconciler.py:198-204 | A complete pass turns a committed attempt into a failed one exactly when the marker goes while some other object is refused, although the comment above the loop promises one class |
| `RetentionLaws.DeletionRedates` | src/tkr_cloud_video/delivery/reconciler.py:167-170 | Deleting objects never makes an attempt older; its date stays exactly while an object of the oldest date is left |
| `RetentionLaws.ResumeCanWait` | src/tkr_cloud_video/delivery/reconciler.py:167-205 | A resumed sweep can keep what the one that died was deleting: same class, later date |
| `SubjectRequests.SubjectRequestService.Describe` | src/tkr_cloud_video/delivery/subject_requests.py:73-123 | Nothing for a stranger or an absent record, an error when the store is unreachable, otherwise identity, fields and expiry of the record |
| `SubjectRequests.ReportedInDeclaredDays` | src/tkr_cloud_video/delivery/subject_requests.py:73-123 | The expiry a subject is told is the declared days of the class read, from the oldest object of the record |
| `SubjectRequests.SubjectRequestService.Erase` | src/tkr_cloud_video/delivery/subject_requests.py:125-178 | An erasure deletes named inputs, then outputs with the marker last; one that dies has deleted a first part of that order and answers nothing; one that does not leaves exactly the refused keys, and its receipt is complete exactly when no delete raised, and names exactly the fields erased and unreachable, each once |
| `SubjectRequests.FieldExactly` | src/tkr_cloud_video/delivery/subject_requests.py:200-206 | A key under inputs/ is reported as an input, one that ends in generation.bin as the prompt, any other as the video; so are the three role objects of every attempt |
| `SubjectRequests.InterruptedErasureExactly` | src/tkr_cloud_video/delivery/subject_requests.py:157-171 | An erasure that dies anywhere leaves a record that reads as committed exactly when the marker is not among the named inputs or everything else of the record is named before it |
| `SubjectRequests.DescribeAgreesWithSweep` | src/tkr_cloud_video/delivery/subject_requests.py:96-122 | On a namespace whose only key named like the marker is the marker, and whose head succeeds, the described expiry has passed at t exactly when a sweep at t would expire the attempt |
| `SubjectRequests.AgreementExact` | src/tkr_cloud_video/delivery/subject_requests.py:96-122 | In general the two agree at every instant exactly when both read a class of the same period |
| `SubjectRequests.StrayMarkerNameMisleads` | src/tkr_cloud_video/delivery/subject_requests.py:96-122 | A stray key ending like the marker makes the subject be told a later expiry than the sweep acts on |
| `Keys.IdentityNamespace` | src/tkr_cloud_video/delivery/subject_requests.py:181-197 | Different digests never share a namespace, and no identity holds a slash |
| `Policy.PeriodIsTheDeclaredOne` | src/tkr_cloud_video/delivery/lifecycle.py:79-115 | An accepted policy declares every class exactly once, within bounds, and the period looked up is the declared one |
| `Policy.ExpiresWhenDeclared` | src/tkr_cloud_video/delivery/lifecycle.py:101-135 | A class declared at d days expires exactly d times 86,400,000,000 microseconds after the item was written |
| `Policy.DeclaredExactly` | src/tkr_cloud_video/delivery/lifecycle.py:62-99 | A declaration is accepted exactly when every period is between 1 and 3650 days and each of the seven classes has exactly one rule; a period out of range is refused first and by the first such rule, then a missing class, then a repeated one |
| `Policy.OverlapIsACommonKey` | src/tkr_cloud_video/delivery/lifecycle_rules.py:145-148 | Two prefixes overlap exactly when some object key matches both |
| `Policy.AcceptedExactlyWhenUnambiguous` | src/tkr_cloud_video/delivery/lifecycle_rules.py:121-143 | Conflict rejection accepts exactly the rule sets under which no key sees two hiding periods |
| `Policy.AcceptedRulesStateThePeriod` | src/tkr_cloud_video/delivery/lifecycle_rules.py:121-143 | In an accepted set the smallest-value resolution gives a key d days exactly when some matching rule states d |
| `Policy.ProjectionHidesInputsOnly` | src/tkr_cloud_video/delivery/lifecycle_rules.py:78-119 | Every valid policy projects without error, hides inputs/ keys on their declared day and never hides any other key |
| `Policy.ProjectionResolves` | src/tkr_cloud_video/delivery/lifecycle_rules.py:78-120 | What each of the three bucket periods comes to for every key, in declared days: inputs are hidden on their day and erased a day later, hidden versions of everything else after their days, and unfinished uploads cancelled after theirs |
| `Policy.NoDriftMeansSameRules` | src/tkr_cloud_video/delivery/lifecycle_rules.py:167-205 | No drift is reported exactly when for every prefix the last rule of both sides is the same; with one rule a prefix on both sides, exactly when both hold the same rules |
| `Policy.DriftNames` | src/tkr_cloud_video/delivery/lifecycle_rules.py:167-205 | What a failed check names: every declared prefix not in force, else every one in force and not declared, in order, else the first whose last rules differ |
| `Policy.NoDriftHidesAsDeclaredExactly` | src/tkr_cloud_video/delivery/lifecycle_rules.py:167-205 | When the drift check passes, every key is hidden on its declared day exactly when no rule in force, superseded ones included, hides sooner than declared at its own prefix |
| `Policy.NoDriftKeepsPeriodsExactly` | src/tkr_cloud_video/delivery/lifecycle_rules.py:167-205 | The same for each of the three periods a rule can state |
| `Policy.SameHidingExactly` | src/tkr_cloud_video/delivery/lifecycle_rules.py:1-15 | Under smallest-value resolution two rule sets hide every key on the same day exactly when neither holds a rule that hides sooner than the other does at that rule's prefix |
| `Policy.RepeatedPrefixHidesDrift` | src/tkr_cloud_video/delivery/lifecycle_rules.py:167-205 | A bucket with two rules on one prefix can pass the drift check while inputs are hidden earlier than declared |
| `Submission.DuplicatesConverge` | src/tkr_cloud_video/application.py:67-80 | Over any concurrent submits of one process without deletions: two executions of one request never overlap, at most one submit created the marker, and each that returned names its request's job and commit key with the marker stored |
| `Submission.MarkerSettlesTheRequest` | src/tkr_cloud_video/application.py:67-80 | Once the marker of a request is stored, in every run from there each of its submits that is not executing by then, or arrives later, never executes and never answers by having made the marker; the marker stays |
| `SubmitRuns.LoneSubmit` | src/tkr_cloud_video/application.py:67-174 | The service does answer: from every state with the request's lock free, the faultless run of one submit exists and ends by what is stored. A stored marker answers it and nothing is stored; else, exactly when its artifacts are fit for upload, it answers with the marker it made, which holds the canonical bytes of a manifest over what is then stored; else it fails and makes no marker. The lock is let go in any case |
| `Submission.RequestsDoNotCollide` | src/tkr_cloud_video/application.py:201-210 | Two requests share a commit key exactly when their identity digests are equal |
| `Keys.ListedKeyAddressesListedObject` | src/tkr_cloud_video/adapters/rclone.py:330-391 | A listed key addresses the listed object exactly when the credential's base prefix does not straddle listing prefix and path |
| `Keys.ListedKeyCanMissItsObject` | src/tkr_cloud_video/adapters/rclone.py:330-391 | A base prefix longer than the listed one makes a listed key address another object |
| `ReadbackLaws.DialogueReadsBackExactly` | src/tkr_cloud_video/prompting/render.py:63-194 | For every prompt that renders, accepted or not: scanning the wire text from each <d> to the next </d> yields exactly every line as `[language] text` in shot and line order, if and only if no language tag holds </d>, no service text before or between utterances holds <d>, and the text after the last one utters nothing |
| `ReadbackLaws.ReadsBackExactly` | src/tkr_cloud_video/prompting/render.py:63-76 | The same for any text of gaps and utterances, so it does not rest on how the renderer joins them |
| `AcceptedReadback.DialogueRoundTrip` | src/tkr_cloud_video/prompting/render.py:63-133 | The special case of service spans without <d>: only the language tags decide |
| `AcceptedReadback.AcceptedDialogueRoundTrip` | src/tkr_cloud_video/prompting/validation.py:136-154 | For every accepted prompt that renders, in every mode, asked of its fields: it reads back exactly if and only if no language tag holds </d> and, with dialogue, no definition, summary, scope or detail holds <d> and the sound sections are mute; without dialogue, none of the texts around the shots utters anything and none closes an utterance that an earlier one opens |
| `AcceptedReadback.SoundTailExactly` | src/tkr_cloud_video/prompting/render.py:125-167 | The sound sections are mute exactly when neither utters anything and the music does not close an utterance the soundscape opens |
| `AcceptedReadback.PreambleQuietExactly` | src/tkr_cloud_video/prompting/render.py:136-167 | The full-reference text before the shots opens no utterance exactly when none of its free texts does |
| `Readings.JoinReads` | src/tkr_cloud_video/prompting/render.py:114-133 | Joined by a separator without delimiter characters, texts read together: what they utter, open and close is the composition of what each does |
| `Readings.PreambleReads` | src/tkr_cloud_video/prompting/render.py:136-167 | The whole text before the shots reads as its free and vocabulary fields do together, titles, labels, speakers and punctuation adding nothing |
| `AcceptedReadback.UncheckedSoundscapeSpeaks` | src/tkr_cloud_video/prompting/validation.py:136-154 | The checks alone do not give the round trip: any accepted base-mode prompt stays accepted and renders when its soundscape is an utterance, and the reader then hears one line no shot speaks |
| `DialogueLaws.OneShotIsAccepted` | src/tkr_cloud_video/prompting/validation.py:328-388 | Prompts that are accepted, render and read back exactly exist: any inert description of lawful length with any inert visible texts makes one |
| `DialogueLaws.ClauseYields` | src/tkr_cloud_video/prompting/render.py:63-76 | One rendered clause yields exactly its own line, whatever text follows it |
| `DialogueLaws.ShotYields` | src/tkr_cloud_video/prompting/render.py:87-114 | One rendered shot yields its lines in order, so no delimiter arises where its parts are joined |
| `Scanner.JoinYields` | src/tkr_cloud_video/prompting/render.py:114-133 | Joining parts by a separator yields the concatenation of what each part yields |
| `PlacesLaws.EveryMentionIsUntouched` | src/tkr_cloud_video/prompting/containment.py:57-132 | In every prompt that renders, whatever the service wrote around it, each mention of a caller text has a place of its own, in rendering order and apart from the next, where it stands unchanged, without control characters, and no marker, reference label, shot header or section opener touches it; the mentions are the spans containment reads, each as often |
| `CountLaws.StandsAsMentionedExactly` | src/tkr_cloud_video/prompting/containment.py:114-132 | For every prompt that renders and every text: it stands in the wire text at least as often as it is mentioned, and exactly as often if and only if neither what is written between two mentions nor another caller text holds it and no occurrence runs across the end of a caller text |
| `CountLaws.WordsCountExactly` | src/tkr_cloud_video/prompting/containment.py:114-132 | When the promise of appearing exactly once per mention holds, on the fields: for a text without quotation mark, < or ], if and only if nothing written around the mentions holds it, no other caller text does, and no spoken line continues it from the space before the line |
| `PlacesLaws.MentionedOnceFoundTwice` | src/tkr_cloud_video/prompting/containment.py:114-132 | The promise that a caller's words appear exactly once fails for every inert text of lawful length: an accepted prompt that renders mentions it once and its wire text holds it twice |
| `HeaderLaws.HeaderReadsBack` | src/tkr_cloud_video/prompting/alignment.py:20-62 | From the first line of the wire text a reader that knows only the words gets back which picture is in which shot at which hundredth: the opening picture in shot 1 at zero, the closing one in the final shot at the duration, and nothing in the other modes |
| `SectionLaws.SectionsReadBack` | src/tkr_cloud_video/prompting/render.py:121-194 | Cutting at the last occurrence of each title gives every section its own text, in order and in every mode, if and only if no section but the first holds its own title again |
| `SectionLaws.DefinitionReadsBack` | src/tkr_cloud_video/prompting/render.py:136-152 | A definition line reads back to its label, speaker and words, whatever these are |
| `SectionLaws.RetentionReadsBack` | src/tkr_cloud_video/prompting/render.py:154-158 | A retention line reads back to its label, scope, marker and detail if and only if its scope closes no bracket |
| `ShotLaws.ShotOpens` | src/tkr_cloud_video/prompting/render.py:87-114 | The text of a shot opens with its number, then style or cut time, then cut phrase and description; number and cut time read back, the latter to the millisecond |
| `ShotLaws.CameraReadsBack` | src/tkr_cloud_video/prompting/render.py:38-60 | The camera sentence of an accepted shot reads back to the prose of its motion and its amplitude and speed, as given or absent |
| `ShotLaws.ClauseReadsBack` | src/tkr_cloud_video/prompting/render.py:63-76 | A dialogue clause reads back, however its identity is worded: who speaks, whether off screen, what in which language, and both remarks about the cut |
| `ShotLaws.ScreenReadsBack` | src/tkr_cloud_video/prompting/render.py:79-84 | Visible texts read back from between their quotation marks, in order, if and only if none of them holds one |
| `RenderLaws.AcceptedRendersExactly` | src/tkr_cloud_video/prompting/render.py:170-194 | An accepted prompt renders exactly when its caller texts are contained and, in a keyframe mode, two decimals state its duration; the two errors are told apart, and the vocabulary, cut-time, summary, final-cut and altered-span errors cannot occur |
| `RenderLaws.VerbatimNeverFails` | src/tkr_cloud_video/prompting/containment.py:114-132 | For every constructible prompt, accepted or not, the verbatim check after rendering cannot fail |
| `Render.RenderShot` | src/tkr_cloud_video/prompting/render.py:87-114 | The loop that appends parts computes the shot text the laws are about |
| `Render.RenderDialogue` | src/tkr_cloud_video/prompting/render.py:63-76 | The reassigned clause is the dialogue clause the laws are about |
| `Containment.ContainedExactly` | src/tkr_cloud_video/prompting/containment.py:57-83 | The five containment rules refuse a text exactly when some part of it is a token of the grammar or some character is a control character |
| `Containment.PromptContainedExactly` | src/tkr_cloud_video/prompting/containment.py:86-111 | The prompt passes containment exactly when every dialogue text and every on-screen text is inert |
| `Containment.SpansExactly` | src/tkr_cloud_video/prompting/containment.py:86-100 | The spans collected are exactly the dialogue and on-screen texts of the shots |
| `Containment.CallerSpans` | src/tkr_cloud_video/prompting/containment.py:86-100 | The nested loops collect the spans of shots, lines and texts in order, with their field paths |
| `Containment.BreachIsFirst` | src/tkr_cloud_video/prompting/containment.py:57-111 | A refusal names the first span that is refused and the rule it breaks first |
| `Validation.ValidatePrompt` | src/tkr_cloud_video/prompting/validation.py:354-388 | Defects, run and skipped are those of the checks in the order given, each skipped one with its reason, and there are no defects exactly when every applicable check found none |
| `Validation.InventoriesComplete` | src/tkr_cloud_video/prompting/validation.py:1-7 | The two inventories hold every check, each as often as it was given: the run ones apply to the mode, the skipped ones do not |
| `Validation.RequireValidPrompt` | src/tkr_cloud_video/prompting/validation.py:391-418 | Acceptance exactly when no applicable check finds a defect, otherwise all defects with the first one named |
| `CheckLaws.AcceptedExactly` | src/tkr_cloud_video/prompting/validation.py:75-351 | Acceptance on the fields, all fourteen checks at once: cuts in place and rising inside the clip, shots and speakers numbered in order, every vocabulary value one of the listed words, no delimiter in service spans, and in full-reference mode labels used exactly when defined, markers of the label's kind, no speaker named in retention, known task types without repeats |
| `CheckLaws.OneReferenceAcceptedExactly` | src/tkr_cloud_video/prompting/validation.py:270-287 | Full-reference prompts of each kind of label are accepted, exactly those whose marker is of the table of their kind |
| `CheckLaws.ShotsNamed` | src/tkr_cloud_video/prompting/validation.py:95-216 | The defects on single shots, each with its rule and the path of the shot it is about |
| `CheckLaws.CutsNamed` | src/tkr_cloud_video/prompting/validation.py:75-234 | So are the defects on cut times, each against the latest cut before it, and on styles |
| `CheckLaws.SectionsNamed` | src/tkr_cloud_video/prompting/validation.py:257-298 | The defects on definitions and retention entries, each with its rule and path |
| `Validation.CheckCutOrder` | src/tkr_cloud_video/prompting/validation.py:106-121 | The loop with its previous cut reports the shots whose cut is not after the latest earlier one |
| `Validation.CheckSpeakers` | src/tkr_cloud_video/prompting/validation.py:157-177 | The triple loop reports one defect for each first mention whose number is not the next one |
| `Validation.CheckDelimiters` | src/tkr_cloud_video/prompting/validation.py:136-154 | The loops report descriptions and identities that hold a delimiter, in order |
| `SpeakerLaws.SpeakersContinuousExactly` | src/tkr_cloud_video/prompting/validation.py:157-177 | For every composed prompt the numbering check is clean exactly when the distinct speakers in first-vocalization order are S1, S2, ..., Sn |
| `SpeakerLaws.SameWalk` | src/tkr_cloud_video/prompting/models.py:208-216 | The two separately written walks visit the same speakers in the same order |
| `Prompts.SpeakerIds` | src/tkr_cloud_video/prompting/models.py:208-216 | The nested loops return the first occurrences of all speakers named by the lines |
| `Prompts.ComposedExactly` | src/tkr_cloud_video/prompting/models.py:126-200 | Composition returns exactly the prompts whose fields are valid and whose sections are those their mode fixes |
| `Prompts.ComposeAnswers` | src/tkr_cloud_video/prompting/models.py:145-181 | What composition answers to every payload: an unknown mode before all else, then every misplaced section by name, all at once, then the fields |
| `Prompts.ComposedKeeps` | src/tkr_cloud_video/prompting/models.py:145-200 | A composed prompt holds what its payload gave, key by key |
| `TimelineLaws.ShotsTileTheClip` | src/tkr_cloud_video/prompting/validation.py:75-133 | In an accepted prompt every instant of the clip lies in exactly one shot's window, windows and numbers follow one order, windows after the opening one are non-empty, and the opening one is empty exactly when the first cut is at zero |
| `TimelineLaws.WindowsExactly` | src/tkr_cloud_video/prompting/validation.py:106-133 | With cut times in place the order and duration checks are clean exactly when every window after the opening one is non-empty |
| `TimelineLaws.PlacesExactly` | src/tkr_cloud_video/prompting/validation.py:75-103 | The opening-cut and numbering checks are clean exactly when only the opening shot has no cut and shot i is numbered i |
| `CutTimes.CutTimeRoundTrip` | src/tkr_cloud_video/prompting/render.py:30-35 | An MM:SS.mmm parser reads a printed cut time back as the half-even rounded millisecond count |
| `CutTimes.PrintedOrder` | src/tkr_cloud_video/prompting/render.py:30-35 | Two cut times print alike exactly when they round alike; printing never reverses them and separates cuts more than a millisecond apart |
| `CutTimes.OneMillisecondApartCanPrintAlike` | src/tkr_cloud_video/prompting/render.py:30-35 | Cuts exactly one millisecond apart can print alike |
| `CutTimes.AcceptedCutsPrintInOrder` | src/tkr_cloud_video/prompting/render.py:98-105 | The printed cuts of an accepted prompt follow shot order, strictly for cuts more than a millisecond apart |
| `Grammar.PhraseAmongExact` | src/tkr_cloud_video/prompting/grammar.py:86-116 | A motion has a prose form exactly when its name is in the table, and the form is the one beside it |
| `Cache.CacheIndex.EnsureCapacity` | src/tkr_cloud_video/artifacts/eviction.py:23-59 | Succeeds exactly when pinned bytes plus the request fit the high-water mark; evicts the shortest sufficient oldest-first run of candidates and no pinned blob; when only pinned blobs can remain, they do; the two refusals are told apart |
| `Cache.ByAgeSorts` | src/tkr_cloud_video/artifacts/eviction.py:36-44 | The candidate order is oldest first and repeats nothing |
| `Cache.CacheIndex.SizeBytes` | src/tkr_cloud_video/artifacts/cache.py:95-101 | The sum over all blobs, in any order of visiting |
| `Cache.LeasedWhileOpen` | src/tkr_cloud_video/artifacts/cache.py:77-93 | Over any run of nested or shared leases a blob is leased exactly while some lease on it is open, and the table keeps no other entry |
| `Cache.CacheIndex.Hydrate` | src/tkr_cloud_video/artifacts/hydrator.py:34-60 | Succeeds exactly on a verified blob, with no bytes, or on a download of the right size and digest, with its size; is then verified, leaves no partial and no other blob changed; on failure nothing is stored under the digest |
| `CacheRuns.LeasedStaysVerified` | src/tkr_cloud_video/artifacts/cache.py:77-93 | Over every run of interleaved hydrations, leases and evictions, from every state that runs reach: a verified blob that is leased throughout is verified throughout if and only if no hydration of its digest begins at another size |
| `CacheRuns.LeaseDoesNotShield` | src/tkr_cloud_video/artifacts/hydrator.py:40-44 | Such a hydration does happen: for every content and every other size, a run from the empty cache hydrates and leases the blob, begins a hydration that names the other size, and ends with the lease open and the blob gone |
| `CacheRuns.ReturnsVerified` | src/tkr_cloud_video/artifacts/hydrator.py:39-58 | In every run each hydration that has returned did so in one step that left its blob verified, whatever ran beside it, with no bytes brought on a warm blob and its size on one it brought |
| `CacheRuns.PartialsBelongToDownloads` | src/tkr_cloud_video/artifacts/hydrator.py:38-60 | In every run from an empty cache no two downloads of one digest are under way, and partials are there only while downloads are |
| `Cache.EvictionThenHydrationFits` | src/tkr_cloud_video/artifacts/eviction.py:23-27 | Where eviction left room, promoting the blob stays below the high-water mark |
| `Catalog.PublishThenResolve` | src/tkr_cloud_video/artifacts/publisher.py:89-126 | After a successful publish, at any later time beside other publishers, the receipt resolves to the same manifest, in a store that hashes what it stores |
| `PublishLaws.PublishEndsExactly` | src/tkr_cloud_video/artifacts/publisher.py:61-126 | How every undisturbed publication ends: it returns exactly when every source is as its entry says and what is stored agrees, counting each missing blob as uploaded and every other entry as reused and adding just those and the manifest; else it raises what is wrong with the first bad entry, and no manifest is stored |
| `FaultLaws.PublishFaults` | src/tkr_cloud_video/artifacts/publisher.py:61-126 | Beside any other publishers: a publication that returns met no fault at any of its calls, and a fault is raised as such |
| `FaultLaws.ResolveEndsExactly` | src/tkr_cloud_video/artifacts/resolver.py:21-51 | What every undisturbed resolution answers: no object, another digest, no manifest, a blob not held, or the manifest, in this order |
| `Catalog.ResolvesExactlyWhen` | src/tkr_cloud_video/artifacts/resolver.py:21-51 | In any store the receipt resolves to the manifest exactly when the bytes under it hash to the digest and parse to it; the publisher's own check of declared size and digest does not give this |
| `Catalog.ManifestIsPublishedLast` | src/tkr_cloud_video/artifacts/publisher.py:89-107 | Whatever fails and wherever the publisher dies, a manifest nobody else brought is stored only over blobs that all hold |
| `Catalog.RepublishReusesEverything` | src/tkr_cloud_video/artifacts/publisher.py:89-126 | Publishing again at any later time returns the same receipt with every blob reused, and left alone does not touch the store |
| `Catalog.ResolvedReferencesHeld` | src/tkr_cloud_video/artifacts/resolver.py:39-51 | A resolved manifest's blobs were all there, and in a store that hashes what it stores carry the digests it names |
| `Catalog.BlobsLaw` | src/tkr_cloud_video/artifacts/publisher.py:89-107 | Publishing blobs only grows the store; on success every blob holds and reused plus uploaded is the artifact count |
| `Catalog.ArtifactPublisher.Publish` | src/tkr_cloud_video/artifacts/publisher.py:89-107 | The loop with its two counters is the publication the laws are about |
| `Catalog.ArtifactPublisher.PublishBlob` | src/tkr_cloud_video/artifacts/publisher.py:61-87 | Local mismatch, conflict, reuse, creation and raised calls, as the laws' blob step |
| `Worker.ReadyExactlyAfterOneFullStart` | src/tkr_cloud_video/runtime/supervisor.py:60-97 | Over any sequence of starts, drains and gate calls with failure or cancellation anywhere, the worker is ready exactly when one start found it untouched and did every step in order, and nothing since drained it or tried to start it over |
| `Worker.RunsOnlyForward` | src/tkr_cloud_video/runtime/lifecycle.py:25-67 | At most one launch and eight transitions in any run; later calls never lower the phase, so FAILED and STOPPED never return to READY |
| `Worker.EightTransitionsHappen` | src/tkr_cloud_video/runtime/lifecycle.py:25-67 | The bound of eight is reached |
| `Worker.StartLaw` | src/tkr_cloud_video/runtime/supervisor.py:60-88 | A start succeeds exactly on an untouched worker with every step done; any other leaves it unready, unless it was ready and the start was cancelled before its first transition |
| `Worker.StartTells` | src/tkr_cloud_video/runtime/supervisor.py:60-88 | Told by the first step that does not end well: one that raises leaves the worker failed with that step's code and raises it again, an interrupted one leaves the phase reached and no code, and a process runs only behind a launch that ended well |
| `Worker.LateStartTells` | src/tkr_cloud_video/runtime/supervisor.py:60-88 | A start of a worker that has moved fails it with the code of its configuration or of the transition, unless it has stopped or the start is interrupted before it begins |
| `Worker.DrainDropsReadiness` | src/tkr_cloud_video/runtime/supervisor.py:90-97 | Draining drops readiness whatever termination does, and stops the worker once termination ends |
| `Worker.WorkerSupervisor.Start` | src/tkr_cloud_video/runtime/supervisor.py:60-88 | The guarded sequence is the start the laws are about, with exceptions recorded and cancellations not |
| `Worker.WorkerSupervisor.Drain` | src/tkr_cloud_video/runtime/supervisor.py:90-97 | The drain the laws are about |
| `Worker.WorkerLifecycle.Transition` | src/tkr_cloud_video/runtime/lifecycle.py:55-61 | One legal edge, or an error and no change |
| `Worker.ServerlessDeployment.EnsureStarted` | src/tkr_cloud_video/release/serverless.py:58-65 | Starts only when not ready, and reports readiness only on a normal return |
| `Envelope.DefaultsPassExactly` | src/tkr_cloud_video/jobs/contracts.py:97-134 | A request naming no dimension passes its own range exactly when the floor reaches one and the grid offset and the short edge reaches the canvas minimum; it then lands on the trained point, inside the range |
| `Envelope.CanvasBoundsTheArea` | src/tkr_cloud_video/jobs/trained_envelope.py:134-144 | The canvas bound in either orientation, and the pixel area it implies |
| `Envelope.AcceptedMeans` | src/tkr_cloud_video/jobs/contracts.py:168-197 | An accepted request is within the trained area, on the frame grid in whole strides from the offset, keeps every given dimension, and is inside exactly at the trained short edge and at or above the floor |
| `Envelope.ParsedExactly` | src/tkr_cloud_video/jobs/contracts.py:97-197 | What a parse answers for every payload, on the dimensions and in order: each refusal and acceptance if and only if, with 256 as the least edge, whole canvas steps, the canvas either way up and whole strides from the offset |
| `Envelope.MeasuredExactly` | src/tkr_cloud_video/jobs/trained_envelope.py:146-152 | Each departure is reported by itself |
| `Envelope.LoneHeightIsReadAsLandscape` | src/tkr_cloud_video/jobs/contracts.py:124-133 | A request naming only a height fits exactly up to the short edge, although a taller portrait canvas is supported when the width is named too |
| `Envelope.LoneWidthAlwaysFits` | src/tkr_cloud_video/jobs/contracts.py:124-133 | A request naming only a width fits exactly up to the long edge |
| `Envelope.ApplyTrainedDefaults` | src/tkr_cloud_video/jobs/contracts.py:97-134 | Fills every absent dimension, keeps every given one and touches nothing else |
| `Envelope.ParseDimensions` | src/tkr_cloud_video/jobs/contracts.py:97-197 | Refuses an unregistered model set first, then fills and checks in the source's order |
| `Envelope.RegisteredRangeDefines` | src/tkr_cloud_video/jobs/trained_envelope.py:201-213 | The registered range is constructible, its ceiling on its grid and its defaults accepted |
| `Executor.Execute` | src/tkr_cloud_video/jobs/executor.py:37-65 | Whenever some poll would be the last: each poll before the last found the prompt pending in time; the last one decides the outcome, or the deadline has passed and one cancellation was asked for |
| `Executor.EndsExactlyWhenItHalts` | src/tkr_cloud_video/jobs/executor.py:44-64 | The polling ends exactly when some poll is late, unanswered or finds the prompt ended |
| `Executor.AdvancingClockHalts` | src/tkr_cloud_video/jobs/executor.py:43-61 | A clock that gains each wait ends every polling |
| `Executor.OneEnd` | src/tkr_cloud_video/jobs/executor.py:37-65 | Clock and answers determine the number of polls, the cancellation and the outcome |
| `Executor.OutcomeExactly` | src/tkr_cloud_video/jobs/executor.py:37-65 | Which of succeeded, failed with its node or unknown-node, cancelled, raised and timed out an execution ends with, by its last answer or the deadline |
| `Executor.FirstAnswerDecides` | src/tkr_cloud_video/jobs/executor.py:37-65 | Each of these ends does happen |
| `Executor.PollsAreBounded` | src/tkr_cloud_video/jobs/executor.py:37-65 | Fewer than four polls a second of the timeout and one more; no cancellation before the deadline |

## Left out

- Durability.CommittedStaysWhole: assumes the exclusion stated in its row, for each of whose three parts `CommitOverDeletionIsHollow`, `CommitAfterReadIsLost` and `CommitAfterDeletionIsLost` give a run that needs it; a sweep lists in one atomic read, at or after the instant it judges by.
- Durability.CommittedStaysWhole: the order of heads and deletes inside a sweep is left open, so the runs include more than the reaper's own order; that order is `DeleteOrderExact`.
- Durability.MarkersAreBackedAndAgreed: covers runs without deletes; a marker from before the run is taken as it stands, agreed on but not backed.
- Submission.DuplicatesConverge: one process, nothing deleted; generation between head and upload is one step with arbitrary local artifacts.
- Catalog.PublishThenResolve: assumes that stored digests are hashes of stored bytes and that no other text collides with the manifest's; `ResolvesExactlyWhen` states what holds without this.
- AcceptedReadback.DialogueRoundTrip: asks for service text without `<d>`; `ReadbackLaws.DialogueReadsBackExactly` drops this. The reader stops at an opening delimiter that is never closed and does not report it.
- CountLaws.WordsCountExactly: leaves texts with frame characters to `StandsAsMentionedExactly`, whose condition also reads what follows each caller text.
- UploadLaws.UploadEndsExactly: assumes that the provider's version labels are identifiers all or none; which labels a put gets is the provider's.
- SubmitRuns.LoneSubmit: generation always brings some artifacts; staging, binding and execution before it are not part of its run.
- PublishLaws.PublishEndsExactly: no other publisher writes meanwhile, and no blob has the key of the manifest; with others see `FaultLaws.PublishFaults` and `Catalog.PublishThenResolve`.
- SectionLaws.RetentionReadsBack: for markers without blanks, as every marker of the tables is.
- CheckLaws.SectionsNamed: the paths of delimiter, camera, label and task type defects are those of `Validation.Found`; the order of several defects is `Validation.ValidatePrompt`.
- Cache.CacheIndex.Hydrate: one call from start to end; `CacheRuns` interleaves them. Two names of partial files never coincide.
- Cache.CacheIndex.EnsureCapacity: blob files whose names are no digest, symbolic links and file modes are not modelled.
- Executor.Execute: a polling that never ends has no outcome to state; `EndsExactlyWhenItHalts` says which those are.
- Executor.PollsAreBounded: assumes that a wait advances the clock by what it names.
- Worker.ReadyExactlyAfterOneFullStart: start and drain calls do not overlap; a launch that is cancelled leaves no handle, as in the code.
- RenderLaws.AcceptedRendersExactly: decimals are exact reals, so a duration that only a float would miss counts as expressible.
- Prompts.ComposedExactly: unknown payload keys, which composition refuses, `grammar_revision`, and numbers that are not finite.
- Envelope.ParseDimensions: leaves out request fields other than the three dimensions and the model set name.
- HTTP, rclone and subprocess execution, the non-atomic head-then-write behind `put`, presigned URLs.
- ffprobe, ComfyUI's own JSON, workflow binding, media validation, input staging and workspaces.
- Parsing of policy documents, settings, credentials and access decisions, which enter as parameters.
- Pinning digests of the grammar and envelope tables, doctor reports, cost model, alerts, metrics, rollout and the console: they would add only easy members.
- Provenance records and the roles, destinations, dependencies and bindings of catalog entries.
