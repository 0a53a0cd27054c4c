# Persona service: verified model

The persona service answers one NATS request, "which projects is this user involved with, and how",
by asking up to six upstream sources in parallel, merging what arrives before a deadline, and
replying with one project entry per project UID. This project models that behaviour in Dafny and
proves what the reply guarantees.

| file | what it models |
|---|---|
| `PersonaModel.dfy`, `Bags.dfy` | projects, detections, replies; order-free sums |
| `Grouping.dfy` | grouping by UID: a closed form, its algebra, what it conserves |
| `GoSlices.dfy`, `MergeHeap.dfy` | slice headers over shared arrays, `append`, and `MergeProjects` over them |
| `FanOut.dfy`, `FanOutInvariant.dfy`, `FanOutTheorems.dfy` | the fan-out/collect protocol as a state machine, its invariant, its safety and liveness |
| `Legs.dfy`, `Emission.dfy` | dual-leg queries with de-duplication and post-filter; the conversion loops |
| `Committee.dfy`, `Sources.dfy`, `WriterAuditor.dfy`, `ProjectService.dfy` | the Query Service sources |
| `CdpSlugs.dfy` | CDP slug resolution and conversion |
| `CdpCache.dfy`, `CacheSystem.dfy`, `CacheTheorems.dfy`, `CdpFlow.dfy` | the KV cache, the cached CDP flow as a transition system, its theorems, and the flow's own bodies |
| `Clauses.dfy` | username validation and the encoding of Query Service clauses |
| `Degradation.dfy`, `Counts.dfy` | what losing a leg does to the detections; how many detections a list of records gives |
| `SourceResults.dfy` | what every source sends for given upstream replies, and the goroutine bodies that send it |
| `Responses.dfy` | the request checks and the whole reply |

Conventions. A function-typed parameter stands for what the model leaves open: `fold` maps two names to
the same string when `strings.EqualFold` equates them, `trim` is `strings.TrimSpace`, `codec` is JSON,
`resolve` and `affiliations` are CDP's answers as functions of time. Upstream replies are arguments, so
every statement holds for all of them. The choice `:|` in a loop stands for Go's map order and for the
order in which goroutines finish. A failed call, a lost write, an evicted entry and the deadline are
steps that may happen at any time.

Four properties hold only under a condition, and each is proved as an equivalence:

* No run of the protocol gets stuck exactly when there are at most as many sources as buffer slots
  (`FanOutTheorems.DeadlockFreeIffBuffered`); the handler has at most six sources and eight slots.
* With CDP answers that do not change over time, the cache is invisible exactly when the answer for a
  cacheable username does not depend on the email (`CacheTheorems.TransparentIffEmailIndependent`):
  the member-ID key leaves the email out, although the lookup sends it. `CacheTheorems.CrossEmailAnswer`
  gives the run that shows the difference. A username whose key the store refuses is not cacheable.
* A clause list survives the comma join exactly when no clause has a comma
  (`Clauses.RoundTripIffClean`). Every username leg of an accepted request qualifies; an email leg
  does exactly when the email has no comma (`Clauses.EmailLegRoundTrip`), and emails with one are
  admitted (`Responses.AdmittedRequestsRoundTrip`, `Responses.CommaEmailIsAdmitted`).
* Losing one leg of a dual-leg query never adds a detection, except that a lost email leg may bring up
  what it hid: it never does exactly when the legs agree on the IDs they share
  (`Degradation.LegLossNeverGainsIff`); `Degradation.MalformedRecordHidesDetection` is an input where
  they do not.

Where the documents disagree with the code, the model follows the code. `ARCHITECTURE.md` promises one
detection per matching source in its description of `projects[]` (lines 123 and 129) and several with the
same token further down (line 174). The code does the latter, one detection per record, and
`Responses.ReplyCounts` says how many (`SourceResults.TwoMeetingsTwoDetections` is the smallest case). The document also calls
`committee_member` a non-Board detection; the code emits it for Board members too, as
`Committee.BoardImpliesCommittee` states. The CDP source resolves slugs over the connection that only the
Query Service option sets, so with CDP alone every reply is empty (`CdpSlugs.CdpAloneIsEmpty`,
`Responses.CdpAloneRepliesEmpty`), although the README of the service describes it as an independent source.

## Model

| member | source | states |
|---|---|---|
| FanOutTheorems.NoSilentTimeout | internal/service/message_handler.go:157-232 | in every interleaving: a reply without error has received from every source; a reply reports `handler_timeout` if and only if the deadline fired before it, also after the last send or while draining |
| FanOutTheorems.EveryReplyWasDue | internal/service/message_handler.go:163-220 | every reply is a function of the actions before the step that made it: one grouping of all successful sends so far, and a timeout exactly if the deadline is among them; later steps do not change it |
| FanOutTheorems.DeadlineShows | internal/service/message_handler.go:174-182 | whatever follows a deadline that fires before the reply, the reply reports the timeout |
| FanOutTheorems.ExactResults | internal/service/message_handler.go:168-218 | any reply's projects are one grouping of the successful results among exactly the sends made before the collector stopped |
| FanOutTheorems.NeverPanics | internal/service/message_handler.go:94-161 | nothing sends on a closed channel, closes it twice or drives the WaitGroup negative; it is closed only after every send |
| FanOutTheorems.SendNeverBlocks | internal/service/message_handler.go:95-155 | with as many slots as sources a running source can always send, also after the reply |
| FanOutTheorems.DeadlineUnblocksCollector | internal/service/message_handler.go:163-167 | once the deadline has fired the collector always has a step of its own |
| FanOutTheorems.CollectorRepliesAlone | internal/service/message_handler.go:163-220 | from then on its own steps reach a reply even if no source ever finishes |
| FanOutTheorems.DeadlockFreeIffBuffered | internal/service/message_handler.go:95-161 | no reachable unfinished state is stuck if and only if sources do not outnumber buffer slots |
| FanOutTheorems.LeakyRun | internal/service/message_handler.go:95-220 | for any larger number of sources, a run that leaves one of them blocked for ever |
| FanOutTheorems.RunsAreShort | internal/service/message_handler.go:94-220 | a decreasing measure bounds every run by 6 * sources + 6 steps |
| FanOutTheorems.EveryRunReplies | internal/service/message_handler.go:157-232 | a run that cannot go on has replied, closed the channel and ended every source |
| FanOutInvariant.InvAlways | internal/service/message_handler.go:87-220 | the invariant of every reachable state: WaitGroup count, send log, queue order, merged prefix, deadline record |
| FanOutInvariant.ReceivedStep | internal/service/message_handler.go:172-210 | every step keeps: the channel is a queue and the accumulator groups exactly the received successes |
| Grouping.FoldIsOneGrouping | internal/service/message_handler.go:168-205 | the collector's repeated merges equal one grouping of the concatenated results |
| Grouping.MergeAssociative | internal/domain/model/persona.go:95-123 | merging is associative and both ways equal grouping the concatenation |
| Grouping.GroupIdempotent | internal/domain/model/persona.go:95-98 | grouping a grouping changes nothing |
| Grouping.GroupAbsorbsLeft | internal/domain/model/persona.go:102-111 | normalising dst first does not change the merge |
| Grouping.GroupAbsorbsRight | internal/domain/model/persona.go:113-121 | neither does grouping src first |
| Grouping.GroupKnownUid | internal/domain/model/persona.go:105-106 | a known UID only grows its own entry's detections |
| Grouping.GroupNewUid | internal/domain/model/persona.go:107-110 | a new UID is added at the end, unchanged |
| Grouping.GroupConserves | internal/domain/model/persona.go:99-123 | no detection is lost, invented or moved to another UID, with multiplicity |
| Grouping.TaggedCounts | internal/domain/model/persona.go:99-123 | the UID-tagged bag counts exactly how often a UID's detection list holds a detection |
| Grouping.GroupWellFormed | internal/domain/model/persona.go:95-98 | from attributed entries: unique non-empty UIDs and at least one detection each |
| MergeHeap.MergeProjects | internal/domain/model/persona.go:99-123 | with Go's append over shared arrays and disjoint regions: the pure grouping, both inputs and every bystander still show what they showed, results again disjoint |
| MergeHeap.MergeOne | internal/domain/model/persona.go:104-111 | one turn of either loop keeps the index, the disjointness and every input's visible contents |
| GoSlices.Append | internal/domain/model/persona.go:106 | append in place within capacity, else into a new array; only spare cells are written |
| GoSlices.OverlapCorrupts | internal/domain/model/persona.go:106 | for all headers: if one shows a spare cell of the other, some append through the other changes what it shows; hidden spare cells are the exact condition |
| MergeHeap.CollectBatches | internal/service/message_handler.go:168-205 | repeated merges over the received results' own arrays never corrupt an earlier detection |
| MergeHeap.CollectResults | internal/service/message_handler.go:168-205 | over the results as their sources build them, the merged Board list with its spare capacity included, the heap collector computes the pure fold |
| MergeHeap.Build | internal/service/source_board_member.go:55-73 | a source's list, from literals or merged out of two lists, shows the pure value and keeps its regions apart |
| MergeHeap.Allocate | internal/service/source_board_member.go:227-233 | entries built from literals have disjoint regions and show the given projects |
| Legs.MergeLegs | internal/service/source_board_member.go:146-177 | the two loops equal first occurrence by ID of the email leg followed by the accepted username records; failure only when both legs fail |
| Legs.FirstByIdPicksFirsts | internal/service/source_board_member.go:152-177 | de-duplication is the order-preserving selection of exactly the first record of each ID |
| Legs.DualLegIds | internal/service/source_mailing_list.go:73-97 | the result has unique IDs: the email leg's and the accepted ones of the username leg |
| Legs.DualLegWinners | internal/service/source_board_member.go:146-177 | exactly which records are kept: the email leg's first with its ID or, where the email leg has none, the username leg's first accepted one |
| Legs.RejectedNeverSuppresses | internal/service/source_board_member.go:162-175 | a rejected username record never hides a later acceptable one with the same ID |
| Legs.LegsDegrade | internal/service/source_board_member.go:139-177 | losing a leg only loses IDs, and the two single-leg ID sets make up the full one |
| Legs.LegLossLosesRecordsIff | internal/service/source_board_member.go:139-177 | losing the username leg only loses records; losing the email leg only loses records if and only if the legs agree on the IDs they share |
| Degradation.LegLossNeverGainsIff | internal/service/source_board_member.go:139-177 | the same of the detections, for every conversion of the records: an equivalence |
| Degradation.MalformedRecordHidesDetection | internal/service/source_mailing_list.go:73-123 | the input that shows the difference: a malformed email-leg record hides the detection of the username leg's good copy |
| Legs.DeduplicateRecords | internal/service/source_board_member.go:182-194 | the nested loops equal first occurrence by ID over the concatenated slices |
| Emission.EmitSelects | internal/service/source_mailing_list.go:106-123 | a conversion loop's output is the order-preserving selection of exactly the elements that yield a project |
| Counts.OnePerRecord | internal/service/source_mailing_list.go:106-123 | a loop that makes one detection per project gives a UID as many as there are records that yield it |
| Committee.BoardMemberDetections | internal/service/source_board_member.go:198-237 | malformed records and empty project UIDs are skipped, the rest become board_member projects in order |
| Committee.CommitteeMemberDetections | internal/service/source_board_member.go:241-274 | the same for committee_member |
| Committee.SourceBoardMemberAndCommittee | internal/service/source_board_member.go:20-74 | never fails; told from the four replies, exactly the detections that some record found calls for, every field carried over: board_member for the Board searches' records only, committee_member for the ID-union; each slug is that of a record found |
| Committee.BoardImpliesCommittee | internal/service/source_board_member.go:55-73 | every board_member detection shares its UID with the committee_member detection of the same membership, whatever the all-committee query returned |
| Committee.UniqueBoardPaired | internal/service/source_board_member.go:55-73 | the same of any Board list without repeated IDs united with any all-committee list |
| Sources.SourceMailingList | internal/service/source_mailing_list.go:21-126 | the dual-leg result converted in order; told from the replies, exactly the projects of the subscriptions found, a username-leg record only under the user's name; failure only when both legs fail |
| Sources.SourceMeetingAttendance | internal/service/source_meeting_attendance.go:20-119 | the same without a post-filter, exactly the projects of the participations found |
| Sources.MeetingQueryIsPlainUnion | internal/service/source_meeting_attendance.go:73-90 | the meeting records are the first occurrences of the plain concatenation, malformed ones included |
| Sources.SourceExecutiveDirector | internal/service/source_executive_director.go:20-64 | empty username gives nothing; otherwise, in order, exactly the projects whose record names the user as director, each with the slug the project service gave or none |
| ProjectService.SlugExact | internal/service/source_executive_director.go:68-83 | a looked-up slug is the trimmed answer over a connection, never blank and never a JSON object; without such an answer it is empty |
| WriterAuditor.ContainsName | internal/service/source_writer_auditor.go:140-166 | the search answers true exactly when some listed name matches up to case |
| WriterAuditor.Hit | internal/service/source_writer_auditor.go:83-103 | an accepted record appends its token to its own entry only, or starts a new entry with its own object |
| WriterAuditor.AuditorHit | internal/service/source_writer_auditor.go:94-103 | the map keeps, per record ID, the first accepted record and its writer tokens followed by its auditor tokens |
| WriterAuditor.SourceWriterAuditor | internal/service/source_writer_auditor.go:24-136 | for some order of the IDs, one entry per accepted ID; told from the replies, a writer detection exactly where a record of the writers leg lists the user among its writers, an auditor detection likewise, on the project of the ID's first hit, with the slug looked up for it |
| WriterAuditor.WriterAuditorOrderIndependent | internal/service/source_writer_auditor.go:111-133 | two map orders give the same multiset of projects and, grouped, the same detections per UID |
| Counts.OnePerHit | internal/service/source_writer_auditor.go:81-133 | for every map order: one writer or auditor token for each accepted record of that leg whose ID's first record has the UID |
| CdpSlugs.ResolveSlugsToUids | internal/service/message_handler.go:289-343 | for every order of goroutines and messages the map holds exactly the slugs that are neither empty nor CDP-only and whose answer is neither blank nor a JSON object, with the trimmed answer |
| CdpSlugs.AwaitAll | internal/service/message_handler.go:311-333 | the result channel never needs more slots than there are slugs |
| CdpSlugs.AffiliationsToProjects | internal/service/message_handler.go:345-392 | converts in order, skipping CDP-only slugs and slugs without a UID |
| CdpSlugs.CdpPipelineSelects | internal/service/message_handler.go:289-392 | exactly the affiliations whose slug so resolves come out, in order, under the answered UID, contribution count and roles unchanged |
| CdpSlugs.CdpProjectsExact | internal/service/message_handler.go:289-392 | a project comes out if and only if some affiliation so resolves to it |
| CdpSlugs.CdpAloneIsEmpty | internal/service/message_handler.go:289-292 | without the project-service connection the CDP source returns no projects |
| Responses.CdpAloneRepliesEmpty | internal/service/message_handler.go:42-47 | so every reply of a handler with the CDP option alone, whose connection only the other option could set, is empty |
| CdpCache.KeysDistinct | internal/infrastructure/cdp/cache.go:20-21 | the two key families are injective and disjoint |
| CdpCache.Cache.GetMemberId | internal/infrastructure/cdp/cache.go:51-73 | a hit returns the unexpired entry of this username's key, stale from ten minutes of age; a missing key is a miss, a store error a reported miss |
| CdpCache.Cache.PutMemberId | internal/infrastructure/cdp/cache.go:76-84 | writes this username's key and no other; a failed write changes nothing |
| CdpCache.Cache.GetAffiliations | internal/infrastructure/cdp/cache.go:87-114 | the same for affiliations, where an undecodable value is a miss without error |
| CdpCache.Cache.PutAffiliations | internal/infrastructure/cdp/cache.go:117-131 | writes this member's key and no other |
| CdpCache.PutThenGet | internal/infrastructure/cdp/cache.go:76-131 | what was put is what a read gets, for both families side by side |
| CacheSystem.InvAlways | internal/service/message_handler.go:234-283 | in every interleaving all cached and in-flight values came from CDP for the key or request they belong to |
| CacheTheorems.CacheProvenance | internal/infrastructure/cdp/cache.go:76-131 | every stored value was CDP's answer for that username or member at a time at most `lag` before the write; never an empty member ID |
| CacheTheorems.MemberHitAge | internal/infrastructure/cdp/cache.go:56-72 | a hit is an answer of less than ttl + lag before the read; a fresh one of less than ten minutes + lag |
| CacheTheorems.AffiliationsHitAge | internal/infrastructure/cdp/cache.go:92-113 | the same for affiliations |
| CacheTheorems.AnswerAge | internal/service/message_handler.go:236-278 | end to end, with answers that change: a request ends with CDP's list, at most ttl + lag older than the request, for an ID CDP gave this username at such a time; or CDP knew no member while it ran |
| CacheTheorems.StaleHitAnswers | internal/service/message_handler.go:242-278 | a stale hit never waits for CDP, whatever fails: from a member hit the request goes on with a member ID, from an affiliations hit it ends with a list, that CDP gave less than ttl + lag before the read |
| CacheTheorems.StaleHitRevalidates | internal/service/message_handler.go:395-416 | in every run after a stale hit, whatever interleaves, a write of that refresh leaves CDP's answer of a time since the hit under the key, no longer stale |
| CacheTheorems.RefreshCanComplete | internal/service/message_handler.go:395-416 | from every reachable state such a refresh can renew the entry in two steps |
| CacheTheorems.MissStoresMember | internal/service/message_handler.go:246-254 | in every run, the write at the end of a member miss leaves CDP's answer of the fetch under the username's key, stamped now, and changes nothing else |
| CacheTheorems.MissStoresAffiliations | internal/service/message_handler.go:270-275 | the same of an affiliations miss |
| CacheTheorems.CachedNeedsNoCdp | internal/service/message_handler.go:242-278 | while the store can serve a username, whatever else goes on, its requests call CDP for nothing and end with the cached list |
| CacheTheorems.EmailIndependentIsTransparent | internal/service/message_handler.go:236-283 | with constant CDP answers that do not depend on the email, all results of all runs equal the uncached flow's |
| CacheTheorems.TransparentIffEmailIndependent | internal/service/message_handler.go:236-283 | and the cache is invisible in this way only then: an equivalence over all runs |
| CacheTheorems.FixedPerUsernameIsTransparent | internal/service/message_handler.go:236-283 | answers fixed per username make the cache invisible under every interleaving, failure and expiry |
| CacheTheorems.DisabledIsTransparent | internal/infrastructure/cdp/cache.go:31-39 | a disabled cache never changes an answer |
| CacheTheorems.CrossEmailAnswer | internal/infrastructure/cdp/cache.go:56 | when the answers differ by email, a run that serves one email the other's affiliations |
| CdpFlow.MemberAffiliations | internal/service/message_handler.go:236-278 | steps 1 and 2 over the cache object, while any other requests, refreshes, evictions and the clock act between the calls, are the steps of one request of the resulting run, failing as the calls fail and not otherwise |
| CdpFlow.FlowAnswers | internal/service/message_handler.go:236-283 | whatever has ended as a request of an interleaved run has the end-to-end age bound, and the uncached answer when CDP is constant and independent of the email |
| CdpFlow.SourceCdpRoles | internal/service/message_handler.go:236-283 | the whole source from any reachable state, interleaved with anything: its outcome converts the result of its request in the resulting run, whose store the cache then holds; it fails only when CDP fails; on its own it answers from a store that can serve it, and after a faultless miss it leaves exactly the two entries |
| CdpFlow.RequestAgain | internal/service/message_handler.go:236-283 | after a request that found nothing cached, another of the same username inside the ttl gets the same outcome though every CDP call and every write fails |
| SourceResults.RunCdpSource | internal/service/message_handler.go:145-152 | the CDP goroutine sends what the reply theorems take its source to send |
| CdpFlow.BackgroundRefreshMemberId | internal/service/message_handler.go:395-405 | the refresher, interleaved with anything, is its own steps of the resulting run up to its end, failing as its calls fail and not otherwise |
| CdpFlow.BackgroundRefreshAffiliations | internal/service/message_handler.go:408-416 | the same for affiliations |
| Clauses.UsernameLegRoundTrip | internal/service/username_validation.go:10-23 | for an accepted username every clause list survives the comma join and the clause splits at its only colon into field and username |
| Clauses.RoundTripIffClean | internal/infrastructure/query/client.go:83-88 | a non-empty clause list survives join and split if and only if no clause has the separator |
| Clauses.EmailLegRoundTrip | internal/service/source_board_member.go:90-93 | an email leg's clause list survives if and only if the email has no comma |
| Clauses.SearchesApart | internal/service/source_board_member.go:76-121 | exactly the Board legs restrict the category; which resource and which username field each search uses |
| Responses.AdmittedRequestsRoundTrip | internal/service/message_handler.go:66-80 | rejected exactly for malformed JSON, a blank email or a username with a character that is not plain, and then without projects; otherwise the trimmed username and the trimmed, lower-cased email go on, well encoded in every username leg, and in an email leg exactly when the email has no comma |
| Responses.CommaEmailIsAdmitted | internal/service/message_handler.go:72-80 | an email with a comma passes the checks, and its email legs are then encoded wrongly |
| Responses.HandlerNeverDeadlocks | internal/service/message_handler.go:87-161 | the handler's own source counts and buffer size are deadlock free |
| Responses.EnabledKindsExact | internal/service/message_handler.go:97-155 | the Query Service option starts five sources and the CDP option one, each once |
| Responses.ReplyContract | internal/service/message_handler.go:222-232 | every reply, on time or not: well formed, Board seats paired with memberships, exactly the received detections |
| Responses.FewerSourcesFewerDetections | internal/service/message_handler.go:186-218 | failed or late sources only remove UIDs and detections from the reply, when the others returned the same up to order |
| Responses.LateReplyIsPart | internal/service/message_handler.go:163-232 | the whole service: a reply, timed out or not, has a part of the UIDs and detections of any reply without error to the same upstream replies, for all interleavings and map orders |
| Responses.ArrivalOrderIrrelevant | internal/service/message_handler.go:168-193 | the same results in any arrival order give the same UIDs, the same detections per UID and the same undisputed slugs |
| Responses.CompleteRunsAgree | internal/service/message_handler.go:168-232 | two replies without error whose sources returned the same up to order agree on UIDs, detections per UID and undisputed slugs, whatever the interleavings |
| SourceResults.RunQuerySource | internal/service/message_handler.go:98-143 | the five Query Service goroutines send what the reply theorems take their sources to send |
| SourceResults.SameRepliesSameOutcome | internal/service/source_writer_auditor.go:111-133 | the same upstream replies give every source the same outcome up to order, whichever way the map is walked |
| SourceResults.SourceCounts | internal/service/source_meeting_attendance.go:96-116 | a successful source gives a project one detection of each of its tokens for every record that calls for it, and no other |
| SourceResults.TwoMeetingsTwoDetections | internal/service/source_meeting_attendance.go:96-116 | so two meetings of one project give it two detections, not one per source |
| Responses.SameRepliesSameAnswer | internal/service/message_handler.go:55-232 | the whole service: the same upstream replies give any two replies without error the same UIDs, detections per UID and undisputed slugs, for all interleavings and map orders |
| Responses.CollectReply | internal/service/message_handler.go:168-205 | the collector over Go slices, receiving what the protocol received, ends with the protocol's reply |
| SourceResults.DetectionsExact | internal/service/message_handler.go:97-155 | a successful source sends exactly the detections that the raw upstream replies call for |
| Responses.ReplyExact | internal/service/message_handler.go:157-232 | the detections of each project of a reply are exactly those that the raw upstream replies call for, by the sources heard |
| Responses.ReplyCounts | internal/service/message_handler.go:222-232 | for each UID and token the reply holds exactly one detection for every upstream record that calls for it if the source was heard, and otherwise none |
| Responses.CdpDetectionAge | internal/service/message_handler.go:236-283 | every cdp_roles detection of a reply is an affiliation that CDP listed, for a member ID it gave, within the cache's age bound, however the flow's request was interleaved with others |

## Left out

- HTTP and NATS transport, the token provider, logging, tracing, configuration and start-up: plumbing over libraries.
- JSON text: a record decodes to its fields or is malformed, a cached value is what the codec makes of it; marshalling never fails for these types.
- Unicode folding, lower-casing and trimming: arbitrary functions, with names equal when their folds are equal.
- Wall-clock budgets: the deadline is a step that may happen at any time.
- Expiry inside the bucket: a read never sees an entry at age ttl or more, and eviction may happen earlier; which keys the store refuses is a parameter.
- The spawning of the two legs or branches inside one source: both results are awaited before use, so a source is modelled from its replies on.
- MergeHeap.MergeProjects: the slice of project headers is a sequence; the code makes it fresh for every merge and shares it with nobody, so only the detection arrays can alias.
- CdpFlow.SourceCdpRoles: each call takes effect at one instant, and a write that comes more than `lag` after its fetch counts as a failed one; `lag` is any bound.
- Responses.ReplyContract: the projects, not the bytes; a nil project list and an empty one are both the empty sequence, as the handler replaces nil before marshalling.
- The logging of failed sources, and the human-readable error messages.
- The `cdp_activity` token, which the service declares but never emits.
