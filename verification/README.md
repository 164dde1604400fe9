# Marketplace back end: a verified model

A Dafny 4.11 model of the laundry marketplace's booking engine, of its stateful services with a derived
view, and of its money and migration arithmetic, with proofs of what they promise. Run
`dafny verify dfyconfig.toml` here to check everything.

| file | what it models |
|---|---|
| `Wrappers.dfy`, `Sorting.dfy` | nullable values and thrown errors; the stable sort and filter the source takes from JavaScript |
| `PhTime.dfy` | the HH:MM codec and Manila days |
| `Windows.dfy` | the booking-window algebra: merge sweep and two-pointer intersection |
| `Fulfillment.dfy`, `Entitlement.dfy` | handover legs as stored and read; policy, milestone, campaign, ceiling |
| `BookingDay.dfy`, `Calendar.dfy`, `WasherWeek.dfy` | one date resolved; the calendar and the booking gate; a washer's own hours and the weekly summary |
| `BookingRun.dfy`, `BookingGate.dfy` | concurrent bookings as snapshot transactions, with the order status table; the gate inside one |
| `Pagination.dfy` | one page cut from two collections |
| `NotificationFeed.dfy` | read state, the unread badge, mark-all and expiry, interleaved |
| `Kyc.dfy`, `KycRun.dfy`, `KycBadge.dfy`, `KycStore.dfy`, `KycRace.dfy` | the document operations; what every run keeps; the badge as a function of the evidence; the service over its collections; concurrent submissions |
| `Devices.dfy`, `DeviceRun.dfy`, `DeviceStore.dfy`, `DeviceRace.dfy` | device rows and the cache; sequential runs; the service over both; interleaved lookups, writes and cache stores |
| `PolicyPublish.dfy` | merging, checking and publishing a policy by concurrent publishers and readers |
| `Campaigns.dfy`, `CampaignRace.dfy` | how often a campaign is shown, sequentially and under races |
| `Money.dfy`, `LegMigration.dfy` | centavo arithmetic; the leg-split migration |

Services that change stored documents are classes whose fields are the collections. Each operation is also
a function on the stored state, runs are sequences of those functions, and the class methods keep what every
run keeps and state what a caller may rely on. Concurrent protocols
are step functions over a world of stored data and agents in flight, and their results hold for every
sequence of steps.

## Where the code does less than one would hope

Each of these is a lemma, with the exact condition where there is one.

- The leg-split migration is said to turn nothing off, because the reader falls back on the retired field.
  That field is no path of the schema, and loading fills a missing leg with true, so the fallback never
  fires (`LegMigration.ShimNeverFires`): a provider who had refused both legs is offered with both until the
  migration withdraws them. A resolved day changes exactly when the block deciding its legs is migrated and
  carries a legacy refusal with a leg left open (`LegMigration.AnyMixMeansTheSameExactly`,
  `LegMigration.LegacyRefusalIsOfferedUntilMigrated`).
- Two overlapping mark-alls of one account can move the watermark backwards and turn a read branch row
  unread: the write is unconditional, and it is safe for every feed exactly when the stored watermark is
  not later (`NotificationFeed.CursorWriteSafeExactly`, `NotificationFeed.OverlappingMarkAllsUnread`).
  With no backward write, read is permanent.
- A device update may carry a new token, and only the old token's cache entry is dropped. A stale refusal
  is left exactly when an authorized device moves onto a token whose refusal is cached
  (`DeviceRun.UpdateCoherentExactly`).
- A supersession drops the cached answers of the devices it looked up, but its update re-runs the filter: a
  device that signs in between the two is signed out in its row and still let in by the cache, with nobody
  left at work (`DeviceRace.MissedExactly`, `DeviceRace.SignedOutAndStillServed`).
- Unblocking supersedes nobody, so it is the one owner action that can leave a staff member two authorized
  devices (`DeviceRun.UnblockKeepsAtMostOneExactly`).
- A healthy publish is lost exactly when something is live again at its create; with no second publisher
  archiving in between, exactly when a reader seeds a fresh version 1 there
  (`PolicyPublish.PublishSurvivesExactly`, `PolicyPublish.LostExactlyWhenSeeded`). The rules published
  before are then gone too (`PolicyPublish.PublishedRulesLost`).
- A publish input may carry an explicit null. A null daily capacity passes the coherence check (null
  compares as 0) and leaves a washer without a milestone uncapped (`Entitlement.CapacityIsNullExactly`); a
  null advance window makes a coherent policy read as capped (`Entitlement.CoherentPolicyAloneIsNotCapped`).
- A malformed time passes the coherence check, since NaN compares false; the day keeps a bookable minute
  exactly when one of its windows is well formed (`PolicyPublish.OpenDayHasMinutesExactly`). The GraphQL
  input classes reject malformed times before that.
- The comments call the platform's universal week the outer bound of a washer's hours. A date override
  with windows replaces hers outright, so every minute outside the bound can be offered again
  (`WasherWeek.OverrideStaysInsideExactly`, `WasherWeek.OverrideEscapesUniversalWeek`).
- Claiming single documents can split a case between two reviewers
  (`KycRun.DocumentClaimSplitsExactly`); claiming whole cases cannot.
- Of two concurrent submissions of one type both stay live exactly when the second looked before the first
  was created (`KycRace.TwoStayLiveExactly`, `KycRace.TwoLiveDocuments`).
- Doing better can demote a provider: exactly when nothing was earned before and every tier earned now ranks
  below the first active default (`Entitlement.DemotionExactly`).
- A verified badge outlives its evidence: it is not derived again when a document expires
  (`KycBadge.BadgeDriftsExactly`).
- Two showings per half hour is the bound only for requests that finish within the retention less the floor;
  a later one inserts after its bucket's row is swept (`CampaignRace.LateRequestsExceedTwo`).

## Assumptions

- A calendar date is its day number; the source compares ISO date texts, which agree in order for
  four-digit years. Instants are integer milliseconds. Percentages, weights, rates and ratings are reals,
  so binary rounding of such a number before it is used is not modelled.
- A null where the source expects a number acts as 0 in comparisons and sums, as in JavaScript.
- A unique index refuses the second insert; document ids are never reused; a transaction that meets a
  counter changed since its snapshot aborts, and its retry is a new transaction. A missing counter reads 0,
  so two first bookings of a date conflict too.
- Each query of the merged page returns a prefix of one fixed newest-first order of its collection.
- Clocks do not run backwards.
- Loading a document fills a missing field with its schema default, leaves an explicit null, and hides a
  field the schema does not name.
- Campaigns keep the frequency they were created with.

## Model

| member | source | states |
|---|---|---|
| PhTime.ParseOfFormat | src/common/utils/ph-time.util.ts:71-85 | decoding an encoded minute gives it back, modulo one day |
| PhTime.FormatOfParse | src/common/utils/ph-time.util.ts:71-85 | encoding a decoded text gives its two-digit spelling; one leading zero is all that is lost |
| Windows.NormalizeWindows | src/booking-availability/availability-resolution.util.ts:267-288 | the sweep returns the canonical list and keeps exactly the offered minutes |
| Windows.NormalizeExact | src/booking-availability/availability-resolution.util.ts:261-288 | normalizing keeps every minute, adds none, and yields sorted windows separated by a gap |
| Windows.SeparatedUnique | src/booking-availability/availability-resolution.util.ts:261-288 | a set of minutes has one sorted, separated list of spans |
| Windows.CanonicalUnique | src/booking-availability/availability-resolution.util.ts:261-288 | two canonical window lists offer the same minutes if and only if they are equal |
| Windows.NormalizeDecidesSameMinutes | src/booking-availability/availability-resolution.util.ts:267-288 | two lists normalize alike if and only if they offer the same minutes |
| Windows.NormalizeInputOrder | src/booking-availability/availability-resolution.util.ts:267-288 | input order does not matter and normalizing twice is normalizing once |
| Windows.IntersectWindows | src/booking-availability/availability-resolution.util.ts:91-119 | the two-pointer loop returns a canonical list of exactly the minutes in both inputs |
| Windows.IntersectExact | src/booking-availability/availability-resolution.util.ts:84-119 | the intersection offers a minute if and only if both lists do |
| Windows.IntersectCommutes | src/booking-availability/availability-resolution.util.ts:91-119 | intersection is commutative as an equality of lists |
| Windows.IntersectAssociates | src/booking-availability/availability-resolution.util.ts:91-119 | intersection is associative as an equality of lists |
| Windows.IntersectIdempotent | src/booking-availability/availability-resolution.util.ts:91-119 | a list intersected with itself is its normal form |
| Windows.IntersectRespectsMinutes | src/booking-availability/availability-resolution.util.ts:91-119 | only the minutes of an argument matter, not its order, overlaps or spelling |
| Entitlement.ResolveMilestoneExact | src/booking-policy/entitlement.util.ts:66-90 | highest earned rank wins, else the default, else the lowest active rank; none only when none is active |
| Entitlement.DemotionExactly | src/booking-policy/entitlement.util.ts:73-121 | better statistics lower the resolved rank if and only if nothing was earned, something is now, and all of it ranks below the first active default |
| Entitlement.BetterStatsNeverLowerRank | src/booking-policy/entitlement.util.ts:73-121 | where no tier ranks below the default in use, better statistics never lower the resolved rank |
| Entitlement.DefaultAboveATierDemotes | src/booking-policy/entitlement.util.ts:73-90 | a concrete ladder where the default outranks a tier and better statistics demote |
| Entitlement.NextMilestoneIsNext | src/booking-policy/entitlement.util.ts:278-292 | the next milestone is the lowest one above the current rank, and meeting it lifts a provider at least that far |
| Entitlement.ComputeEntitlement | src/booking-policy/entitlement.util.ts:175-276 | the campaign loop with its trace computes the pipeline's fold |
| Entitlement.EntitlementBoundedAndTraced | src/booking-policy/entitlement.util.ts:232-276 | for all milestones and campaigns the result is within the safety limits and is the last traced step |
| Entitlement.CapacityIsNullExactly | src/booking-policy/entitlement.util.ts:195-248 | capacity is null if and only if the provider is no washer, or her default is an explicit null and she has no milestone |
| Entitlement.CoherentPolicyAloneIsNotCapped | src/booking-policy/entitlement.util.ts:246-260 | a coherent policy alone is not capped, unless its advance window is an explicit null |
| Entitlement.SimulatedStatsMeetExactly | src/booking-policy/booking-policy.service.ts:588-598 | the synthetic provider of any milestone meets it if and only if its cancellation limit is not negative |
| Entitlement.SimulationMeetsItsMilestone | src/booking-policy/booking-policy.service.ts:575-612 | for every key, the tier is earned exactly when active, not the default and its limit not negative; then it or a higher one is shown, else never it unless as the floor |
| BookingDay.NoticeGateExact | src/booking-availability/booking-availability.service.ts:729-777 | the notice check passes if and only if some minute in the windows, ends included, is late enough and not past |
| BookingDay.BookableExactlyInInterval | src/booking-availability/booking-availability.service.ts:612-780 | with everything else fixed, a date is bookable exactly in one half-open interval of time, whose ends are given |
| BookingDay.NormalizedDay | src/booking-availability/availability-resolution.util.ts:217-243 | a resolved day's windows are always in canonical form |
| Calendar.CalendarDayIsGateDay | src/booking-availability/booking-availability.service.ts:546-597 | a day of a multi-day calendar, read through shared queries, is the day the gate resolves alone |
| Calendar.CalendarDayIsDayAvailability | src/booking-availability/booking-availability.service.ts:546-606 | a day of a multi-day calendar equals the single-day availability while the entitlement is constant |
| Calendar.PreviewEqualsEnforcement | src/booking-availability/booking-availability.service.ts:599-670 | a date shows bookable if and only if the gate refuses it on no day or capacity ground, and books it if and only if the handover is offered too |
| Calendar.SharedReadsAgree | src/booking-availability/booking-availability.service.ts:579-596 | the span's override map, blackout list and grouped count, read at one date, are that date's own |
| Calendar.SlotCounters.AssertDayBookable | src/booking-availability/booking-availability.service.ts:791-882 | the verdict is the gate's, and the counter of that branch and date grows by one exactly when it books |
| WasherWeek.WeeklyFromOperatingHours | src/booking-availability/availability-resolution.util.ts:161-208 | the loop projects every weekday, each from its own hours, stored legs and universal day |
| WasherWeek.ProjectedMinutes | src/booking-availability/availability-resolution.util.ts:173-203 | the projected windows offer exactly her minutes inside the universal bound |
| WasherWeek.ProjectedDayAccepts | src/booking-availability/availability-resolution.util.ts:190-203 | a projected day accepts bookings if and only if she is open and some permitted minute remains |
| WasherWeek.WasherDayOffersOnlyPermitted | src/booking-availability/availability-resolution.util.ts:217-259 | resolved without an override, an accepting projected day offers exactly the permitted minutes and keeps the stored legs |
| WasherWeek.OverrideStaysInsideExactly | src/booking-availability/availability-resolution.util.ts:223-240 | with any override, an accepting projected day stays inside the permitted minutes if and only if the override has no windows or only permitted ones |
| WasherWeek.OverrideEscapesUniversalWeek | src/booking-availability/availability-resolution.util.ts:223-240 | every minute the universal week forbids is offered by some override of the date |
| WasherWeek.ElevenAtNightEscapes | src/booking-availability/availability-resolution.util.ts:223-240 | a concrete platform week and override offering eleven at night outside it |
| WasherWeek.DailyLimitCappedAndSummarized | src/booking-availability/availability-resolution.util.ts:47-51 | no daily limit exceeds the entitlement, and on a projected day it is the number the summary computes separately |
| WasherWeek.CollapseRuns | src/booking-availability/availability-resolution.util.ts:354-375 | the summary lines tile the days in order, say what their days say, and are as long as possible |
| BookingRun.ReleasedStaysReleased | src/online-orders/schemas/order-status.enum.ts:197-300 | no transition takes an order from a slot-releasing status to a slot-holding one |
| BookingRun.CommitIsAdmittedByTheTruth | src/booking-availability/booking-availability.service.ts:862-881 | a transaction that commits had, at that moment, a free place, although it tested an old count |
| BookingRun.NeverOverbooked | src/booking-availability/booking-availability.service.ts:818-881 | in any interleaving with status changes, held orders never exceed the limit and the counter is exactly the orders ever placed |
| BookingRun.WithoutTheCounterTwoTakeOnePlace | src/booking-availability/booking-availability.service.ts:869-879 | without the counter's write conflict two bookings take one place; with it one does |
| BookingGate.CountIsHeld | src/booking-availability/booking-availability.service.ts:975-1012 | the count over the order rows is the number of orders holding the slot |
| BookingGate.GateIsCheck | src/booking-availability/booking-availability.service.ts:818-881 | on its snapshot the gate's capacity answer is the transaction's own test: booked is reserved, fully booked is dropped |
| Pagination.PageIsExact | src/kyc/kyc.service.ts:1361-1480 | the page from two bounded queries is the page from both whole collections sorted together |
| Pagination.PagesCoverUnionOnce | src/kyc/kyc.service.ts:1328-1337 | consecutive pages show every row of the union once, newest first |
| Pagination.SummariesAreExact | src/kyc/kyc.service.ts:1358-1489 | a response is the requested stretch of the filtered union, with its total, and short only at the end |
| NotificationFeed.NotificationsFeedService.PersistRow | src/notifications/notifications-feed.service.ts:111-139 | one row per event; a new row is visible to its audience alone, unread in the feed and in the badge unless a watermark is past it, and nothing else changes |
| NotificationFeed.NotificationsFeedService.ResolveReadState | src/notifications/notifications-feed.service.ts:253-284 | the page's map says of each row exactly whether it is read |
| NotificationFeed.NotificationsFeedService.MarkNotificationRead | src/notifications/notifications-feed.service.ts:423-457 | exactly a visible row is marked, it is read afterwards, and nothing else changes |
| NotificationFeed.NotificationsFeedService.MarkAllNotificationsRead | src/notifications/notifications-feed.service.ts:467-493 | every row created by then is read afterwards, through the three stored writes |
| NotificationFeed.BadgeMisses | src/notifications/notifications-feed.service.ts:354-410 | the aggregation misses exactly the unread direct rows that carry a read record |
| NotificationFeed.BadgeRefinesFeed | src/notifications/notifications-feed.service.ts:354-410 | in every reachable state the badge is min(99, visible rows shown as unread) |
| NotificationFeed.StepKeepsRead | src/notifications/notifications-feed.service.ts:449-493 | no single write, deletion or expiry turns a read unexpired row unread, unless a watermark moves backwards |
| NotificationFeed.ReadIsPermanent | src/notifications/notifications-feed.service.ts:467-493 | over any run whose watermarks do not move backwards, a read row stays read while visible |
| NotificationFeed.UninterruptedMarkAllAdvances | src/notifications/notifications-feed.service.ts:467-475 | a mark-all that is not overlapped never moves a watermark backwards |
| NotificationFeed.CursorWriteSafeExactly | src/notifications/notifications-feed.service.ts:469-475 | the watermark write keeps every read row read, in every feed, if and only if the stored one is not later |
| NotificationFeed.OverlappingMarkAllsUnread | src/notifications/notifications-feed.service.ts:467-475 | a concrete run of two overlapping mark-alls turns a read branch row unread |
| Kyc.LatestDocumentsByType | src/kyc/kyc.service.ts:393-409 | the loop keeps the first live document of each type, newest first |
| KycStore.KycService.SubmitDocument | src/kyc/kyc.service.ts:415-573 | the new document replaces and links to the newest of its type, stands undecided and unexpired as its evidence, and the badge is the pure derivation over what is stored |
| KycStore.KycService.ClaimCaseForReview | src/kyc/kyc.service.ts:864-924 | succeeds exactly on a free case of somebody else; then exactly the open documents are hers and nobody else holds any |
| KycStore.KycService.ReleaseCaseOf | src/kyc/kyc.service.ts:927-962 | exactly the documents she has under review return to the queue; nothing decided or superseded is touched |
| KycStore.ReleaseUndoesClaim | src/kyc/kyc.service.ts:864-962 | claiming an untouched case and releasing it restores the store |
| KycStore.KycService.ClaimDocumentForReview | src/kyc/kyc.service.ts:964-1003 | succeeds exactly on an open document of somebody else that no other reviewer holds, which is then hers and alone changed |
| KycStore.KycService.ApproveDocument | src/kyc/kyc.service.ts:1026-1070 | succeeds exactly on an open document of somebody else; it becomes its type's approved evidence, and only its provider's badge is derived anew |
| KycStore.KycService.RejectDocument | src/kyc/kyc.service.ts:1106-1160 | succeeds exactly on an open document of somebody else; it becomes its type's rejected evidence, and a required type refuses the provider |
| KycRun.NextKeepsInv | src/kyc/kyc.service.ts:497-553 | every operation keeps claimed-iff-under-review, one live document per type and the chain, and changes old documents only as allowed |
| KycRun.EveryRunIsChained | src/kyc/kyc.service.ts:494-553 | after any sequential run the supersedes links of a type form one chain through its submissions in order |
| KycRace.LiveExactlyWhenNobodyLookedAfter | src/kyc/kyc.service.ts:494-553 | in any interleaving of submissions, a document stays live if and only if none of its type looked after it was created |
| KycRace.TwoStayLiveExactly | src/kyc/kyc.service.ts:494-553 | two submissions both stay live if and only if the second looked before the first was created |
| KycRace.TwoLiveDocuments | src/kyc/kyc.service.ts:494-553 | a concrete interleaving that leaves two live documents of one type |
| KycRun.DecidedStaysDecided | src/kyc/kyc.service.ts:926-950 | over any run a superseded document never changes and a decided one is never reopened |
| KycRun.CaseClaimsHaveOneHolder | src/kyc/kyc.service.ts:853-924 | runs that claim only whole cases have at most one holder per provider |
| KycRun.DocumentClaimSplitsExactly | src/kyc/kyc.service.ts:981-993 | a single-document claim leaves one holder if and only if nobody else holds another part |
| KycBadge.LatestIsNewest | src/kyc/kyc.service.ts:393-409 | what the derivation reads for a type is the newest submission of that type |
| KycBadge.ClaimedIsFronts | src/kyc/kyc.service.ts:373-391 | the claimed government ID is the one on the newest front-of-ID document |
| KycBadge.RecomputeAgrees | src/kyc/kyc.service.ts:262-361 | the stored verdict, its time, approver, policy version and reason are those of the pure derivation over the newest submissions |
| KycBadge.ClaimsKeepEvidence | src/kyc/kyc.service.ts:899-950 | claiming and releasing never move a badge |
| KycBadge.BadgeIsFunctionOfEvidence | src/kyc/kyc.service.ts:301-361 | after any run each derived badge is the pure derivation over the documents now stored, as of its last derivation |
| KycBadge.BadgeDriftsExactly | src/kyc/kyc.service.ts:363-371 | with no operation a badge goes stale if and only if it is verified and a required document has expired |
| DeviceStore.DevicesService.SupersedeSiblingDevices | src/devices/devices.service.ts:412-436 | every other active device of that staff loses the session and its cached answer; truth and sessions are kept |
| DeviceStore.DevicesService.RegisterDevice | src/devices/devices.service.ts:115-164 | a taken key is refused; a new device is let in at once for an owner and not for staff, and no other answer changes |
| DeviceStore.DevicesService.ApproveDevice | src/devices/devices.service.ts:264-292 | the device is let in and is its staff member's only one; only siblings' sessions change besides |
| DeviceStore.DevicesService.UpdateDevice | src/devices/devices.service.ts:343-354 | the fields sent are stored, only the two tokens' answers move, and an agreeing cache still agrees under the exact condition |
| DeviceStore.DevicesService.SetBlocked | src/devices/devices.service.ts:302-334 | a blocked device is refused and an unblocked one let in, nobody else's answer moves, and one session is kept exactly when no other is authorized |
| DeviceStore.DevicesService.DeleteDevice | src/devices/devices.service.ts:336-341 | the device is refused from then on and no other answer changes |
| DeviceStore.DevicesService.ClaimActiveDevice | src/devices/devices.service.ts:475-503 | a staff member's approved device becomes the only one let in, its siblings alone losing the session; anything else changes nothing |
| DeviceStore.DevicesService.ResolveDeviceAuth | src/devices/devices.service.ts:367-394 | on an agreeing cache the answer is what the rows say; a computed one is kept for one TTL, no other entry touched |
| DeviceRun.ChangeMovesOnlyOwed | src/devices/devices.service.ts:264-341 | a stored change moves no answer but those whose cache entries its operation drops |
| DeviceRun.UpdateCoherentExactly | src/devices/devices.service.ts:343-354 | update leaves the cache agreeing with the rows if and only if the token is kept, uncached, or the device unauthorized |
| DeviceRun.CacheAgreesWithRows | src/devices/devices.service.ts:367-394 | after any sequential run the gate's answer, cached or not, is what the rows say |
| DeviceRun.ApprovedIsSole | src/devices/devices.service.ts:264-292 | an approved device is its staff member's only authorized one |
| DeviceRun.ClaimedIsSole | src/devices/devices.service.ts:475-503 | so is a successfully claimed one |
| DeviceRun.OneSessionAfterApproval | src/devices/devices.service.ts:264-341 | after approval, any run without an unblock keeps at most one authorized device of that staff |
| DeviceRun.OneSessionAfterClaim | src/devices/devices.service.ts:475-503 | so does any such run after a successful claim |
| DeviceRun.RunKeepsAtMostOne | src/devices/devices.service.ts:412-432 | at most one authorized device per staff is kept by every run without an unblock |
| DeviceRun.UnblockKeepsAtMostOneExactly | src/devices/devices.service.ts:317-334 | unblock keeps at most one if and only if no other device of that staff is authorized |
| DeviceRace.ServedAnswerIsRecentTruth | src/devices/devices.service.ts:367-436 | in any interleaving of lookups, writes, invalidations and stores, a served answer was true of an earlier state, is under one TTL old, and is stale only for one of three reasons |
| DeviceRace.MovesExactly | src/devices/devices.service.ts:264-436 | a write moves exactly the answers read off the rows it meets |
| DeviceRace.MissedExactly | src/devices/devices.service.ts:412-436 | a write changes an answer it will not drop exactly under a key its row did not have at lookup, or for a device that became a sibling after it |
| DeviceRace.UnmissedAnswerOnlyRaces | src/devices/devices.service.ts:367-436 | without such a write only the two races with a write still under way leave a stale answer |
| DeviceRace.SignedOutAndStillServed | src/devices/devices.service.ts:424-436 | a concrete run from an empty store in which a signed-out device is still let in |
| PolicyPublish.PartialPublishesCompose | src/booking-policy/booking-policy.service.ts:59-75 | partial publishes add up: every omitted field survives each one |
| PolicyPublish.AssertPolicyCoherent | src/booking-policy/booking-policy.service.ts:210-264 | the checking loops accept exactly the coherent policies |
| PolicyPublish.OpenDayHasMinutesExactly | src/booking-policy/booking-policy.service.ts:244-263 | an open day of a coherent policy has a bookable minute if and only if a window of it is well formed |
| PolicyPublish.PublishProtocol | src/booking-policy/booking-policy.service.ts:109-208 | in any interleaving at most one LIVE policy, none only between archive and create or rollback, exactly one at rest, all coherent |
| PolicyPublish.UndisturbedPublishStoresMerge | src/booking-policy/booking-policy.service.ts:149-208 | a publisher alone archives the live version and stores the merge as the next one |
| PolicyPublish.PublishSurvivesExactly | src/booking-policy/booking-policy.service.ts:176-208 | whatever others do between archive and create, the merge is stored live if and only if nothing is live by then; else the rollback restores the old version if and only if nothing is |
| PolicyPublish.LostExactlyWhenSeeded | src/booking-policy/booking-policy.service.ts:109-208 | for a publisher alone at its archive and no second archive in the window, the publish is lost if and only if a reader seeds inside it |
| PolicyPublish.SurvivesUnlookedAt | src/booking-policy/booking-policy.service.ts:109-208 | it survives when nobody looks for the live version in the window |
| PolicyPublish.ReaderInTheWindowReseeds | src/booking-policy/booking-policy.service.ts:109-123 | from any store at rest, a reader between archive and create leaves the seed live and the publish lost |
| PolicyPublish.PublishedRulesLost | src/booking-policy/booking-policy.service.ts:109-208 | from an empty store, a run in which a published version is replaced by the seed |
| Campaigns.CampaignsService.TryRecordImpression | src/campaigns/campaigns.service.ts:192-236 | shown exactly when the period is free and, at every app open, the floor has passed since each showing; then one row is added, and at once it is not due again |
| Campaigns.CampaignsService.NextFor | src/campaigns/campaigns.service.ts:124-153 | the campaign returned is the first due one, and exactly one impression is recorded if and only if there is one |
| Campaigns.FirstDueIsDue | src/campaigns/campaigns.service.ts:142-152 | what is shown was due and unrecorded and everything ahead of it was not due |
| Campaigns.ShowingLimits | src/campaigns/campaign-frequency.util.ts:45-91 | over any sequential run with sweeps: once ever, over the floor apart and in other buckets, other days, other weeks |
| CampaignRace.AtMostTwoPerSpan | src/campaigns/campaigns.service.ts:212-248 | in any interleaving a third showing in a half-open 30-minute span comes from a request under way longer than the retention less the floor |
| CampaignRace.LateRequestsExceedTwo | src/campaigns/campaigns.service.ts:212-248 | a concrete run with three showings by such late requests |
| CampaignRace.TwoShowingsAMillisecondApart | src/campaigns/campaigns.service.ts:212-248 | two showings a millisecond apart are reachable across a bucket boundary |
| Money.LoadsAreLeast | src/online-orders/pricing.util.ts:89-102 | the number of loads is the least positive number that holds the weight |
| Money.LoadsSubadditive | src/online-orders/pricing.util.ts:96-102 | splitting a weight never needs fewer loads |
| Money.LineTotalMonotone | src/online-orders/pricing.util.ts:24-87 | a line total never falls with weight when rates are not negative |
| Money.MarkupIsPricePlusFee | src/discovery/discovery.service.ts:110-122 | the marked-up price is the price plus the platform fee on it |
| Money.MarkedUpLinesNearTotal | src/online-orders/pricing.util.ts:104-113 | n marked-up lines stay within (n+1)/2 centavos of subtotal plus fee |
| Money.ClampedWithinCeilingExactly | src/online-orders/fulfillment-pricing.util.ts:125-131 | every clamped fee lies in 0..ceiling if and only if the ceiling is not negative |
| Money.ResolvedFeesWithinCeiling | src/online-orders/fulfillment-pricing.util.ts:84-246 | resolved leg and express fees lie in 0..ceiling, and only an express sub-mode is refused |
| Money.WaiverNeverForgivesSurcharge | src/online-orders/platform-fee-parts.util.ts:23-72 | waivable plus clamped surcharge is the fee, and a waiver up to the waivable part still charges the surcharge |
| LegMigration.Migration.Migrate | src/migrations/split-fulfillment-legs.migration.ts:74-169 | applied, every document is split and the counts are those of the matching ones; dry, nothing changes |
| LegMigration.Migration.MigrateConfigs | src/migrations/split-fulfillment-legs.migration.ts:90-133 | the config loop; at every point of it the configs the service reads differently are exactly the flipping ones migrated so far |
| LegMigration.Migration.MigrateOverrides | src/migrations/split-fulfillment-legs.migration.ts:135-165 | the override loop with its counts and affected ids |
| LegMigration.AnyMixMeansTheSameExactly | src/booking-availability/availability-resolution.util.ts:70-82 | part-way through, whichever documents are migrated, a day as the service loads it is what it was if and only if the block deciding its legs is not migrated or does not flip |
| LegMigration.SplitKeepsLoadedDaysExactly | src/migrations/split-fulfillment-legs.migration.ts:9-20 | a migrated config means the same to the service if and only if no day carries a legacy refusal with a leg left open |
| LegMigration.LoadedLegsKeptExactly | src/booking-availability/schemas/booking-availability-config.schema.ts:84-94 | the loaded legs change if and only if the block flips, and then only by being withdrawn |
| LegMigration.LegacyRefusalIsOfferedUntilMigrated | src/migrations/migrations.spec.ts:692-721 | the legacy refusal of both legs is read as both offered before the migration and as neither after |
| LegMigration.AnyMixOfRawDocuments | src/booking-availability/availability-resolution.util.ts:70-82 | resolved from raw documents, as the shim was written for, every day is what it was at any point of the run |
| LegMigration.SecondRunFindsNothing | src/migrations/split-fulfillment-legs.migration.ts:22-24 | no document keeps the legacy field and a second run matches and changes nothing |
| LegMigration.ChangedExactlyWhenMatched | src/migrations/split-fulfillment-legs.migration.ts:90-133 | a config changes if and only if it matched |

## Left out

- PolicyPublish.PublishProtocol: a rollback fails only on the unique index; a crash or outage between archive and rollback would leave no live policy and is not modelled.
- NotificationFeed.ReadIsPermanent: role and branch resolution behind a scope are a parameter.
- Entitlement.CapacityIsNullExactly: explicit nulls for the same-day switch, the cutoff text and milestone numbers are not modelled.
- KycRun.EveryRunIsChained: runs are sequential; only submissions are also interleaved (KycRace), not reviews with them.
- KycBadge.RecomputeAgrees: the wording of a rejection reason is an opaque text.
- LegMigration.AnyMixMeansTheSameExactly: edits made between the migration's read and its write.
- Money.LineTotalMonotone: binary floating point; numbers are exact reals.
- Campaigns.ShowingLimits: trimming of a session id covers space, tab and line ends only; interactions and promo claims are not modelled.
- File uploads of KYC documents (type, encoding and size checks), the public selfie copy, the audit trail, pushes and the batch review of a case.
- Configuration writers other than the gate's counter: pausing, copying days, override and blackout editing, fee editing.
- The acceptance-time order cap, courier assignment, promotions and the wallet ledger.
- Distances, discovery cards, directory, dashboards and analytics: reads without state of their own.
- Customer-facing texts, except as opaque values in the summary's runs.
