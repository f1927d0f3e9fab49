# mailkit in Dafny

A model of the parts of mailkit that decide things: the recursive SPF count, the
answer cache beneath it, the DMARC tree walk and identifier alignment, the rate
limiter and the provider table. `dafny verify dfyconfig.toml` checks all of it.

- `Text`, `Dnsx`: strings, names, answers and resolvers. A resolver is a function
  from questions to replies; an error is an answer ("no such name") or a failure
  whose text is not empty.
- `SpfTerms`, `SpfTree`: parsing, and the data of an evaluation.
- `SpfTrace`: the reference. A zone is read as a tree of events without any term
  limit; a separate function replays events under the limits.
- `SpfEvaluate`: the evaluator as one mutable object with mutually recursive
  methods, its path a slice that shares its backing array. It asks a resolver or
  a cache and is proved to compute the reference.
- `SpfCost`, `SpfShape`, `SpfSummary`, `SpfVerdict`, `SpfLimits`: what the
  reference guarantees for every zone, domain and limit.
- `SpfRecords`: the same from the outside: what a record as written and a reply as
  given come to, term by term, stated without the functions evaluation decides by.
- `CacheState`, `Caching`, `SingleFlight`: the entry map, the cache object for one
  caller at a time, and the concurrent protocol with one step per critical
  section.
- `CachedSpf`: evaluator and cache together.
- `TreeWalk`, `Alignment`: the walk as functions of a zone, and the source's loops
  and memories over lookups that may fail at any time.
- `RateLimit`, `Providers`: the slot scheduler and the suffix matcher.

Some statements of the repository do not hold as written. Each has inputs that
show it and the condition under which it does hold.

- Caching is meant never to lower a count (dnsx/cache/cache.go:15). The
  cache normalizes a name the evaluator has normalized already, and
  normalization is not idempotent: `include:www.www.x` is asked as `www.x`
  directly and as `x` through the cache. For a value v that a record can hold,
  no zone whose other names are in normal form loses a lookup if and only if
  the normal form of v is its own normal form
  (`CachedSpf.NothingIsLostExactly`); it is not for any name behind `www.www.`
  (`CachedSpf.TwiceWww`). Otherwise there is a zone counted 2 without
  the cache and 1 with it (`CachedSpf.CachingCanReduceTheCount`). Where every
  name in the zone is in normal form the whole result is the same
  (`CachedSpf.CanonicalZoneIsTransparent`).
- A cache is meant to trace when what it wraps does
  (dnsx/cache/cache.go:103-104). It always does, and over a resolver that cannot
  trace every evaluation ends in a temporary error before its first node:
  `CachedSpf.CacheOverPlainResolver`.
- The limiter is meant as a ceiling on the rate of queries (dnsx/ratelimit.go:10).
  It spaces slots, and the interval is a truncated division, so qps is a ceiling
  on the slots of a second if and only if it divides 10^9
  (`RateLimit.CeilingExactly`). On the queries themselves it is one if and only
  if, besides, every caller comes at its slot to the nanosecond: one late caller
  and the prompt ones after it make qps+1 within a second
  (`RateLimit.QueryCeilingExactly`). Lateness bounded by some delay lets a second
  hold no more queries than the slots of a window longer by that delay
  (`RateLimit.QueriesComeFromSlots`).
- The published flag of the alignment walk is meant to say whether any record
  governs a name (mailauth/align.go:37-43, 122-131). The organization is a string
  and "" stands for none selected, so the flag is false for the empty name when
  the record at `_dmarc.` does not state psd. It is right if and only if the name
  is not empty, or has no record, or its record states psd
  (`TreeWalk.PublishedExactly`).
- A MAIL FROM rule answers for its own label and vendor (provider/provider.go:268-271).
  The two are joined with a bar that either may contain, so a rule for `a` on
  `b|c` also answers for the label `a|b` on `c`. Every table gives the answer
  due if and only if the two keys tried read as no other rule's
  (`Providers.MailFromIsDueExactly`), as they do when neither label nor vendor has
  a bar (`Providers.NoBarNoClash`); `a|b` on `c` does clash
  (`Providers.BarsCanClash`).
- `OverTermLimit` and the recorded reason agree for limits of at least zero
  (`SpfVerdict.UnknownIsNeverAVerdict`) and come apart for every negative one
  (`SpfVerdict.NegativeLimit`).

## Model

| member | source | states |
|---|---|---|
| SpfTerms.ParseRecord | spf/terms.go:75-85 | the loop over fields yields one term per field after the version token, none for a string that is not an SPF record |
| SpfTerms.MechanismRoundTrip | spf/terms.go:87-123 | name ":" value is a mechanism whose value is kept verbatim, "=" included |
| SpfTerms.QualifiedRoundTrip | spf/terms.go:87-123 | the same with each qualifier in front |
| SpfTerms.WrittenMechanism | spf/terms.go:87-123 | any mechanism as written, bare, with a value or with a prefix length, under any qualifier or none, reads as its name in lower case, its qualifier ("+" for none) and its value, which only a colon brings |
| SpfTerms.ModifierRoundTrip | spf/terms.go:93-100 | name "=" value is a modifier and keeps colons in its value |
| SpfTerms.ParseRoundTrip | spf/terms.go:75-85 | reading back a record written from raw terms gives those terms |
| SpfTerms.SelectRecords | spf/terms.go:131-139 | the loop returns the v=spf1 strings of the answer, trimmed, in order, and nothing else |
| SpfTerms.RecordsAreTheSpfStrings | spf/terms.go:124-139 | what the reference scan picks stands, in order, at exactly the positions of the strings whose first field is the version |
| SpfRecords.SpfStringExactly | spf/terms.go:131-139 | a string is an SPF record exactly when its first word is v=spf1, in any case |
| SpfRecords.RecordReads | spf/terms.go:75-85 | a record written from raw terms is one SPF record and reads as those terms |
| SpfRecords.FieldsRead | spf/terms.go:75-85 | words are told apart by any run of white space, before the first and after the last too |
| Dnsx.NormalizeUndoes | dnsx/dnsx.go:136-157 | normalizing takes the host out of blanks, a scheme, a user, a port, a path, a trailing dot and one leading "www.", in lower case |
| Dnsx.BracketsStay | dnsx/dnsx.go:151-153 | a bracketed address keeps its colons |
| SpfCost.CountedIsCosted | spf/evaluate.go:103-170 | the left-to-right scan spends exactly the costing mechanisms before the first "all", and the last redirect when there is no "all" |
| SpfRecords.WrittenRecordCosts | spf/terms.go:32-57 | the true cost of a record as written is the sum over its terms: one for each include, a, mx, ptr and exists with no "all" before it and for the last redirect when there is no "all", and what an include or that redirect leads to; nothing for any other term |
| SpfRecords.OneTermCosts | spf/terms.go:32-57 | a record of one term costs 1 for a, mx, ptr and exists, 1 and what its target costs for include and redirect, and 0 for every other mechanism or modifier, whatever its qualifier, value or length |
| SpfRecords.WrittenRecordIsCounted | spf/evaluate.go:99-171 | and that sum, cut off at one past the limit, is the count the evaluation reports |
| SpfEvaluate.Append | spf/evaluate.go:224 | appending to a slice, in place or by copying, leaves the names the caller sees as they were |
| SpfEvaluate.State.Records | spf/evaluate.go:313-349 | classifies the TXT answer of a tracing or a plain resolver; a failure is recorded and is no answer |
| SpfRecords.PublishedByReply | spf/evaluate.go:313-349 | a failed reply is no answer, a name that does not exist has no record, and otherwise there is none, one or several as the answer has none, one or several SPF strings |
| SpfEvaluate.State.IsVoid | spf/evaluate.go:275-310 | tells void, non-void and unanswered lookups apart for both kinds of resolver |
| SpfEvaluate.State.Terminal | spf/evaluate.go:228-264 | one non-recursive mechanism has exactly the effect the reference gives it, in every field and in the questions asked |
| SpfRecords.AddressTermLeaves | spf/evaluate.go:228-310 | the whole state after a written a, mx, ptr or exists: mx asks an MX question and a and exists an A question about the value or the own name, void exactly for a name error, no such name or an empty success; ptr and macros ask nothing |
| SpfRecords.FollowedTermLeaves | spf/evaluate.go:174-225 | the whole state after a written include or redirect, before what lies below: no target, a cycle, too deep, a record, no usable record, no answer |
| SpfRecords.TermOverTheLimit | spf/evaluate.go:111-171 | the whole state after a term over the limit: nothing asked, one limit node, none for a redirect |
| SpfEvaluate.State.Descend | spf/evaluate.go:174-225 | following an edge of the zone from the end of a duplicate-free path has the effect of its event and then of replaying all that lies below it, and gives the path back unchanged |
| SpfEvaluate.State.Walk | spf/evaluate.go:99-171 | evaluating a record equals replaying its unlimited event tree under the limits, from any state, for any resolver; on every call the path is duplicate-free, a chain of include and redirect edges from the root, depth+1 names long, ending in the domain whose one record is being read, and it is unchanged in the shared array afterwards |
| SpfEvaluate.Evaluate | spf/evaluate.go:33-70 | the whole evaluation, direct or through a cache in any coherent state, is the reference evaluation of what it sees; through a cache no more questions reach the wire than are asked |
| SpfRecords.RootLeaves | spf/evaluate.go:33-70 | the whole result when the domain has no one record, and its own record and first node when it has |
| SpfCost.SpentIsCost | spf/evaluate.go:90-98 | the events of a depth-cut tree never exceed the plain recursive cost, and equal it when nothing was cut; a diamond counts twice, a name on its own path adds nothing |
| SpfCost.BudgetRefinement | spf/evaluate.go:99-225 | with depth limit at least the term limit, Terms is the true cost cut off at one past the limit, TermsExact says exactly whether it is the true cost, the depth limit is never why evaluation stops, and a failed lookup leaves a lower bound |
| SpfCost.TermsIsALowerBound | spf/tree.go:120-128 | under any depth limit Terms is at most the true cost and at most one past the term limit, and is the true cost whenever it is marked exact |
| SpfShape.EvaluationShape | spf/evaluate.go:81-225 | the node log is a preorder tree: Seq is the index, TermAt strictly increases, Depth is at most TermAt, every node's parent is the nearest earlier record one level up, and nodes are at most one more than terms; a target is logged as a cycle exactly when it is the target of a record above it, so never for a diamond; every reported cycle is a chain of zone edges repeating only its last name |
| SpfSummary.SummariesMatchTheLog | spf/evaluate.go:182-220 | Broken, Void, MaxDepth and the cycle targets are what the node log shows, and Includes is the targets of the include and redirect nodes within the limit, where each was first reached |
| SpfSummary.FirstVisitsAreInOrder | spf/tree.go:140 | those targets are listed once each, nothing else is, and the list for a prefix of the log is a prefix of the list |
| SpfSummary.AllIsReachedOrAbsent | spf/evaluate.go:124-131 | the root's all qualifier is reported exactly when evaluation got as far as reading it |
| SpfRecords.WrittenAll | spf/evaluate.go:124-131 | that qualifier is the one written before the first "all", "+" when none is |
| SpfVerdict.UnknownIsNeverAVerdict | spf/tree.go:150-167 | at most the last question failed, and then TempError is set, TermsExact is false and nothing is said about the limit; OverTermLimit holds exactly when that is the recorded reason; every Broken entry rests on an answer; questions are at most one more than terms and one more than the limit |
| SpfVerdict.ReasonNamesTheFault | spf/tree.go:55-63 | the recorded reason is a fault the result shows: more voids than the limit, a broken target, more terms than the limit, a term that left no node, several records at the root; and with no reason recorded there is none of them |
| SpfVerdict.NegativeLimit | spf/tree.go:165-167 | a negative limit is exceeded by a domain without a record while no reason is recorded |
| SpfVerdict.FailureIsNotOver | spf/tree.go:159-167 | a domain whose own lookup failed is over no limit, not even a negative one |
| SpfLimits.LimitMonotone | spf/evaluate.go:111-171 | under a higher limit a run counts at least as many terms and voids, repeats the lower one's nodes (less the limit node), broken targets, cycles, includes and questions and goes on, failures included; when the lower limit is not exceeded the results are equal |
| SpfLimits.DepthIsImmaterial | spf/evaluate.go:196-201 | any two depth limits of at least the term limit give the same evaluation in every field and in the questions asked |
| CacheState.LifetimeBounds | dnsx/cache/cache.go:201-218 | a void answer lives for NegativeTTL, any other for its TTL clamped to the two bounds, MaxTTL winning |
| CacheState.DefaultsFillIn | dnsx/cache/cache.go:58-73 | settings that are not positive give way to a minute, an hour, five minutes and 200000 |
| CacheState.StoreIsBounded | dnsx/cache/cache.go:220-246 | from an entry map of any size, storing leaves at most MaxEntries |
| CacheState.SaveAndReload | dnsx/cache/cache.go:365-400 | a file read back later restores exactly the entries reused at least once and still live, unchanged, and writing again gives what the original would |
| CacheState.KeptIsListed | dnsx/cache/cache.go:365-380 | a listing holds exactly the entries served often enough and still live unless that is not asked for, with their own expiry, age, hits and answer |
| CacheState.LoadedExactly | dnsx/cache/cache.go:383-400 | reading a file over any cache gives a question the answer, expiry, hits and age of its last line that is live and has an answer |
| CacheState.LoadedLeaves | dnsx/cache/cache.go:383-400 | and leaves a question without such a line as it was |
| CacheState.SortedListingIsUnique | dnsx/cache/cache.go:474-507 | two sorted exports of one entry map are identical whatever order the map was iterated in |
| CacheState.TextBeforeExactly | dnsx/cache/cache.go:491-497 | names are ordered at their first difference, a name before its extensions |
| CacheState.KeyBeforeExactly | dnsx/cache/cache.go:491-497 | and one name's questions in the order A, MX, TXT |
| Caching.Cache.Get | dnsx/cache/cache.go:182-199 | serves live entries only, counts the hit on the entry, and drops an expired one |
| Caching.Cache.EvictLocked | dnsx/cache/cache.go:230-246 | leaves only live, unchanged entries, at most half the bound, and drops a live one only when half the bound is left; counts each |
| Caching.Cache.Put | dnsx/cache/cache.go:201-226 | stores the answer for its due lifetime, evicting first when full, stays within the bound, and counts a void answer and each entry evicted |
| Caching.Cache.Query | dnsx/cache/cache.go:145-180 | from any coherent state replies what the wrapped resolver would for the normalized name and stays coherent; a live entry is served and its hit counted with nothing asked; otherwise the resolver is asked once and an answer is stored anew for its due lifetime, every counter following, while a failure is not stored |
| Caching.SecondQuestionIsAHit | dnsx/cache/cache.go:145-180 | over two calls: a question answered once is, until that answer expires, answered the same with nothing asked and one hit more, under any name with the same normal form |
| Caching.Cache.WriteTo | dnsx/cache/cache.go:365-380 | writes each entry served at least once and not past its expiry, as it is, once, and no other |
| Caching.Cache.ReadFrom | dnsx/cache/cache.go:383-400 | loads what is live, later lines winning; a file of answers the wrapped resolver gives leaves the cache coherent |
| Caching.Cache.Export | dnsx/cache/cache.go:474-507 | writes what the retention keeps, once each, strictly sorted by name and type |
| SingleFlight.EveryStateIsSafe | dnsx/cache/cache.go:145-270 | in every state of every interleaving from an empty cache the leadership, accounting and provenance invariants hold |
| SingleFlight.NextKeepsLeadership | dnsx/cache/cache.go:250-270 | every step keeps: each key being asked has one channel made by its one leader, and every waiter's open channel has a live leader |
| SingleFlight.NextKeepsAccounting | dnsx/cache/cache.go:182-260 | every step keeps: misses are lookups started plus collapsed plus callers between get and claim, hits are answers served, entries held plus evicted plus found expired are those ever inserted, and the entry bound |
| SingleFlight.NextKeepsNegatives | dnsx/cache/cache.go:201-213 | every step keeps: void answers counted are those returned by their own lookup plus those about to be stored |
| SingleFlight.NextKeepsEntries | dnsx/cache/cache.go:201-226 | every step keeps: each entry's answer was given for that very key, and expires its due lifetime after a store no earlier than that |
| SingleFlight.NextKeepsDeliveries | dnsx/cache/cache.go:182-199 | every answer ever served was given for its key and served no later than its due expiry |
| SingleFlight.NextKeepsConversations | dnsx/cache/cache.go:145-180 | every step keeps: a call that came is under way, cancelled or returned, and only one of these; under way it asks for one key and has in hand only what its own lookup of that key gave |
| SingleFlight.EveryCallReturnsOnce | dnsx/cache/cache.go:145-180 | in every run a call that came and is gone, and was not cancelled, returned exactly one reply: an answer served from memory for its key before that expired, or what its own lookup of its key gave; being woken is never the end |
| SingleFlight.HistoryIsTheRun | dnsx/cache/cache.go:145-180 | who came, was cancelled and looked up is what the steps of the run say |
| SingleFlight.ReturnedMeansStored | dnsx/cache/cache.go:173-178 | a call returns its own lookup's answer only with that answer in store, unserved, for its due lifetime |
| SingleFlight.PutStores | dnsx/cache/cache.go:201-226 | a put stores its answer over what was kept and nothing else |
| SingleFlight.GetServes | dnsx/cache/cache.go:182-199 | a get that finds a live entry returns its answer, counts the hit and starts no lookup; any other leaves the key empty |
| SingleFlight.EveryCallerSeesTheResolver | dnsx/cache/cache.go:145-180 | over a resolver with fixed answers, in every state of every interleaving, each answer stored, each ever served and each reply a caller has returned or is about to is the one the resolver gives for the key it came with |
| SingleFlight.OneLeaderPerKey | dnsx/cache/cache.go:250-260 | at most one lookup of a key is between claim and release |
| SingleFlight.ClosedOnceByItsMaker | dnsx/cache/cache.go:262-270 | release finds its own channel, still open, and closes that one only |
| SingleFlight.NeverStuck | dnsx/cache/cache.go:151-179 | every caller can step, or waits for one that can and is at most three steps from closing |
| SingleFlight.OwnStepsOnly | dnsx/cache/cache.go:262-270 | only its own steps move a caller, and each brings a leader nearer to closing |
| SingleFlight.NothingIsHeldBack | dnsx/cache/cache.go:145-180 | the protocol admits any new call, any outcome of a lookup at any later time, and the cancelling of any waiter |
| SingleFlight.OnlyWhatComesNext | dnsx/cache/cache.go:151-178 | in each phase a call can take its next step only: a waiter goes on only once its channel is closed, unless it is cancelled |
| SingleFlight.FailureStoresNothing | dnsx/cache/cache.go:169-176 | a failed lookup touches no entry from its return to the end of its call |
| CachedSpf.EvaluationIsExact | spf/evaluate.go:275-349 | two resolvers, both tracing or both not, give equal evaluations exactly when they say the same about the domain and about each further question the first is asked |
| CachedSpf.CachingIsTransparentExactly | dnsx/cache/cache.go:145-180 | a cache is invisible in every field of the result exactly when the resolver says the same about each name asked and about that name normalized again |
| CachedSpf.CanonicalNamesAreEnough | dnsx/cache/cache.go:12-21 | caching never changes the result when the names asked are in normal form |
| CachedSpf.CanonicalZoneIsTransparent | dnsx/cache/cache.go:12-21 | in a part of a zone closed under its counted targets, if every name and every name a counted term asks about is in normal form, the result through a cache is the same in every field under any limits |
| CachedSpf.TransparentExactlyWhenCanonical | dnsx/cache/cache.go:149 | for one name, no resolver can be told from itself behind a cache exactly when normalizing leaves the name alone |
| CachedSpf.CachingCanReduceTheCount | dnsx/cache/cache.go:145-180 | for every value a record can hold whose normal form is not its own normal form, a zone counted 2 without a cache and 1 with it |
| CachedSpf.NothingIsLostExactly | dnsx/cache/cache.go:12-21 | for a target, no zone whose other names are in normal form loses a lookup to the cache exactly when normalizing the target again changes nothing |
| CachedSpf.TwiceWww | dnsx/dnsx.go:154-155 | a name behind two "www." is a value a record can hold whose normal form is not its own normal form |
| CachedSpf.CacheOverPlainResolver | dnsx/cache/cache.go:103-148 | behind a cache a resolver that cannot trace is never heard |
| TreeWalk.NamesAreBounded | mailauth/treewalk.go:31-52 | at most eight names for a name of any length, each an ancestor, each after the first the previous one less a label, down to one label |
| TreeWalk.WalkOfAncestor | mailauth/treewalk.go:38-52 | a walk begun at a name of another walk is the rest of that walk, the seven-label shortcut included |
| TreeWalk.OnlyLastDecides | mailauth/treewalk.go:73-94 | no record retrieved but the last states psd |
| TreeWalk.SelectIsReference | mailauth/treewalk.go:107-135 | scanning the retrieved records longest first gives the organization and the record that section 4.10.2 of RFC 9989 describes |
| TreeWalk.OrgWalkIsReference | mailauth/align.go:45-76 | the alignment walk finds that organization, and its published flag is whether the walk retrieved anything, the silent record of the empty name aside |
| TreeWalk.PublishedExactly | mailauth/align.go:72-75 | the flag says whether some name of the walk has a record exactly when the name is not empty, or has no record, or its record states psd |
| TreeWalk.OrgIsAncestor | mailauth/align.go:45-76 | the organization is the name or an ancestor of it |
| TreeWalk.OrgIsConstantBelow | mailauth/align.go:45-76 | every name of a walk from its start up to the organization has the same organization and the same published flag |
| TreeWalk.OrgIsIdempotent | mailauth/align.go:45-76 | the organization of the organization is the organization |
| TreeWalk.PolicyAndAlignmentAgree | mailauth/records.go:206-238 | for a name without a record, discovery numbered from the parent selects the record the walk numbered from the name selects, and reports where it was published; a policy is found exactly when alignment sees one published |
| TreeWalk.AbsenceIsSound | mailauth/records.go:206-238 | no record is reported exactly when every name of the walk definitely has none |
| TreeWalk.OutcomesByReply | mailauth/records.go:206-254 | by the replies themselves: no record exactly when each name of the walk is silent or does not exist; failure exactly when the name has no record and something unreadable comes before any stated psd; a policy in the remaining cases; and the alignment walk fails exactly on something unreadable before any stated psd |
| TreeWalk.TagNamesThePolicy | mailauth/records.go:224-237 | the policy reported is the value of the tag PolicyTag names, and the replaced p is kept exactly when sp replaced it |
| TreeWalk.RelaxedIsSameOrganization | mailauth/align.go:170-191 | relaxed alignment is sameness of organization, contains strict alignment, and on a walk holds exactly from the start to the organization |
| TreeWalk.AlignedByNameAlone | mailauth/align.go:170-181 | for every zone, failures included: strict alignment is sameness of names, a name aligns with itself in either mode, and the empty name with nothing |
| Alignment.Source.LookupTXT | mailauth/align.go:150-159 | a definite answer is the zone's, is remembered, and is not asked again; every other lookup goes out once; failures are not remembered |
| Alignment.Source.LookupDMARCAt | mailauth/records.go:240-254 | a record comes from a published one, nothing from silence or a name that does not exist, an error from what cannot be read or was not answered |
| Alignment.ListNames | mailauth/treewalk.go:38-52 | the loop lists the tree-walk names |
| Alignment.Climb | mailauth/treewalk.go:73-94 | the loop retrieves what the walk of the zone retrieves, or an error if any lookup failed, with at most seven lookups |
| Alignment.Decide | mailauth/treewalk.go:107-135 | the map and the two scans select what the reference scan selects |
| Alignment.WalkOrg | mailauth/align.go:45-76 | without a failed lookup the stateless answer, with one an error, at most eight lookups |
| Alignment.DiscoverPolicy | mailauth/records.go:206-238 | without a failed lookup the stateless policy, with one an error, at most eight lookups |
| Alignment.Aligner.Learn | mailauth/align.go:103-114 | over any history of calls and failures, an answer is the stateless one and is remembered, a failure is not, and a known name asks nothing |
| Alignment.Aligner.Org | mailauth/align.go:117-120 | an answer is the stateless organization |
| Alignment.Aligner.PolicyApplies | mailauth/align.go:132-135 | an answer is whether the stateless walk finds anything published |
| Alignment.Aligner.Check | mailauth/align.go:170-191 | an answer is the stateless alignment, an error means a walk failed; strict mode is sameness, identical names align and the empty name never does, and none of these asks anything |
| RateLimit.Limiter.Reserve | dnsx/ratelimit.go:54-75 | grants the next free moment when it is near enough, and otherwise leaves the schedule exactly as it was |
| RateLimit.EveryStateIsSafe | dnsx/ratelimit.go:54-89 | in every state of every interleaving slots follow back to back or at once, never in the past nor more than 21 intervals ahead, and nobody passes early or on another's slot |
| RateLimit.GrantsAreSpaced | dnsx/ratelimit.go:42-63 | k more grants span at least k intervals |
| RateLimit.BackloggedGrantsAreEven | dnsx/ratelimit.go:62-63 | and exactly k intervals while there is a backlog |
| RateLimit.BacklogIsBounded | dnsx/ratelimit.go:31-34 | at any instant at most 21 granted slots lie ahead, for every interval, zero included |
| RateLimit.GrantedExactly | dnsx/ratelimit.go:54-75 | whoever asks is granted the next free moment exactly when it is at most 21 intervals away, and otherwise backs off one interval |
| RateLimit.RefusedBackOff | dnsx/ratelimit.go:64-73 | in every run a refused caller's next step is to be cancelled or to ask again at least one interval later |
| RateLimit.RefusalsLeaveNoTrace | dnsx/ratelimit.go:64-73 | after any run the next free moment and the slots are what the granted callers alone would have been given, as well as what all the attempts were |
| RateLimit.WindowHolds | dnsx/ratelimit.go:42-63 | no window of any length holds more slots than intervals it takes to fill it |
| RateLimit.QueriesComeFromSlots | dnsx/ratelimit.go:77-88 | when callers come at most a delay after their slots, a second holds no more of them than the slots of a window longer by that delay |
| RateLimit.SecondHolds | dnsx/ratelimit.go:42-88 | and then no more than intervals it takes to fill that window |
| RateLimit.CeilingExactly | dnsx/ratelimit.go:10-34 | no run ever grants more than qps slots within a second exactly when qps divides 10^9 |
| RateLimit.QueryCeilingExactly | dnsx/ratelimit.go:10-88 | no run whose callers come at most a delay late lets more than qps of them through within a second exactly when qps divides 10^9 and the delay is zero |
| RateLimit.CeilingWithinOne | dnsx/ratelimit.go:10-34 | up to 31622 queries a second no run grants more than qps+1 slots within a second, nor lets more callers through when none is later than an interval less what rounding took |
| RateLimit.NobodyIsEarly | dnsx/ratelimit.go:77-88 | callers let through came no earlier than their slots, which are distinct and an interval apart |
| RateLimit.NobodyIsHeldBack | dnsx/ratelimit.go:54-89 | anyone may arrive or give up at any time, go on once its slot has come and ask again once it has slept |
| RateLimit.OnlyWhatComesNext | dnsx/ratelimit.go:64-88 | a caller with a slot can only go on once it has come, and a refused one only ask again once it has slept, or either give up |
| Providers.Load | provider/provider.go:124-193 | loading succeeds exactly when every entry is identified and usable and no slot is claimed under two IDs, and then the table holds exactly the claims |
| Providers.Enter | provider/provider.go:218-231 | one provider's claims are entered exactly when none is unusable or disputed |
| Providers.TableIsWhatIsWritten | provider/provider.go:124-193 | a loaded table has a slot of a kind exactly when some provider has that suffix, selector, key hash or rule written down for that kind, and then under its ID |
| Providers.ClaimsAreWritten | provider/provider.go:137-190 | what a provider claims under each kind is what it has written down for it, and a claim is unusable exactly when something written is |
| Providers.LoadsExactly | provider/provider.go:130-190 | a table loads exactly when every entry has an ID, a name, one of the seven categories and only usable entries, and no two IDs write down the same |
| Providers.OrderDoesNotMatter | provider/provider.go:124-193 | any order of a table loads alike and puts the same ID in every slot |
| Providers.ShorteningsAreSuffixes | provider/provider.go:288-303 | shortening at dots visits exactly the label-boundary suffixes |
| Providers.Lookup | provider/provider.go:288-303 | returns the longest label-boundary suffix the table has, and nothing exactly when it has none |
| Providers.MatchesDoNotDependOnOrder | provider/provider.go:288-303 | every name is matched by the same key and the same ID under any order of the table |
| Providers.MatchMailFrom | provider/provider.go:268-279 | for a loaded table and keys that read as no other rule's, a provider is found exactly when one has a usable rule for the label on the underlying vendor or on any, the specific rule wins, and the ID is that of every provider with such a rule |
| Providers.MailFromIsDueExactly | provider/provider.go:180-189 | every table that loads answers so exactly when neither key tried can be split at another bar into a usable rule |
| Providers.KeyIsTheirsExactly | provider/provider.go:185 | the key of a label and a vendor is claimed through their own rules only, exactly under that condition |
| Providers.NoBarNoClash | provider/provider.go:185 | a label and a vendor without bars have a key that reads as theirs only |
| Providers.BarsCanClash | provider/provider.go:185 | a label with a bar in it can share its key with a rule for another label and vendor |
| Providers.DueInAnyOrder | provider/provider.go:272-279 | the ID found is the same in any order of the table |

## Left out

- Unicode: white space and lower case are ASCII, so other Unicode spaces separate nothing and other letters keep their case.
- SpfEvaluate.Evaluate: does not model PermDetail and the address caps MaxMXAddrs and MaxPTRAddrs, which evaluation never reads; contexts appear only as lookups that fail.
- Caching.Cache.Query: one caller at a time, so the branch that waits for another caller's lookup is in SingleFlight only; the class and the protocol share the functions on entries, not code.
- Caching.Cache.Export: the standard library's sort is an insertion sort here, and JSON, byte counts and the Kind label are not modelled.
- LookupTXT, LookupMX, LookupHost, LookupAddr, Observed and Len of the cache, which reshape a Query, pass it through or read the map.
- CachedSpf.CacheOverPlainResolver: the words that surround an error's own text when it is printed are not modelled, here or elsewhere.
- SingleFlight.NeverStuck: fairness of the scheduler and the return of inner queries are assumed; a caller may still ask again after being woken, because release comes before put.
- SingleFlight.EveryStateIsSafe: runs start from an empty cache; entries read from a file keep their own expiry and are covered by CacheState.SaveAndReload.
- RateLimit.Limiter.Reserve: the sleeping and the retry around the critical section are steps of the state machine, because a refused caller may retry without end.
- TreeWalk.OrgWalkIsReference: names are label sequences already in lower case, and the empty name; outer dots and two dots in a row, which no host name has, are not modelled.
- Alignment.Source.LookupDMARCAt: the parsing of a DMARC record is abstract; a TXT reply is a record, text that fails to parse, other text, no such name, or no answer.
- Alignment.DiscoverPolicy: the identity of a record, a pointer in the source, is its position in the walk.
- Int64 durations: times and counters are unbounded integers.
- Providers.Load: the seven maps are one map keyed by kind; reading JSON, KeyHash, All, Get and the single reads MatchDKIMSelector and MatchDKIMKey are not modelled.
- publicres, mx, finding, DKIM and SPF record parsing in mailauth, and error-chain inspection in dnsx.
