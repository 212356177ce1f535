# Konro: a verified model of its resource manager

Konro places applications on processing units (PUs), adjusts their CPU quota from the feedback they send, and
contains applications that behave suspiciously. This project models that manager and the two bundled libraries it
reads and writes text with (mINI for its configuration, httplib for chunked HTTP bodies), and proves what the code
promises, for all inputs and all runs.

`dafny verify dfyconfig.toml` checks everything.

## What is modelled

| files | subject |
|---|---|
| `CpusetVector`, `CpusetText`, `CpusetGrammar` | sets of PUs as lists of intervals, their text form `1-3,5`, and its language |
| `Topology`, `TopologyPlatform` | distance between PUs: the walk up the tree of hardware objects, and the platform the policies search |
| `PuSearch`, `PuRemoval` | which PU an app is given next, and which one is taken back |
| `Allocation`, `AppMappings` | per-PU counts, app mappings, adding and removing, conservation over runs |
| `ProgressiveModel`, `ProgressiveRuns`, `ProgressiveSpeed`, `PuProgressivePolicy` | the progressive policy: one step, whole runs, how fast they move an app, the object |
| `MinCoresModel`, `MinCoresPolicy` | the minimum-cores policy |
| `ContainmentState`, `SecurityModel`, `SecurityAwarePolicy` | containment of suspicious apps: tracker, effects, the object |
| `Sai`, `SaiTraces` | the EWMA baseline and the composite suspicion index |
| `Pipeline`, `PipelineThreads`, `PipelineLog`, `SystemConservation` | WorkloadManager, the queue and PolicyManager as two threads; what is managed and delivered |
| `IniText`, `IniLines`, `IniMap`, `IniFile` | mINI: lines, the indexed map, reader and generator |
| `IniRewrite`, `IniModel`, `IniLazy`, `IniMeaning`, `IniWriter`, `IniUnchanged`, `IniLayout`, `IniSpacing` | mINI: the lazy writer, what its output means, which lines it leaves alone and how it is laid out |
| `ChunkedCodec`, `ChunkedCuts`, `ChunkedStreams`, `ChunkedTransfer` | chunked transfer coding (section 4.1 of RFC 7230): round trip, broken connections, streams with short reads and writes, any content provider |

Code that changes objects in place is modelled by classes and methods with loops; each is proved equal to a function
of the old state, and the properties are proved about that function. The main results are these.

* **Counts are conserved** (`ProgressiveRuns.Conservation`, `MinCoresModel.Conservation`): after every run each PU's
  count is the number of managed apps on it, if and only if no Add named a pid that was managed at that moment. The
  clamp in `removeApp` never acts. `SystemConservation` carries this through the event pipeline, monitor events with
  loads included, for both policies: at any moment of any interleaving counts are conserved if and only if no re-add
  has been handled (`ConservedExactly`), and once everything published has been handled, if and only if no fork
  reported a managed child (`DrainedConservesExactly`).
* **The band follows the PUs** (`BandFollowsPUs`): an app with n PUs has a band in [(n-1)*100, n*100], always.
* **Progress, exactly** (`BelowLimitRaises`, `EnoughLowFeedbackGivesEverything`): low feedback raises the band if and only
  if it is at least 7; from there it ends with all N PUs at 100*N. A band of 6 or less is truncated back to itself and
  stays for ever, and enough high feedback leads there (`TakenIsNeverGivenBack`).
* **Progress is fast** (`ProgressiveSpeed.ClimbIsFast`, `ProgressiveSpeed.DescentIsFast`): 23 low feedbacks, and 6 for
  each PU after the first, are enough for that, and 20 high ones, and 5 for each, take everything but one PU.
* **The search for a PU** (`PuSearch.NewPUSpec`) and **the choice of the PU to give back** (`PuRemoval.WorstPUSpec`)
  meet full specifications; the cubic search is a row-sum search.
* **Two traces** (`ContainmentState.TwoTraceMonotone`): less suspicious inputs never lead to a more severe state.
  From factors in [0,1] to states this holds for exactly the weights of which none is negative or none is positive
  (`SaiTraces.GentlerExactly`). Recovery takes exactly `s*dwell - c` clear samples. Escalation is immediate and exact
  (`ContainmentState.SampleIsJudged`), and what each state writes is what an app runs with, over any history
  (`SecurityModel.AlertWrites`, `SecurityModel.PlaceFollowsState`).
* **Pipeline simulation** (`Pipeline.EveryInterleavingSimulates`): PolicyManager's set with all pending events applied is
  WorkloadManager's set, in every interleaving, so every dequeued feedback names an app that is held.
* **Everything is delivered, once and in order** (`PipelineLog.AllIsDelivered`, `PipelineLog.ManagedExactly`,
  `SystemConservation.FeedbackReachesPolicy`): in every interleaving PolicyManager is given exactly what forks, requests
  and exits asked for, and managed are exactly the apps that were added and have not exited since.
* **The lazy writer keeps the meaning** (`IniWriter.WritePreservesMeaning`): for any old file, and any data whose new
  items read back from lines of their own, reading the new file gives exactly the wanted sections and keys, and gives
  the wanted values if and only if no changed old value starts with an escaped equals sign. Writing back what was read
  changes only key lines whose value is not the last one of their key (`IniUnchanged.UnchangedDataKeepsLines`, which
  says exactly which).
* **Comments and formatting are preserved** (`IniLayout.CommentsSurvive`, `IniLayout.HeadersInOrder`,
  `IniLayout.BlanksSurvive`, `IniLayout.NewKeysStandWithKeys`, `IniSpacing.ChangedLineKeepsFront`): whatever is written,
  all comments are there in their order, so are the headers that are still wanted and the blank lines, and new keys stand
  with the old ones.
* **Broken connections** (`ChunkedCuts.BrokenOff`): of all proper prefixes of a chunked body the reader takes for
  complete exactly those that end between the CR and the LF that close a chunk, and in every case it has delivered
  exactly the payload bytes that came through.
* **Any content provider** (`ChunkedTransfer.TransferOutcome`, `ChunkedTransfer.TransferAny`): whatever a provider does
  with the sink, the receiver reports success if and only if a `done()` is reached, that is, some call has one and no
  earlier call ends with an empty payload; in either case it is given exactly the payloads written before the first one.
* **The language of cpuset files** (`CpusetGrammar.ItemsAreAccepted`, `CpusetGrammar.AcceptedAreItems`): the parser
  accepts exactly items with commas between them, one more at the end or not.
* **Round trips**: cpuset sets and text, INI files, INI lines (exactly the writable items), chunked bodies.

## Where the code differs from its comments or expectations

* `getLowerUsagePU()` is said to answer a PU already in use as long as there is one
  (`rm/policymanager/policies/puprogressivepolicy.cpp:27-33`). With loads it does if and only if some PU in use has a
  load below INT_MAX, or no PU has one and PU 0 is in use, or none is in use; so always when all loads are below INT_MAX
  (`PuSearch.UsedWithLoads`). When no load is known it takes the least populated PU of all, so it does exactly if all
  PUs are in use or none is (`PuSearch.UsedWithoutLoads`); with counts 1 and 0 it answers the idle PU
  (`PuSearch.IdlePUIsTaken`). The model follows the code.
* Adding a managed pid again raises a count that nothing lowers (`ProgressiveRuns.Conservation`). WorkloadManager checks
  add requests for this but not forks (`Pipeline.ManagedForkReadds`, `Pipeline.ReaddsExactly`).
* A band of 1 to 6 percent cannot grow, and 0 is a dead end (`ProgressiveRuns.BelowLimitRaises`).
* `MinCoresPolicy` never gives anything back while an app is managed (`MinCoresModel.NothingIsGivenBack`).
* A cpuset number above 32767 is accepted and read as another one (`CpusetText.NumbersWrap`). What it is read as prints
  to a text that parses again if and only if the number is at most LONG_MAX and its last 16 bits make less than 32768:
  65536 is read as PU 0, 40000 as a negative number that is refused (`CpusetText.LargeNumbersWrap`).
* `toCpusetVector` of a vector in which a PU is repeated gives that PU two ranges
  (`CpusetVector.ToCpusetVectorOfVector`).
* A content provider whose call ends with an empty payload, before any `done()`, is not called again: the body ends
  without the last chunk and the receiver reports failure (`ChunkedTransfer.TransferOutcome`,
  `ChunkedTransfer.TransferCalls`). A payload written behind a `done()` is sent and never delivered
  (`ChunkedTransfer.BehindDone`).
* A chunk whose data is followed by any line other than an empty one makes the reader stop and report success
  (`lib/httplib/httplib.h:3346`, `ChunkedCuts.OtherLineAfterData`), so a body that breaks off between a CR and its LF
  passes for complete (`ChunkedCuts.BrokenOff`; an input is in `ChunkedCuts.HelloWithoutLF`).
* The weights of the suspicion index are taken from the configuration as they are
  (`rm/src/konromanager.cpp:121-128`); with weights of both signs more activity can mean less suspicion
  (`SaiTraces.UnitOrderKept`, `SaiTraces.NegativeWeightsInvert`).
* mINI puts a changed value behind an old one that starts with an escaped equals sign (`IniRewrite.EscapedValueIsKept`).

## Assumptions

* Every app has a cgroup directory of its own and writes to it do not fail. `SystemConservation` assumes the same of the
  container and kubernetes apps that the pipeline admits.
* A monitor event carries no PU loads or one for every PU; counts, loads and the sum of all pairwise distances are ints.
* `1.15f` and `0.85f` are the exact factors 115/100 and 85/100 with truncation, the throttle share of a level is exact
  percent arithmetic; SAI, thresholds and the EWMA are reals.
* Characters are single code units, letter case is that of the C locale, and files are modelled by their contents.

## Model

| member | source | states |
|---|---|---|
| CpusetVector.ToSet | rm/librmcommon/cpusetvector.cpp:27-36 | the loop returns exactly the numbers covered by the ranges |
| CpusetVector.ToCpusetVector | rm/librmcommon/cpusetvector.cpp:38-52 | the result is sorted, disjoint, non-adjacent and stands for exactly the given set; a set whose least element is -9 is excluded |
| CpusetVector.ToCpusetVectorOfVector | rm/librmcommon/cpusetvector.cpp:71-86 | for a vector in any order, sorted first: its elements are the members, and the ranges are canonical exactly if no element is repeated |
| CpusetVector.RangesAreCanonical | rm/librmcommon/cpusetvector.cpp:38-52 | the ranges the loop builds from a list are sorted, disjoint and non-adjacent exactly if the list ascends without repetitions |
| CpusetVector.RangesHoldTheList | rm/librmcommon/cpusetvector.cpp:38-52 | whatever the list, its ranges cover exactly its numbers |
| CpusetVector.CanonicalUnique | rm/librmcommon/cpusetvector.cpp:38-52 | two sorted, disjoint, non-adjacent lists of ranges for the same set are equal |
| CpusetVector.CanonicalIsFewest | rm/librmcommon/cpusetvector.cpp:38-52 | no list of ranges, whatever its order or overlaps, names the same set with fewer ranges |
| CpusetVector.RoundTrip | rm/librmcommon/cpusetvector.cpp:27-52 | converting a canonical vector of non-negative PUs to a set and back gives the same vector |
| CpusetVector.ToVector | rm/librmcommon/cpusetvector.cpp:60-69 | the loop lists the ranges one after the other |
| CpusetVector.FlattenIsAscending | rm/librmcommon/cpusetvector.cpp:60-69 | a canonical vector flattens to its members, each once, ascending |
| CpusetVector.CountPUs | rm/librmcommon/cpusetvector.cpp:8-15 | the fold computes the count with its partial sums squeezed through a short |
| CpusetVector.CountIsCardinality | rm/librmcommon/cpusetvector.cpp:8-15 | in spite of that squeeze the count of a canonical vector of non-negative shorts is the size of the set |
| CpusetVector.AddPU | rm/librmcommon/cpusetvector.cpp:98-106 | refuses -1 and otherwise inserts the PU, leaving a canonical vector |
| CpusetVector.RemovePU | rm/librmcommon/cpusetvector.cpp:88-96 | refuses -1 and otherwise erases the PU, leaving a canonical vector |
| CpusetText.SetCpusText | rm/platformcontrol/cgroup/controllers/cpusetcontrol.cpp:60-71 | the printing loop of the cpuset controller |
| CpusetText.ToString | rm/librmcommon/cpusetvector.cpp:108-126 | the other printing loop, with its first-item flag, prints the same text |
| CpusetText.ParseCpuSet | rm/platformcontrol/cgroup/controllers/cpusetcontrol.cpp:26-58 | the character loop of the parser accepts exactly the item language and answers its vector, refusing everything else |
| CpusetText.ValueOfDigits | rm/platformcontrol/cgroup/controllers/cpusetcontrol.cpp:26-58 | reading the decimal digits of a number gives the number |
| CpusetText.NextOfItem | rm/platformcontrol/cgroup/controllers/cpusetcontrol.cpp:26-58 | reading one printed item gives it back, or is refused when a bound is negative |
| CpusetText.TextRoundTrip | rm/platformcontrol/cgroup/controllers/cpusetcontrol.cpp:26-71 | parsing a printed vector gives it back exactly when no bound is negative, and is refused otherwise |
| CpusetText.WriteThenRead | rm/platformcontrol/cgroup/controllers/cpusetcontrol.cpp:60-77 | what the controller writes for a vector of non-negative shorts it reads back unchanged |
| CpusetText.NumbersWrap | rm/platformcontrol/cgroup/controllers/cpusetcontrol.cpp:26-58 | every digit text is accepted as one PU; it is read as itself exactly up to 32767, and what it is read as survives printing and parsing exactly if the number is at most LONG_MAX and its last 16 bits are below 32768 |
| CpusetText.LargeNumbersWrap | rm/platformcontrol/cgroup/controllers/cpusetcontrol.cpp:26-58 | two such numbers: 40000 is read as -25536, which prints to a refused text, and 65536 as 0, which survives |
| CpusetGrammar.ItemsAreAccepted | rm/platformcontrol/cgroup/controllers/cpusetcontrol.cpp:26-58 | numbers and ranges of numbers with commas between them, with one more comma behind the last or not, up to the end or a NUL, are accepted and read as what they mean |
| CpusetGrammar.AcceptedAreItems | rm/platformcontrol/cgroup/controllers/cpusetcontrol.cpp:26-58 | every text that is accepted has that form |
| CpusetGrammar.TextIsWritten | rm/platformcontrol/cgroup/controllers/cpusetcontrol.cpp:60-71 | what is printed has it, without the last comma, and a range of one PU is its number |
| CpusetGrammar.DigitsHaveNoPadding | rm/platformcontrol/cgroup/controllers/cpusetcontrol.cpp:60-71 | no number is printed with a leading zero |
| Topology.FindObjByOsIndex | rm/platformdescription/platformdescription.cpp:48-56 | the walk over the PUs finds the first with the OS index, null when there is none |
| Topology.ObjDistance | rm/platformdescription/platformdescription.cpp:116-128 | the loop ends with the number of levels climbed until the chains meet, 10 for a missing object |
| Topology.DistanceMeets | rm/platformdescription/platformdescription.cpp:116-128 | the ancestors that many levels up are the same object and no earlier pair is |
| Topology.LowestCommonAncestor | rm/platformdescription/platformdescription.cpp:116-128 | for equal depth every common ancestor lies equally far above both, and at least the distance |
| Topology.DistanceSymmetric | rm/platformdescription/platformdescription.cpp:116-128 | the distance is symmetric in any tree |
| Topology.ZeroOnlyWhenEqual | rm/platformdescription/platformdescription.cpp:116-128 | the distance is 0 only between an object and itself |
| Topology.Ultrametric | rm/platformdescription/platformdescription.cpp:116-128 | at equal depth d(a,c) is at most the larger of d(a,b) and d(b,c) |
| Topology.DepthsMustAgree | rm/platformdescription/platformdescription.cpp:116-128 | why equal depth is assumed, which PU objects have: with unequal depths the root looks close to objects that are far apart |
| Topology.PuDistance | rm/platformdescription/platformdescription.cpp:130-135 | the distance of two OS indices is that of the objects found |
| Topology.PuDistanceIsUltrametric | rm/platformdescription/platformdescription.cpp:130-135 | between listed PUs it is an ultrametric bounded by the depth of the tree |
| TopologyPlatform.TreeIsPlatform | rm/platformdescription/platformdescription.cpp:156-173 | the distances of any tree with its PUs at one level make a platform on which the searches and their specifications hold |
| PuSearch.LeastIsLeast | rm/policymanager/policies/puprogressivepolicy.cpp:34-66 | the best-so-far scan answers the first element with the least key, or -1 exactly when every key is INT_MAX |
| PuSearch.LeastLoaded | rm/policymanager/policies/puprogressivepolicy.cpp:34-66 | one loop finds both the least loaded used PU and the least loaded PU |
| PuSearch.LeastPopulated | rm/policymanager/policies/puprogressivepolicy.cpp:34-66 | the loop without load data finds the least populated PU |
| PuSearch.GetLowerUsage | rm/policymanager/policies/puprogressivepolicy.cpp:34-66 | over the whole platform: the least loaded PU in use, else the least loaded, else the least populated |
| PuSearch.LowerUsageSpec | rm/policymanager/policies/puprogressivepolicy.cpp:34-66 | said of counts and loads alone: the first of the least loaded PUs in use with a load below INT_MAX, else of the least loaded, else PU 0; without loads the first of the least populated |
| PuSearch.UsedWithoutLoads | rm/policymanager/policies/puprogressivepolicy.cpp:27-66 | without loads the answer is in use exactly if every PU is, so the documented preference holds exactly if all PUs are in use or none is |
| PuSearch.UsedWithLoads | rm/policymanager/policies/puprogressivepolicy.cpp:27-66 | with loads the answer is in use exactly if some PU in use has a load below INT_MAX, or no PU has one and PU 0 is in use; so the preference holds exactly then, or if no PU is in use |
| PuSearch.IdlePUIsTaken | rm/policymanager/policies/puprogressivepolicy.cpp:27-66 | one app on the first of two PUs, no loads: the idle PU is answered |
| PuSearch.GetLowerUsageAmong | rm/policymanager/policies/puprogressivepolicy.cpp:75-115 | the same among the given PUs |
| PuSearch.TrackStep | rm/policymanager/policies/puprogressivepolicy.cpp:200-219 | one comparison keeps the best distance so far and exactly the PUs at that distance |
| PuSearch.GetNearestPUs | rm/policymanager/policies/puprogressivepolicy.cpp:200-219 | the two nested loops answer exactly the available PUs at the least distance from any used PU |
| PuSearch.GetNewPU | rm/policymanager/policies/puprogressivepolicy.cpp:230-253 | the method answers what the search by candidates, distance and rank answers |
| PuSearch.RankDecides | rm/policymanager/policies/puprogressivepolicy.cpp:75-115 | preferring PUs in use when ranking never changes the choice, since all candidates are in use or none is |
| PuSearch.NewPUSpec | rm/policymanager/policies/puprogressivepolicy.cpp:152-253 | said of counts, loads and distances alone: a PU is available if the app does not hold it and, as long as Konro has free ones in use, it is in use; the answer is the first of least rank of the available PUs at the least distance from the app, and -1 exactly when all of these have a rank of INT_MAX or there is none |
| PuRemoval.TotalDistance | rm/policymanager/policies/puprogressivepolicy.cpp:320-355 | the two inner loops compute the total pairwise distance without one PU |
| PuRemoval.PickWorstIndex | rm/policymanager/policies/puprogressivepolicy.cpp:320-355 | the outer loop finds the index whose removal leaves the least total |
| PuRemoval.PickWorstPU | rm/policymanager/policies/puprogressivepolicy.cpp:320-355 | the method on vectors answers the PU chosen on sets |
| PuRemoval.TotalSplits | rm/policymanager/policies/puprogressivepolicy.cpp:320-355 | the total without a PU and the distances of that PU add up to the grand total |
| PuRemoval.TotalsBelowIntMax | rm/policymanager/policies/puprogressivepolicy.cpp:320-355 | every total stays below the INT_MAX the search starts from |
| PuRemoval.WorstPUSpec | rm/policymanager/policies/puprogressivepolicy.cpp:320-355 | -1 exactly for a single PU; otherwise the removed PU leaves the least total distance, which is exactly one with the largest sum of distances to the others, the lowest-numbered on a tie |
| Allocation.AdmitKeepsPlacement | rm/policymanager/policies/puprogressivepolicy.cpp:357-384 | adding keeps every app on PUs of the platform; the surplus of a count over its owners changes only when the pid was managed |
| Allocation.ReleaseKeepsPlacement | rm/policymanager/policies/puprogressivepolicy.cpp:386-394 | removing lowers the count of each PU of the app by one, without the clamp, and changes no surplus |
| Allocation.FollowKeepsPlacement | rm/policymanager/policies/puprogressivepolicy.cpp:406-456 | a feedback that moves one count together with the PU set of the app changes no surplus |
| Allocation.EventConserves | rm/policymanager/policies/puprogressivepolicy.cpp:357-456 | one event ends conservation exactly when it adds a managed pid, and nothing restores it |
| Allocation.TraceConserves | rm/policymanager/policies/puprogressivepolicy.cpp:357-456 | along any trace conservation holds exactly as long as no managed pid was added |
| AppMappings.ReleasePUs | rm/policymanager/policies/puprogressivepolicy.cpp:386-394 | the loop that lowers and clamps each count does what releasing the set of PUs does |
| ProgressiveModel.IncreaseFacts | rm/policymanager/policies/puprogressivepolicy.cpp:262-283 | an increase acts exactly below n*100, never passes it, and gains exactly from a band of 7 |
| ProgressiveModel.DecreaseFacts | rm/policymanager/policies/puprogressivepolicy.cpp:292-309 | a decrease acts exactly above (n-1)*100, never passes it, and always loses; after giving up a PU it loses again |
| ProgressiveModel.IncreaseScales | rm/policymanager/policies/puprogressivepolicy.cpp:262-283 | the new band is 115 percent without the fraction, or n*100 exactly when that is reached; "max" is left alone |
| ProgressiveModel.DecreaseScales | rm/policymanager/policies/puprogressivepolicy.cpp:292-309 | the new band is 85 percent without the fraction, or (n-1)*100 exactly when that is not above it; "max" counts as n*100 |
| ProgressiveModel.OutcomeIsGood | rm/policymanager/policies/puprogressivepolicy.cpp:406-456 | a feedback keeps the band between n-1 and n full PUs, the app on the platform and the counts in step with its PUs |
| ProgressiveModel.StepKeepsInvariant | rm/policymanager/policies/puprogressivepolicy.cpp:357-456 | every event keeps that for all apps and changes surpluses only by re-adding |
| ProgressiveModel.AddedApp | rm/policymanager/policies/puprogressivepolicy.cpp:357-384 | a new app starts on the PU in lowest use at 100 percent, without feedback |
| ProgressiveModel.FeedbackDoes | rm/policymanager/policies/puprogressivepolicy.cpp:406-456 | from 80 to 120 a feedback is only recorded; below, the band is scaled up, at n*100 a PU is granted and it is scaled with n+1; above, the other way round; counts move with the PU, a scaled band leaves the last feedback, nothing else changes |
| ProgressiveRuns.Conservation | rm/policymanager/policies/puprogressivepolicy.cpp:357-456 | after every run each count equals the number of managed apps on that PU if and only if no managed pid was added again |
| ProgressiveRuns.ClampNeverActs | rm/policymanager/policies/puprogressivepolicy.cpp:386-394 | in every reachable state counts are non-negative and removing an app lowers each of its counts by exactly one |
| ProgressiveRuns.LoadsAreLast | rm/policymanager/policies/puprogressivepolicy.cpp:396-404 | after every run the loads are those of the last monitor event, and a timer event changes nothing |
| ProgressiveRuns.BandFollowsPUs | rm/policymanager/policies/puprogressivepolicy.cpp:262-456 | in every reachable state each managed app has 1 to N PUs and a band between (n-1)*100 and n*100 |
| ProgressiveRuns.GrowthPossible | rm/policymanager/policies/puprogressivepolicy.cpp:230-253 | in every such state a PU to grow to is found exactly when the app does not hold all of them |
| ProgressiveRuns.BelowLimitRaises | rm/policymanager/policies/puprogressivepolicy.cpp:406-456 | a below-limit feedback raises the band exactly when it is at least 7 and less than 100*N; below 7 nothing changes at all |
| ProgressiveRuns.AboveLimitLowers | rm/policymanager/policies/puprogressivepolicy.cpp:406-456 | an above-limit feedback lowers the band exactly when it is not 0 |
| ProgressiveRuns.RoomShrinksByOne | rm/policymanager/policies/puprogressivepolicy.cpp:357-456 | one event uses up at most one unit of the distance between the counters and INT_MAX |
| ProgressiveRuns.ReachableIsRoomy | rm/policymanager/policies/puprogressivepolicy.cpp:357-456 | after any history of fewer than INT_MAX events with loads below INT_MAX, every counter has the room left that the history did not use |
| ProgressiveRuns.EnoughLowFeedbackGivesEverything | rm/policymanager/policies/puprogressivepolicy.cpp:406-456 | after 100*N minus the band below-limit feedbacks, among any other events, the app holds all N PUs at 100*N if and only if its band was at least 7 |
| ProgressiveRuns.ReachableAppsClimb | rm/policymanager/policies/puprogressivepolicy.cpp:406-456 | the same of any app after any such history, with nothing assumed about the state |
| ProgressiveRuns.EnoughHighFeedbackTakesEverything | rm/policymanager/policies/puprogressivepolicy.cpp:406-456 | after as many above-limit feedbacks as the band has percent the app has 1 PU and band 0 |
| ProgressiveRuns.TakenIsNeverGivenBack | rm/policymanager/policies/puprogressivepolicy.cpp:406-456 | from there no below-limit feedback gives anything back |
| ProgressiveSpeed.ClimbCounts | rm/policymanager/policies/puprogressivepolicy.cpp:406-456 | among any events each below-limit feedback takes one off the number that is left, which is at most 23 for the first PU and 6 for each more |
| ProgressiveSpeed.ClimbIsFast | rm/policymanager/policies/puprogressivepolicy.cpp:406-456 | 23 + 6*(N-1) below-limit feedbacks give all N PUs at 100*N if and only if the band was at least 7 |
| ProgressiveSpeed.DescentIsFast | rm/policymanager/policies/puprogressivepolicy.cpp:406-456 | 20 + 5*(N-1) above-limit feedbacks leave one PU and a band of 0 |
| PuProgressivePolicyClass.IncreaseCPUquota | rm/policymanager/policies/puprogressivepolicy.cpp:262-283 | the quota step on the mapping is the step on values |
| PuProgressivePolicyClass.DecreaseCPUquota | rm/policymanager/policies/puprogressivepolicy.cpp:292-309 | the quota step on the mapping is the step on values |
| PuProgressivePolicyClass.PuProgressivePolicy.AddApp | rm/policymanager/policies/puprogressivepolicy.cpp:357-384 | the app gets the least used PU and band 100, and that count goes up by one |
| PuProgressivePolicyClass.PuProgressivePolicy.Expand | rm/policymanager/policies/puprogressivepolicy.cpp:417-433 | at the upper quota limit the PU of the search is granted, its count raised, and a second quota step taken |
| PuProgressivePolicyClass.PuProgressivePolicy.Shrink | rm/policymanager/policies/puprogressivepolicy.cpp:436-454 | at the lower quota limit the worst PU is taken, its count lowered, and a second quota step taken |
| PuProgressivePolicyClass.PuProgressivePolicy.Feedback | rm/policymanager/policies/puprogressivepolicy.cpp:406-456 | the whole handler has the effect of the model on the mapping and the counts |
| PuProgressivePolicyClass.PuProgressivePolicy.ProcessEvent | rm/policymanager/policymanager.cpp:88-168 | every event keeps the invariant and has exactly the effect of the model step, so all theorems about runs hold of the object |
| MinCoresModel.CutFacts | rm/policymanager/policies/mincorespolicy.cpp:264-271 | a cut lowers the band exactly from 7 on and never from at least 6 to below 6 |
| MinCoresModel.StepKeepsPlacement | rm/policymanager/policies/mincorespolicy.cpp:310-391 | every event keeps apps on the platform and changes surpluses only by re-adding |
| MinCoresModel.AddedApp | rm/policymanager/policies/mincorespolicy.cpp:310-339 | a new app starts on the PU in lowest use, or on PU 0 after a monitor event without loads, with the cpu.max it has |
| MinCoresModel.FeedbackDoes | rm/policymanager/policies/mincorespolicy.cpp:362-394 | below 90 a PU is granted if there is one, above 110 the band loses 15 percent without their fraction, "max" counting as 100; every feedback is recorded and nothing else changes |
| MinCoresModel.Conservation | rm/policymanager/policies/mincorespolicy.cpp:310-391 | after every run the counts are conserved if and only if no managed pid was added again, and the clamp never acts |
| MinCoresModel.LoadsAreLast | rm/policymanager/policies/mincorespolicy.cpp:351-360 | after every run the loads are those of the last monitor event and it is known whether there was one; a timer event changes nothing |
| MinCoresModel.NothingIsGivenBack | rm/policymanager/policies/mincorespolicy.cpp:357-391 | while an app stays managed its PU set only grows and its band only falls, but not below 6 |
| MinCoresPolicyClass.MinCoresPolicy.PickInitialCpu | rm/policymanager/policies/mincorespolicy.cpp:36-72 | the initial PU; a monitor event without loads makes it PU 0 |
| MinCoresPolicyClass.MinCoresPolicy.AddApp | rm/policymanager/policies/mincorespolicy.cpp:310-334 | the app gets that PU, its count goes up by one, and cpu.max is left alone |
| MinCoresPolicyClass.MinCoresPolicy.Feedback | rm/policymanager/policies/mincorespolicy.cpp:357-391 | the handler has the effect of the model on the mapping and the counts |
| MinCoresPolicyClass.MinCoresPolicy.ProcessEvent | rm/policymanager/policymanager.cpp:88-168 | every event keeps the invariant and has exactly the effect of the model step |
| ContainmentState.StateTracker.Step | rm/policymanager/policies/secstate.cpp:12-29 | the method updates state and counter as the transition function says and answers the new state |
| ContainmentState.StateTracker.Clear | rm/policymanager/policies/secstate.cpp:31-34 | clearing gives a fresh tracker |
| ContainmentState.RunsAreLegit | rm/policymanager/policies/secstate.cpp:12-34 | in every run the counter is never negative, and zero in OBSERVE and QUARANTINE |
| ContainmentState.SampleIsJudged | rm/policymanager/policies/secstate.cpp:5-29 | after any run a sample takes the state at once to every level whose cut-off it reaches and never past them; it falls by one level exactly on the dwellN-th sample in a row below it |
| ContainmentState.TwoTraceMonotone | rm/policymanager/policies/secstate.cpp:5-34 | a trace with pointwise higher SAI, or lower thresholds or tolerance, is at every step at least as severe, clears included; within a state the longer dwell counts as lower |
| ContainmentState.CounterIsHistory | rm/policymanager/policies/secstate.cpp:12-29 | the latest samples, as many as the counter says, all aimed below the present state |
| ContainmentState.CounterIsExact | rm/policymanager/policies/secstate.cpp:12-29 | outside quarantine they are exactly the latest samples in a row that did: the event before them did not |
| ContainmentState.QuarantineCountsNothing | rm/policymanager/policies/secstate.cpp:12-29 | in quarantine none is counted: any sample that leads there and a milder one after it leave the counter at 0 |
| ContainmentState.DropNeedsDwell | rm/policymanager/policies/secstate.cpp:12-29 | the state drops only with the last of dwellN consecutive samples below it, none of which changed it |
| ContainmentState.RecoveryTakesExactly | rm/policymanager/policies/secstate.cpp:12-29 | from a state s other than QUARANTINE with counter c, OBSERVE is reached after n all-clear samples if and only if n is at least s*dwell-c |
| ContainmentState.QuarantineIsSticky | rm/policymanager/policies/secstate.cpp:12-34 | only a clear leaves QUARANTINE |
| SecurityModel.HandleKeepsEffects | rm/policymanager/policies/securityawarepolicy.cpp:124-252 | every event keeps the effects in agreement with the state |
| SecurityModel.AlertWrites | rm/policymanager/policies/securityawarepolicy.cpp:156-232 | what an alert leaves of an app, state by state: the share of cpu.max by level, 20 percent of PU 0 and the pids cap, the freezer, or everything back; only the SAI and the tracker if the state stays |
| SecurityModel.FrozenFrom | rm/policymanager/policies/securityawarepolicy.cpp:9-17 | the SAI from which an app is frozen is t3 plus 0, 0.05, 0.10 or 0.15 by its level |
| SecurityModel.FedDoes | rm/policymanager/policies/securityawarepolicy.cpp:124-154 | what a feedback leaves of an app: nothing changes in quarantine, between 80 and 120 it is recorded, outside the band is scaled, and an isolated app at its limit on one PU is given PU 1 |
| SecurityModel.EffectsFollowState | rm/policymanager/policies/securityawarepolicy.cpp:71-252 | after any history an app is frozen iff its quarantine flag is set iff the tracker is in QUARANTINE; pids.max is max in OBSERVE and the recorded positive baseline in RESTRICT |
| SecurityModel.ClearIsReset | rm/policymanager/policies/securityawarepolicy.cpp:242-252 | a clear after any history restores the app as it was added, its last feedback aside |
| SecurityModel.PlaceFollowsState | rm/policymanager/policies/securityawarepolicy.cpp:124-252 | after any history an app in RESTRICT runs on PU 0 and one in OBSERVE on the PU it was added on, an isolated level perhaps on PU 1 as well |
| SecurityModel.QuarantineHoldsEverything | rm/policymanager/policies/securityawarepolicy.cpp:124-232 | until a clear nothing changes a quarantined app but the recorded SAI |
| SecurityModel.HistoryIsTrackerRun | rm/policymanager/policies/securityawarepolicy.cpp:214-240 | the tracker of an app runs through the samples of its history under the thresholds in force |
| SecurityModel.HigherLevelIsGentler | rm/policymanager/policies/securityawarepolicy.cpp:9-17 | of two apps with the same history the one with the larger tolerance is never contained more severely |
| SecurityModel.LevelsAreGentler | rm/policymanager/policies/securityawarepolicy.cpp:9-17 | so it is with the levels in their order: of two apps with the same history the one of the higher level is never contained more severely |
| SecurityAwarePolicyClass.SecurityAwarePolicy.AddApp | rm/policymanager/policies/securityawarepolicy.cpp:71-101 | isolated levels get the least populated PU, others PU 0; full cpu, the baseline recorded, and the PUs assigned to other pids unchanged |
| SecurityAwarePolicyClass.SecurityAwarePolicy.RemoveApp | rm/policymanager/policies/securityawarepolicy.cpp:103-112 | the counts of its PUs go down, clamped; its assigned PU is forgotten and those of other pids are not |
| SecurityAwarePolicyClass.SecurityAwarePolicy.Feedback | rm/policymanager/policies/securityawarepolicy.cpp:124-154 | feedback leaves a quarantined app alone and otherwise has the effect of the model, with PU 1 for an isolated app at its limit |
| SecurityAwarePolicyClass.SecurityAwarePolicy.ApplyState | rm/policymanager/policies/securityawarepolicy.cpp:156-212 | the writes for a state are those of the model |
| SecurityAwarePolicyClass.SecurityAwarePolicy.SecurityAlert | rm/policymanager/policies/securityawarepolicy.cpp:214-232 | the tracker takes a step and its effects are applied when the state changed |
| SecurityAwarePolicyClass.SecurityAwarePolicy.Clear | rm/policymanager/policies/securityawarepolicy.cpp:242-252 | tracker, freezer and flag are reset and OBSERVE is applied |
| SecurityAwarePolicyClass.SecurityAwarePolicy.ProcessEvent | rm/policymanager/policies/securityawarepolicy.cpp:124-252 | every event about an app has exactly the effect of the model, so the history theorems hold of the object |
| Sai.Ewma.Update | rm/librmcommon/sai.cpp:7-17 | the update of the three fields is that of the model |
| Sai.WeightsSumToOne | rm/librmcommon/sai.cpp:7-17 | the weights of the samples add up to 1, whatever the smoothing factors |
| Sai.EwmaIsWeighted | rm/librmcommon/sai.cpp:7-17 | after any samples the incremental mean and variance are the weighted mean and the weighted variance about it |
| Sai.WeightsArePowers | rm/librmcommon/sai.cpp:7-17 | with one smoothing factor the weights are its closed-form powers |
| Sai.EwmaStaysInRange | rm/librmcommon/sai.cpp:7-17 | with factors in [0,1] the mean lies between any bounds of the samples and the variance is never negative |
| SaiTraces.SaiMonotone | rm/librmcommon/sai.cpp:27-47 | with non-negative weights the SAI grows with every factor |
| SaiTraces.SaiIsDot | rm/librmcommon/sai.cpp:27-47 | the SAI is the sum of the eight factors times their weights, cut to [0,1] |
| SaiTraces.LighterFactorsAreContainedLess | rm/librmcommon/sai.cpp:27-47 | an app whose factors are never above those of another is at every moment contained at most as severely |
| SaiTraces.OrderKept | rm/librmcommon/sai.cpp:27-47 | over any real factors heavier factors never give a smaller SAI exactly if no weight is negative |
| SaiTraces.UnitOrderKept | rm/librmcommon/sai.cpp:27-47 | over factors in [0,1] that is so exactly if no weight is negative or no weight is positive |
| SaiTraces.GentlerExactly | rm/librmcommon/sai.cpp:27-47 | exactly those weights make an app with lighter factors in [0,1] never more severely contained, whatever the thresholds and the tolerance |
| SaiTraces.NegativeWeightsInvert | rm/librmcommon/sai.cpp:31-47 | for all weights of which one is at least 1 and another negative and at least as large, more activity takes the SAI from 1 to 0 |
| Pipeline.PublishAtEnd | rm/librmcommon/threadsafequeue.h:22-26 | an event published behind others is applied after them |
| Pipeline.WmStepSimulates | rm/workloadmanager/workloadmanager.cpp:93-279 | every step of WorkloadManager keeps its set equal to the set PolicyManager will have once all pending events are handled |
| Pipeline.PmStepSimulates | rm/policymanager/policymanager.cpp:88-168 | so does every step of PolicyManager |
| Pipeline.EveryInterleavingSimulates | rm/workloadmanager/workloadmanager.cpp:93-279 | in every interleaving applying the pending events to the set of PolicyManager gives the set of WorkloadManager; without forks of managed children no pending Add names a managed app |
| Pipeline.DequeuedAppsAreHeld | rm/policymanager/policymanager.cpp:124-168 | a dequeued feedback or remove event names an app PolicyManager holds, the same one, so the branch for an unknown app is unreachable |
| Pipeline.QuietMeansEqual | rm/policymanager/policymanager.cpp:115-135 | when nothing is pending the two sets are equal |
| Pipeline.ManagedForkReadds | rm/workloadmanager/workloadmanager.cpp:161-201 | wherever a fork reports a managed child, the Add it publishes meets an app with that pid once everything before it is handled |
| Pipeline.ManagedForkReaddsNext | rm/workloadmanager/workloadmanager.cpp:161-201 | when nothing is pending, it is the very next event that PolicyManager handles |
| Pipeline.ReaddsExactly | rm/workloadmanager/workloadmanager.cpp:93-279 | in every run no fork reported a managed child if and only if no re-add has been handled and none is on its way |
| Pipeline.DrainedReadds | rm/workloadmanager/workloadmanager.cpp:161-201 | once nothing is on its way, a re-add was handled if and only if some fork reported a managed child |
| PipelineLog.AllIsDelivered | rm/workloadmanager/workloadmanager.cpp:93-279 | in every interleaving the Add, Remove and Feedback events handled, on their way or in hand are, in order, exactly what the actions asked for with the apps managed at that moment |
| PipelineLog.OthersAreDelivered | rm/policymanager/policymanager.cpp:80-112 | so are the monitor events with their loads and the events of the other publishers |
| PipelineLog.FeedbackIsDelivered | rm/workloadmanager/workloadmanager.cpp:252-279 | the feedback events handled and then the pending ones are, in order, exactly the requests that named a managed app when they arrived, each with that app and its own value |
| PipelineLog.ManagedExactly | rm/workloadmanager/workloadmanager.cpp:93-279 | outside of a removal WorkloadManager manages exactly the apps that a fork or request added when none with that pid was managed and that have not exited since |
| PipelineThreads.ThreadsafeQueue.Push | rm/librmcommon/threadsafequeue.h:22-26 | a pushed value goes to the end |
| PipelineThreads.ThreadsafeQueue.TryPop | rm/librmcommon/threadsafequeue.h:62-69 | a value is popped exactly when there is one, from the front |
| PipelineThreads.WorkloadManager.Add | rm/workloadmanager/workloadmanager.cpp:93-124 | an admitted app is in the set and its Add event at the end of the queue; the order of the two steps is that of Pipeline.Do |
| PipelineThreads.WorkloadManager.Remove | rm/workloadmanager/workloadmanager.cpp:126-134 | a managed pid is out of the set and its Remove event at the end of the queue; others do nothing; the order of the two steps is that of Pipeline.Do |
| PipelineThreads.WorkloadManager.ProcessForkEvent | rm/workloadmanager/workloadmanager.cpp:161-201 | the handler is the fork step followed by the publication |
| PipelineThreads.WorkloadManager.ProcessExitEvent | rm/workloadmanager/workloadmanager.cpp:220-234 | the handler is the exit step followed by the erasure |
| PipelineThreads.WorkloadManager.ProcessAddRequestEvent | rm/workloadmanager/workloadmanager.cpp:236-250 | the handler is the request step followed by the publication |
| PipelineThreads.WorkloadManager.FindAppByNsPid | rm/workloadmanager/workloadmanager.cpp:70-80 | the walk in pid order finds the first app with that pid in that namespace |
| PipelineThreads.WorkloadManager.ProcessFeedbackRequestEvent | rm/workloadmanager/workloadmanager.cpp:252-279 | the handler queues a feedback event exactly when the request names a managed app |
| PipelineThreads.PolicyManager.ProcessEvent | rm/policymanager/policymanager.cpp:88-168 | the set changes as the event says, and the app of a feedback or remove event is found exactly when it is in the set |
| PipelineThreads.PolicyManager.Round | rm/policymanager/policymanager.cpp:88-168 | a round of the thread, run in a simulating state, is the two model steps, keeps the simulation and finds the app |
| SystemConservation.PolicyFollowsManager | rm/policymanager/policymanager.cpp:88-168 | after any interleaving, monitor events included, the progressive policy, fed with the calls PolicyManager made, manages exactly the pids in the set of PolicyManager |
| SystemConservation.ConservedExactly | rm/policymanager/policymanager.cpp:88-168 | at every moment of every interleaving the counts of either policy are conserved if and only if no re-add has been handled |
| SystemConservation.FreshForksConserve | rm/workloadmanager/workloadmanager.cpp:93-279 | if no fork reports a managed child, the counts of either policy are conserved in every interleaving |
| SystemConservation.DrainedConservesExactly | rm/workloadmanager/workloadmanager.cpp:93-279 | once everything published has been handled they are conserved if and only if no fork reported a managed child |
| SystemConservation.FeedbackReachesPolicy | rm/policymanager/policymanager.cpp:145-160 | the feedback calls of the policy, and then those of the pending events, are in order exactly these requests, with the pid of the app and the value |
| IniText.TrimCore | lib/mini/ini.h:102-106 | spaces, a trimmed core and spaces trim to the core |
| IniText.TrimExactly | lib/mini/ini.h:101-106 | trimming takes exactly the six white space characters off both ends |
| IniText.NormIsIdempotent | lib/mini/ini.h:171-176 | normalising a key twice is normalising it once |
| IniText.KeysIgnoreCase | lib/mini/ini.h:107-113 | two keys are one exactly if they differ only in outer spaces and the case of letters |
| IniText.ReplaceAll | lib/mini/ini.h:115-126 | the search-and-replace loop rewrites from left to right and never inside what it has put in |
| IniText.MaskChars | lib/mini/ini.h:312-313 | masking keeps the length and blanks exactly the escaped equals signs |
| IniLines.MaskFindsSeparator | lib/mini/ini.h:311-313 | the first equals sign of the masked line is the first one that is not escaped |
| IniLines.Parse | lib/mini/ini.h:281-326 | parseLine with its passes over a masked copy gives the kind, key and value of the line |
| IniLines.KeyValuePadded | lib/mini/ini.h:281-326 | spaces around a line change neither its key nor its value |
| IniLines.EscapeRoundTrip | lib/mini/ini.h:312-319 | unescaping an escaped key gives it back, and no sign of it can be taken for the separator |
| IniLines.KeyLineReadsExactly | lib/mini/ini.h:462-476 | an item reads back from the line written for it exactly when its key does not start with a semicolon, a key that starts with a bracket has no semicolon or closing bracket on its line, and in compact form the key does not end in a backslash |
| IniLines.SectionLineReads | lib/mini/ini.h:296-309 | a section line reads back exactly when the name holds no semicolon |
| IniEntries.PutFacts | lib/mini/ini.h:203-219 | setting a key changes that key only and keeps keys distinct |
| IniEntries.WithoutFacts | lib/mini/ini.h:229-252 | removing a key takes out that key only |
| IniTable.TableFinds | lib/mini/ini.h:138-144 | a table that agrees with the list answers every lookup about it |
| IniTable.WithoutAgrees | lib/mini/ini.h:238-248 | moving every later position down by one restores the agreement |
| IniMapClass.IniMap.Copy | lib/mini/ini.h:159-169 | the copy holds the same items in the same order |
| IniMapClass.IniMap.Index | lib/mini/ini.h:171-181 | operator[] gives the position of the key, appending an empty item when it is new, and keeps the table in agreement |
| IniMapClass.IniMap.GetValue | lib/mini/ini.h:182-194 | get answers the value of the normalised key, or an empty one |
| IniMapClass.IniMap.HasKey | lib/mini/ini.h:195-202 | has answers whether the normalised key is in the list |
| IniMapClass.IniMap.Set | lib/mini/ini.h:203-219 | set replaces in place or appends, and keeps the table in agreement |
| IniMapClass.IniMap.SetAll | lib/mini/ini.h:220-228 | setting several keys is setting them one after the other |
| IniMapClass.IniMap.Remove | lib/mini/ini.h:229-252 | remove takes out the item, keeps the order of the others and restores the table |
| IniSplit.ReadFile | lib/mini/ini.h:339-371 | the loop over the characters gives the lines of the file |
| IniSplit.LinesRoundTrip | lib/mini/ini.h:339-371 | lines come back from their text exactly when none holds a line end, CR or NUL and they are not one empty line |
| IniFile.ReadInto | lib/mini/ini.h:384-418 | the reader fills the map and keeps the lines as the fold over the lines says |
| IniFile.KeptReadsTheSame | lib/mini/ini.h:408-415 | the lines kept for a lazy write read as the whole file does |
| IniFile.Generate | lib/mini/ini.h:439-490 | the nested loops write the section and key lines, with an empty line between sections when pretty |
| IniFile.ReadBlock | lib/mini/ini.h:384-490 | the lines of a new section read back as that section with its keys in order and its values trimmed |
| IniFile.GeneratedFileRoundTrip | lib/mini/ini.h:384-490 | reading a generated file, pretty or compact, gives the same sections and keys in the same order and the trimmed values |
| IniRewrite.RewrittenReads | lib/mini/ini.h:561-575 | a changed line keeps its key, and reads as the new value exactly when the old value does not start with an escaped equals sign |
| IniRewrite.EscapedValueIsKept | lib/mini/ini.h:561-575 | a line for which it goes wrong: the new value is put behind the escaped sign |
| IniModel.ReadingGrows | lib/mini/ini.h:384-418 | reading further never forgets a section or a key |
| IniModel.ReadingIsTidy | lib/mini/ini.h:384-418 | whatever the file, the structure read from it has distinct, normalised section names and keys |
| IniModel.ReadItems | lib/mini/ini.h:384-418 | reading key lines inside a section adds what they say to that section |
| IniLazy.LinesToAdd | lib/mini/ini.h:595-614 | the new keys of a section, with their lines |
| IniLazy.OutputLine | lib/mini/ini.h:561-575 | the line put out for a changed key |
| IniLazy.Revise | lib/mini/ini.h:503-629 | the loop with its iterator stepping back ends, never steps back from the first line, and puts out what the fold over the lines says |
| IniLazy.Extend | lib/mini/ini.h:630-653 | sections the original does not have go to the end, behind an empty line when pretty |
| IniLazy.GetLazyOutput | lib/mini/ini.h:501-655 | the whole method |
| IniMeaning.SectionFollows | lib/mini/ini.h:516-540 | taking a header keeps the agreement between the output so far, the old lines read so far and the wanted data |
| IniMeaning.ItemFollows | lib/mini/ini.h:541-580 | so does taking a key line |
| IniMeaning.DraftFollows | lib/mini/ini.h:501-655 | after any part of the old file the output says what the wanted data and the lines so far make of it |
| IniMeaning.LazyOutputMeaning | lib/mini/ini.h:501-655 | reading the lazy output gives exactly the wanted sections and keys, and the wanted values if and only if no changed old value starts with an escaped equals sign |
| IniWriter.Write | lib/mini/ini.h:666-710 | from the old file and the data to the new text, by the generator when there is no file |
| IniWriter.PlainOutput | lib/mini/ini.h:691-708 | no line of the output holds a line end, CR or NUL |
| IniWriter.WritePreservesMeaning | lib/mini/ini.h:666-710 | the same of the text of the new file, for any old file or none |
| IniModel.ReadingIsAsRead | lib/mini/ini.h:281-418 | whatever the file, every value read is trimmed and is one that the bracket of its key allows |
| IniUnchanged.UnchangedDataKeepsLines | lib/mini/ini.h:501-655 | writing back the data read from a file puts out one line for each line kept of it, the same one exactly if it is no key line, has the value its key has in the end, or has that value behind an escaped equals sign |
| IniUnchanged.UnchangedText | lib/mini/ini.h:666-710 | a file without CR and NUL of which all lines are kept and are such lines is written back character for character |
| IniLayout.CommentsSurvive | lib/mini/ini.h:501-655 | the comments of the output are exactly those of the file, in their order |
| IniLayout.WrittenCommentsSurvive | lib/mini/ini.h:666-710 | so it is with the texts of the old and the new file |
| IniLayout.HeadersInOrder | lib/mini/ini.h:501-655 | the headers of the output are those of the file that are still wanted, as they were and in order, and then those of the new sections in the order of the data |
| IniLayout.BlanksSurvive | lib/mini/ini.h:501-629 | the blank lines of the file are all there but for the first empty one behind the header of each section that is given up |
| IniLayout.NewKeysStandWithKeys | lib/mini/ini.h:581-629 | every line of a key that the file does not have stands directly behind a header or another key line, before comments and blank lines |
| IniSpacing.NewSectionIsSpaced | lib/mini/ini.h:630-653 | a new section goes to the end with its items in order; when pretty, behind an empty line unless there is one or nothing |
| IniSpacing.GeneratorIsExtension | lib/mini/ini.h:439-490 | what the generator writes into a new file is what the lazy writer adds to an empty one |
| IniSpacing.ChangedLineKeepsFront | lib/mini/ini.h:561-575 | a changed line keeps its key, its sign and the spaces behind it, unless the old value starts with an escaped equals sign; when pretty, a missing space is put in |
| ChunkedCodec.FromIToHex | lib/httplib/httplib.h:1888-1896 | the loop gives the hexadecimal digits |
| ChunkedCodec.HexRoundTrip | lib/httplib/httplib.h:1888-1896 | the digits of a number have that number as their value |
| ChunkedCodec.SizeLineValue | lib/httplib/httplib.h:3331-3337 | strtoul reads a size line as its size |
| ChunkedCodec.SizeInAnyForm | lib/httplib/httplib.h:3331-3337 | a size is read in digits of either case, behind any zeros and before any extension |
| ChunkedCodec.SizeTooLarge | lib/httplib/httplib.h:3331-3337 | digits of the largest size or more are read as that one |
| ChunkedCodec.DecodeOneChunk | lib/httplib/httplib.h:3320-3358 | a whole chunk delivers its payload and leaves the reader at the next size line |
| ChunkedCodec.DecodePeersChunk | lib/httplib/httplib.h:3320-3358 | a chunk with such a size line, as any peer may write it, delivers its payload |
| ChunkedCodec.DecodeRefused | lib/httplib/httplib.h:3320-3358 | a first line without a size, or with too large a one, is refused with nothing delivered |
| ChunkedCodec.ChunkForm | lib/httplib/httplib.h:3550-3573 | a chunk is its size in lower-case hexadecimal digits without padding, CR LF, the payload, CR LF |
| ChunkedCodec.ChunkedRoundTrip | lib/httplib/httplib.h:3320-3358 | decoding the encoding of non-empty payloads delivers their concatenation and consumes exactly the encoding |
| ChunkedCodec.TruncatedFails | lib/httplib/httplib.h:3320-3358 | cut off exactly behind a chunk, without the last one, the reader fails, having delivered the same bytes |
| ChunkedCuts.BrokenOff | lib/httplib/httplib.h:3320-3358 | for every proper prefix of an encoding of non-empty payloads: success is reported exactly if it ends between the CR and the LF that close some chunk; the body delivered is exactly the payload bytes in the prefix, and nothing is left unread |
| ChunkedCuts.CarriedIsPrefix | lib/httplib/httplib.h:3320-3358 | what is delivered in that case is the beginning of what was to be sent |
| ChunkedCuts.OtherLineAfterData | lib/httplib/httplib.h:3340-3349 | after the data of a chunk any line other than an empty one makes the reader stop and report success; an empty one makes it go on |
| ChunkedCuts.HelloWithoutLF | lib/httplib/httplib.h:3340-3349 | an input: one chunk without its last byte is reported as a complete body |
| ChunkedStreams.WriteData | lib/httplib/httplib.h:3457-3465 | all bytes are sent, whatever part of them each write takes |
| ChunkedStreams.DataSink.Write | lib/httplib/httplib.h:3550-3573 | a write sends one chunk, or nothing and ends the data when it is empty |
| ChunkedStreams.WriteContentChunked | lib/httplib/httplib.h:3541-3619 | the loop sends what each call of the provider writes, with any number of uses of the sink in a call, up to the first call whose last use ends the data |
| ChunkedStreams.StreamLineReader.Append | lib/httplib/httplib.h:2207-2218 | a character goes to the fixed buffer while it has room and to the growing one after, the line being one text |
| ChunkedStreams.StreamLineReader.Getline | lib/httplib/httplib.h:2181-2205 | a line is read up to its newline or the end of the input, of any length |
| ChunkedStreams.ReadContentWithLength | lib/httplib/httplib.h:3268-3288 | exactly the bytes asked for are delivered, whatever each read gives, or all there are on failure |
| ChunkedStreams.ReadContentChunked | lib/httplib/httplib.h:3320-3358 | over a stream with any short reads the method does what decoding the whole input does |
| ChunkedTransfer.TransferOutcome | lib/httplib/httplib.h:3541-3619 | whatever the calls of the provider: success exactly if a done() is among the uses it makes; the payloads before the first are delivered, what is sent behind it stays unread |
| ChunkedTransfer.DoneIsReached | lib/httplib/httplib.h:3541-3619 | that is so exactly if some call has a done() and every earlier call leaves data available |
| ChunkedTransfer.AllIsBefore | lib/httplib/httplib.h:3541-3619 | everything written is delivered exactly if no payload is written behind a done() |
| ChunkedTransfer.TransferAny | lib/httplib/httplib.h:3541-3619 | the three of them, over two streams with any short reads and writes |
| ChunkedTransfer.WriteThenDone | lib/httplib/httplib.h:3541-3619 | the documented provider (lib/httplib/README.md:329-343), which writes any payloads and says it is done in one call: everything arrives, empty payloads or not |
| ChunkedTransfer.BehindDone | lib/httplib/httplib.h:3541-3619 | two inputs: an empty payload behind a done() does no harm, and another one is lost |
| ChunkedTransfer.TransferCalls | lib/httplib/httplib.h:3541-3619 | for a provider whose calls only write payloads, any number in each, before a last call that only says it is done: everything arrives exactly if no call ends with an empty payload; otherwise the receiver fails after the payloads up to the first such call |
| ChunkedTransfer.Transfer | lib/httplib/httplib.h:3541-3619 | for such a provider with one payload in each call, exactly if no payload is empty |

## Left out

- Files, `/proc`, cgroups, netlink, sockets, hwloc and sensors: their contents are parameters or values.
- Apps that share a cgroup directory, and exceptions from short-lived processes: the policies return early there, and `removeApp` may read back PUs that were never counted.
- Conservation of the counts in `SecurityAwarePolicy`: RESTRICT moves an app without recounting, and feedback may add PU 1 a second time.
- Failing streams, cancelled providers and compression in httplib.
- `Ewma::deviation` (square root and exponential), the test for a non-finite SAI, and all float rounding.
- Waiting and notification in the queue and on the event bus; each method is one atomic step.
- The pid-ordered set of WorkloadManager and the app set of PolicyManager are maps from pid; where order matters the walk in pid order is modelled.
- The maps inside an INI structure are values that are replaced as a whole, not objects shared by reference.
- Deadlock freedom of the event bus with SecurityMonitor, which takes the two locks in the opposite order.
- HTTP around the chunk codec, multipart bodies, TLS, JSON and logging.
- RandPolicy, NoPolicy, getters, name tables and configuration defaults would only add easy members.
- PuProgressivePolicyClass.PuProgressivePolicy.AddApp: leaves out the early return for a cgroup directory that another app already uses.
- MinCoresPolicyClass.MinCoresPolicy.AddApp: leaves out the early return for a cgroup directory that another app already uses.
- PipelineThreads.WorkloadManager.Add: states the effect of both steps together; between them other threads may run, as Pipeline.Do says.
- PipelineThreads.WorkloadManager.Remove: states the effect of both steps together, as Add does.
- SecurityAwarePolicyClass.SecurityAwarePolicy.ProcessEvent: asks for a second PU on the platform where Feedback does.
- SecurityAwarePolicyClass.SecurityAwarePolicy.Feedback: asks for a second PU on the platform where the source indexes the count of PU 1 without looking.
- CpusetVector.ToCpusetVector: leaves out sets whose least element is -9, for which the source indexes an empty vector; PU numbers are never negative.
- CpusetText.TextRoundTrip: is about bounds that fit a short, the type of the source.
- ProgressiveRuns.BelowLimitRaises: is about states whose counts and loads are below INT_MAX, as ints kept by the source are.
- IniLines.KeyLineReadsExactly: is about keys without spaces around them, which is how INIMap holds them.
- IniWriter.WritePreservesMeaning: is about data without line ends, CR or NUL whose new items read back from lines of their own and whose changed ones fit the bracket of their key, if it has one; which items and names read back is stated exactly by KeyLineReadsExactly, SectionLineReads and LinesRoundTrip.
