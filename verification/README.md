# Verified model of the AWS advisor's decision logic

The advisor watches cloud accounts, recommends changes and carries some of them out. Between its calls to AWS and its
pages sit algorithms and protocols whose comments promise strong things. This project models them in Dafny and proves
those promises, for all inputs and all runs.

| files | what they model |
|---|---|
| `access_paths`, `access_accounts` | who reaches what: the bounded strongest-path search and the account fold |
| `capacity_signals`, `capacity_pattern`, `capacity_week`, `capacity_timeline` | how many members each hour needs, the week learned from it, the day planned from that |
| `baseline_math`, `baseline_meaning`, `order_stats` | quantiles, robust statistics, anomaly levels |
| `managed_section`, `connection_file`, `connection_meaning`, `credential_files`, `config_profiles`, `credential_profiles` | the managed section in the user's AWS files, the rendered files, reading keys and profiles back, profile chains |
| `grant_document`, `grant_round_trip`, `grant_size`, `policy_versions`, `grant_policy`, `grant_drift`, `grant_shrink`, `grant_history`, `grant_switch` | the Auto-park grant policy: its document, its versions, its history |
| `recommendations`, `recommendation_history` | upserting recommendations between human decisions |
| `security_scans`, `security_history`, `security_scan_run`, `security_recommendations` | the scan diff over any history, and what it recommends |
| `agent_requests`, `agent_rows`, `agent_astray`, `agent_waiting`, `agent_desk` | agent requests, deliveries and retries as interleaved steps, the rows their outcomes go to, and the rows that wait for good |
| `chat_session` | what a chat's agent session has been told |
| `strings`, `json_text`, `options`, `real_arithmetic` | shared helpers |

Code that updates state step by step is a method or a class here, proved against a function; what the source promises
is proved of that function. Numbers are reals or integers, tables are sequences of rows whose place is their id, and a
database transaction is one step. Answers from AWS, Steampipe, the agent and the clock are parameters.

Where the code and its own comments or intentions part, the code is followed:

- `src/capacity_pattern.ts` states 80 % coverage of the week; the rounded coverage lets 134 hours through
  (`CapacityPattern.ConfidentFrom134Hours`).
- `src/capacity_signals.ts` says the published bandwidth wins; the code takes the larger of the bandwidth and the
  learned rate, and with too few hours to learn from, a healthy hour can be sized above its members
  (`CapacitySignals.HealthyHourFitsIff`, `CapacitySignals.BandwidthAloneOversizes`,
  `CapacitySignals.OneHourOversized`).
- `normalizeName` in `src/autopark_grant.ts` drops one trailing dot, so a name can change again when it is read back;
  and the ARN expression takes instance ids the statement ids do not (`GrantRoundTrip.DnsReadBackIff`,
  `GrantDrift.LastsIff`).
  What each later write then makes of it is followed exactly (`GrantHistory.HistoryReads`, `GrantDrift.GrantsDrift`).
- `src/chat.ts` reads the 300 oldest messages to find the last turn, so beyond 300 messages a failed turn goes unnoticed
  and a follow-up can leave the session with a plan that is no longer current (`ChatSession.AnsweredTurnTellsIff`,
  `ChatSession.BrokenPostIsNoticedIff`).
- `src/chat.ts` stores of a told plan only its resolution, so a plan that is overwritten under it is not told again
  (`ChatSession.AnsweredTurnShowsIff`, `ChatSession.OverwrittenPlanIsNotTold`).
- `src/agent.ts` moves a row to the retry so that the retry's answer replaces the low-scoring one, then still completes
  the original; `src/investigate.ts` and `src/resolve.ts` fall back to a waiting row and store the sent-back answer on
  it (`AgentAstray.SentBackAnswerIsStored`, `AgentAstray.StraysIff`, `AgentAstray.AstrayIff`). A resolution is corrected
  by the retry's answer; an incident need not be (`AgentAstray.TierCheckReversesTheAnswers`).
- `src/agent.ts` sends a usage investigation's retry as an observation's, whose answer no row takes
  (`AgentAstray.UsageRetryIsLost`).
- `replaceManagedSection` in `src/aws_config.ts` takes a begin marker at the end of any line for its own
  (`ManagedSection.ReplaceThenReadIff`, `ManagedSection.SecondWriteLoses`, `ManagedSection.StrayLineIsLost`).
- A user's profile named like a rendered one makes the chains circular (`ConfigProfiles.ChainsCloseIff`,
  `ConfigProfiles.OwnNameIsTrapped`).

## Model

| member | source | states |
|---|---|---|
| `AccessPaths.Search` | src/access_paths.ts:218-241 | The worklist ends with exactly the strongest paths, for every world whose project gates are fixed by the identities: each node held has a real usable walk of at most four steps with exactly its strength, and no usable walk is stronger, or as strong and shorter. Every entry ever queued is such a walk, as deep as it is long; depths never go down; each entry beats the earlier ones of its node. |
| `AccessPaths.ReachedIffSomeWalk` | src/access_paths.ts:219-241 | A node is reached exactly when some usable walk ends there; its decision is the maximum over those walks of the weakest step, its path the shortest attaining it. |
| `AccessPaths.StrongestPathsUnique` | src/access_paths.ts:207-241 | The promise fixes the nodes, their decisions and their path lengths, whatever the order of edges. |
| `AccessPaths.QueuedAtMostTwice` | src/access_paths.ts:224-240 | Why no visited set is needed: beyond the identities, a node is queued at most twice. |
| `AccessPaths.WalkCovered` | src/access_paths.ts:224-240 | Every usable walk of the reference is matched by an entry at its end that is as strong and no deeper. |
| `AccessPaths.Finished` | src/access_paths.ts:224-241 | An emptied worklist whose entries were all expanded holds the strongest paths: completeness against the walks of the definition. |
| `AccessPaths.GatesAgree` | src/access_paths.ts:222-233 | The project gates read while the worklist runs decide every step as the final ones do. |
| `AccessPaths.NextSteps` | src/access_paths.ts:227-234 | The ways out of a node are exactly the crossable edges and the project grants that deploy or read variables; the last grant of a project is its gate (which those are: `AccessPaths.CrossableIff`, `AccessPaths.OpensIff`). |
| `AccessPaths.CrossableIff` | src/access_paths.ts:229-230 | Which edges may be crossed, grant by grant: an OIDC edge where the gate deploys to production, or to preview and the role trusts more than production; a key edge where the gate deploys or touches the variables at all; every other edge always. |
| `AccessPaths.OpensIff` | src/access_paths.ts:232 | A grant opens a project exactly when it deploys there or touches its variables. |
| `AccessPaths.LevelsAscend` | src/policy_facts.ts:23 | The levels, in order. |
| `AccessPaths.Offer` | src/access_paths.ts:235-240 | Offering one path queues at most one entry, a step deeper; `best` stays the best of everything ever queued, and the step is accounted for by an entry at least as strong and no deeper, unless it is denied. |
| `AccessPaths.BuildOut` | src/access_paths.ts:215 | Grouping the edges by kind and target loses and invents none. |
| `AccessPaths.BuildGrantsOf` | src/access_paths.ts:216 | The grants of an identity, in the order given. |
| `AccessPaths.WeakerIsMinimum` | src/policy_facts.ts:276-277 | `weaker` is the minimum in the order denied, conditional, allowed. |
| `AccessPaths.WeakestIsTheLeast` | src/access_paths.ts:236 | A path's decision is that of its weakest step. |
| `AccessAccounts.Accounts` | src/access_paths.ts:211-267 | From the search to the accounts: an account is listed exactly when some usable walk ends at a principal with a grant on it, as administrator exactly when one of those grants is, at the highest of their levels, and as direct exactly when an identity holds one. Its principals, its write services, each service's highest level and limits, own or through a path, and its path-only services are exactly those of the grants such walks reach. |
| `AccessAccounts.FoldAccounts` | src/access_paths.ts:244-263 | The fold sees exactly the account grants of the reached nodes, and each account says what those say. |
| `AccessAccounts.FoldOne` | src/access_paths.ts:248-262 | One more grant keeps an account's line right: level, flags, and each service's highest level, limited only if every offer is. |
| `AccessAccounts.KeepKeeps` | src/access_paths.ts:246 | Merging a service keeps the highest level, scoped and conditional only while every offer was. |
| `AccessAccounts.PathServicesMeaning` | src/access_paths.ts:264-267 | A service is path-only exactly when a grant behind a path offers it at write or above, higher than all of the person's own. |
| `AccessAccounts.VercelGraph` | src/access_paths.ts:166-176 | The Vercel grants and edges: one grant per member and project with a capability, one edge per OIDC link and per key. |
| `AccessAccounts.MemberGrantSays` | src/access_paths.ts:168-173 | What a member's grant on a project says, by role names. |
| `AccessAccounts.GradesAscend` | src/access_paths.ts:78 | The levels an account is held at, in order; an unknown name is below all of them. |
| `AccessAccounts.AssembledIsWellShaped` | src/access_paths.ts:82-178 | The assembled graph meets what the search asks of a world, whatever the IAM side adds. |
| `AccessAccounts.OidcOpensToDeployers` | src/access_paths.ts:63-71 | For a member who is the only one searched for, a project's OIDC role may be crossed exactly when their role on the project deploys to production; the preview branch of line 229 is never taken. |
| `AccessAccounts.RolesByName` | src/access_paths.ts:63-71 | What every pair of a team role and a project role may do, by the names of the roles: who deploys, who writes the variables, who reads them, who sees nothing, and at what level. |
| `AccessAccounts.KeyOpensToViewers` | src/access_paths.ts:230 | The user whose key a project holds may be reached by every member with any role on the project, viewers too. |
| `AccessAccounts.KeyReachesItsUser` | src/access_paths.ts:211-241 | So in the assembled graph, and by role names: a usable walk crosses the key edge exactly when the member administers, develops or views the project; then the user is reached, conditionally, in three steps, and every account grant that user holds is reached. |
| `AccessAccounts.OidcReachesItsRole` | src/access_paths.ts:211-241 | A usable walk crosses the OIDC edge exactly when the member administers or develops the project; then the role is reached, allowed, in three steps, and every account grant of that role is reached. |
| `AccessAccounts.GateIsAGrant` | src/access_paths.ts:222-234 | A project gate is a project grant of one of the identities, and each such grant opens a gate. |
| `BaselineMath.QuantileBetween` | src/baseline_math.ts:26-30 | A quantile lies between the two neighbours it interpolates, for every q in [0, 1]. |
| `BaselineMeaning.QuantileWeighs` | src/baseline_math.ts:26-30 | Which quantile: the value at the place reached, or the two values around it weighed by how near it is to each. |
| `BaselineMeaning.MedianIsTheMiddle` | src/baseline_math.ts:31 | The median is the middle value, or halfway between the two middle ones. |
| `BaselineMeaning.NoMedian` | src/baseline_math.ts:27 | No values, no quantile. |
| `BaselineMath.QuantileMonotone` | src/baseline_math.ts:26-30 | Quantiles grow with q. |
| `BaselineMath.QuantilePermuted` | src/baseline_math.ts:26-31 | Quantiles do not depend on the order of the points. |
| `BaselineMath.MedianResists` | src/baseline_math.ts:31-41 | Fewer than half of the points replaced by anything: the median stays between two untouched points. |
| `BaselineMath.MedianInBand` | src/baseline_math.ts:31 | More than half of the points in a band hold the interpolated median in it. |
| `BaselineMath.MedianBreaksAtHalf` | src/baseline_math.ts:31 | Half is the limit: replacing half of the points moves the median out. |
| `BaselineMath.MadResists` | src/baseline_math.ts:33-41 | The spread resists too: more than half of the points in a band bound the scaled MAD by the band's width. |
| `BaselineMath.RobustOrdered` | src/baseline_math.ts:33-41 | Minimum, median, p95 and maximum are in order and the MAD is not negative. |
| `BaselineMeaning.RobustMeans` | src/baseline_math.ts:33-41 | What the statistics are: the number of finite values, their least and greatest, the middle one, 1.4826 times the middle of the distances from it, and the 0.95 quantile; nothing for no finite value. |
| `BaselineMeaning.MeanMeans` | src/baseline_math.ts:40 | The mean times the number of values is their sum, and it lies between least and greatest. |
| `BaselineMeaning.Distances` | src/baseline_math.ts:39 | The distances whose median is the spread. |
| `BaselineMath.SeasonalProfile` | src/baseline_math.ts:43-59 | The hour and weekday buckets hold exactly their points' medians, once seven days are seen. |
| `BaselineMeaning.BucketMedianIff` | src/baseline_math.ts:54-57 | A bucket has a value exactly from seven days and five values on: their median. |
| `BaselineMeaning.DaysMean` | src/baseline_math.ts:47-52 | The days counted are the UTC days with a finite value. |
| `BaselineMath.ScoreMonotone` | src/baseline_math.ts:66-77 | A larger value is never less unusual at the same moment. |
| `BaselineMath.ScoreMeaning` | src/baseline_math.ts:66-77 | Normal and extreme stated without the divisions: twice the expected value, three scaled MADs above it, beyond the p95. |
| `BaselineMeaning.ScoreSays` | src/baseline_math.ts:66-73 | What a score is measured from: the hour's value where there is one, the median otherwise; its ratio and distance, as products. |
| `BaselineMeaning.LevelIff` | src/baseline_math.ts:74-75 | Each level, exactly: extreme when far, out and above the p95; high when far or out and not extreme; normal otherwise. |
| `BaselineMath.ExpectedIsNormal` | src/baseline_math.ts:66-77 | The expected value, and everything below it, is normal. |
| `OrderStats.PlacePermuted` | src/baseline_math.ts:26-31 | Place k of the sorted values depends only on which values there are. |
| `OrderStats.PlaceMonotone` | src/capacity_pattern.ts:72 | Raising values raises every place of the sorted list. |
| `CapacityPattern.LearnPattern` | src/capacity_pattern.ts:77-102 | The filled tables give the learned week, and for each hour what it wanted, what triggered, what bound it and its pressure; weeks, coverage and confidence. |
| `CapacityPattern.LearnedIsLeast` | src/capacity_pattern.ts:85-98 | The learned week is the least circular week at or above the clamped maximum of need and pressure with no hour below both neighbours. |
| `CapacityWeek.WeekMeans` | src/capacity_pattern.ts:71-111 | The learned week from the hours and events themselves, every number spelled out: it asks of each hour the clamped maximum of what the hours of that ring place wanted (the largest under three weeks, the value at the place 0.95 of the way otherwise) and of the pressure events there and an hour later, has no dip, and is the least such week. |
| `CapacityWeek.TablesMean` | src/capacity_pattern.ts:78-93 | Each place's wanted and triggered members, its pressure, the signal that set it and whether it is covered, from the hours themselves. |
| `CapacityWeek.WeeksMean` | src/capacity_pattern.ts:74-81 | The weeks counted are those of the recent hours. |
| `CapacityWeek.CoverageRounds` | src/capacity_pattern.ts:84 | The coverage is the nearest percent. |
| `CapacityPattern.SmoothIsClosure` | src/capacity_pattern.ts:105-111 | Smoothing is a closure: extensive, least, idempotent, monotone, and it leaves no dip across the week's end either. |
| `CapacityPattern.LearnedInBand` | src/capacity_pattern.ts:73-98 | Every learned hour is at least the floor and at most the ceiling. |
| `CapacityPattern.PressureIsHeeded` | src/capacity_pattern.ts:87-98 | Every pressure event of the window keeps its hour and the hour before at least at the clamped capacity plus one. |
| `CapacityPattern.LearnedPermuted` | src/capacity_pattern.ts:77-98 | The learned week does not depend on the order of the hours or of the events. |
| `CapacityPattern.LearnedMonotone` | src/capacity_pattern.ts:77-98 | Raising any hour's need or adding events lowers no learned hour. |
| `CapacityPattern.ConfidentFrom134Hours` | src/capacity_pattern.ts:42-44 | Confidence begins at two weeks and exactly 134 covered hours, because the coverage is rounded before it is compared. |
| `CapacityPattern.LevelRuns` | src/capacity_pattern.ts:114-127 | The runs of a level are exactly the hours at it, as maximal half-open intervals in order. |
| `CapacityPattern.PressureTable.Record` | src/capacity_pattern.ts:179-186 | One row per environment and hour: the first event is kept, a later one only fills in a missing action. |
| `CapacityPattern.HourOfMeaning` | src/capacity_pattern.ts:179-186 | Two events are of one hour exactly when the same full hour precedes both. |
| `CapacityPattern.RingStep` | src/capacity_pattern.ts:91 | Consecutive hours are consecutive places of the week's ring. |
| `CapacityTimeline.PlanTimeline` | src/capacity_timeline.ts:66-138 | The 24-row replay. With the learned week in charge, in apply mode each row's minimum is the current one while its pass is inside the hand-set day and the hour's learned minimum after it; in a dry run it stays, and exactly the other learned minima outside the hand-set day are proposed. Whoever drives, changes chain from row to row and a dry run applies none; without consent, band or group every row is flat. When the windows drive, every row takes the window's decision, asked with what the applied decisions before left, exactly when it is active and wants another minimum. |
| `CapacityTimeline.Pass` | src/capacity_timeline.ts:83-119 | One pass of the loop keeps the closed form and its state; without the learned week the window's decision, asked with the current minimum, is taken exactly when it is active and wants another. |
| `CapacityTimeline.PassDecides` | src/capacity_pattern.ts:136-148 | What `decidePattern` answers from either state the replay can be in: hold inside the hand-set day, else move exactly when the learned minimum differs. |
| `CapacityPattern.DecideMeans` | src/capacity_pattern.ts:136-148 | What `decidePattern` answers to any question: active with confidence only, a wanted minimum exactly where the hour's learned one differs from the current one outside the hand-set day. |
| `CapacityTimeline.RowsClosedForm` | src/capacity_timeline.ts:83-119 | The rows of either mode, from the state the replay carries. |
| `CapacityTimeline.UnstampedHoldsAllDay` | src/capacity_timeline.ts:83-119 | A hand-set minimum without a stamp holds for the whole forecast. |
| `CapacityTimeline.HeldIsPrefix` | src/capacity_timeline.ts:83-119 | The held rows are the first ones. |
| `CapacityTimeline.RowsFollowTheRing` | src/capacity_timeline.ts:83-119 | Successive rows read successive places of the learned week. |
| `CapacityTimeline.LearnedMeans` | src/capacity_timeline.ts:99-103 | The learned minimum of a row is the learned week's at the row's place. |
| `CapacityTimeline.NextPassIsNext` | src/capacity_timeline.ts:90-92 | The pass a missing stamp is given is the next one, at the pass minute or 45. |
| `CapacityTimeline.StillIff` | src/capacity_timeline.ts:76-81 | When nothing is planned, and why, first reason first. |
| `CapacityTimeline.StatusIff` | src/capacity_timeline.ts:83-130 | Otherwise who drives: each status with its exact condition. |
| `CapacitySignals.NeedByHour` | src/capacity_signals.ts:99-120 | What each estimate is: for CPU, memory, requests and either network direction, the least number of members that carry the load (the share above idle for memory, the learned rate for totals); for disk, health and the trigger, the members that ran. Which signals speak is exact, the need is the largest of one and the estimates, and the binding signal is the first hold that attains it, then the first signal. The idle memory, latency and rates are those of the hours. |
| `CapacitySignals.HealthyHourFitsIff` | src/capacity_signals.ts:75-117 | A healthy hour is not sized above the members that ran it exactly when, in each direction, no bandwidth is published, enough healthy hours carry the signal, the hour does not know it, or it moved no more than the bandwidth lets its members. |
| `CapacitySignals.NetworkDecides` | src/capacity_signals.ts:82-117 | CPU, memory and requests never size a healthy hour above its members; only the two network estimates can. |
| `CapacitySignals.HealthyHourNotOversized` | src/capacity_signals.ts:75-117 | No healthy hour is sized above the members that ran it when no bandwidth is published, or enough healthy hours carry each network signal. |
| `CapacitySignals.BandwidthAloneOversizes` | src/capacity_signals.ts:86-95 | In a direction too few healthy hours carry, every healthy hour that moved more than a published bandwidth lets its members is sized above them. |
| `CapacitySignals.OneHourOversized` | src/capacity_signals.ts:86-117 | At its smallest: one healthy hour on one member that moved three times the published bandwidth needs three. |
| `CapacitySignals.NetworkFits` | src/capacity_signals.ts:86-95 | When a network estimate of a healthy hour fits its members. |
| `CapacitySignals.RateIsProven` | src/capacity_signals.ts:82-95 | The learned rate is attained by a healthy hour and exceeded by none. |
| `CapacitySignals.RequestsFit` | src/capacity_signals.ts:82-117 | A healthy hour's requests never need more members than ran it. |
| `CapacitySignals.HeldHoursDoNotShrink` | src/capacity_signals.ts:75-117 | An unhealthy hour, one with a full disk or one without signals never comes down from its members. |
| `CapacitySignals.UpAtMost` | src/capacity_signals.ts:73 | The ceiling with its tolerance, as the comparison it decides. |
| `CapacitySignals.Fill` | src/capacity_signals.ts:99-112 | The record one hour fills holds exactly the estimates of its signals, each with its meaning. |
| `GrantSwitch.ActuatorPolicy.SetGrant` | src/autopark_grant.ts:157-196 | From any reachable policy and for every instance of the role's account, a call is refused exactly when it would switch on in a document of more than 6,016 characters, and then changes nothing; otherwise the document in force becomes the one printed for what the call asks for, given what the old one reads as. Kept by every call: the policy exists, attached, exactly while something is granted; at most five versions with one in force; the one in force reads as the grants and fits the limit, however often it was reprinted; and it allows starting and stopping exactly the granted instances, upserting the A records of the grants, and nothing else. For DNS grants that last, the grants become exactly what the call asks for. Each IAM call meets what AWS asks of it. |
| `GrantHistory.HistoryReads` | src/autopark_grant.ts:157-196 | Over every history of calls on instances of the account, whatever their DNS grants, the document in force as `withArn`, `withDns` and `grantDocument` compute it reads as exactly the grants the next two rows are about. |
| `GrantHistory.HistoryAllows` | src/autopark_grant.ts:68-82 | What the policy in force allows after every history, action by action: starting and stopping exactly the instances that read as granted, re-pointing the A records of each granted name by upsert in its granted zones, and nothing else; there is a policy exactly when something is granted. |
| `GrantHistory.SwitchReads` | src/autopark_grant.ts:166-184 | One call from any document: it is written exactly when it is accepted and asks for something new, and what is then in force reads as what was asked for, reprinted. |
| `GrantHistory.ComputesWanted` | src/autopark_grant.ts:98-122 | What is computed from the document that was read is what the call asks for: unchanged exactly when the call asks for nothing new. |
| `GrantHistory.HistoryFits` | src/autopark_grant.ts:108-184 | Over every such history the document in force takes at most 6,016 characters of JSON, the limit less its margin, although only switching on is checked. |
| `GrantSize.FitsIff` | src/autopark_grant.ts:108 | A document fits exactly when its JSON, counted name by name and text by text, takes at most 6,016 characters. |
| `GrantHistory.OffIsNeverLonger` | src/autopark_grant.ts:108-184 | Switching an instance off never makes the document longer, although the other grants are read and printed again. |
| `GrantShrink.ReadShrinks` | src/autopark_grant.ts:75-95 | Reading a DNS statement and printing what it says makes it no longer. |
| `GrantShrink.NormalShrinks` | src/autopark_grant.ts:58-65 | Normalising zones and names makes their statement no longer. |
| `GrantPolicy.LastCallDecides` | src/autopark_grant.ts:157-195 | Over any history from no policy, exactly the instances whose last accepted call was on are granted, each with that call's normalised DNS grant. |
| `GrantDrift.InstancesFollowTheirLastCall` | src/autopark_grant.ts:157-195 | Whatever the DNS grants of the calls, exactly the instances whose last accepted call was on are granted. |
| `GrantDrift.GrantsDrift` | src/autopark_grant.ts:57-104 | After any history an instance's DNS grant reads as its last call left it in the document, normalised and printed again once for every later write. |
| `GrantDrift.LastsIff` | src/autopark_grant.ts:55-95 | It reads as its call asked for over any number of later writes exactly when its id has 8 to 17 digits, its zones no slash and its names neither a dot nor a space at the end. |
| `GrantDrift.DocumentReads` | src/autopark_grant.ts:68-115 | The document printed for any grants reads as the same instances with their reprinted DNS grants. |
| `GrantDrift.LastingHistoriesAgree` | src/autopark_grant.ts:157-195 | For calls whose DNS grants last, this is the history in which each document says exactly what was asked for. |
| `GrantPolicy.DocumentSaysGrants` | src/autopark_grant.ts:68-115 | Reading the policy's own document gives back the grants it was printed from. |
| `GrantPolicy.WithGivesAsked` | src/autopark_grant.ts:98-122 | Adding or removing the ARN and the DNS grant gives what the call asks for, whatever the region of the ARN. |
| `GrantPolicy.SameGrants` | src/autopark_grant.ts:105-174 | Equal ARN lists and DNS grants mean equal grants: a call writes no version exactly when it changes nothing. |
| `GrantPolicy.OffIsNoLonger` | src/autopark_grant.ts:108-129 | Switching an instance off never makes the document longer, so the size needs no check then. |
| `GrantRoundTrip.ArnsReadBack` | src/autopark_grant.ts:68-115 | The document grants exactly the instances it was printed for, each in any region, in order. |
| `GrantRoundTrip.DnsReadBackIff` | src/autopark_grant.ts:68-95 | The DNS grants are read back exactly when every printed one is of an id of 8 to 17 digits, its zones have no slash and its names end in neither a dot nor a space. |
| `GrantRoundTrip.Reprint` | src/autopark_grant.ts:68-115 | Printing what was read gives the same document. |
| `GrantRoundTrip.StatementReads` | src/autopark_grant.ts:56-95 | One DNS statement gives its normalised grant back exactly when that is readable. |
| `GrantRoundTrip.NamesReadBack` | src/autopark_grant.ts:58-64 | Normalising again keeps a set of normalised names exactly when each one is settled. |
| `GrantDocument.ArnRoundTrip` | src/autopark_grant.ts:36 | The ARN expression accepts exactly the printed instance ARNs and recovers the instance. |
| `GrantDocument.TextsByLetter` | src/autopark_grant.ts:36 | Which texts are instance ids, accounts and partitions, letter by letter. |
| `Strings.LowerByLetter` | src/autopark_grant.ts:58 | Names are lower-cased letter by letter. |
| `Strings.SpacesByName` | src/autopark_grant.ts:58 | The characters that are trimmed, one by one. |
| `GrantDocument.GrantArnOf` | src/autopark_grant.ts:36 | Every region's ARN of an instance is listed the same way, and a listed ARN as it is. |
| `GrantDocument.SidReadsBack` | src/autopark_grant.ts:54-55 | A statement id names its instance exactly for ids of 8 to 17 digits. |
| `GrantDocument.ShortIdIsLost` | src/autopark_grant.ts:36-55 | A six-digit id is granted and its DNS statement is not read back. |
| `GrantDocument.SettledIff` | src/autopark_grant.ts:58 | Normalising a name twice is normalising it once exactly when neither a dot nor a space is left at its end. |
| `GrantDocument.StripZoneMeaning` | src/autopark_grant.ts:56 | A zone id loses the prefix and nothing else. |
| `GrantDocument.TwoDots` | src/autopark_grant.ts:58 | A name that loses a dot each time it is normalised. |
| `GrantDocument.RenderDocument` | src/autopark_grant.ts:68-82 | The document's loop prints the start/stop statement and the DNS statements of the granted keys, sorted. (What those allow: `GrantHistory.HistoryAllows`.) |
| `GrantDocument.DnsGrantsOf` | src/autopark_grant.ts:85-95 | The reading loop: the last readable statement of an instance is its DNS grant. |
| `GrantDocument.OneReads` | src/autopark_grant.ts:111-115 | A single resource text reads as a list of one; what is no instance ARN is dropped. |
| `GrantDocument.OneOrMany` | src/autopark_grant.ts:85-95 | A field that holds one text says the same as a list of it; an empty one says nothing. |
| `PolicyVersions.PruneMeaning` | src/autopark_grant.ts:131-136 | Pruning takes just enough versions, never the default, none younger than one it leaves. |
| `GrantSwitch.ActuatorPolicy.Publish` | src/autopark_grant.ts:185-192 | One more version in force, the pruned ones gone, the others kept and no longer in force. |
| `GrantSwitch.ActuatorPolicy.Withdraw` | src/autopark_grant.ts:174-181 | Detaching, deleting the versions not in force and then the policy leaves none. |
| `ManagedSection.ExecClosedForm` | src/aws_config.ts:210-211 | Where the expression matches: at the first begin line, with the newline before it when there is one, and not at all without an end mark behind it. |
| `ManagedSection.SectionFound` | src/aws_config.ts:210-211 | In a text laid out with a section, exactly that section is matched. |
| `ManagedSection.ReplaceThenRead` | src/aws_config.ts:217-238 | What is written is what is read back. |
| `ManagedSection.ReplaceThenReadIff` | src/aws_config.ts:217-238 | For every text and body: reading back returns what was written exactly when the text has a section or no begin marker at the end of a line and the body holds no end mark; or, with such a marker, for the one body it happens to read. |
| `ManagedSection.ReplaceTwice` | src/aws_config.ts:217-230 | A second replacement leaves what replacing once with the later body would. |
| `ManagedSection.OutsideIsKept` | src/aws_config.ts:213-230 | The text before and after the section stays, byte for byte. |
| `ManagedSection.InsertThenRemove` | src/aws_config.ts:217-230 | Inserting and removing gives the text back, plus one newline if it did not end in one. |
| `ManagedSection.HistoryLeavesTheLast` | src/aws_config.ts:217-230 | Any history of writes leaves the user's text with the last section, or without one. |
| `ManagedSection.StrayTakesOver` | src/aws_config.ts:210-238 | A begin marker at the end of an earlier line takes the section over: what is read back is what stands between it and the section. |
| `ManagedSection.SecondWriteLoses` | src/aws_config.ts:210-230 | The next write then loses every line of the user's from that marker on, for every body: what precedes the marker stays, the new section follows, and what the first body left over, which is nothing unless it holds an end mark or begins with the end marker. |
| `ManagedSection.StrayLineIsLost` | src/aws_config.ts:210-230 | At its smallest: of a file that is only a begin line nothing is left after two writes. |
| `ManagedSection.ReplaceTwiceIff` | src/aws_config.ts:217-230 | For every text and every two bodies, a second write leaves what one write of the later body would exactly when the text has a section or no begin marker at the end of a line and the first body holds no end mark; behind a stray marker only if the first body's left-over makes up for the lost lines letter by letter, which a rendered body never does. |
| `ManagedSection.UncleanIsCut` | src/aws_config.ts:210-238 | An end mark inside a body cuts it short. |
| `CredentialFiles.RenderSpc` | src/aws_config.ts:120-170 | The loop renders the text of the connection file: the parent, the aggregator and every member, aligned and quoted as the source does. |
| `ConnectionMeaning.FileConnects` | src/aws_config.ts:121-168 | What the connection file connects: without members the one connection with the settings' own credentials; with them an aggregator over exactly the parent and the members, the parent with those credentials, and each member with its own regions, region and managed profile. |
| `ConnectionFile.FileReads` | src/aws_config.ts:281-296 | Whatever the values, the text of a rendered file reads, setting by setting, as its lines say. |
| `ConnectionFile.SettingReads` | src/aws_config.ts:285-290 | A rendered setting reads back under the reader's expression as its escaped value. |
| `ConnectionFile.LiteralIff` | src/aws_config.ts:286 | What the reader finds in any line: the name, an equals sign and one quoted text, with spaces around them only. |
| `ConnectionFile.ListReadsBack` | src/aws_config.ts:128 | A list of regions or connections reads back as its texts. |
| `ConnectionFile.ListLineReads` | src/aws_config.ts:124-135 | A line with a list says its name and that list. |
| `JsonText.UnescapeBack` | src/aws_config.ts:98-290 | Every text comes back from its JSON escapes. |
| `JsonText.LiteralEnds` | src/aws_config.ts:286 | The expression's quoted text ends at its own closing quote, whatever is inside. |
| `JsonText.PlainStays` | src/aws_config.ts:98 | A text without quotes, backslashes and control characters is written as it is. |
| `JsonText.UnescapeSteps` | src/aws_config.ts:288 | What reading makes of any first character and of every escape: control characters and other escapes are refused. |
| `JsonText.UnescapeHex` | src/aws_config.ts:288 | Four hexadecimal digits stand for the character of that number, unless that is half a surrogate pair. |
| `JsonText.HexIff` | src/aws_config.ts:288 | The hexadecimal digits, small and capital. |
| `CredentialFiles.CredentialsReadBack` | src/aws_config.ts:201-206 | The credentials section holds no end mark and splits into the lines it was joined from. |
| `CredentialFiles.PairReads` | src/aws_config.ts:299 | A rendered pair reads back as its key under the reader's expression. |
| `CredentialFiles.FieldIff` | src/aws_config.ts:299 | What the reader finds in any line: the name, an equals sign and one word, with spaces around them only. |
| `CredentialFiles.KeyCharIff` | src/aws_config.ts:58 | Which characters a key may hold. |
| `ConfigProfiles.RenderManagedConfig` | src/aws_config.ts:177-198 | The config section's loop renders the parent's profiles and one per member. |
| `ConfigProfiles.ConfigReads` | src/aws_config.ts:177-198 | The rendered text reads, header by header and source by source, as exactly the profiles the next rows are about, in order. |
| `ConfigProfiles.ChainsClose` | src/aws_config.ts:98-198 | With the user's own profile not a rendered name, every rendered profile's chain ends at the parent's base identity within two hops (one without a role). |
| `ConfigProfiles.ChainsCloseIff` | src/aws_config.ts:98-198 | Every rendered chain ends exactly when the user's own profile is none of the rendered names. |
| `ConfigProfiles.OwnNameIsTrapped` | src/aws_config.ts:177-189 | At its smallest: an own profile named like the managed one, whose chain never ends. |
| `CredentialProfiles.WrittenProfilesRead` | src/aws_config.ts:177-270 | From any state earlier writes left, the text of the config file's section says exactly those profiles after a write, and none when none is rendered. |
| `CredentialProfiles.WrittenChainsCloseIff` | src/aws_config.ts:98-270 | So in the text that was written every chain ends exactly when the user's own profile is none of those it holds. |
| `ConfigProfiles.ProfilesAreDefined` | src/aws_config.ts:98-198 | Every profile a section or a connection points at is rendered, or is the user's own. |
| `ConnectionMeaning.MemberAssumesItsRole` | src/aws_config.ts:189-196 | Each member's profile assumes that member's role from the parent's identity, in its region. |
| `ConnectionMeaning.ManagedAssumesTheRole` | src/aws_config.ts:181-188 | The managed profile assumes the configured role from the keys, the profile or the credential source of the settings; keys that are chained have their source profile. |
| `CredentialProfiles.AggregatorListsConnections` | src/aws_config.ts:148-170 | The aggregator keeps the schema's name and lists exactly the other connections of the file, in order. |
| `CredentialProfiles.ConnectionsAreDistinct` | src/aws_config.ts:119-150 | For distinct numeric account ids, no connection is listed twice. |
| `ConfigProfiles.ConfigIsClean` | src/aws_config.ts:177-198 | What is written into the config file holds no end mark. |
| `CredentialProfiles.WriteKeeps` | src/aws_config.ts:241-250 | From any state earlier writes left, a write gives the user's text with the new section, or without one. |
| `CredentialProfiles.WriteThenReadKeys` | src/aws_config.ts:261-307 | From any such state, one write of the files' texts makes exactly the pasted keys readable in keys mode (with or without role and members), and none in the other modes. |
| `CredentialProfiles.ChainedKeysAreWritten` | src/aws_config.ts:200-205 | The profile the chains start from has its keys: after a write the credentials file's section has that profile's name and exactly the pasted keys when keys are chained into a role or into members, and no keys otherwise. |
| `CredentialProfiles.CredentialStore.Write` | src/aws_config.ts:261-271 | The three files after a write, the keys read from them and the profiles read from the config file. |
| `CredentialProfiles.CredentialStore.Remove` | src/aws_config.ts:274-278 | Removing leaves the user's text, no keys and no profiles. |
| `RecommendationHistory.RecommendationTable.Upsert` | src/collector.ts:274-321 | One call is one batch on the table; without a provider nothing is written; the rows told are the resolved ones that carried a decision. Approved, pending, rejected and done rows are as before. |
| `RecommendationHistory.BatchKeeps` | src/collector.ts:293-319 | A batch keeps fingerprints unique, deletes no row, and leaves approved, pending, rejected and done rows exactly as they are. |
| `RecommendationHistory.BatchRefreshes` | src/collector.ts:293-304 | An open, snoozed or resolved row that the batch names says, field by field, what the batch's last item of its rule and resource says; it is open after, or still snoozed. |
| `RecommendationHistory.BatchInserts` | src/collector.ts:293-296 | An item no row has is written as a new open row, with the origin of the first item of its rule and resource and the content of the last. |
| `RecommendationHistory.SelfReconciledIff` | src/collector.ts:310 | The rules that reconcile themselves, letter by letter, as `like` matches: case apart, and any letter for the unescaped underscore of `review_`. |
| `RecommendationHistory.BatchCovers` | src/collector.ts:293-319 | After a batch each of its items has an unresolved row; after a full one every open rules row of the provider outside the self-reconciled families is in it. |
| `RecommendationHistory.OutsideTheBatch` | src/collector.ts:305-319 | A row outside the batch changes only when a full batch of its provider no longer has it, and then only to resolved. |
| `RecommendationHistory.BatchTwice` | src/collector.ts:293-319 | Repeating a batch changes nothing. |
| `RecommendationHistory.HistoryKeeps` | src/collector.ts:274-321 | Over any interleaving with decisions, fingerprints stay unique and no row is deleted or renamed. |
| `RecommendationHistory.DecidedRowsKeepWhatTheySay` | src/collector.ts:298-301 | While a row stays decided, whatever batches come in, it keeps its title, tier, saving and the rest. With no decision on it in between it is the same row altogether. |
| `Recommendations.UpsertMeaning` | src/collector.ts:293-304 | For every table and batch, with duplicates: old rows say what the last item of their fingerprint says, new rows are written once. |
| `SecurityHistory.FirstSeenIsTheRunsStart` | src/compliance.ts:211-239 | Over any history of scans, completed or not, a finding's first scan and time are those of the first scan of its unbroken run of completed scans. |
| `SecurityHistory.RunStartMeaning` | src/compliance.ts:211-239 | That run has no gap among the completed scans, and the completed scan before it does not show the finding. |
| `SecurityHistory.CompletedScansCount` | src/compliance.ts:242-251 | A completed scan counts its alarms, and as new exactly the rows the page shows under only-new: those the previous completed scan does not show. |
| `SecurityHistory.AlarmsBalance` | src/compliance.ts:246-251 | Alarms are the previous ones plus new minus vanished; the vanished are counted as resolved exactly when no benchmark failed. |
| `SecurityHistory.LedgerBalances` | src/compliance.ts:246-251 | Over a history without a failed benchmark, the first scan's alarms plus everything new minus everything resolved are the last one's. |
| `SecurityScans.PreviousMeaning` | src/compliance.ts:198-200 | The scan compared with is the last completed one before. |
| `SecurityScans.ScanRowsHold` | src/compliance.ts:216-240 | A scan's findings are exactly the alarms of the benchmarks that ran. |
| `SecurityScans.ScanRowsMeaning` | src/compliance.ts:228-239 | Each fingerprint once a scan, with the first scan its earlier row carried, or this one. |
| `SecurityScanRun.SecurityLog.Execute` | src/compliance.ts:205-268 | One scan adds its row and its findings and changes none of the earlier ones, however it ends. |
| `SecurityRecommendations.WarrantedIff` | src/compliance.ts:136-172 | A recommendation is warranted exactly when some alarm is critical and not noise, curated for always, or curated and exposed. |
| `SecurityRecommendations.WarrantsByName` | src/compliance.ts:136-149 | Which alarms warrant one, by the names of the controls. |
| `SecurityRecommendations.SecurityRecSays` | src/compliance.ts:151-169 | What it says, field by field. |
| `SecurityRecommendations.WarrantedOnce` | src/compliance.ts:136-172 | Each only once, as the first such alarm says it. |
| `SecurityRecommendations.ComplianceRecommendations` | src/compliance.ts:136-172 | The loop over the findings gives the warranted recommendations. |
| `SecurityRecommendations.ResolveVanished` | src/compliance.ts:271-278 | Exactly the open security rows not seen become resolved. |
| `SecurityRecommendations.SecurityReconciled` | src/compliance.ts:253-278 | After a completed scan every warranted recommendation has an unresolved row; when no benchmark failed every open security row is warranted; decided rows and the rows of other rules are untouched. |
| `SecurityRecommendations.OnlyVanishedResolve` | src/compliance.ts:271-278 | Row by row: of the rows the scan does not warrant, exactly the open ones whose rule begins with `sec_` become resolved, and only when no benchmark failed. |
| `AgentRequests.LeavesAndGradesOnce` | src/agent.ts:231-259 | Under any interleaving of webhook and poll deliveries, a request leaves pending and is graded at most once. |
| `AgentRequests.RetriesOnce` | src/agent.ts:276-303 | A request causes at most one retry, and a retry none. |
| `AgentRequests.AtMostTwoDispatches` | src/agent.ts:276-303 | One original leads to at most two dispatches. |
| `AgentRows.RowsHoldTheirOwn` | src/agent.ts:231-303 | Under any interleaving, a row names only requests of its own subject and holds only the outcome of such a request; an observation, a report or a playbook job only that of the very request it names. |
| `AgentRows.TargetMeaning` | src/resolve.ts:456-459 | The row a completion finds: the one that names the request, or for incidents and resolutions the newest waiting one of the same alert or recommendation. |
| `AgentRows.FindsByName` | src/investigate.ts:338-341 | The same row, kind by kind: exactly the one that names the request; when none does, for an incident and for a resolution of a recommendation the newest waiting one of the same; for the others none. |
| `AgentAstray.StraysIff` | src/investigate.ts:338-341 | A failure or a finished answer is written into a row that does not name the request exactly when it is about an incident or a resolution, no row names it, and the row is the newest waiting one of its subject. |
| `AgentAstray.PostponedStraysIff` | src/investigate.ts:338-369 | An incident whose answer is at the tier check has found a foreign row under the same condition. |
| `AgentAstray.AstrayIff` | src/agent.ts:231-303 | For every history: a row holds the outcome of a request it does not name exactly when some step strayed into it and no later step wrote it, moved it to a retry, closed it, or let it name that request. |
| `AgentAstray.OnlyFallbacksStray` | src/agent.ts:231-303 | Only incidents and resolutions ever hold a foreign outcome. |
| `AgentAstray.SentBackAnswerIsStored` | src/agent.ts:294-302 | The answer that was sent back is stored in the very row that waits for the retry, when that is an incident or a resolution. |
| `AgentAstray.NamedOutcomeWins` | src/resolve.ts:456-470 | The outcome of the request a row names is written into that row, whatever it held. |
| `AgentAstray.OwnAnswerLostIff` | src/investigate.ts:338-378 | A row's own outcome is overwritten exactly by storing an answer that had found the row before. |
| `AgentAstray.OwnAnswerIsFinal` | src/agent.ts:231-303 | Outside incidents, a row that holds the outcome of the request it names holds it for good. |
| `AgentAstray.TierCheckReversesTheAnswers` | src/investigate.ts:345-378 | An incident can be left for good with the answer that was sent back, written after the retry's, both having passed the tier check. |
| `AgentAstray.NamesSentBackIff` | src/agent.ts:294-300 | A row names a request that was sent back exactly when it was given the request only after the retry was linked, or is a usage investigation. |
| `AgentAstray.UsageRetryIsLost` | src/agent.ts:291-300 | A usage investigation's retry is an observation's request that no row ever names or holds: its answer is lost. |
| `AgentWaiting.WaitsForGoodIff` | src/agent.ts:231-303 | After every history, a waiting observation, report, playbook job or usage investigation stays waiting whatever happens next exactly when no outcome that has found it, no live request it names, no live retry it is about to be moved to and no dispatch of it is under way. |
| `AgentWaiting.HopeWrites` | src/agent.ts:231-303 | In every other case, and for incidents and resolutions too, some continuation writes the row. |
| `AgentWaiting.WaitsForANewRow` | src/investigate.ts:338-341 | An incident or a resolution waits until a new row of its alert or recommendation is opened, once every request about that is over and none is about to be posted: no fallback can reach it. |
| `AgentRequests.ReachedValid` | src/agent.ts:231-303 | What every interleaving keeps: one delivery under way per request, retries one deep and one each. |
| `AgentDesk.AgentTables.HandleAgentResult` | src/agent.ts:231-248 | One result per dispatch: a second delivery changes nothing; a failure is written to the row the completion finds. |
| `AgentDesk.AgentTables.FindRow` | src/investigate.ts:338-341 | The lookup by request, then by alert or recommendation. |
| `AgentDesk.AgentTables.Grade` | src/agent.ts:276-283 | The score is stored; below the threshold an original's answer is sent back. |
| `AgentDesk.AgentTables.PostAgentRequest` | src/agent.ts:142-175 | A request without a row adds one pending run. |
| `AgentDesk.AgentTables.Open` | src/investigate.ts:278 | A new row waits and names no request. |
| `AgentDesk.AgentTables.PostRow` | src/agent.ts:164-174 | A row's request has a run before any row names it. |
| `AgentDesk.AgentTables.NotPosted` | src/investigate.ts:293-296 | A row whose request was not accepted names none and is closed; nothing else changes, and nothing of it is under way. |
| `AgentDesk.AgentTables.NameRequest` | src/investigate.ts:290 | The row, and no other, names its request after the dispatch was awaited; what it holds stays. |
| `AgentDesk.AgentTables.RetryPosted` | src/agent.ts:285-293 | An accepted retry is a new pending run that names the one it retries, is of the kind it is sent again as, and is named by no row yet; the rows are unchanged. |
| `AgentDesk.AgentTables.RetryNotSent` | src/agent.ts:302 | A retry that is not sent leaves runs and rows as they were, and the answer goes on to its row. |
| `AgentDesk.AgentTables.Complete` | src/agent.ts:249-258 | The outcome goes to the row the completion finds, or the row is found and more is awaited; which rows then hold a foreign outcome. |
| `AgentDesk.AgentTables.StoreOutcome` | src/investigate.ts:369-378 | What was awaited is there: the outcome is written into the row found before, of the same subject, which is then astray exactly when it names another request. |
| `AgentDesk.AgentTables.Link` | src/agent.ts:294-300 | The run names its retry; exactly its rows name the retry and wait for it, but for usage investigations. |
| `ChatSession.AnsweredTurnTellsIff` | src/chat.ts:301-412 | For every history: after the next answered turn the live session has been told the current plan's resolution and outcomes, which are then also the stored ones, exactly when the turn opens a session, or every state told by a broken post and not stored since has the stored plan where that is the current one, and is the stored state where that is the current one. (Whose outcomes those are: `ChatSession.ToldIsOfThePlan`.) |
| `ChatSession.ToldIsOfThePlan` | src/chat.ts:300-302 | After such a turn the outcomes the session was told, and those stored, are the progress's own where it is the progress of the current plan's resolution, and empty otherwise; the resolution stored is the current plan's. |
| `ChatSession.AnsweredTurnShowsIff` | src/chat.ts:301-412 | For every history: after the next answered turn the session knows what the current plan says exactly when the turn opens a session, or the stored resolution is another, or the plan said the same when it was last told. |
| `ChatSession.HistoryShown` | src/chat.ts:313-412 | After every history the session knows the plan as it was in the last brief that said one. |
| `ChatSession.OneTextIsShown` | src/chat.ts:301-330 | So while no plan is overwritten under its resolution, a session that is up to date knows what the current plan says. |
| `ChatSession.OverwrittenPlanIsNotTold` | src/chat.ts:301-330 | A plan overwritten under the same resolution, as a retry's answer overwrites the one sent back, is not told: the stored state is the current one. |
| `ChatSession.EachTurnTells` | src/chat.ts:361-412 | So after each answered turn that began with at most 300 messages, and beyond that while no post broke off after delivery. |
| `ChatSession.BrokenPostIsNoticedIff` | src/chat.ts:139-141 | A post that breaks off after delivery is noticed by the next turn exactly when the thread had fewer than 150 turns: later the last turn is not among the 300 oldest messages read. |
| `ChatSession.FollowUpTellsIff` | src/chat.ts:313-330 | A follow-up brief leaves the session knowing the current state exactly when, wherever the stored state is the current one, the session knew it already. |
| `ChatSession.FullBriefTells` | src/chat.ts:313-345 | The whole brief tells a session everything, whatever it knew. |
| `ChatSession.BuildChatPrompt` | src/chat.ts:313-345 | Whatever the session knew, hearing the brief leaves it knowing the current state where that differs from what it was last told; plan and outcomes are said exactly when they do, facts and conversation only to a new session. A plan that is said is the world's plan, and outcomes that are said are of its resolution. |
| `ChatSession.HistoryIsSound` | src/chat.ts:361-447 | What every history keeps: the session is in step with the stored state unless the last turn failed. |
| `ChatSession.ChatThread.Ask` | src/chat.ts:368-412 | One turn's changes to the thread, whichever way the post goes. |
| `ChatSession.ChatThread.CompleteChat` | src/chat.ts:430-447 | The pending answer is completed or failed, and nothing else. |

## Left out

- AWS, Steampipe, Powerpipe, Kubernetes, Vercel, Sphinx and agent calls, the SQL text and the pages: their answers are parameters.
- IAM policy evaluation and the IAM part of `accessEdges`: its edges and grants are given; only the Vercel part is built.
- The rest of `reach` after the account fold (clusters, shells, roles, escalation, used services) and the accounts' list of at most eight paths: filters over the same strongest paths.
- AccessPaths.Search: asks that project gates be fixed before depth one, which `AccessAccounts.AssembledIsWellShaped` shows of the assembled graph; path steps are structured steps, not their labels.
- AccessAccounts.Accounts: leaves out the permission and resource-access services, which are merged as the write services are, and the listed paths.
- AccessAccounts.AssembledIsWellShaped: takes the IAM side's grants and edges as given; it grants no project and leads to no member.
- Human-readable text everywhere: headlines, reasons, notes, prompts, log lines.
- Floating point: reals, with the source's ceilings, roundings and the 1e-9 tolerance written out; NaN is a missing value.
- `decideWindow` is a parameter of the timeline, and the cron parsing behind `passMinute` is not part of this model.
- CapacityPattern.LearnPattern: leaves out the stored time, the number of days, the copied inputs and the text of the summary (its runs are `CapacityPattern.LevelRuns`).
- Reading settings and pairs goes line by line, as the rendered texts allow: a setting spread over several lines, and line terminators other than the newline, are not modelled.
- `validateSettings` is the predicate it establishes, as far as rendering depends on it; file modes and directories are left out.
- ConfigProfiles.ChainsClose: looks profiles up by their first section; the AWS tools' merging of sections with one name is not modelled, and reading the text takes the line forms the renderer writes.
- GrantSwitch.ActuatorPolicy.SetGrant: takes instances of the role's own account in the `aws` partition, the only ones it is called with (`src/consent.ts` builds the ARN from the role's account). Calls are sequential, and AWS failures midway are not modelled.
- GrantDocument.SettledIff: lower-cases ASCII letters only, as DNS names are; lengths count characters, which for such text are the ones JSON counts.
- The lookup of a policy's simulated permissions (`checkGrant`) and the text explaining a refusal.
- RecommendationHistory.RecommendationTable.Upsert: leaves out timestamps and takes the account of a new row as given.
- Other status changes of recommendations (the executor, the other rule families' own reconciling) are seen as decisions.
- SecurityScans.ScanRowsMeaning: takes fingerprints as given; the hash behind them is not modelled.
- The severity counts, the error counts and the notification of a scan.
- AgentRows.RowsHoldTheirOwn: is about observations, reports, playbook jobs, usage investigations, incidents and resolutions; chat messages and findings have no row of this kind. The refusal to open a second row while one waits is left out, so every history with it is one of these; closing a resolution at its gate is a request that is not sent.
- AgentWaiting.WaitsForANewRow: goes one way for incidents and resolutions. While some other request of the subject is open, whether its outcome can fall back to this row depends on how many newer waiting rows are written before; that count is not worked out.
- ChatSession.EachTurnTells: is about recommendation threads with sequential turns; the other threads' briefs carry no state to keep.
- The watcher, alerts, account overview, inventories, consent switches, setup and usage reports: one-branch rules around I/O.
