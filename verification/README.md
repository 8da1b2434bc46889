# Agentira backend: a verified model of its graph, credential and window logic

Agentira is a project tracker for people and agents. Three parts of its backend
carry rules that span many operations; this project models them in Dafny and proves them.

**Work graph** (`Graphs`, `Keys`, `Search`, `TaskState`, `TaskStore`, `TaskInvariants`,
`TaskProperties`, `TaskEffects`, `TaskBatch`, `TaskPlans`, `TaskRuns`, `TaskRaces`, `TreeRaces`, `KeyRaces`, `PrefixRaces`).
Tasks, typed links, a parent tree and task keys share one set of tables. `TaskState` says what every request does to them,
using plain reachability; `TaskStore.Store` updates the tables in place with the loops of the
source (depth-first search, bounded ancestor walk, link collection) and is proved to do the
same. `TaskEffects` says what the requests change, task by task and row by row, without those functions.
`TaskBatch` has the Kahn peel and the one-transaction insert of a whole plan; `TaskPlans`
proves that this fast path agrees with adding the edges one at a time. `TaskRuns` states
the results for every history of requests served one at a time. The four race modules let requests
interleave between what they read and what they write: blocking rows, parent pointers, task keys,
and key prefixes.

**Credentials** (`DaemonAuth`, `DaemonSnapshots`, `McpOauth`, `DeviceLogin`, `LoginRaces`). Rotating refresh
tokens as a system of interleaved transactions, and their revocation as a single statement; the stateless
OAuth flow over symbolic signed claims; the browser login of a daemon over its two in-process tables, with
whole requests and then access by access.

**Loops with a crisp rule** (`RateLimit`, `History`, `LiveInflight`, `Migration`, `Text`). The sliding
window of the client log endpoint, the token-budgeted transcript, the heartbeat mirror and
the agent-to-profile split, each as the source's loop proved against an independent rule.

## Reading the results

Main theorems: `TaskPlans.BatchAgreesWithEdgeByEdge`, `TaskBatch.Peel`, `TaskRuns.EveryRunCanProgress`,
`TaskPlans.CreateTasks`, `TaskRuns.KeyNeverReissued`, `TaskRuns.ShallowRunsKeepForest`, `DaemonAuth.ExchangedAtMostOnce`,
`DaemonAuth.BurnedFamilyStaysDead`, `McpOauth.AccessDescendsFromSignIn`, `LoginRaces.HandedOnceExact`,
`RateLimit.LimiterExact`, `LiveInflight.MirrorExact`, `LiveInflight.LivePromise`, `Migration.Migrate`,
`TaskRaces.AlwaysAcyclicExact`, `TreeRaces.AlwaysForestExact`, `KeyRaces.NeverReissuedExact`,
`DaemonSnapshots.BurnExact`.

Promises the code does not keep as stated, with the exact condition under which it does:

- Adding a dependency is documented as idempotent. A pair that already carries a row of any other
  type is returned as it is, and no dependency is created (`TaskProperties.AcceptedDependencyHolds`,
  `TaskProperties.RelatedPairSwallowsDependency`).
- The cycle check of a link runs before the pair's old rows are dropped, so reversing an edge is
  refused even when the result would be acyclic (`TaskProperties.NeedlessRefusal`,
  `TaskProperties.ReversalRefused`).
- The self-link check compares an id with a reference as written, so every other spelling of the task gets
  past it for the types that are not checked otherwise; on such a link the two sides may disagree
  (`TaskProperties.SelfLinkExact`, `TaskProperties.SelfLinkByKey`, `TaskProperties.SelfLinkSides`).
- The graph is to stay a DAG. Nothing holds a lock between the search and the insert, so two requests for
  opposite edges that both search before either inserts close a cycle, and so do a search and a link
  request. The graph stays acyclic exactly when each row closes no cycle by the time it is added, and it does
  when no search is older than another addition of a blocking row (`TaskRaces.CrossedLooksCloseCycle`,
  `TaskRaces.LookAndLinkCloseCycle`, `TaskRaces.AlwaysAcyclicExact`, `TaskRaces.FreshRunsStayAcyclic`).
- The module promises that the parent tree has no cycles. The ancestor walk stops after 50 steps, and a reachable
  history ends in a parent cycle (`TaskProperties.AcceptedParentExact`, `TaskRuns.SomeRunClosesParentCycle`).
  Two walks that cross close one at any depth; the tree stays a forest exactly when no task is above its new
  parent by the time the pointer is written (`TreeRaces.CrossedWalksCloseCycle`, `TreeRaces.AlwaysForestExact`).
- A key is to name one task for good. A create that read the counter before another task was created and deleted
  gives that task's key again; no key is given twice exactly when every create that goes through finds the
  counter it has read (`KeyRaces.StaleCreateReissues`, `KeyRaces.NeverReissuedExact`).
- Prefixes are deduplicated when a project is created. Two creates that read the prefixes at the same time take
  the same one; prefixes differ exactly when each still is free when it is written
  (`PrefixRaces.TwoProjectsShareKeys`, `PrefixRaces.PrefixesDistinctExact`).
- A login session is to hand its tokens over once, and both of them. The handlers share it without a lock: two polls
  that both find it hand it over twice, and a poll during the approval gets one token or none and ends the session.
  It is handed over at most once exactly when no poll pops it while another holds it, and whole exactly when no poll
  reads a token before it is given (`LoginRaces.HandedOverTwice`, `LoginRaces.NothingHandedOver`,
  `LoginRaces.RefreshTokenLost`, `LoginRaces.HandedOnceExact`).
- The limiter's eviction pass is meant to bound memory. No queue is ever empty when it runs, so it removes nothing
  (`RateLimit.LimiterExact`).
- The decision record on refresh tokens describes the retire step as asking only for an unused row. The
  code also asks for an unrevoked one, and needs to (`DaemonAuth.UsedCheckAloneFails`).
- Revoking a family is to end its chain. The update does not see a successor that is minted but not yet
  committed when it starts; that successor stays live. The family is dead exactly when no such successor is left
  (`DaemonSnapshots.SuccessorSurvivesLogout`, `DaemonSnapshots.BurnExact`, `DaemonSnapshots.DeadStaysDead`).
- Fetching 4097 characters of a tool entry is described as enough to render it. It is, unless blanks at
  its ends hide the overflow (`History.FetchCapExact`, `History.LeadingBlankLosesEllipsis`).
- A scope is documented as live exactly when a daemon recently reported it. A reported scope is live exactly when
  its last mention, by whichever daemon, still stands and carries a trace id (`LiveInflight.LivePromise`,
  `LiveInflight.SupersededHistory`, `LiveInflight.UntracedHistory`).

Assumptions: a database transaction is one atomic step, except in `TaskRaces`, `TreeRaces`, `KeyRaces`,
`PrefixRaces` and `DaemonSnapshots`, which take it apart and assume only that a statement reads what was committed
when it started. `DeviceLogin` serves a request on its tables as a whole; `LoginRaces` assumes only that one access
to a dictionary or to a field is atomic. The limiter is called on the event loop and never waits, and the heartbeat
mirror holds its lock, so their calls are atomic. Ids, codes and tokens are drawn at random and do not repeat (where a clash is detected by a key, it is modelled as a refusal); a signature cannot be forged;
S256 is injective; every request has passed its access check.

## Model

| member | source | states |
|---|---|---|
| Search.Adjacency | backend/task_graph.py:106-108 | the adjacency table lists exactly the given edges |
| Search.ReachesByStack | backend/task_graph.py:104-118 | the search answers true exactly when some walk leads from start to target, on any edge list, cyclic ones included, and terminates |
| Graphs.AcyclicAddEdge | backend/task_graph.py:147-151 | a new edge closes a cycle exactly when its head already reaches its tail |
| Graphs.NoSinkReachesCycle | backend/task_batch.py:53-67 | in a finite set where every node has a successor, every node reaches a cycle (the pigeonhole step of the peel) |
| TaskInvariants.ProjectReach | backend/repos/task_graph.py:128-136 | reading only one project's edges gives the same answer as reading all of them |
| TaskStore.Store.EdgesForProject | backend/repos/task_graph.py:128-136 | the list read for a cycle check is exactly the project's blocking edges |
| TaskStore.Store.AncestorIds | backend/repos/task_graph.py:52-60 | the walk returns exactly the ancestors at distance 1 to limit, also on cyclic data |
| TaskStore.Store.CheckParent | backend/task_graph.py:71-83 | a parent is refused with the right error: missing, own, elsewhere, or among the first 50 ancestors |
| TaskStore.Store.AssignParent | backend/task_graph.py:289-295 | strips the reference; a blank one clears the pointer, another sets it or changes nothing |
| TaskStore.Store.UpdateParent | backend/tasks.py:416-420 | the update request around it: the unknown task is refused, an absent field changes nothing, and otherwise only that parent changes, to the task the field names |
| TaskStore.Store.NewDependency | backend/task_graph.py:127-160 | the searching implementation does what the reachability specification says, in every branch |
| TaskStore.Store.DropDependency | backend/task_graph.py:163-175 | removes that row and nothing else, only in its own project |
| TaskStore.Store.AnnotateBlocking | backend/task_graph.py:178-192 | blocked_by and blocks agree with the blocking edges; is_blocked exactly when some row leads to an existing task that is not done |
| TaskStore.Store.DeleteRow | backend/task_graph.py:282-286 | every row that names the task goes and every other stays, children are kept and detached, every other task is unchanged |
| TaskStore.Store.Delete | backend/tasks.py:541-552 | the delete request does this to the task its reference names; an unknown reference is answered false and changes nothing |
| TaskStore.Store.NewLink | backend/task_links.py:80-124 | links of all seven types: direction, stored type, cycle and parent checks, errors in order |
| TaskStore.Store.DropLink | backend/task_links.py:127-147 | a request through any task of the project removes a parent link or a row of that project, and nothing of another one |
| TaskStore.Store.Collect | backend/task_links.py:46-68 | the listing holds every link seen from the given side, once each, and nothing else |
| TaskStore.Store.NewProject | backend/services.py:573-586 | the new project gets the first free prefix |
| TaskStore.Store.NewTask | backend/tasks.py:160-232 | accepted exactly when project, id and parent field allow it; then the one new task has the given fields, the next number and the parent its field names, and only its counter changed besides; a refusal restores both |
| TaskEffects.AddTaskMeaning | backend/tasks.py:160-232 | exactly when a task can be created, and its project, status, key number and parent |
| TaskEffects.SetParentOfMeaning | backend/task_graph.py:289-295 | stored exactly when the field is blank or names another task of the project that has this one not among its first 50 ancestors |
| TaskEffects.CreateProjectMeaning | backend/services.py:573-586 | a new project has the first free prefix and counts from one; nothing else changes |
| TaskEffects.MoveMeaning | backend/tasks.py:447-491 | the task has the new status and nothing else changes |
| TaskEffects.DeleteTaskMeaning | backend/tasks.py:541-552 | the task named goes with exactly the rows that name it; other tasks lose at most it as their parent |
| TaskEffects.DeleteBlocks | backend/task_graph.py:282-286 | among the others, who waits on whom is as before; each is blocked exactly when another blocker is open |
| TaskEffects.BlockedExact | backend/task_graph.py:178-192 | any one blocker that is not done blocks |
| TaskEffects.MoveBlocks | backend/task_graph.py:178-192 | finishing a task frees exactly those whose only open blocker it was; reopening it blocks all that wait on it |
| TaskEffects.NewDependencyBlocks | backend/task_graph.py:127-160 | a new dependency blocks its task exactly when the blocker is not done, and nobody else |
| TaskEffects.NewLinkBlocks | backend/task_links.py:105-116 | an accepted blocking link makes the right one of the two wait |
| TaskEffects.HierarchyLinkMeaning | backend/task_links.py:100-104 | a hierarchy link sets the right one's parent and nothing else |
| TaskEffects.RemoveLinkMeaning | backend/task_links.py:127-147 | nobody lists the removed link any more, every other link is listed as before |
| TaskEffects.RemoveDependencyMeaning | backend/task_graph.py:163-175 | that row is gone, exactly when it is one of the project, and no other |
| TaskEffects.ListsMeaning | backend/task_links.py:46-68 | what a task lists about another one, for all seven types, in terms of parent pointers and rows |
| Keys.UniquePrefix | backend/services.py:577-582 | the loop ends with the first free name of base, base2, base3, ... |
| Keys.FirstFreeMeaning | backend/services.py:577-582 | the base, or the base with the first number from 2 on that is free |
| Keys.RenderInjective | backend/tasks.py:190-193 | two printed keys are equal only when prefix and number are |
| Keys.FirstFreeIsPlain | backend/services.py:537-547 | a derived, deduplicated prefix is capitals and digits, never a dash |
| Keys.DerivePrefixMeaning | backend/services.py:537-547 | initials of the first five words, or the first four consonants or letters of the only one |
| Keys.WordsAt | backend/services.py:540 | every maximal run of letters is one word, in order |
| Keys.ConsonantsConcat | backend/services.py:545 | the vowels are left out character by character, wherever they stand |
| Keys.DecimalValue | backend/tasks.py:190-193 | a number is printed in decimal |
| TaskInvariants.ResolveByKey | backend/services.py:172-177 | a task is found by its own key |
| TaskInvariants.AddDependencyKeepsInv | backend/task_graph.py:127-160 | keeps rows sound, pairs unique, keys unique and the graph acyclic |
| TaskInvariants.AddLinkKeepsInv | backend/task_links.py:80-124 | the same for every link type |
| TaskInvariants.AddTaskKeepsInv | backend/tasks.py:160-232 | the same for task creation |
| TaskInvariants.DeleteTaskKeepsInv | backend/task_graph.py:282-286 | the same for deletion: no dangling ends remain |
| TaskInvariants.SomeOpenTaskIsUnblocked | backend/task_graph.py:178-192 | while a project has an open task, one of its open tasks is not blocked |
| TaskProperties.AddDependencyExact | backend/task_graph.py:143-160 | for a new pair, refused exactly when the edge would close a cycle; otherwise exactly that edge is added |
| TaskProperties.AcceptedDependencyHolds | backend/task_graph.py:143-145 | after success the edge exists exactly when no row of another type held the pair |
| TaskProperties.RelatedPairSwallowsDependency | backend/task_graph.py:143-145 | relating two tasks and then adding the dependency succeeds without adding it |
| TaskProperties.AddDependencyIdempotent | backend/task_graph.py:129-130 | repeating the call returns the same row and writes nothing |
| TaskProperties.RemoveUndoesAdd | backend/task_graph.py:163-175 | removing the row an add created restores the state |
| TaskProperties.LinksSeenFromBothSides | backend/task_links.py:19-27 | for distinct tasks, one lists (type, other) exactly when the other lists (inverse, one) |
| TaskProperties.SelfLinkSides | backend/task_links.py:62-67 | on a self link the sides agree exactly when it is not a stored duplicate |
| TaskProperties.SelfLinkExact | backend/task_links.py:91-92 | of all references to the task itself exactly those other than its id are accepted, for exactly three types |
| TaskProperties.SelfLinkByKey | backend/task_links.py:91-92 | the key of a task is such a reference |
| TaskProperties.AddLinkReplacesPair | backend/task_links.py:105-116 | exactly one row is left between the two tasks, in its stored direction, all other rows kept |
| TaskProperties.NeedlessRefusal | backend/task_links.py:109-113 | exactly when a blocking link request is refused, and exactly when without need |
| TaskProperties.ReversalRefused | backend/task_links.py:109-113 | on tasks without links: link b to a, then ask for the reverse, and it is refused |
| TaskProperties.AcceptedParentExact | backend/task_graph.py:80-83 | an accepted parent keeps the forest exactly when the task is not an ancestor beyond the bound |
| TaskProperties.ShallowParentSafe | backend/task_graph.py:80-83 | a parent with at most 50 ancestors is always safe |
| TaskProperties.LongChainAcceptsCycle | backend/task_graph.py:80-83 | on a longer chain, linking top under bottom is accepted and closes a cycle |
| TaskBatch.Peel | backend/task_batch.py:53-67 | what is left is exactly what reaches a cycle; the rest was removed in dependency order |
| TaskBatch.Validate | backend/task_batch.py:25-68 | the first error in the order of the checks, or the deduplicated dependencies |
| TaskBatch.InsertWanted | backend/task_batch.py:86-90 | the rows of one entry, in the order named |
| TaskBatch.StageTasks | backend/task_batch.py:79-84 | every entry becomes a task with its own fields, the next number in a row and the parent its own field names, and is found again by its ref |
| TaskPlans.CreateTasks | backend/task_batch.py:71-107 | all or nothing; accepted, every entry became the task it describes and every dependency it names one row, and nothing else changed; ids and keys are reported in input order |
| TaskPlans.RefusedIffCyclic | backend/task_batch.py:46-68 | a well-formed payload is refused exactly when it has a cycle |
| TaskPlans.PayloadExact | backend/task_batch.py:25-68 | a payload passes exactly when it has 1 to 200 well-formed entries with refs of their own, names only its own refs and has no cycle |
| TaskPlans.ShapeRefusal | backend/task_batch.py:32-44 | a payload is refused for the first thing wrong with its first improper or repeated entry |
| TaskPlans.CycleRefusal | backend/task_batch.py:53-67 | a cyclic one with exactly the refs on or before a cycle |
| TaskPlans.CreatePlanMakes | backend/task_batch.py:71-95 | the accepted plan as a whole: tasks, counter and rows |
| TaskPlans.EdgeByEdgeExact | backend/task_graph.py:127-160 | adding edges one by one succeeds exactly when the finished graph is acyclic, in any order |
| TaskPlans.BatchAgreesWithEdgeByEdge | backend/task_batch.py:71-95 | batch and edge-by-edge accept the same payloads in any edge order and build the same edges; a refusal changes nothing |
| TaskPlans.CreatePlanKeepsInv | backend/task_batch.py:1-7 | the unchecked inserts keep the graph acyclic and the pairs unique |
| TaskRuns.EveryRunSound | backend/task_graph.py:1-10 | the invariant holds after every history of requests |
| TaskRuns.EveryRunCanProgress | backend/models.py:829-835 | after every history: acyclic, no dangling ends, and open work can proceed |
| TaskRuns.EveryRunLinksAgree | backend/task_links.py:1-10 | after every history the two sides of a link agree |
| TaskRuns.KeyNeverReissued | backend/tasks.py:190-193 | a key given to one task is never given to a later one, even after a delete |
| TaskRuns.ShallowRunsKeepForest | backend/task_graph.py:289-295 | histories that only use parents with at most 50 ancestors keep the forest |
| TaskRuns.SomeRunClosesParentCycle | backend/task_graph.py:21 | some history of accepted requests ends in a parent cycle |
| TaskRaces.InsertExact | backend/task_graph.py:147-155 | a row inserted after an earlier check leaves the graph acyclic exactly when it closes no cycle by then |
| TaskRaces.AlwaysAcyclicExact | backend/task_graph.py:127-160 | over all interleavings of looks, inserts and whole requests of every kind, the graph is acyclic at every moment exactly when each inserted row closes no cycle by then |
| TaskRaces.FreshRunsStayAcyclic | backend/task_graph.py:127-160 | it is enough that no look is older than another addition of a blocking row; removals, deletions and whole plans in between do no harm |
| TaskRaces.FreshInsertIsRequest | backend/task_links.py:109-115 | the insert on such a look does what the whole request would do at that moment |
| TaskRaces.CrossedLooksCloseCycle | backend/task_graph.py:147-155 | two requests for opposite edges that both check first add both and close a cycle |
| TaskRaces.LookAndLinkCloseCycle | backend/task_links.py:109-115 | a whole link request for the opposite edge between a check and its insert closes a cycle |
| TreeRaces.ApplyExact | backend/task_graph.py:289-295 | a pointer written after an earlier walk leaves a forest exactly when the task is not above its parent by then |
| TreeRaces.AlwaysForestExact | backend/task_graph.py:71-83 | over all interleavings the tree is a forest at every moment exactly when every written pointer was harmless |
| TreeRaces.FreshRunsKeepForest | backend/task_graph.py:71-83 | it is enough that no walk is older than another pointer written, and that no walk stopped below the task |
| TreeRaces.CrossedWalksCloseCycle | backend/task_links.py:100-103 | from any two top-level tasks: crossed walks accept parents without ancestors and close a cycle |
| KeyRaces.NeverReissuedExact | backend/tasks.py:190-193 | over all interleavings no key is given twice exactly when every create that goes through finds the counter it read |
| KeyRaces.StaleCreateReissues | backend/models.py:644 | a create that is older than another create and its deletion reissues the key; the unique constraint lets it pass |
| KeyRaces.PrintedKeysDiffer | backend/tasks.py:190-193 | with distinct prefixes, different projects or numbers print different keys |
| PrefixRaces.PrefixesDistinctExact | backend/services.py:575-584 | over all interleavings prefixes differ exactly when each still is free when it is written |
| PrefixRaces.TwoProjectsShareKeys | backend/services.py:575-584 | two creates of one name that both choose first get one prefix, and their tasks the same keys |
| DaemonAuth.ExchangedAtMostOnce | backend/daemon_auth.py:61-100 | over all interleavings each token is exchanged at most once and a family has at most one live token |
| DaemonAuth.RunUsedOnce | backend/daemon_auth.py:90-96 | a row is used exactly when its exchange is in the log, and every family has exactly one unused row |
| DaemonAuth.BurnedFamilyStaysDead | backend/daemon_auth.py:73-93 | no exchange follows a burn of its family; a row is revoked exactly when its own family was burned |
| DaemonAuth.UsedCheckAloneFails | backend/repos/daemon_refresh_tokens.py:23-33 | without the revoked check a logout between look and retire leaves a live token |
| DaemonAuth.AloneNeedsNoCheck | backend/daemon_auth.py:61-100 | without interleaving the revoked check is redundant |
| DaemonAuth.ExchangeExact | backend/daemon_auth.py:61-100 | when an exchange succeeds, what it writes, and when it burns the family |
| DaemonAuth.IssueExact | backend/daemon_auth.py:50-58 | a login adds one row, whose token is good exactly for ninety days |
| DaemonAuth.BurnHitsOneFamily | backend/repos/daemon_refresh_tokens.py:36-40 | a burn stops every exchange of its family and commutes with the exchanges of every other login |
| DaemonAuth.FinishIsRetire | backend/daemon_auth.py:90-98 | the retire step in place, with the burn after a lost race, is the retire step of the interleaved system |
| DaemonAuth.TokenTable.MarkUsed | backend/repos/daemon_refresh_tokens.py:23-33 | the compare-and-set |
| DaemonAuth.TokenTable.Finish | backend/daemon_auth.py:90-98 | mint the successor, or burn when the race is lost, or roll back on a clash |
| DaemonAuth.TokenTable.Exchange | backend/daemon_auth.py:61-100 | one exchange on its own equals the steps of the interleaved system |
| DaemonSnapshots.BurnExact | backend/repos/daemon_refresh_tokens.py:36-40 | over all interleavings a burn that goes through leaves its family dead exactly when every successor committed since it listed the rows was revoked otherwise |
| DaemonSnapshots.DeadStaysDead | backend/daemon_auth.py:61-110 | a dead family stays dead and never gets another token |
| DaemonSnapshots.SuccessorSurvivesLogout | backend/daemon_auth.py:103-110 | a logout during an exchange that leaves the successor live |
| McpOauth.AccessDescendsFromSignIn | backend/mcp_oauth.py:312-337 | the accepted token itself goes back through renewals and one properly redeemed code to the request that issued it, by when its user had signed in and was, by the directory of that moment, the identity or an admin whose agents held it |
| McpOauth.TokenDescends | backend/mcp_oauth.py:423-445 | the renewals lead from this token back to one redemption; identity and client are carried unchanged from the code |
| McpOauth.RefreshKeepsIdentityAndClient | backend/mcp_oauth.py:439-445 | a renewed refresh token has the same account, and the new tokens keep the identity and client of its code |
| McpOauth.RunJustified | backend/mcp_oauth.py:56-67 | every signed text in circulation is accounted for by an earlier event, and lives as long as its kind |
| McpOauth.GrantsExact | backend/mcp_oauth.py:423-447 | exactly when a code or a refresh token buys tokens, for whom and for how long |
| McpOauth.KindsDoNotMix | backend/mcp_oauth.py:62-67 | a text signed under one `typ` is refused where another is expected, also by the handoff, which reads no `typ` |
| McpOauth.AgentNamedFirst | backend/mcp_oauth.py:329-332 | the first agent of that name is found, and none only if no agent has it |
| McpOauth.AuthorizeExact | backend/mcp_oauth.py:324-342 | the password form, whoever signs in: with a pinned agent a code for the first of the admin's agents of that name, or the login page; without one a picker page if there are agents, else a code for the user; refused exactly when the form is not acceptable |
| McpOauth.HandoffExact | backend/mcp_oauth.py:354-373 | the same for the user of the web login, from the web app only |
| McpOauth.PickExact | backend/mcp_oauth.py:393-403 | a code for the identity picked, exactly when it is the user of the picker page or one of their agents |
| McpOauth.AcceptableExact | backend/mcp_oauth.py:220-245 | a form is valid exactly with a registered or documented address, a loopback one on any port, and an S256 challenge |
| McpOauth.ActsAsExact | backend/mcp_oauth.py:70-80 | a bearer acts as x exactly with an access token for x signed here within the hour |
| McpOauth.Lifetimes | backend/mcp_oauth.py:56-59 | in every history each kind of text lives as long as its kind, in seconds |
| DeviceLogin.TokenHandedOverOnce | backend/rest_api.py:496-511 | with whole requests: a session hands over at most once, before it expires, and then the pair of tokens of an approval with its user code |
| DeviceLogin.TablesStayInverse | backend/rest_api.py:459-467 | with whole requests: the two tables are inverse, and exactly the approved sessions hold their tokens |
| DeviceLogin.ServeKeepsInverse | backend/rest_api.py:459-467 | each request keeps the two tables inverse |
| DeviceLogin.StartExact | backend/rest_api.py:470-493 | a session for ten minutes, not approved, under both codes; the other open ones are untouched |
| DeviceLogin.PollExact | backend/rest_api.py:496-511 | unknown or expired, pending, or handed over with its own tokens and ended |
| DeviceLogin.ApproveExact | backend/rest_api.py:514-533 | accepted exactly when an open session has the code entered; that session gets the tokens and no other changes |
| DeviceLogin.LoginTables.Collect | backend/rest_api.py:463-467 | expired sessions go together with their user codes |
| DeviceLogin.LoginTables.PollSession | backend/rest_api.py:496-511 | answers and state of a poll |
| DeviceLogin.LoginTables.ApproveSession | backend/rest_api.py:514-533 | answers and state of an approval served alone, after its three writes |
| LoginRaces.HandedOnceExact | backend/rest_api.py:496-533 | over all interleavings of single accesses: handed over twice exactly when a poll pops the session while another holds it; incomplete exactly when a poll reads a token before it is given |
| LoginRaces.CarefulRunsHandOverOnce | backend/rest_api.py:496-533 | without overlapping polls and polls during an approval a session is handed over at most once, and whole |
| LoginRaces.HandedWasApproved | backend/rest_api.py:514-533 | in every interleaving what is handed over was given by approvals with the session's own user code |
| LoginRaces.TwoPollsHandOverTwice | backend/rest_api.py:500-507 | wherever a session is approved, two polls that both find it hand it over twice |
| LoginRaces.HandedOverTwice | backend/rest_api.py:500-507 | such a history from the start |
| LoginRaces.NothingHandedOver | backend/rest_api.py:522-525 | a poll between status and token hands over nothing and ends the session |
| LoginRaces.RefreshTokenLost | backend/rest_api.py:524-532 | a poll while the refresh token is made hands over the other one; the refresh token is lost |
| LoginRaces.QuietTablesInverse | backend/rest_api.py:459-467 | in every interleaving the tables are inverse whenever nobody is between two pops |
| LoginRaces.PollInOnePiece | backend/rest_api.py:496-511 | the accesses of a poll without interruption are the request served whole |
| LoginRaces.ApproveInOnePiece | backend/rest_api.py:514-533 | the same for an approval |
| RateLimit.Limiter.RateOk | backend/client_telemetry.py:78-90 | the queue operations do what the rule on sequences says |
| RateLimit.LimiterExact | backend/client_telemetry.py:78-90 | a call passes exactly when fewer than 30 admitted calls lie in the 60 seconds up to it; no queue is empty and none is evicted |
| RateLimit.AtMostThirtyAMinute | backend/client_telemetry.py:57 | no closed minute holds more than 30 admitted calls of an address |
| History.RebuildHistory | backend/forge/context.py:149-160 | the transcript is the longest run of newest lines within the budget, or the single newest line, oldest first |
| History.LongestFitUnique | backend/forge/context.py:149-160 | that answer is unique |
| History.RenderMeaning | backend/forge/context.py:39-60 | who speaks in a line and what of the row it shows |
| History.CostExact | backend/forge/context.py:33-36 | a line costs a token for every four characters or part of them, and one more |
| History.PrefixRendersSame | backend/forge/context.py:121-136 | a fetched prefix renders as the whole exactly when nothing visible was cut or it still overflows after stripping |
| History.FetchCapExact | backend/forge/context.py:50-60 | at 4097 characters: exactly when nothing visible follows or neither end is blank |
| History.LeadingBlankLosesEllipsis | backend/forge/context.py:52-60 | one leading blank makes the two renderings differ |
| LiveInflight.Mirror.SetForDaemon | backend/forge/live_inflight.py:27-48 | replaces the daemon's contribution by its report |
| LiveInflight.MirrorExact | backend/forge/live_inflight.py:27-48 | a scope is present exactly when the last report mentioning it still is its daemon's latest, with that report's last turn |
| LiveInflight.LiveExact | backend/forge/live_inflight.py:51-64 | a scope counts as live exactly when it has a current, recent turn with a trace id |
| LiveInflight.LookupExact | backend/forge/live_inflight.py:51-64 | the answer is the trace id of that very turn |
| LiveInflight.LivePromise | backend/forge/live_inflight.py:62-64 | a live scope is a recently reported one; a reported one is live exactly when its last mention stands, has a trace id and is recent |
| LiveInflight.SupersededHistory | backend/forge/live_inflight.py:34-48 | a reported scope that is not live because another daemon mentioned it last and dropped it |
| LiveInflight.UntracedHistory | backend/forge/live_inflight.py:59 | a reported scope that is not live for want of a trace id |
| Migration.UniqueName | backend/db.py:566-573 | the first free suffix, reached within as many steps as there are names |
| Migration.BaseNameMeaning | backend/db.py:566 | the first 80 characters of the name, or of the id where there is no name |
| Migration.Migrate | backend/db.py:526-629 | agents map one to one to profiles, first wins, names stay unique, settings arrive; every run and message of an agent, and the agent itself, points to its profile, which has its settings; other rows stay |
| Migration.SplitAgain | backend/db.py:604-611 | splitting the updated agents again changes no profile and no assignment |

## Left out

- TaskRaces.AlwaysAcyclicExact: requests that add no blocking row between visible tasks are one step each; what their own reads may miss is the subject of `TreeRaces` and `KeyRaces`.
- LoginRaces.HandedOnceExact: a start is one step, because nobody knows its codes before it answers; a collection running into a concurrent insert may fail in the source and is taken as not running.
- DaemonSnapshots.BurnExact: an update that waits is taken to hold no lock of its own yet, which only allows more interleavings.
- TaskStore.Store.UpdateParent: only the parent field of an update is modelled.
- TaskStore.Store.AnnotateBlocking: sets of task ids stand for the lists of summaries, whose order the source leaves open.
- `TaskBatch.Validate`: field lookups of an entry (status, priority, milestone) are one flag, because their tables are not modelled.
- `TaskStore.Store.Collect`: says which links are listed, not their order by creation time.
- `History.RebuildHistory`: takes the rows as the query orders and filters them; the summary lines around the transcript are not modelled.
- `Migration.Migrate`: takes references to profiles as resolving, as the schema declares them.
- `McpOauth.AccessDescendsFromSignIn`: the metadata document of a client is an arbitrary answer, so its cache adds nothing; pages, headers and the state parameter are left out.
- Projects are created but not deleted; project members, repositories, statuses, milestones and epics are not modelled.
- Access control, column gates, notifications, activity log, HTTP routing and pages.
- Deploy flow, sandbox modes, run lifecycle, workflow driver and front end: separate subsystems.
