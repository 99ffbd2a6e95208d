# OpenNebula core engines in Dafny

This project models the state-keeping engines of OpenNebula and proves what they keep over every
run: access-control rules, marshalled attributes, the action queue and its loop, the Dispatch
Manager, the Authorization Manager, host hooks, accounting, and the C string collector. One
module stands for each source component.

Code that changes things step by step is modelled by classes and methods with loops. Each method
is proved against a specification on values (`Enter`/`Remove`, `Split`/`Bind`, `Handle`/`Receive`,
`Step`, `Fired`, `Sum`), and whole runs, interleavings and round trips are proved about those values. A
lock region of the source is one atomic step. Clocks, databases and drivers are parameters: every
result holds whatever they answer.

## How the model reads the source

- **ACL words.** The engine only masks 64-bit words with `&`, builds them with `|` and compares
  them, so a word is kept exactly as the set of its 1-bits: `&` is `*`, `|` is `+`. An `int` is
  its set of bits below 32, negative when bit 31 is set, and its conversion to `long long`
  copies the sign. `AclNumbers` gives every word its number, proves that this turns sets into the
  numbers of the headers with their `&` and `|`, and restates what is proved about words as the
  tests of the source. Well-formed rules may carry stray bits in the user word (such a rule names
  nobody), bit 35 in the resource word, and negative rights, because `rights > 0xF` is a signed
  comparison (src/acl/AclRule.cc:204).
- **ACL counter.** `lastOID` wraps at INT_MAX and steps back after a failed add. The primary key
  of the table is the only guard against an oid that is in use: after a wrap, an add that meets
  such an oid fails, and so does every later one until that oid is deleted (`BlockedUntilDeleted`).
- **ACL ids.** User and group ids may be negative. The sign then fills the high half of a key, so the
  keys of a negative user and a negative group id cannot be told apart (`Who`, `Owns`).
- **ACL start.** `select_cb` appends to the index by user whatever the index by oid holds. `Start`
  establishes the invariant exactly when nothing was indexed before. On a new installation the
  constructor indexes the two default rules (src/acl/AclManager.cc:65-90) and `start` then loads
  them again (src/nebula/Nebula.cc:520-530). After that, deleting rule 0 succeeds and empties its
  row, but `authorize` still lets users of group 1 create (`FreshInstallation`), and no sequence of
  adds and deletes changes that before a restart (`CreateStillGranted`).
- **ACL without a counter.** The failure of `update_lastOID` is ignored (src/acl/AclManager.cc:663-675).
  If the default rules are stored but the last oid is not, every later start tries to add them
  again, finds oid 0 taken, and takes no rule at all until rule 0 is deleted, without any wrap of
  the counter: `LostCounter`.
- **Attributes.** The round trip is stated with its exact condition. The default separator overlaps
  itself, so a value that ends in `@^_^` and is not the last one is cut there although it does not hold
  the separator.
- **Dispatch Manager.** The other managers are an environment that writes any life-cycle state into any
  VM at any time and sends any event; the Transfer Manager may turn a FAILED VM back to ACTIVE
  (src/tm/TransferManager.cc:738-742). No result about a run restricts it unless its row says so.
- **Late events.** `failed_action` and `resubmit_action` do not look at the VM state, and the Life-cycle
  Manager does write FAILURE without looking at it: `monitor_failure_action`
  (src/lcm/LifeCycleStates.cc:1200-1218), `epilog_failure_action` (882-900) and the last branch of
  `prolog_failure_action` (811-816) all call `failure_action` (1302-1330). The monitor may queue two
  MONITOR_FAILURE for a running VM (src/vmm/VirtualMachineManagerDriver.cc:618-623); if the second
  is handled after the VM was finalized, the VM leaves DONE and its leases and images are released
  again. So DONE is not absorbing in this code and resources are not released once: `ReleasedTwice` is
  such a run from creation, and `ReleasedAgain` shows that there is no bound. `LifeOfVm` says exactly
  when a VM's resources are released once: when no FAILED or RESUBMIT event is accepted while it is
  DONE. `SparedIsFinal` gives a condition on the environment alone that is enough.
- **A VM left locked.** The same two handlers return with the VM locked when their guard fails
  (src/dm/DispatchManagerStates.cc:161-177, 194-208). Whoever asks for that VM next waits inside
  `PoolSQL::get`, which holds the mutex of the pool meanwhile (src/pool/PoolSQL.cc:485-510), so
  nobody gets any VM any more. A `Pool` is `stuck` from then on, and the loop stops in its listener: every writer of a VM's state,
  the environment included, takes the VM through that call.
- **Authorization Manager.** A request authorized with no items is told so at once but stays
  registered, although no driver was asked (src/authm/AuthManager.cc:290-311), so the first tick after
  its time-out tells it again. Exactly the requests without items for which a driver is found can be
  notified twice.
- **Accounting.** An end of 0 reads as "now" to the clock but as 0 to the query filter, and a
  period that starts after its end gives negative times. `Sound` is the exact condition under
  which a charge is the time in the period. A non-zero end that is not before the start satisfies
  it.
- **String collector.** A heap string knows whether it was released. `Free` requires that it was
  not, so a verified `Cleanup` releases every copy exactly once.

## Model

| member | source | states |
|---|---|---|
| AclRules.Malformed | src/acl/AclRule.cc:33-221 | The sequence of tests reports an error exactly for the rules that are not well-formed: one selector in each word, no negative id, id 0 with `*`, some type and no foreign bit, rights present and not above 0xF as a signed number |
| AclRules.KeyOfSelector | src/acl/AclManager.cc:133-151 | A word equals the key built from a selector and an id exactly when its low half is that id and its high half the selector, or all ones if the id is negative |
| AclRules.UserKeyMeaning | src/acl/AclManager.cc:133-260 | For every user and group id, a rule is filed under one of the three looked-up keys exactly when its user word names everybody, the user or the user's group; stray bits name nobody |
| AclRules.Field | src/acl/AclManager.cc:153-186 | One masked comparison of type, selector and id is the conjunction of the three comparisons, and false for a negative id |
| AclRules.NoneNeverMatches | src/acl/AclManager.cc:133-186 | A request made of NONE_ID matches no rule at all, well-formed or not |
| AclRules.MaskTestMeaning | src/acl/AclManager.cc:344-372 | For every rule and every object, the mask test is: the rule includes the type, selects `*`, the object's group or the object itself, and has the right |
| AclRules.MatchMeaning | src/acl/AclManager.cc:323-375 | For every request and every rule, being found under one of the three keys and passing the mask test is exactly permission in the sense of sets |
| AclRules.KeysApart | src/acl/AclManager.cc:133-260 | The key of an id is one of a user's three keys exactly if it is the id of that user or, for the other selector, of the group; a negative id counts as both |
| AclRules.PermissionBitsMeaning | src/pool/PoolObjectAuth.cc:21-100 | For every user and object, the three temporary rules grant a request exactly when the owner, group or other permission bit does; creation is never granted by them |
| AclNumbers.NumberAnd | src/acl/AclManager.cc:350-363 | `&` on numbers is intersection of words |
| AclNumbers.NumberOr | src/acl/AclManager.cc:133-170 | `or` on numbers is union of words, and addition where no bit is common |
| AclNumbers.NumberInjective | src/acl/AclManager.cc:350-363 | Different words have different numbers |
| AclNumbers.SelectorNumbers | src/acl/AclRule.cc:24-29 | The selectors have the values of the source |
| AclNumbers.TypeNumbers | include/PoolObjectSQL.h:56-63 | So have the object types |
| AclNumbers.OperationNumbers | include/AuthManager.h:282-288 | So have the operations |
| AclNumbers.WideningKeepsValue | src/acl/AclManager.cc:133-170 | Widening an `int` to a `long long` keeps its signed value |
| AclNumbers.WellFormedInNumbers | src/acl/AclRule.cc:33-221 | A rule is well-formed exactly when the masked and signed tests of `malformed` pass on its three numbers |
| AclNumbers.KeysInNumbers | src/acl/AclManager.cc:190-260 | The three keys as numbers, for every signed user and group id |
| AclNumbers.MaskTestInNumbers | src/acl/AclManager.cc:133-170 | The masked comparisons of `authorize` as numbers, with NONE_ID for negative ids |
| AclNumbers.PermitsInNumbers | src/acl/AclManager.cc:323-375 | For every rule and every request, permission is what the keys and masked comparisons of the source say of the rule's three numbers |
| AclNumbers.PermRightsNumber | src/pool/PoolObjectAuth.cc:33-99 | The use, manage and admin bits are 1, 2 and 4 in the rights of a temporary rule |
| AclNumbers.DefaultNumbers | src/acl/AclManager.cc:70-89 | The two default rules are those of the source, for group 1 |
| AclManagers.StepKeepsInv | src/acl/AclManager.cc:380-544 | Each add or delete, successful or not, keeps rules well-formed, pairwise different in value and under oids from 0 to INT_MAX |
| AclManagers.RunKeepsInv | src/acl/AclManager.cc:380-544 | The same over every run, with any database failures and any number of wraps of the counter |
| AclManagers.AddExtendsDecisions | src/acl/AclManager.cc:380-462 | After a successful add a request is allowed exactly if it was before or the new rule covers it; a failed add changes no rule |
| AclManagers.AddDeleteRestores | src/acl/AclManager.cc:468-544 | Deleting the oid that an add returned succeeds and gives back every rule of before |
| AclManagers.BlockedUntilDeleted | src/acl/AclManager.cc:380-462 | Once the counter meets an oid in use, every add of every run fails and nothing is stored until that oid is deleted |
| AclManagers.MatchRules | src/acl/AclManager.cc:323-375 | The loop answers whether some rule under the key passes the mask test |
| AclManagers.ScanRules | src/acl/AclManager.cc:602-640 | The inner loop of the reverse search stops at the first rule for all objects; if there is none it appends exactly the groups and single objects of the rules with the right, in order |
| AclManagers.GroupIdsHold | src/acl/AclManager.cc:626-630 | A group is listed exactly when a rule with the right selects it |
| AclManagers.SingleIdsHold | src/acl/AclManager.cc:626-636 | An object is listed exactly when a rule with the right selects it and not a group |
| AclManagers.ReverseMatches | src/acl/AclManager.cc:549-648 | For a well-formed rule the masks of the reverse search and those of `authorize` say the same about every object |
| AclManagers.ReverseInvertsAuthorize | src/acl/AclManager.cc:549-648 | For any well-formed rules: some rule grants an object exactly when all are granted, or its oid or its group is listed |
| AclManagers.UnderHolds | src/acl/AclManager.cc:330-346 | Looking keys up meets exactly the filed rules whose user word is one of them |
| AclManagers.HoldsRow | src/acl/AclManager.cc:401-406 | In consistent indexes the duplicate search by user word finds a rule exactly when the table has its words somewhere |
| AclManagers.InsertConsistent | src/acl/AclManager.cc:425-426 | One new object put in both indexes and the table keeps the same objects in both, each once, under its own word and oid |
| AclManagers.EraseConsistent | src/acl/AclManager.cc:537-540 | Erasing one entry of the multimap and its oid keeps the same |
| AclManagers.SqlDb.InsertRow | src/acl/AclManager.cc:748-764 | A row is stored exactly when the database works and the primary key is free |
| AclManagers.SqlDb.DropRow | src/acl/AclManager.cc:770-781 | A row is gone exactly when the database works |
| AclManagers.Duplicated | src/acl/AclManager.cc:401-406 | The loop finds an equal rule exactly when one is filed under the same user word |
| AclManagers.AclManager.constructor | src/acl/AclManager.cc:50-91 | For every table: with a recorded last oid the indexes are empty; without one they hold the default rules whose oids are free and whose inserts succeed, the table gains exactly those, and the manager agrees with the table if and only if it was empty |
| AclManagers.DefaultsAdded | src/acl/AclManager.cc:65-90 | What the two default adds do when the primary key also counts rows that are not indexed |
| AclManagers.AclManager.SelectCb | src/acl/AclManager.cc:680-724 | One row is appended to the index by user always and entered in the index by oid only if its oid is new |
| AclManagers.AclManager.Start | src/acl/AclManager.cc:96-100 | Loading the table in any order of rows ends in a valid manager if and only if nothing was indexed before, and then holds exactly the table; every rule indexed before is indexed twice |
| AclManagers.FreshInstallation | src/nebula/Nebula.cc:520-530 | On a new installation, deleting rule 0 after the start succeeds and its row is gone, but `authorize` still grants creation to every user of group 1, which no row and no permission bit grants, and the rule has no oid any more |
| AclManagers.CreateStillGranted | src/acl/AclManager.cc:380-544 | From then on, after every sequence of adds and deletes, group 1 may create and adding the rule again is refused as a duplicate |
| AclManagers.StartNew | src/nebula/Nebula.cc:520-530 | The construction followed by the start breaks the invariant: rule 0 has a second object in the index by user. The rules grant exactly that group 1 creates VMs, networks, images and templates and manages hosts |
| AclManagers.CopySurvives | src/acl/AclManager.cc:500-540 | Deleting a rule that is in the index by user twice succeeds and leaves the other object there without an oid |
| AclManagers.LostCounter | src/acl/AclManager.cc:50-91 | An installation whose counter was not stored: after a restart the manager is valid, and in every run without a deletion of rule 0 every add fails |
| AclManagers.RestartWithoutCounter | src/acl/AclManager.cc:50-99 | The same for every table that has oid 0 and any order of its rows |
| AclManagers.AclManager.AddRule | src/acl/AclManager.cc:380-462 | Whatever state the indexes and the table are in, an add does what `Enter` says and the object of a failed add is deleted; on indexes that agree, that is one new rule in the store or no change with the error code -1, -2 or -3, and a valid manager stays valid |
| AclManagers.AclManager.TryAdd | src/acl/AclManager.cc:399-430 | The checks in their order: duplicate, malformed, primary key or database; both inserts, of which the one by oid keeps a key that is there |
| AclManagers.AclManager.DelRule | src/acl/AclManager.cc:468-544 | Whatever state the indexes and the table are in, a delete does what `Remove` says; on indexes that agree, that is the deletion of the store, the object deleted is the very object of the oid index, and a valid manager stays valid |
| AclManagers.AclManager.SearchRule | src/acl/AclManager.cc:496-512 | The loop finds the first equal rule under the user word, if there is one |
| AclManagers.EnterMeaning | src/acl/AclManager.cc:380-462 | On indexes that agree, an add is the add of the store, where rows that are not indexed take their oids too |
| AclManagers.RefusalCodes | src/acl/AclManager.cc:401-460 | -1 means an equal rule, -2 a malformed one, -3 the database or a taken oid, in this order; a refused add leaves everything as it was and the next oid too |
| AclManagers.NextOidCycles | src/acl/AclManager.cc:385-390 | The counter goes through the oids from 0 to 2147483647 and round again |
| AclManagers.RemoveMeaning | src/acl/AclManager.cc:468-544 | On indexes that agree, a delete is the delete of the store, and the branch for a rule that is not in the index by user is dead |
| AclManagers.EngineRuns | src/acl/AclManager.cc:380-544 | Every run of adds and deletes from a valid state, whatever fails and however often the counter wraps: both indexes hold the same objects, each under its own word and oid, the table holds exactly their rows, and the store is where its own run ends |
| AclManagers.OrphanedForGood | src/acl/AclManager.cc:380-544 | In no run of adds and deletes does a rule that no oid leads to disappear from the index by user, or get an oid |
| AclManagers.SearchMeets | src/acl/AclManager.cc:496-524 | Where indexes agree and no two rules are equal, the search by value stops at the object of the oid index |
| AclManagers.AclManager.MatchRulesWrapper | src/acl/AclManager.cc:274-321 | A key matches in the temporary rules or in the stored ones |
| AclManagers.AclManager.Authorize | src/acl/AclManager.cc:123-269 | For every user and every state of the indexes, granted exactly when a permission bit of the object grants it or an indexed rule under the three keys passes the mask test; where the indexes agree, when a permission bit or a rule of the store permits it in the sense of sets |
| AclManagers.AclManager.ReverseSearch | src/acl/AclManager.cc:549-648 | In every state of the indexes: with `all` both lists end empty, otherwise they are extended by exactly the selected objects and groups. Started empty, the answer decides every object as `authorize` does on the indexed rules whenever the rules met are well-formed; where the indexes agree they are, and the answer decides every object by the store |
| AclManagers.ReverseMeaning | src/acl/AclManager.cc:549-648 | For any index whose rules under the three keys are well-formed, the result of the reverse search answers every question of `authorize` |
| AclManagers.AllowedMeaning | src/acl/AclManager.cc:323-375 | What the stored rules grant under the three keys is what the set of rules permits |
| VectorAttributes.FindLeast | src/common/Attribute.cc:127-158 | The search gives the leftmost occurrence from a position, or none |
| VectorAttributes.SplitJoins | src/common/Attribute.cc:127-158 | Splitting at leftmost separators gives well-separated pieces that join to the input |
| VectorAttributes.SplitOfJoin | src/common/Attribute.cc:27-158 | Splitting undoes joining if and only if the pieces are well-separated |
| VectorAttributes.CleanForMagic | src/common/Attribute.cc:24-25 | For `@^_^@` a piece is safe exactly when it neither holds the separator nor ends in `@^_^` |
| VectorAttributes.ParseMeaning | src/common/Attribute.cc:140-158 | A piece reads as a key and a value exactly when it is key=value and the key has no `=` |
| VectorAttributes.ParseNothing | src/common/Attribute.cc:140-158 | A piece is dropped exactly when it has no `=` |
| VectorAttributes.BindMeaning | src/common/Attribute.cc:140-158 | Keys present before keep their values; any other key has the value of its first binding and no other |
| VectorAttributes.InOrderUnique | src/common/Attribute.cc:27-63 | A map has one order of iteration, so the marshalled string depends on the map alone |
| VectorAttributes.LessMeaning | src/common/Attribute.cc:45-60 | The order of the keys is decided by the first character that differs, and a proper prefix comes first |
| VectorAttributes.BindPieces | src/common/Attribute.cc:45-60 | Reading back the pieces of a map gives the map, if no key has a `=` |
| VectorAttributes.PiecesAgree | src/common/Attribute.cc:107-159 | If reading back recovers the map, the pieces found are those written |
| VectorAttributes.RoundTrip | src/common/Attribute.cc:27-159 | For every non-empty map and separator, unmarshalling undoes marshalling if and only if no key has a `=` and the pieces are well-separated |
| VectorAttributes.VectorAttribute.Marshall | src/common/Attribute.cc:27-63 | Nothing for an empty attribute, otherwise the pieces in the order of the keys joined with the given separator, or with `@^_^@` |
| VectorAttributes.VectorAttribute.Unmarshall | src/common/Attribute.cc:107-159 | The loop ends and binds the pieces between the given separators, or between `@^_^@`, in their order |
| VectorAttributes.VectorAttribute.BindPiece | src/common/Attribute.cc:140-158 | One piece is bound at its first `=` unless its key is present, or passed over |
| VectorAttributes.MarshallThenUnmarshall | src/common/Attribute.cc:27-159 | Through the objects, an empty attribute recovers another one under exactly the same condition |
| ActionManagers.PopKeepsInv | src/common/ActionManager.cc:106-121 | Popping the front of a queue that is not stopped keeps the order of all pushes, and stops exactly on FINALIZE |
| ActionManagers.NextKeepsInv | src/common/ActionManager.cc:56-123 | Each push, wait, wake-up, timeout and pop keeps the invariant of the queue |
| ActionManagers.RunKeepsInv | src/common/ActionManager.cc:56-123 | In every interleaving, dispatched actions followed by the queue are all pushes in order, FINALIZE is dispatched at most as the last, and the loop has ended exactly then |
| ActionManagers.StoppedForGood | src/common/ActionManager.cc:77-123 | After FINALIZE nothing more is dispatched |
| ActionManagers.OneTimer | src/common/ActionManager.cc:89-122 | If no producer pushes a timer, the queue never has two timer requests, and has none while the loop waits |
| ActionManagers.Drains | src/common/ActionManager.cc:89-122 | Progress: after any schedule, as many rounds of the loop as there are queued requests dispatch everything that was pushed, in order, up to the first FINALIZE |
| ActionManagers.TimeoutDispatches | src/common/ActionManager.cc:93-111 | A time-out in the wait pushes the timer's request and dispatches the oldest one at once |
| ActionManagers.ActionManager.TriggerAction | src/common/ActionManager.cc:56-69 | One request is added at the back |
| ActionManagers.ActionManager.PopAndDispatch | src/common/ActionManager.cc:107-121 | The front is removed and dispatched |
| ActionManagers.ActionManager.Loop | src/common/ActionManager.cc:74-123 | Under any schedule of pushes, wake-ups and timeouts the nested loops do what the step relation says, and return only at the end of the schedule or after FINALIZE |
| DispatchManagers.RunKeepsBalance | src/dm/DispatchManagerActions.cc:25-71 | In every run and every environment, DEPLOY and RESTORE triggers plus reactivations are the times the VM left ACTIVE, plus one if it is ACTIVE |
| DispatchManagers.ReleasesCounted | src/dm/DispatchManagerStates.cc:98-209 | In every run and every environment, leases and images are each released as often as late events took the VM out of DONE, plus one if it is DONE |
| DispatchManagers.LifeOfVm | src/dm/DispatchManagerActions.cc:802-858 | From creation on, in every run: the activation balance; and released once if DONE and never otherwise, if and only if no late event took the VM out of DONE |
| DispatchManagers.DoneForGood | src/dm/DispatchManagerStates.cc:150-209 | A VM that is DONE stays so throughout a run if and only if no late event comes |
| DispatchManagers.SparedIsFinal | src/dm/DispatchManagerStates.cc:150-209 | An environment that does not write FAILURE or CLEANUP into DONE VMs is enough for that |
| DispatchManagers.ReleasedTwice | src/lcm/LifeCycleStates.cc:1200-1330 | A run from creation in which a second failure report comes after the VM was finalized: leases and images are released twice |
| DispatchManagers.ReleasedAgain | src/lcm/LifeCycleStates.cc:1302-1330 | From any VM, for every number there is a run that releases its resources that many more times |
| DispatchManagers.FairIsNeverLate | src/dm/DispatchManagerStates.cc:20-209 | If the environment writes neither into VMs that are not ACTIVE, no event of a run is late |
| DispatchManagers.IdleUnlessActive | src/dm/DispatchManagerStates.cc:150-209 | If only ACTIVE VMs have their life-cycle state written, every other VM is at LCM_INIT in every run |
| DispatchManagers.UnmovedExactly | src/dm/DispatchManagerStates.cc:150-209 | No event at all moves such a VM exactly outside FAILURE and CLEANUP |
| DispatchManagers.HoldAndRelease | src/dm/DispatchManagerActions.cc:336-422 | A hold is accepted exactly for a pending VM, which cannot be deployed then, and a release gives back that very VM; a release is accepted exactly for a held VM |
| DispatchManagers.HeldUntilFreed | src/dm/DispatchManagerActions.cc:336-422 | In every run a held VM is not deployed before a release, a resubmission or a late event |
| DispatchManagers.DeployOnce | src/dm/DispatchManagerActions.cc:25-71 | A VM can be deployed exactly while it is pending, and only once |
| DispatchManagers.ResubmitAgain | src/dm/DispatchManagerActions.cc:863-916 | After a resubmission exactly the VMs that were pending, held, stopped or failed can be deployed; the others are left alone, refused or, if ACTIVE, cleaned up |
| DispatchManagers.FinalizeEnds | src/dm/DispatchManagerActions.cc:802-858 | Finalizing ends every VM that is not ACTIVE, releases once and does nothing a second time |
| DispatchManagers.SuspendedOrStopped | src/dm/DispatchManagerStates.cc:20-93 | After SUSPEND_SUCCESS a resume restores the VM at once, after STOP_SUCCESS it is scheduled again |
| DispatchManagers.FailedOrResubmitted | src/dm/DispatchManagerStates.cc:150-209 | After FAILED a resubmission cleans up and allows a deployment, after RESUBMIT a deployment is allowed at once |
| DispatchManagers.EventsThatCount | src/dm/DispatchManagerStates.cc:20-209 | Which event moves an ACTIVE VM in which life-cycle state, and no other; only DONE ends it |
| DispatchManagers.SentExactly | src/dm/DispatchManagerActions.cc:25-916 | Each trigger is sent by its own request in its own states, once, and by no other step |
| DispatchManagers.PassedOrRefused | src/dm/DispatchManagerActions.cc:76-797 | A request that is handed on is answered 0 exactly in its states; refused, it changes nothing and is answered -1 or -2 |
| DispatchManagers.ActivationsApart | src/dm/DispatchManagerActions.cc:25-71 | In every run DEPLOY is sent as often as the VM goes from PENDING to ACTIVE, and RESTORE as often as from SUSPENDED to ACTIVE |
| DispatchManagers.ServedIsFirst | src/pool/PoolSQL.cc:485-512 | Steps are carried out up to the first one that asks for a VM which its own earlier steps left locked |
| DispatchManagers.PoolRuns | src/pool/PoolSQL.cc:485-512 | In any interleaving over many VMs, each one has gone through its own steps up to that point and through no others; the pool is stuck exactly if there is such a step |
| DispatchManagers.LifeInPool | src/dm/DispatchManagerActions.cc:802-858 | The laws of one VM for each VM among the others |
| DispatchManagers.StuckForGood | src/pool/PoolSQL.cc:485-512 | Afterwards no step changes any VM |
| DispatchManagers.RejectedEventStopsAll | src/dm/DispatchManagerStates.cc:161-208 | One rejected FAILED or RESUBMIT and one more step for that VM, with anything between them, stop every VM for ever |
| DispatchManagers.PoolIsProduct | src/pool/PoolSQL.cc:485-512 | The pool does not get stuck if and only if no step of the run waits, and then each VM has gone through all its own steps |
| DispatchManagers.NamesReachHandlers | src/dm/DispatchManager.cc:63-152 | Each enumerated action reaches its own handler through its name, and only FINALIZE ends the loop |
| DispatchManagers.FifoHandlers | src/dm/DispatchManager.cc:63-152 | In every interleaving of calls of `trigger` with the loop, the handlers run so far are those of the first calls, in order, each with its VM, and none after FINALIZE |
| DispatchManagers.EveryCallHandled | src/dm/DispatchManager.cc:63-152 | Without FINALIZE no call is lost: after any schedule enough rounds of the loop handle every one |
| DispatchManagers.CallsReachVms | src/dm/DispatchManager.cc:63-152 | From `trigger` to the VMs, in every interleaving of calls, the loop, requests and writes of the other managers: the pool is what the steps asked of it make of it, the events among them are those of the first calls in the order of the calls, and the other steps are all the others in theirs; a listener that waits for a stuck pool stops the loop |
| DispatchManagers.EveryCallReaches | src/dm/DispatchManager.cc:63-152 | In the whole system, after any interleaving without FINALIZE, enough rounds of the loop ask the event of every call, unless the pool gets stuck |
| DispatchManagers.LifeInSystem | src/dm/DispatchManager.cc:63-152 | In every such run each VM has gone through its own steps up to the first step of any VM that waits, with the activation balance and the exact law of releases |
| DispatchManagers.VirtualMachine.constructor | src/vm/VirtualMachinePool.cc:203-214 | A new VM is on hold or pending with nothing sent or released |
| DispatchManagers.DispatchManager.Deploy | src/dm/DispatchManagerActions.cc:25-71 | The VM, its triggers, its lock and the return code become what the specification says, or -1 without a VM |
| DispatchManagers.DispatchManager.PassOn | src/dm/DispatchManagerActions.cc:76-285 | The same for the requests that are handed on once the VM is held, each with its own guard and error code |
| DispatchManagers.DispatchManager.PassOnById | src/dm/DispatchManagerActions.cc:290-334 | The same for the requests that take the VM from the pool first |
| DispatchManagers.DispatchManager.Hold | src/dm/DispatchManagerActions.cc:336-377 | The same: only PENDING goes to HOLD |
| DispatchManagers.DispatchManager.ReleaseVm | src/dm/DispatchManagerActions.cc:382-422 | The same: only HOLD goes to PENDING |
| DispatchManagers.DispatchManager.Resume | src/dm/DispatchManagerActions.cc:654-707 | The same: STOPPED is rescheduled, SUSPENDED is restored |
| DispatchManagers.DispatchManager.FinalizeVm | src/dm/DispatchManagerActions.cc:802-858 | The same: an ACTIVE VM is deleted by the Life-cycle Manager, any other that is not DONE is finished and released here |
| DispatchManagers.DispatchManager.ResubmitVm | src/dm/DispatchManagerActions.cc:863-916 | The same for resubmission, with the cases that fall through |
| DispatchManagers.DispatchManager.SuspendSuccessAction | src/dm/DispatchManagerStates.cc:20-54 | The VM becomes what the event does to it |
| DispatchManagers.DispatchManager.StopSuccessAction | src/dm/DispatchManagerStates.cc:59-93 | The same |
| DispatchManagers.DispatchManager.DoneAction | src/dm/DispatchManagerStates.cc:98-145 | The same, with leases and images released |
| DispatchManagers.DispatchManager.FailedAction | src/dm/DispatchManagerStates.cc:150-178 | The same; the VM stays locked when the guard fails |
| DispatchManagers.DispatchManager.ResubmitAction | src/dm/DispatchManagerStates.cc:183-209 | The same; the VM stays locked when the guard fails |
| DispatchManagers.DispatchManager.DoAction | src/dm/DispatchManager.cc:107-152 | A name runs exactly the handler it stands for, and any other name does nothing |
| AuthManagers.StepKeepsInv | src/authm/AuthManager.cc:226-423 | Each trigger, reply, tick, discard and wait keeps every pending id below the counter and given to one request, and keeps the count of notifications |
| AuthManagers.RunKeepsInv | src/authm/AuthManager.cc:226-423 | The same over every interleaving |
| AuthManagers.NotifiedOnce | src/authm/AuthManager.cc:226-423 | In every interleaving a request is notified at most once, or at most twice if it has no items and is authorized with a driver; after its one notification it is no longer pending; no two requests share an id |
| AuthManagers.NobodyNotifiedTwice | src/authm/AuthManager.cc:226-423 | In runs whose authorizations all have items every request is notified at most once |
| AuthManagers.HollowExactly | src/authm/AuthManager.cc:290-311 | A request is registered without items in a run exactly if it has none and a driver is found to authorize it |
| AuthManagers.HollowNotifiedTwice | src/authm/AuthManager.cc:269-349 | Authorizing a request, waiting for it and a tick after its time-out notify it twice exactly when it has no items |
| AuthManagers.LeftAlone | include/AuthManager.h:111-118 | A request that was submitted and is not pending any more is never touched again, apart from its own time-out |
| AuthManagers.YesOnlyFromDriver | src/authm/AuthManager.cc:226-423 | In every interleaving a client is told yes only if the driver said yes to the id of that very request |
| AuthManagers.AnswerIsTold | src/authm/AuthManager.cc:398-423 | The driver's answer to a pending request is its result, whatever follows, and its text stands behind what was noted, unless it is `-` |
| AuthManagers.ExpiredIsTold | src/authm/AuthManager.cc:318-349 | A tick after its time-out tells a pending request no, whatever follows; an earlier tick leaves it as it is |
| AuthManagers.NoDriverIsTold | src/authm/AuthManager.cc:226-313 | Without a driver the client is told no at once, and nothing follows |
| AuthManagers.DiscardedIsSilent | include/AuthManager.h:111-118 | A discarded request is told nothing any more |
| AuthManagers.RegisteredUnderNext | src/authm/AuthManager.cc:226-368 | With a driver a request waits under the next id, and one without items has been told no |
| AuthManagers.AuthRequest.AddAuth | src/authm/AuthManager.cc:33-133 | In every state of the ACL engine the item is granted exactly for oneadmin, by a permission bit or by an indexed rule, which where the indexes agree is a rule of the store; the request authorizes itself exactly while all items are granted; each refusal is noted |
| AuthManagers.AuthRequest.Reject | src/authm/AuthManager.cc:226-264 | The result is negative, the message is replaced and the client notified |
| AuthManagers.AuthRequest.Respond | src/authm/AuthManager.cc:398-423 | The driver's result is stored, its text appended unless it is `-`, and the client notified |
| AuthManagers.AuthManager.AddRequest | src/authm/AuthManager.cc:354-368 | A request gets the next id |
| AuthManagers.AuthManager.GetRequest | src/authm/AuthManager.cc:373-393 | A request is removed as it is handed out |
| AuthManagers.AuthManager.AuthenticateAction | src/authm/AuthManager.cc:226-264 | The manager does the step of the specification and stays valid |
| AuthManagers.AuthManager.AuthorizeAction | src/authm/AuthManager.cc:269-313 | The same, with the request without items |
| AuthManagers.AuthManager.NotifyRequest | src/authm/AuthManager.cc:398-423 | The same: an unknown id changes nothing |
| AuthManagers.AuthManager.DiscardRequest | include/AuthManager.h:111-118 | The same: the id is removed without a notification |
| AuthManagers.AuthManager.AwaitRequest | include/AuthManager.h:387-392 | The same: only the time-out of the request changes |
| AuthManagers.AuthManager.TimerAction | src/authm/AuthManager.cc:318-349 | The loop over the remaining entries, which erases while it goes on, removes and notifies exactly the requests whose non-zero time-out is earlier than now, and keeps the rest |
| AuthManagers.SweepTo | src/authm/AuthManager.cc:326-346 | Going to the next entry and visiting it carries the sweep past it, whatever the visit does |
| HostHooks.AfterMeaning | src/host/HostHook.cc:110-124 | One notification records the host's state exactly if an updating hook is listed and the mask reaches it |
| HostHooks.FiredMeaning | include/Hook.h:159-170 | Which hooks a notification fires, in terms of the states recorded before it and the place of the updating hook |
| HostHooks.RecordedIsLastSeen | src/host/HostHook.cc:91-124 | After any history over any hosts the recorded state of a host is the one last noticed |
| HostHooks.StateHookRuns | src/host/HostHook.cc:143-213 | After any history a state hook runs exactly when the host enters its target from a different known state and no updating hook precedes it |
| HostHooks.UpperSpells | src/host/HostPool.cc:61-89 | The upper-cased text is a word exactly when it spells it in any case |
| HostHooks.EntryHook | src/host/HostPool.cc:53-134 | Which entries become hooks, of which kind, and with which name, arguments, path and remote flag |
| HostHooks.EntryFires | src/host/HostPool.cc:32-145 | From the configuration to the commands, in every history: an entry's command runs with ON=CREATE exactly on allocations, and with ON=DISABLE or ON=ERROR exactly when a host enters that state from another known one |
| HostHooks.OnlyEntriesFire | src/host/HostPool.cc:32-145 | No other entry, and nothing else, runs a command |
| HostHooks.HostPool.constructor | src/host/HostPool.cc:32-145 | The list is the one of which the two results above speak: the usable entries in order, and behind them one updating hook exactly if one of them is a state hook |
| HostHooks.HostPool.DoHooks | include/Hook.h:159-170 | On the list that the pool builds, every state hook runs exactly when its host enters the target, in every history |
| Accounting.CalculateTime | src/acct/oneacct.rb:151-166 | The clipping computes the specified difference |
| Accounting.ChargeIsOverlap | src/acct/oneacct.rb:113-166 | Query and clipping together charge the number of seconds that slice and period have in common, and nothing for another user's slice, if and only if the slice is sound for the filters |
| Accounting.ExplicitPeriod | src/acct/oneacct.rb:113-166 | With a non-zero end that is not before the start the charge is the time up to that end, never negative, and 0 for dropped slices and other users |
| Accounting.OpenPeriod | src/acct/oneacct.rb:113-166 | Without an end it is the time up to now |
| Accounting.ChargeAtMost | src/acct/oneacct.rb:113-166 | No slice is ever charged more than its time in the period |
| Accounting.ChargeSplits | src/acct/oneacct.rb:113-166 | Splitting a period at any second splits the charge, with or without a user in the filter |
| Accounting.PartsAddUp | src/acct/oneacct.rb:54-111 | The parts of a list under any keys that cover it add up to the list |
| Accounting.SlicesByUser | src/acct/oneacct.rb:54-74 | Exactly the users who occur have an entry, with all their slices in order |
| Accounting.SortUniq | src/acct/oneacct.rb:76-79 | The machine ids that occur, ascending and each once |
| Accounting.VmsOfUser | src/acct/oneacct.rb:78-110 | Every machine of the user has its slices in order and the sum of their times |
| Accounting.UserSlicesToVms | src/acct/oneacct.rb:76-111 | The same for every user |
| Accounting.GetVmSlices | src/acct/oneacct.rb:113-123 | The query keeps exactly the slices that pass the given filters, in order |
| Accounting.AcctClient.Account | src/acct/oneacct.rb:33-52 | The given filters replace the old ones, and the account is that of the selected slices |
| Accounting.OthersAbsent | src/acct/oneacct.rb:117 | The account of one user has no entry and no time of any other |
| Accounting.ListedExactly | src/acct/oneacct.rb:54-123 | A slice is listed under its own user and machine and nowhere else, exactly if it passes the three filters |
| Accounting.TotalIsConserved | src/acct/oneacct.rb:45-123 | The times of all machines of all users add up to the charges of the whole register |
| Accounting.BilledTime | src/acct/oneacct.rb:45-123 | What a user is billed for a machine is the sum of the charges of their slices of it |
| Accounting.BillIsOverlap | src/acct/oneacct.rb:45-166 | A bill counts exactly the seconds in which the machine ran in the period, if and only if each slice of this user and machine is sound |
| Accounting.BillsAdd | src/acct/oneacct.rb:45-166 | The bills of two adjacent periods add up, for every user and machine and with or without a user in the filter, to the bill of the whole |
| MemCollectors.RoomGrows | src/common/mem_collector.c:69-81 | Growing by one chunk exactly when full keeps the size the least positive multiple of 100 with room |
| MemCollectors.ScanMeetsCopies | src/common/mem_collector.c:42-59 | A scan that stops at the first null passes all copies and nothing else |
| MemCollectors.MemCollector.constructor | src/common/mem_collector.c:25-37 | A chunk of null slots and no copies |
| MemCollectors.MemCollector.StrDup | src/common/mem_collector.c:64-87 | A new equal string is appended to the copies; the slots hold all copies in order and then only null |
| MemCollectors.MemCollector.Grow | src/common/mem_collector.c:69-81 | The old slots are kept and one chunk of null slots follows |
| MemCollectors.MemCollector.Cleanup | src/common/mem_collector.c:42-59 | Every copy is released exactly once |
| MemCollectors.CollectAndRelease | src/common/mem_collector.c:25-87 | After any number of copies the strings come back in order, the size is the least that has room, and every copy has been released |

## Left out

- ACL: the error texts, XML and printed forms, the parsing of rows in `select_cb` and the creation of the table. `add_rule` returns `lastOID` after it has released the lock; the return is taken to be part of the locked region.
- ACL: `authorize` and `reverse_search` take the lock once per key; here they read one state, so an add or a delete between two keys is not captured.
- ACL: a database statement that fails leaves the table unchanged. Whether it fails is a parameter.
- VectorAttributes.VectorAttribute.Unmarshall: an empty separator is excluded, because the source's loop does not end on one.
- Attributes: `replace`, `vector_value` and `to_xml`, which are single map operations or printing.
- ActionManagers: threads, mutexes and condition variables are steps of a schedule, and the absolute time of a timed wait is a timeout event of that schedule.
- DispatchManagers: the bodies of the Life-cycle, Transfer and Virtual Machine Managers. They appear as the environment of a run.
- DispatchManagers: a handler method is called when the VM's mutex is free. That it would wait otherwise is modelled in the steps of the pool.
- DispatchManagers: exit times, log lines, pool updates, and the leases and images themselves. Only how often they are released is kept.
- AuthManagers: request ids are unbounded, so the wrap of the C++ counter is not modelled. Messages are lists of parts, and the encoded authorization string, the driver protocol, password digests and user lookup are left out.
- AuthManagers.AuthManager.TimerAction: ids are visited in ascending order, as the map iterates. The time-out and the clock are whole numbers.
- HostHooks: host-name and argument parsing of the hook command, remote execution, and a missing hook driver. A hook that fires is one whose command would be sent. Configuration text is upper-cased in ASCII.
- HostHooks: `remove_host`, which nothing calls.
- Accounting: the network deltas of a machine, the join that produces the rows, and the printing of the account. The rows are given, each with its owner.
- MemCollectors: a failing `malloc`, and the release of the buffer itself at the end of a cleanup.
- Host shares, leases, image persistence and group checks, which would add only easy members; and XML-RPC, SQL and XML serialisation, logging, command-line tools and drivers.
