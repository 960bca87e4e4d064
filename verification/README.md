# Models of the HTC device tree's IPA configuration manager, camera parameters and amplifier codec

A Dafny model of four parts of the repository and proofs about whole runs of them.

**NAT connection cache.** `NatApp` keeps a fixed array of connections, some of which are mirrored as
rules in the NAT hardware, a list of connections that wait for their client, and a list of sleeping
clients; the conntrack listener turns network events into calls of it. `NatTypes`, `NatHardware`,
`NatSpec` and `ListenerSpec` give the state and every operation as functions; the classes `Driver`,
`NatApp` and `ConntrackListener` are the code as written, loops over arrays and one driver call at a time,
and are proved to compute those functions. The outcome of each driver call comes from an arbitrary oracle,
so "whatever the driver answers" ranges over all oracles, and "granted" means that the calls an operation
makes are answered with success. `NatInvariants`, `NatProperties`, `NatCollision`, `NatFlush`,
`NatFrames`, `NatTemp`, `ListenerProperties`, `FlowLaws` and `ClientLaws` hold the theorems,
`NatWitnesses` runs that reach the states in which the code misses a property. `Orphans` are hardware
rules that no enabled slot owns; `Debt` is the number of occupied slots minus the count the code keeps.

**Event bus.** `EventLoop` is the step system of posting threads and the processing thread with the
mutex and the condition variable; `MessageQueue`, `Registry`, `EvtDispatcher` and `IfaceManager` are the
linked lists on the heap with ghost sequences; `Dispatch` and `IfaceRegistration` are the dispatch of events
over a list that callbacks change; `EventHistory` and `IfaceEvents` tell from the outside in which order
callbacks run and which interfaces hear of which event.

**Resource-manager dependencies.** `RmDepend`, `RmHistory` and `RmConfig`.

**Codecs and maps.** `Tfa` and `Equalizer` (amplifier), `Decimal`, `CameraParams`, `CameraLaws` and
`CameraParameters` (camera parameters), `PreviewBuffers` (preview buffer maps).

## Findings

- A deletion the driver refuses leaves a hardware rule nobody owns
  (data-ipa-cfg-mgr/ipacm/src/IPACM_Conntrack_NATApp.cpp:274-287): exactly when the connection is in the
  hardware and the driver does not obey (`LeaksIff`), reached by `OrphanReached`; such rules are the only
  stray ones (`RunSafe`), and without refused deletions there are none (`RunOwned`).
- `ipa_nat_add_ipv4_tbl` zeroes the caller's handle before it can fail
  (data-ipa-cfg-mgr/ipanat/src/ipa_nat_drvi.c:650-660), so creating a table while one exists loses it for good
  (`LosesTableIff`, `LostForever`). A WAN-down event leaves the table in place when its address does not match
  or the driver refuses (data-ipa-cfg-mgr/ipacm/src/IPACM_ConntrackListener.cpp:456-469,
  data-ipa-cfg-mgr/ipacm/src/IPACM_Conntrack_NATApp.cpp:191-228), and the next WAN-up event then loses it:
  `WanCycle` says exactly when, `MismatchReached` reaches it.
- A client that appears while there is no table loses its cached connections
  (data-ipa-cfg-mgr/ipacm/src/IPACM_ConntrackListener.cpp:311-312,
  data-ipa-cfg-mgr/ipacm/src/IPACM_Conntrack_NATApp.cpp:639-645): in general a
  cached connection whose rule is refused at its turn is erased. `ReturnKeepsIff` and `ArrivalKeepsIff` are the
  exact conditions for every driver answer, `ArrivalReached` is the run.
- A restoring table creation re-enables rules of sleeping clients
  (data-ipa-cfg-mgr/ipacm/src/IPACM_Conntrack_NATApp.cpp:153-185): `RestoreWakes` is the exact condition for
  every driver answer, `RestoreReached` the run.
- A dummy flush can leave two waiting entries with one key
  (data-ipa-cfg-mgr/ipacm/src/IPACM_Conntrack_NATApp.cpp:767-780): `CollidesIff` is the exact condition,
  `TwinsQueued` and `DummyTwins` the run.
- An ECM WAN interface that deletes itself from its configuration-change callback
  (data-ipa-cfg-mgr/ipacm/src/IPACM_Wan.cpp:610-638) makes the dispatch loop read a freed node
  (data-ipa-cfg-mgr/ipacm/src/IPACM_EvtDispatcher.cpp:128-141): `ConfigChangeFrees` and `ConfigChangeReached`;
  `UseAfterFreeIff` is the exact condition for every dispatch.
- With three Q6 consumer additions, the first deletion takes the consumer down
  (data-ipa-cfg-mgr/ipacm/src/IPACM_Config.cpp:698-702): `Q6ThreeAdds`, exact condition `Q6Exact`.
- Disabled equaliser lines are recognised by five bytes, not five coefficients (amplifier/tfa.c:316):
  `HalfIsSkipped`, exact condition `GuardRightIff`.

## Model

| member | source | states |
|---|---|---|
| `NatHardware.Driver.AddTable` | data-ipa-cfg-mgr/ipanat/src/ipa_nat_drvi.c:641-693 | a table is created only when none exists; on failure the caller's table handle becomes 0 |
| `NatHardware.Driver.DelTable` | data-ipa-cfg-mgr/ipanat/src/ipa_nat_drv.c:74-85 | dropping the table succeeds only with a table and a non-zero handle, and removes every rule |
| `NatHardware.Driver.AddRule` | data-ipa-cfg-mgr/ipanat/src/ipa_nat_drv.c:96-117 | a granted rule gets a non-zero handle not in use; without a table handle the call fails; a failed call may write any handle |
| `NatHardware.Driver.DelRule` | data-ipa-cfg-mgr/ipanat/src/ipa_nat_drv.c:128-147 | removal succeeds only for a live non-zero handle under a table handle, and removes that rule alone |
| `NatHardware.FreeHandle` | data-ipa-cfg-mgr/ipanat/src/ipa_nat_drvi.c:1050-1055 | the handle of a new rule is non-zero and unused, and any such handle can be chosen |
| `NatAppClass.NatApp.constructor` | data-ipa-cfg-mgr/ipacm/src/IPACM_Conntrack_NATApp.cpp:36-53 | an empty cache, temp list and power-save list, no table, count 0, arbitrary previous public address |
| `NatAppClass.NatApp.IsAlg` | data-ipa-cfg-mgr/ipacm/src/IPACM_Conntrack_NATApp.cpp:522-535 | true exactly when the protocol and port are a configured ALG port |
| `NatAppClass.NatApp.IsPwrSaveIf` | data-ipa-cfg-mgr/ipacm/src/IPACM_Conntrack_NATApp.cpp:537-551 | true exactly when the non-zero address is on the power-save list |
| `NatAppClass.NatApp.Scan` | data-ipa-cfg-mgr/ipacm/src/IPACM_Conntrack_NATApp.cpp:231-251 | index of the first slot holding a key, or the length |
| `NatAppClass.NatApp.AddTable` | data-ipa-cfg-mgr/ipacm/src/IPACM_Conntrack_NATApp.cpp:129-189 | computes `NatSpec.AddTable`: creation, restore of every cached slot when the address is the previous one, erasure of refused slots |
| `NatAppClass.NatApp.InstallSlot` | data-ipa-cfg-mgr/ipacm/src/IPACM_Conntrack_NATApp.cpp:160-175 | the slot is enabled under the new handle, or erased with the count lowered by one |
| `NatAppClass.NatApp.DeleteTable` | data-ipa-cfg-mgr/ipacm/src/IPACM_Conntrack_NATApp.cpp:191-228 | computes `NatSpec.DeleteTable`: address check, drop, previous address remembered, every slot disabled |
| `NatAppClass.NatApp.DeleteEntry` | data-ipa-cfg-mgr/ipacm/src/IPACM_Conntrack_NATApp.cpp:254-293 | computes `NatSpec.DeleteEntry`: the first slot with the key is erased even when the driver refuses |
| `NatAppClass.NatApp.AddEntry` | data-ipa-cfg-mgr/ipacm/src/IPACM_Conntrack_NATApp.cpp:296-398 | computes `NatSpec.AddEntry` with all its refusals and return codes |
| `NatAppClass.NatApp.UpdatePwrSaveIf` | data-ipa-cfg-mgr/ipacm/src/IPACM_Conntrack_NATApp.cpp:553-600 | computes `NatSpec.UpdatePwrSaveIf` |
| `NatAppClass.NatApp.ResetPwrSaveIf` | data-ipa-cfg-mgr/ipacm/src/IPACM_Conntrack_NATApp.cpp:602-659 | computes `NatSpec.ResetPwrSaveIf`; returns -1 on every path |
| `NatAppClass.NatApp.SwapFirst` | data-ipa-cfg-mgr/ipacm/src/IPACM_Conntrack_NATApp.cpp:574-581 | the first occurrence in the power-save list, and no other, is replaced |
| `NatAppClass.NatApp.AddTempEntry` | data-ipa-cfg-mgr/ipacm/src/IPACM_Conntrack_NATApp.cpp:671-719 | computes `NatSpec.AddTempEntry` |
| `NatAppClass.NatApp.DeleteTempEntry` | data-ipa-cfg-mgr/ipacm/src/IPACM_Conntrack_NATApp.cpp:721-747 | computes `NatSpec.DeleteTempEntry` |
| `NatAppClass.NatApp.FlushTempEntries` | data-ipa-cfg-mgr/ipacm/src/IPACM_Conntrack_NATApp.cpp:749-788 | computes `NatSpec.FlushFrom` over the whole temp list |
| `NatAppClass.NatApp.DelEntriesOnClntDiscon` | data-ipa-cfg-mgr/ipacm/src/IPACM_Conntrack_NATApp.cpp:790-835 | computes `NatSpec.DelEntriesOnClntDiscon` |
| `NatAppClass.NatApp.DelEntriesOnSTAClntDiscon` | data-ipa-cfg-mgr/ipacm/src/IPACM_Conntrack_NATApp.cpp:837-869 | computes `NatSpec.DelEntriesOnSTAClntDiscon` |
| `NatAppClass.NatApp.CacheEntry` | data-ipa-cfg-mgr/ipacm/src/IPACM_Conntrack_NATApp.cpp:871-929 | computes `NatSpec.CacheEntry` |
| `NatAppClass.NatApp.UpdateUDPTimeStamp` | data-ipa-cfg-mgr/ipacm/src/IPACM_Conntrack_NATApp.cpp:484-520 | the whole loop is the run of its per-slot timestamp steps |
| `NatInvariants.RunSafe` | data-ipa-cfg-mgr/ipacm/src/IPACM_Conntrack_NATApp.cpp:129-398 | in every run from a fresh NatApp, whatever the driver answers: each enabled slot's handle is live and names a rule with that slot's fields, enabled handles are distinct, keys are whole and unique, no slot is enabled without a table; stray hardware rules are exactly those whose deletion was refused since the last table drop; the count is off by exactly the deletions of the zero key |
| `NatInvariants.RunExact` | data-ipa-cfg-mgr/ipacm/src/IPACM_Conntrack_NATApp.cpp:129-398 | the same for runs from any state that satisfies the invariant |
| `NatInvariants.ApplyExact` | data-ipa-cfg-mgr/ipacm/src/IPACM_Conntrack_NATApp.cpp:129-929 | each of the thirteen operations keeps the invariant; the orphaned rules and the miscount change by exactly what that operation leaks and miscounts |
| `NatInvariants.DeleteEntryExact` | data-ipa-cfg-mgr/ipacm/src/IPACM_Conntrack_NATApp.cpp:254-293 | the deleted key is gone; the hardware keeps an orphan exactly when the driver refused an enabled slot's removal; the count goes wrong exactly when the zero key hits an empty slot |
| `NatInvariants.AddEntryKeeps` | data-ipa-cfg-mgr/ipacm/src/IPACM_Conntrack_NATApp.cpp:296-398 | insertion keeps invariant, orphans and count, also when the driver refuses after a slot was chosen |
| `NatInvariants.SweepKeeps` | data-ipa-cfg-mgr/ipacm/src/IPACM_Conntrack_NATApp.cpp:583-659 | every loop over the cache keeps invariant, orphans and count for any driver answers |
| `NatInvariants.FlushKeeps` | data-ipa-cfg-mgr/ipacm/src/IPACM_Conntrack_NATApp.cpp:749-788 | so does a flush |
| `NatInvariants.AddTableKeeps` | data-ipa-cfg-mgr/ipacm/src/IPACM_Conntrack_NATApp.cpp:129-189 | so does table creation, restoring or not |
| `NatInvariants.DeleteTableExact` | data-ipa-cfg-mgr/ipacm/src/IPACM_Conntrack_NATApp.cpp:191-228 | dropping the table clears all orphans and keeps keys and count |
| `NatInvariants.StampExact` | data-ipa-cfg-mgr/ipacm/src/IPACM_Conntrack_NATApp.cpp:400-520 | a timestamp step keeps the invariant and leaks exactly when the deletion it causes is refused |
| `NatInvariants.LeaksIff` | data-ipa-cfg-mgr/ipacm/src/IPACM_Conntrack_NATApp.cpp:274-287 | deleting a key leaves a stray rule if and only if that key is in the hardware and the driver has no handle or refuses |
| `NatInvariants.NoLeaks` | data-ipa-cfg-mgr/ipacm/src/IPACM_Conntrack_NATApp.cpp:254-293 | a run whose deletions are granted leaks nothing |
| `NatProperties.RuleCount` | data-ipa-cfg-mgr/ipacm/src/IPACM_Conntrack_NATApp.cpp:361-367 | the number of hardware rules is the number of enabled slots plus the orphans |
| `NatProperties.RuleOwner` | data-ipa-cfg-mgr/ipacm/src/IPACM_Conntrack_NATApp.cpp:361-367 | without orphans every live rule belongs to exactly one enabled slot |
| `NatProperties.RunOwned` | data-ipa-cfg-mgr/ipacm/src/IPACM_Conntrack_NATApp.cpp:129-398 | in every run from a fresh NatApp whose deletions the driver grants, whatever else it refuses: every live hardware rule belongs to exactly one enabled slot, and there are as many rules as enabled slots |
| `NatProperties.SweepSlots` | data-ipa-cfg-mgr/ipacm/src/IPACM_Conntrack_NATApp.cpp:811-866 | what each loop leaves in each slot: done, refused or untouched, and done everywhere when all calls are granted |
| `NatProperties.SweepExact` | data-ipa-cfg-mgr/ipacm/src/IPACM_Conntrack_NATApp.cpp:153-185 | what each slot is after a loop that installs or withdraws, for every driver answer: decided by the answer to the call whose number is the count of slots asked about before it |
| `NatProperties.WanBounce` | data-ipa-cfg-mgr/ipacm/src/IPACM_Conntrack_NATApp.cpp:129-228 | drop for an address, any operations of which no table creation succeeds, create again for it: every occupied slot is enabled, the hardware holds exactly one rule per occupied slot, refused slots are erased and the count drops by exactly their number |
| `NatProperties.BounceUp` | data-ipa-cfg-mgr/ipacm/src/IPACM_Conntrack_NATApp.cpp:152-185 | the restoring half, from any state without a table |
| `NatProperties.LosesTableIff` | data-ipa-cfg-mgr/ipanat/src/ipa_nat_drvi.c:650-660 | creation loses a table if and only if there is one; it yields a handle if and only if there is none and it is granted |
| `NatProperties.LostForever` | data-ipa-cfg-mgr/ipacm/src/IPACM_Conntrack_NATApp.cpp:129-228 | a lost table stays lost with the same rules through every run, and can be neither created nor deleted afterwards |
| `NatProperties.StuckRun` | data-ipa-cfg-mgr/ipacm/src/IPACM_Conntrack_NATApp.cpp:204-228 | without a table handle, table, rules and remembered address stay through any run without a successful creation, refused creations included |
| `NatProperties.AsleepRun` | data-ipa-cfg-mgr/ipacm/src/IPACM_Conntrack_NATApp.cpp:537-659 | in every run of gentle operations, listed clients are distinct and none of their rules is in the hardware |
| `NatProperties.AsleepStep` | data-ipa-cfg-mgr/ipacm/src/IPACM_Conntrack_NATApp.cpp:129-929 | every operation, every driver answer: it keeps that property if and only if it is gentle, a condition on the state before the call: a table creation restores no sleeper, and a client put to sleep has no rule or gets its removals granted |
| `NatProperties.SleepsWellIff` | data-ipa-cfg-mgr/ipacm/src/IPACM_Conntrack_NATApp.cpp:553-600 | putting a client to sleep keeps the property if and only if it is not newly listed, has no rule in the hardware, or there is a handle and as many calls as it has rules are granted |
| `NatProperties.ListedOnce` | data-ipa-cfg-mgr/ipacm/src/IPACM_Conntrack_NATApp.cpp:537-622 | no client is listed twice in any run, whatever the driver answers |
| `NatProperties.RestoreWakes` | data-ipa-cfg-mgr/ipacm/src/IPACM_Conntrack_NATApp.cpp:153-185 | a table creation keeps sleeping clients out of the hardware if and only if it is for another address, fails, or every cached connection of a sleeping client is refused at its turn; for every driver answer |
| `NatProperties.PowerCycle` | data-ipa-cfg-mgr/ipacm/src/IPACM_Conntrack_NATApp.cpp:553-659 | sleep then wake, for listed and unlisted clients: the hardware holds the same rules as before if and only if all of the client's cached rules were in the hardware; other slots keep their handles |
| `NatProperties.PowerSaveLists` | data-ipa-cfg-mgr/ipacm/src/IPACM_Conntrack_NATApp.cpp:574-622 | a client is listed after the call exactly when it was or a list slot was free; waking and departure take it off |
| `NatProperties.ClientLeaves` | data-ipa-cfg-mgr/ipacm/src/IPACM_Conntrack_NATApp.cpp:790-835 | departure, granted if there is a table and unconditional without one: the client's rules leave the hardware, every cached key and every other enabled slot stays |
| `NatProperties.ClientReturns` | data-ipa-cfg-mgr/ipacm/src/IPACM_Conntrack_NATApp.cpp:602-659 | granted return with a table handle enables every cached rule of the client; without a handle its disabled rules are erased |
| `NatProperties.ReturnKeepsIff` | data-ipa-cfg-mgr/ipacm/src/IPACM_Conntrack_NATApp.cpp:602-659 | for every driver answer: a returning client keeps all cached connections, and has them in the hardware, if and only if none is missing there or there is a handle and as many calls as are missing are granted; a refused one is erased |
| `NatProperties.StaClientLeaves` | data-ipa-cfg-mgr/ipacm/src/IPACM_Conntrack_NATApp.cpp:837-869 | departure, granted if there is a table and unconditional without one: no slot and, without orphans, no hardware rule targets the client any more; the count drops by exactly the slots removed |
| `NatProperties.UpThenDown` | data-ipa-cfg-mgr/ipacm/src/IPACM_Conntrack_NATApp.cpp:187-228 | a created table can be deleted under its own address and no other; deletion forgets table and public address, remembers the address and keeps every cached connection disabled; a refused one changes nothing but the number of calls |
| `NatProperties.AddEntryAccepts` | data-ipa-cfg-mgr/ipacm/src/IPACM_Conntrack_NATApp.cpp:296-398 | exactly when a connection enters the cache, into one empty slot with its rule, its direction and the slot's old public address, and exactly when it is enabled there |
| `NatProperties.CacheEntryAccepts` | data-ipa-cfg-mgr/ipacm/src/IPACM_Conntrack_NATApp.cpp:871-929 | exactly when a connection is cached; the hardware is not touched |
| `NatTemp.FlushOutcome` | data-ipa-cfg-mgr/ipacm/src/IPACM_Conntrack_NATApp.cpp:749-788 | a flush decides every temp entry by itself: untouched, discarded, moved to the cache, or still waiting (rewritten in the dummy case) |
| `NatTemp.FlushLosesNothing` | data-ipa-cfg-mgr/ipacm/src/IPACM_Conntrack_NATApp.cpp:763-781 | an entry with the current public address and a whole key is in the cache or still waiting after an adding flush |
| `NatTemp.FlushForgets` | data-ipa-cfg-mgr/ipacm/src/IPACM_Conntrack_NATApp.cpp:758-785 | a discarding flush leaves no mention of the address if and only if the address is non-zero or nothing mentioned it |
| `NatFlush.FlushSlotMoves` | data-ipa-cfg-mgr/ipacm/src/IPACM_Conntrack_NATApp.cpp:763-782 | a waiting connection with the current public address and a whole key leaves the temp list if and only if it can enter the cache at its turn; then it fills one empty slot and is a live rule unless a client of it sleeps; otherwise it waits on and no cached key or hardware rule changes |
| `NatFlush.FlushTurn` | data-ipa-cfg-mgr/ipacm/src/IPACM_Conntrack_NATApp.cpp:749-788 | the same for the whole flush, with the state the loop is in at that entry |
| `NatFlush.FlushServes` | data-ipa-cfg-mgr/ipacm/src/IPACM_Conntrack_NATApp.cpp:749-788 | with a handle, room and granted calls, an adding flush serves every waiting connection that mentions the address, carries the current public address and has a new key, and none of them waits any longer |
| `NatFrames.ApplyFrame` | data-ipa-cfg-mgr/ipacm/src/IPACM_Conntrack_NATApp.cpp:129-929 | every operation, every driver answer: the fields it leaves alone; a cached connection keeps its contents while it is cached and is erased only by an operation that may; an empty slot is filled only by an insertion or a flush |
| `NatFrames.ConnectionKept` | data-ipa-cfg-mgr/ipacm/src/IPACM_Conntrack_NATApp.cpp:129-929 | a cached connection is the same connection in the same slot after every run that spares it |
| `NatFrames.DeleteFrame` | data-ipa-cfg-mgr/ipacm/src/IPACM_Conntrack_NATApp.cpp:254-293 | a deletion erases one slot with its key or nothing |
| `NatFrames.TempFrame` | data-ipa-cfg-mgr/ipacm/src/IPACM_Conntrack_NATApp.cpp:671-747 | offering a connection to the temp list fills one blank slot or changes nothing; deleting one empties one slot with its key or changes nothing |
| `NatTemp.AddTempAccepts` | data-ipa-cfg-mgr/ipacm/src/IPACM_Conntrack_NATApp.cpp:671-719 | exactly when a connection waits after being offered to the temp list |
| `NatTemp.CloseConnection` | data-ipa-cfg-mgr/ipacm/src/IPACM_ConntrackListener.cpp:820-821 | deleting the first match empties the cache of the key always, and the temp list exactly when no two slots held it |
| `NatTemp.CloseAfterRun` | data-ipa-cfg-mgr/ipacm/src/IPACM_ConntrackListener.cpp:794-855 | in every run whose dummy flushes start without a collision or leave nothing behind, closing a connection removes it from both lists |
| `NatTemp.TempRun` | data-ipa-cfg-mgr/ipacm/src/IPACM_Conntrack_NATApp.cpp:671-788 | temp keys stay unique in every such run |
| `NatCollision.CarefulFlush` | data-ipa-cfg-mgr/ipacm/src/IPACM_Conntrack_NATApp.cpp:763-781 | if no two waiting entries can be left under one key, a condition on the state before the call, a dummy flush keeps waiting keys distinct whatever the driver answers |
| `NatCollision.CollidesIff` | data-ipa-cfg-mgr/ipacm/src/IPACM_Conntrack_NATApp.cpp:763-781 | waiting keys stay distinct for every driver if and only if that condition holds; entries of sleeping clients, which enter the cache without a driver call while there is room, are included |
| `NatCollision.CollidingDriver` | data-ipa-cfg-mgr/ipacm/src/IPACM_Conntrack_NATApp.cpp:763-781 | a driver that leaves two entries under one key when the condition does not hold |
| `NatTemp.CarefulIsClean` | data-ipa-cfg-mgr/ipacm/src/IPACM_Conntrack_NATApp.cpp:671-788 | checking that condition before each dummy flush is enough for a whole run |
| `NatTemp.TwinsQueued` | data-ipa-cfg-mgr/ipacm/src/IPACM_Conntrack_NATApp.cpp:706-715 | a fresh NatApp can hold two waiting entries that differ only in the private port |
| `NatTemp.DummyTwins` | data-ipa-cfg-mgr/ipacm/src/IPACM_Conntrack_NATApp.cpp:767-780 | a refused dummy flush gives them one key, and closing that connection leaves a copy waiting |
| `ConntrackListenerClass.ConntrackListener.constructor` | data-ipa-cfg-mgr/ipacm/src/IPACM_ConntrackListener.cpp:39-56 | empty address lists, WAN down |
| `ConntrackListenerClass.ConntrackListener.HandleNeighIpAddrAddEvt` | data-ipa-cfg-mgr/ipacm/src/IPACM_ConntrackListener.cpp:284-316 | computes `ListenerSpec.Handle` for the event |
| `ConntrackListenerClass.ConntrackListener.HandleNeighIpAddrDelEvt` | data-ipa-cfg-mgr/ipacm/src/IPACM_ConntrackListener.cpp:318-343 | computes `ListenerSpec.Handle`: every copy of the address is removed, one round per copy |
| `ConntrackListenerClass.ConntrackListener.HandleNonNatIPAddr` | data-ipa-cfg-mgr/ipacm/src/IPACM_ConntrackListener.cpp:226-282 | computes `ListenerSpec.Handle` for both directions |
| `ConntrackListenerClass.ConntrackListener.TriggerWANUp` | data-ipa-cfg-mgr/ipacm/src/IPACM_ConntrackListener.cpp:345-369 | computes `ListenerSpec.Handle`, with the guard of lines 96-103 |
| `ConntrackListenerClass.ConntrackListener.TriggerWANDown` | data-ipa-cfg-mgr/ipacm/src/IPACM_ConntrackListener.cpp:456-469 | computes `ListenerSpec.Handle`, with the guard of lines 105-112; the WAN counts as down even if the table stays |
| `ConntrackListenerClass.ConntrackListener.ProcessCTMessage` | data-ipa-cfg-mgr/ipacm/src/IPACM_ConntrackListener.cpp:656-687 | computes `ListenerSpec.Handle` for a conntrack message, including lines 860-952 and 1022-1140 |
| `ConntrackListenerClass.ConntrackListener.AddIfaceFor` | data-ipa-cfg-mgr/ipacm/src/IPACM_ConntrackListener.cpp:689-768 | the verdict of the address lists, the passthrough case and the dummy rewriting |
| `ConntrackListenerClass.ConntrackListener.CheckSTAClient` | data-ipa-cfg-mgr/ipacm/src/IPACM_ConntrackListener.cpp:985-1019 | a connection waits exactly when it did before or its target is an unknown client of the STA subnet |
| `ConntrackListenerClass.ConntrackListener.AddORDeleteNatEntry` | data-ipa-cfg-mgr/ipacm/src/IPACM_ConntrackListener.cpp:770-858 | computes `ListenerSpec.Handle` for a judged message |
| `ConntrackListenerClass.ConntrackListener.HandleSTAClientAddEvt` | data-ipa-cfg-mgr/ipacm/src/IPACM_ConntrackListener.cpp:1142-1176 | computes `ListenerSpec.Handle` |
| `ConntrackListenerClass.ConntrackListener.HandleSTAClientDelEvt` | data-ipa-cfg-mgr/ipacm/src/IPACM_ConntrackListener.cpp:1178-1200 | computes `ListenerSpec.Handle` |
| `ListenerProperties.EventRunSafe` | data-ipa-cfg-mgr/ipacm/src/IPACM_ConntrackListener.cpp:71-140 | in every event run from a fresh listener, whatever the driver answers: the NatApp invariant holds, the count is exact, orphans are exactly the refused deletions |
| `ListenerProperties.EventRunOwned` | data-ipa-cfg-mgr/ipacm/src/IPACM_ConntrackListener.cpp:71-140 | in every event run from a fresh listener whose deletions the driver grants, every live hardware rule belongs to exactly one enabled slot |
| `ListenerProperties.EventsAreRuns` | data-ipa-cfg-mgr/ipacm/src/IPACM_ConntrackListener.cpp:71-140 | an event run acts on NatApp exactly as the concatenation of its operations |
| `ListenerProperties.EventsDeleteReal` | data-ipa-cfg-mgr/ipacm/src/IPACM_ConntrackListener.cpp:794-855 | the listener deletes only TCP and UDP connections |
| `ListenerProperties.CloseMessage` | data-ipa-cfg-mgr/ipacm/src/IPACM_ConntrackListener.cpp:814-854 | after any event run whose dummy flushes start without a collision or leave nothing behind, a message that takes the delete branch leaves its connection in neither list |
| `ListenerProperties.OpenThenClose` | data-ipa-cfg-mgr/ipacm/src/IPACM_ConntrackListener.cpp:1022-1129 | opening and closing messages of one connection name the same key, so nothing is left of it |
| `FlowLaws.FlowVerdict` | data-ipa-cfg-mgr/ipacm/src/IPACM_ConntrackListener.cpp:860-952 | whichever end opened a connection, its message gives the key of its private end and target, the WAN address and the public port; NATed clients as they are, the device's own and plain clients outside the hardware path, unknown private addresses wait, others are ignored, also lines 1022-1129 |
| `FlowLaws.OneKey` | data-ipa-cfg-mgr/ipacm/src/IPACM_ConntrackListener.cpp:860-952 | the source-NAT and the destination-NAT message of one connection name one key and one public port |
| `FlowLaws.Unflagged` | data-ipa-cfg-mgr/ipacm/src/IPACM_ConntrackListener.cpp:1046-1094 | messages without NAT flags count by their WAN address or are ignored, the destination flag wins, other protocols are ignored |
| `FlowLaws.OpenOwn` | data-ipa-cfg-mgr/ipacm/src/IPACM_ConntrackListener.cpp:794-849 | WAN up, a NATed client's TCP or UDP connection opens: it is in the cache if and only if it was or can enter, served then, and the temp list is left alone |
| `FlowLaws.OpenDummy` | data-ipa-cfg-mgr/ipacm/src/IPACM_ConntrackListener.cpp:794-849 | the same for the device's own and plain clients' connections, outside the hardware path |
| `FlowLaws.OpenWaiting` | data-ipa-cfg-mgr/ipacm/src/IPACM_ConntrackListener.cpp:794-849 | WAN up, a connection of an unknown private address or STA target opens: it waits exactly when it can, cache and hardware are left alone |
| `FlowLaws.OpenWhileDown` | data-ipa-cfg-mgr/ipacm/src/IPACM_ConntrackListener.cpp:794-849 | WAN down: it is cached exactly when it can be, disabled and with the WAN address, the hardware is left alone |
| `FlowLaws.NoEffect` | data-ipa-cfg-mgr/ipacm/src/IPACM_ConntrackListener.cpp:770-858 | a message that is ignored, or neither opens nor closes, changes nothing |
| `FlowLaws.CloseFlow` | data-ipa-cfg-mgr/ipacm/src/IPACM_ConntrackListener.cpp:814-854 | a closing message removes its connection from both lists and changes no other |
| `FlowLaws.WanAddressUsed` | data-ipa-cfg-mgr/ipacm/src/IPACM_ConntrackListener.cpp:345-369 | after a WAN-up event every rule made of a flow carries its address as public address, in its STA mode |
| `ListenerProperties.ClientDeparts` | data-ipa-cfg-mgr/ipacm/src/IPACM_ConntrackListener.cpp:318-343 | departure of a registered client, granted if there is a table and unconditional without one: no copy of its address, no temp entry mentioning it, no hardware rule of it, all cached keys kept, other addresses and rules kept |
| `ListenerProperties.ClientArrives` | data-ipa-cfg-mgr/ipacm/src/IPACM_ConntrackListener.cpp:284-316 | arrival on a NAT interface: the address is registered, and if the missing rules of the client are granted every cached connection of it is a live rule, whatever the flush that follows is answered |
| `ListenerProperties.ArrivalWithoutTable` | data-ipa-cfg-mgr/ipacm/src/IPACM_ConntrackListener.cpp:311-312 | without a table handle the same event erases the client's disabled cached connections and nothing else |
| `ListenerProperties.ArrivalKeepsIff` | data-ipa-cfg-mgr/ipacm/src/IPACM_ConntrackListener.cpp:284-316 | for every driver answer, with no waiting copy of a cached connection: an arriving client keeps its cached connections if and only if none is missing in the hardware or there is a handle and as many calls as are missing are granted |
| `ListenerProperties.ArrivalServes` | data-ipa-cfg-mgr/ipacm/src/IPACM_ConntrackListener.cpp:284-316 | an arriving client's waiting connections with the current public address and a new key are served, given a handle, room and granted calls, and wait no longer |
| `ListenerProperties.ClientRoundTrip` | data-ipa-cfg-mgr/ipacm/src/IPACM_ConntrackListener.cpp:284-343 | departure then return with its missing rules granted makes every cached connection of the client a live rule |
| `ClientLaws.StaDeparts` | data-ipa-cfg-mgr/ipacm/src/IPACM_ConntrackListener.cpp:1178-1200 | a registered STA client leaves: off the list and the count once, no slot and no hardware rule targets it, nothing that mentions it waits, all else stays |
| `ClientLaws.UnknownStaDeparts` | data-ipa-cfg-mgr/ipacm/src/IPACM_ConntrackListener.cpp:1178-1200 | an unregistered one only has its waiting entries discarded |
| `ClientLaws.StaListed` | data-ipa-cfg-mgr/ipacm/src/IPACM_ConntrackListener.cpp:1142-1171 | a new STA client takes the first free slot and is counted, unless it is listed before it |
| `ClientLaws.StaArrives` | data-ipa-cfg-mgr/ipacm/src/IPACM_ConntrackListener.cpp:1142-1176 | its waiting connections are served, given a handle, room and granted calls |
| `ClientLaws.PlainArrives` | data-ipa-cfg-mgr/ipacm/src/IPACM_ConntrackListener.cpp:226-261 | a plain client takes the first free slot and its waiting connections are served outside the hardware path |
| `ClientLaws.PlainDeparts` | data-ipa-cfg-mgr/ipacm/src/IPACM_ConntrackListener.cpp:263-279 | a plain client leaves the list, nothing that mentions it waits and no rule has its address; rules entered for it outside the hardware path carry the WAN address and stay |
| `ClientLaws.PlainIgnored` | data-ipa-cfg-mgr/ipacm/src/IPACM_ConntrackListener.cpp:233-237 | in STA mode plain clients are not tracked |
| `ClientLaws.NothingToDo` | data-ipa-cfg-mgr/ipacm/src/IPACM_ConntrackListener.cpp:284-343 | departures of unregistered addresses and arrivals off NAT interfaces or on a full list change nothing |
| `ClientLaws.NatListed` | data-ipa-cfg-mgr/ipacm/src/IPACM_ConntrackListener.cpp:293-307 | a client on a NAT interface takes the first free slot unless it is listed before it; no other field of the listener changes |
| `ClientLaws.EventFrame` | data-ipa-cfg-mgr/ipacm/src/IPACM_ConntrackListener.cpp:71-140 | which fields of the listener each event leaves alone, and that a WAN-up event without an address or while up changes nothing |
| `ClientLaws.PowerEvents` | data-ipa-cfg-mgr/ipacm/src/IPACM_Conntrack_NATApp.cpp:553-659 | a power-save event lists the client exactly when it was listed or a slot is free, a recovery takes it off |
| `ListenerProperties.WanMismatch` | data-ipa-cfg-mgr/ipacm/src/IPACM_ConntrackListener.cpp:456-469 | a table that the WAN-down event did not drop, for a wrong address or a refusing driver, is lost by any WAN-up event, and the hardware rules are frozen for every later event run |
| `ListenerProperties.WanCycle` | data-ipa-cfg-mgr/ipacm/src/IPACM_ConntrackListener.cpp:345-369 | WAN down then up, any addresses and answers: a usable table if and only if there was none or it was dropped, and the creation is granted; a lost table if and only if there was one that was not dropped |
| `ListenerProperties.EventBounce` | data-ipa-cfg-mgr/ipacm/src/IPACM_ConntrackListener.cpp:345-469 | a WAN-down event that drops the table, any events of which no WAN-up creates one, and a WAN-up event for the same address restore the cache as `NatProperties.WanBounce` says |
| `NatWitnesses.OrphanReached` | data-ipa-cfg-mgr/ipacm/src/IPACM_Conntrack_NATApp.cpp:274-287 | a fresh NatApp reaches a stray rule by a refused deletion |
| `NatWitnesses.RestoreReached` | data-ipa-cfg-mgr/ipacm/src/IPACM_Conntrack_NATApp.cpp:153-185 | a fresh NatApp with a granting driver reaches a sleeping client whose rule is in the hardware |
| `NatWitnesses.ArrivalLoses` | data-ipa-cfg-mgr/ipacm/src/IPACM_ConntrackListener.cpp:794-855 | every connection first opened while the WAN is down is cached, and erased when its client arrives |
| `NatWitnesses.ArrivalReached` | data-ipa-cfg-mgr/ipacm/src/IPACM_ConntrackListener.cpp:284-316 | a concrete message for which a fresh listener does so |
| `NatWitnesses.MismatchReached` | data-ipa-cfg-mgr/ipacm/src/IPACM_ConntrackListener.cpp:456-469 | a fresh listener reaches a lost table that no later event run recovers |
| `MessageQueueClass.MessageQueue.Enqueue` | data-ipa-cfg-mgr/ipacm/src/IPACM_CmdQueue.cpp:81-101 | appends at the back of the represented sequence; only live messages are dereferenced although `tail` may be stale |
| `MessageQueueClass.MessageQueue.Dequeue` | data-ipa-cfg-mgr/ipacm/src/IPACM_CmdQueue.cpp:104-117 | takes from the front of the represented sequence and leaves `tail` alone |
| `MessageQueueClass.EventBus.PostEvt` | data-ipa-cfg-mgr/ipacm/src/IPACM_EvtDispatcher.cpp:61-94 | the event goes to the back of the queue its number selects |
| `MessageQueueClass.EventBus.TakeNext` | data-ipa-cfg-mgr/ipacm/src/IPACM_CmdQueue.cpp:149-163 | the front of the internal queue, else of the external one, else nothing |
| `MessageQueueClass.EventBus.ProcessOne` | data-ipa-cfg-mgr/ipacm/src/IPACM_CmdQueue.cpp:189-201 | a round that deletes its message, after a callback that posts any events, keeps both lists intact |
| `EventLoop.Interleavings` | data-ipa-cfg-mgr/ipacm/src/IPACM_CmdQueue.cpp:141-203 | for every interleaving: events taken from a queue are a prefix of those posted to it; a sleeping thread with work waiting is about to be signalled |
| `EventLoop.InternalFirst` | data-ipa-cfg-mgr/ipacm/src/IPACM_CmdQueue.cpp:149-158 | whenever an external event can be taken, every internal event posted so far has been taken |
| `EventLoop.StepInv` | data-ipa-cfg-mgr/ipacm/src/IPACM_EvtDispatcher.cpp:87-113 | every step of posters and processing thread keeps mutual exclusion, queue order and the wake-up promise |
| `EventLoop.DrainBound` | data-ipa-cfg-mgr/ipacm/src/IPACM_CmdQueue.cpp:141-203 | every schedule without new posts and spurious wake-ups is bounded by a rank of its start |
| `EventLoop.AllDrained` | data-ipa-cfg-mgr/ipacm/src/IPACM_CmdQueue.cpp:141-203 | such a schedule that cannot go on has taken every posted event and the thread sleeps |
| `EventHistory.RunsInOrder` | data-ipa-cfg-mgr/ipacm/src/IPACM_CmdQueue.cpp:141-203 | for every interleaving: each thread's events are queued in the order it posted them, and callbacks of each kind run in the order of queueing, none lost, repeated or invented |
| `EventHistory.WanEventsFirst` | data-ipa-cfg-mgr/ipacm/inc/IPACM_Defs.h:131-187 | whenever an external event can be taken, every event from IPA_HANDLE_WAN_UP on that was queued has been taken, and no event up to IPA_NETWORK_STATS_UPDATE_EVENT is among them |
| `MessageQueueClass.PostedKind` | data-ipa-cfg-mgr/ipacm/src/IPACM_EvtDispatcher.cpp:80-86 | urgent events go to the back of the internal queue, all others to that of the external one |
| `RegistryClass.Registry.Registr` | data-ipa-cfg-mgr/ipacm/src/IPACM_EvtDispatcher.cpp:150-179 | appends one node, also lines 479-508 of data-ipa-cfg-mgr/ipacm/src/IPACM_IfaceManager.cpp |
| `RegistryClass.Registry.Deregistr` | data-ipa-cfg-mgr/ipacm/src/IPACM_EvtDispatcher.cpp:182-214 | the list becomes exactly its order-preserving filter; the successor is read before the node is freed and only live nodes are read, also lines 510-542 of data-ipa-cfg-mgr/ipacm/src/IPACM_IfaceManager.cpp |
| `RegistryClass.Registry.SearchInstance` | data-ipa-cfg-mgr/ipacm/src/IPACM_IfaceManager.cpp:545-565 | found exactly when some instance has the index |
| `EvtDispatcherClass.EvtDispatcher.ProcessEvt` | data-ipa-cfg-mgr/ipacm/src/IPACM_EvtDispatcher.cpp:118-148 | on the linked list, for every dispatch that completes, the loop computes `Dispatch.Process` and only copies nodes that are not freed |
| `EvtDispatcherClass.EvtDispatcher.Perform` | data-ipa-cfg-mgr/ipacm/src/IPACM_EvtDispatcher.cpp:134-137 | a callback's list change moves the saved successor to a known place |
| `Dispatch.DispatchSafe` | data-ipa-cfg-mgr/ipacm/src/IPACM_EvtDispatcher.cpp:118-148 | if callbacks only append, or deregister their own listener from its last node: no freed node is read; the calls are the registrations for the event present at the start, each exactly once and in order, then appended ones, each at most as often as appended; exactly those of the start if none is appended for the event |
| `Dispatch.CalledCount` | data-ipa-cfg-mgr/ipacm/src/IPACM_EvtDispatcher.cpp:118-148 | every dispatch that completes, whatever callbacks do: each registration for the event is called at most as often as it was on the list or was appended, at least once per node if it is never deregistered, and nothing else is called |
| `Dispatch.UseAfterFreeIff` | data-ipa-cfg-mgr/ipacm/src/IPACM_EvtDispatcher.cpp:130-137 | a dispatch reads a freed node if and only if some callback it makes deregisters the listener of the node after the called one |
| `Dispatch.FreedIff` | data-ipa-cfg-mgr/ipacm/src/IPACM_EvtDispatcher.cpp:130-137 | a callback frees the node the walk continues with if and only if it deregisters that node's listener |
| `Dispatch.LastNodeSafe` | data-ipa-cfg-mgr/ipacm/src/IPACM_EvtDispatcher.cpp:130-137 | with no successor saved, no callback can free anything under the walk |
| `Dispatch.WithoutExact` | data-ipa-cfg-mgr/ipacm/src/IPACM_EvtDispatcher.cpp:186-212 | deregistration removes all registrations of the listener and no other, multiplicities included |
| `IfaceRegistration.OrderEndsFinal` | data-ipa-cfg-mgr/ipacm/src/IPACM_IfaceManager.cpp:254-466 | in every interface category IPA_LAN_DELETE_SELF is registered last, and without it a link-down event |
| `IfaceRegistration.AlwaysOrdered` | data-ipa-cfg-mgr/ipacm/src/IPACM_IfaceManager.cpp:254-466 | on every reachable listener list each interface that may delete itself for one of these events has no node after its node for it |
| `IfaceRegistration.SelfDeleteSafe` | data-ipa-cfg-mgr/ipacm/src/IPACM_IfaceManager.cpp:283-284 | dispatching IPA_LAN_DELETE_SELF, IPA_LINK_DOWN_EVENT or IPA_WLAN_LINK_DOWN_EVENT on any reachable list to interfaces that may delete themselves reads no freed node and calls exactly the registered interfaces, each once, in order |
| `IfaceRegistration.WanMayDelete` | data-ipa-cfg-mgr/ipacm/src/IPACM_Wan.cpp:640-670 | WAN interfaces are among those that may delete themselves for link-down events, also lines 515-533 |
| `IfaceEvents.Delivered` | data-ipa-cfg-mgr/ipacm/src/IPACM_IfaceManager.cpp:254-466 | wherever its block stands, an interface is called once for each event its category subscribes to and never for any other; subscriptions are listed by event |
| `IfaceEvents.BridgeMode` | data-ipa-cfg-mgr/ipacm/src/IPACM_IfaceManager.cpp:317-402 | in ODU bridge mode no WAN interface is created and the ODU hears of no WAN event; otherwise the WAN interface has its mode |
| `IfaceEvents.KindHears` | data-ipa-cfg-mgr/ipacm/src/IPACM_IfaceManager.cpp:254-466 | the other categories are told apart by the events their interfaces hear of |
| `IfaceRegistration.ConfigChangeFrees` | data-ipa-cfg-mgr/ipacm/src/IPACM_Wan.cpp:610-638 | an ECM WAN interface anywhere on the list that deletes itself from its IPA_CFG_CHANGE_EVENT callback makes the dispatch read a freed node |
| `IfaceRegistration.ConfigChangeReached` | data-ipa-cfg-mgr/ipacm/src/IPACM_Wan.cpp:610-638 | a freshly created ECM WAN interface alone is such a list |
| `IfaceManagerClass.IfaceManager.CreateIfaceInstance` | data-ipa-cfg-mgr/ipacm/src/IPACM_IfaceManager.cpp:233-476 | one instance per interface index, events registered in the category's order; nothing for an unknown index, a duplicate, an unhandled category or a WAN interface in ODU bridge mode |
| `RmConfigClass.RmConfig.constructor` | data-ipa-cfg-mgr/ipacm/src/IPACM_Config.cpp:359-389 | the six entries, all flags down, no edges |
| `RmConfigClass.RmConfig.AddRmDepend` | data-ipa-cfg-mgr/ipacm/src/IPACM_Config.cpp:534-637 | computes `RmDepend.Apply` for an addition |
| `RmConfigClass.RmConfig.DelRmDepend` | data-ipa-cfg-mgr/ipacm/src/IPACM_Config.cpp:642-740 | computes `RmDepend.Apply` for a deletion |
| `RmDepend.RunSafe` | data-ipa-cfg-mgr/ipacm/src/IPACM_Config.cpp:534-740 | for every sequence of additions and deletions: edges are set exactly while both ends are up; with ioctls granted and bypass steady the kernel's edges are exactly those of the set entries minus bypassed first edges |
| `RmDepend.ApplyExact` | data-ipa-cfg-mgr/ipacm/src/IPACM_Config.cpp:534-740 | one operation: new flags of every entry whatever the ioctls do; granted, the kernel still agrees if and only if no set entry changes its bypass flag |
| `RmDepend.Q6Exact` | data-ipa-cfg-mgr/ipacm/src/IPACM_Config.cpp:649-702 | an operation keeps the Q6 consumer up exactly while additions are outstanding if and only if it adds at a count of at least 0 or deletes at a count of at most 2 |
| `RmDepend.Q6Run` | data-ipa-cfg-mgr/ipacm/src/IPACM_Config.cpp:541-545 | with at most two additions outstanding, the Q6 consumer is up exactly while one is |
| `RmDepend.Q6ThreeAdds` | data-ipa-cfg-mgr/ipacm/src/IPACM_Config.cpp:698-702 | three additions and one deletion take the consumer down with two additions outstanding |
| `RmHistory.OneEntryPerPair` | data-ipa-cfg-mgr/ipacm/src/IPACM_Config.cpp:359-389 | any two of the ends WLAN, USB, ODU and Q6 are coupled by exactly one entry, in both directions |
| `RmHistory.BothWays` | data-ipa-cfg-mgr/ipacm/src/IPACM_Config.cpp:534-740 | after every granted run without bypass: the edge from one end to another is in the kernel if and only if the edge back is, and if and only if the last operations on the watched producer and consumer were additions |
| `RmHistory.Q6Edges` | data-ipa-cfg-mgr/ipacm/src/IPACM_Config.cpp:534-740 | with at most two Q6 additions outstanding, pairs with Q6 are coupled exactly while one is outstanding and the producer is up |
| `RmHistory.OnlyEnds` | data-ipa-cfg-mgr/ipacm/src/IPACM_Config.cpp:359-389 | every edge ever in the kernel is between two different ends |
| `RmHistory.RunRemembers` | data-ipa-cfg-mgr/ipacm/src/IPACM_Config.cpp:534-740 | in every run, whatever the ioctls do, each flag tells the last operation on its producer or consumer, and the count is additions minus deletions of the Q6 consumer |
| `Tfa.Bytes2Data` | amplifier/tfa.c:220-236 | the output is the decoding of the complete triples, the rest of the array is untouched |
| `Tfa.Data2Bytes` | amplifier/tfa.c:238-254 | the output range is the encoding of the words, all other bytes are untouched |
| `Tfa.DecodeEncode` | amplifier/tfa.c:220-254 | decoding an encoding gives every value clamped to 24 bits |
| `Tfa.EncodeDecode` | amplifier/tfa.c:220-254 | encoding a decoding gives back the bytes, up to an incomplete last triple |
| `Tfa.BigEndian` | amplifier/tfa.c:220-254 | the top bit of the first byte is the sign, and words of equal sign compare as their byte triples do from the first byte on |
| `Equalizer.MaxAbs` | amplifier/tfa.c:320-326 | the largest magnitude of the five coefficients |
| `Equalizer.NoSaturation` | amplifier/tfa.c:327-343 | with the chosen exponent every scaled coefficient is strictly inside 24 bits |
| `Equalizer.Recovers` | amplifier/tfa.c:339-343 | undoing the scaling gives the coefficient within one unit in the last place |
| `Equalizer.LineRoundTrip` | amplifier/tfa.c:320-345 | every accepted line decodes to its exponent and to all five coefficients, in reverse order with the amplifier's signs, each within 2^(space-23) |
| `Equalizer.PackLine` | amplifier/tfa.c:316-346 | a line is skipped, refused or written with the exponent computed from its coefficients, and only its own 18 bytes change |
| `Equalizer.CeilLog2Unique` | amplifier/tfa.c:327 | the exponent of the source is determined by its defining inequality |
| `Equalizer.CeilLog2` | amplifier/tfa.c:327 | the exponent exists for every positive number |
| `Equalizer.AcceptedIff` | amplifier/tfa.c:328-332 | a line is accepted if and only if every coefficient is at most 256 - 2^-23 in magnitude |
| `Equalizer.HalfIsSkipped` | amplifier/tfa.c:316 | a line with second coefficient 0.5 is skipped although it is not the disabled line |
| `Equalizer.SkippedIff` | amplifier/tfa.c:316 | the first five bytes equal those of the disabled line if and only if the first coefficient is 1.0 and the low byte of the second is zero |
| `Equalizer.GuardRightIff` | amplifier/tfa.c:316 | the comparison recognises the disabled line correctly if and only if the line is disabled, does not start with 1.0, or has a non-zero low byte in its second coefficient |
| `CameraParams.RoundTrip` | camera/parameters/CameraParameters.cpp:210-330 | every map that any sequence of unflatten on any text, set and remove can produce is given back by unflatten of its flatten |
| `CameraParams.RunGood` | camera/parameters/CameraParameters.cpp:230-330 | such maps are sorted, have no `=` in keys and no `;` in values, and hold forced values |
| `CameraParams.UnflattenFlatten` | camera/parameters/CameraParameters.cpp:210-260 | reading the text of a good map appends exactly its pairs |
| `CameraParams.SetGood` | camera/parameters/CameraParameters.cpp:263-288 | set keeps the invariant and stores the value, or the forced one, under a clean key |
| `CameraLaws.SetExact` | camera/parameters/CameraParameters.cpp:263-288 | a set with an unclean key or value changes nothing; any other changes its key, on qcom builds the default of hdr-need-1x, and no other parameter |
| `CameraLaws.FaceAlwaysOff` | camera/parameters/CameraParameters.cpp:182-199 | in every run the two face-detection parameters are absent or off |
| `CameraLaws.ReadAnyText` | camera/parameters/CameraParameters.cpp:230-260 | every text is a list of items, perhaps with a rest that is ignored, and every parameter reads as the last item with its key |
| `CameraParams.PutGood` | camera/parameters/CameraParameters.cpp:189-199 | insertion keeps the order, stores the value and changes no other key |
| `CameraParams.DropGood` | camera/parameters/CameraParameters.cpp:327-330 | removal keeps the order, removes the key and changes no other key |
| `CameraParams.IntRoundTrip` | camera/parameters/CameraParameters.cpp:290-318 | every 32-bit value stored under an ordinary key is read back, directly and through the flat text |
| `CameraParams.SizeRoundTrip` | camera/parameters/CameraParameters.cpp:333-397 | every pair of 32-bit values stored as preview size is read back, directly and through the flat text |
| `CameraParams.PairText` | camera/parameters/CameraParameters.cpp:333-356 | a printed pair is read back and the reading stops right after it |
| `CameraParams.SizesRoundTrip` | camera/parameters/CameraParameters.cpp:358-381 | every list of sizes is read back from its comma-joined text |
| `CameraLaws.SizesStop` | camera/parameters/CameraParameters.cpp:358-381 | after a comma something unreadable is ignored, after any other character the size before it is dropped too |
| `CameraLaws.PreviewText` | camera/parameters/CameraParameters.cpp:383-388 | a preview size is stored as its text under preview-size, next to all other parameters |
| `CameraLaws.AbsentReads` | camera/parameters/CameraParameters.cpp:304-318 | absent integers read as -1, absent or unreadable sizes as -1 by -1 |
| `CameraLaws.NotAPair` | camera/parameters/CameraParameters.cpp:333-356 | a number alone or followed by another character than the delimiter is no pair |
| `Decimal.StrtolPrint` | camera/parameters/CameraParameters.cpp:338-346 | base ten parsing returns a printed number and the text after it |
| `Decimal.StrtolPrintAnyBase` | camera/parameters/CameraParameters.cpp:317 | base zero parsing, with octal and hexadecimal prefixes, returns a printed number |
| `Decimal.StrtolHex` | camera/parameters/CameraParameters.cpp:317 | base zero reads a hexadecimal text after 0x as its number, saturated |
| `Decimal.StrtolOctal` | camera/parameters/CameraParameters.cpp:317 | base zero reads an octal text after 0 as its number, saturated |
| `Decimal.StrtolSkips` | camera/parameters/CameraParameters.cpp:338-346 | leading white space and a plus sign change nothing |
| `Decimal.StrtolNothing` | camera/parameters/CameraParameters.cpp:338-346 | a text without a number reads as zero and nothing of it is consumed |
| `Decimal.ToInt32Wraps` | camera/parameters/CameraParameters.cpp:312-318 | a parsed number that does not fit 32 bits wraps around |
| `CameraParametersClass.CameraParameters.Flatten` | camera/parameters/CameraParameters.cpp:210-228 | the loop builds the flat text, which reads back as the map |
| `CameraParametersClass.CameraParameters.Unflatten` | camera/parameters/CameraParameters.cpp:230-260 | the loop reads any text into the map of `CameraParams.Unflatten`, which is good |
| `CameraParametersClass.CameraParameters.Set` | camera/parameters/CameraParameters.cpp:263-288 | ignored for null or unclean arguments, else every parameter reads as before except the key set, its forced value and the qcom default |
| `CameraParametersClass.CameraParameters.Get` | camera/parameters/CameraParameters.cpp:304-310 | absent and empty values are null |
| `CameraParametersClass.CameraParameters.GetInt` | camera/parameters/CameraParameters.cpp:312-318 | -1 for an absent value, else the parsed number |
| `CameraParametersClass.CameraParameters.Remove` | camera/parameters/CameraParameters.cpp:327-330 | the key is gone, all others stay |
| `CameraParametersClass.CameraParameters.SetPreviewSize` | camera/parameters/CameraParameters.cpp:383-388 | the size is stored so that it reads back |
| `CameraParametersClass.CameraParameters.GetPreviewSize` | camera/parameters/CameraParameters.cpp:390-397 | -1 by -1 unless a pair can be read |
| `CameraParametersClass.ParseSizesList` | camera/parameters/CameraParameters.cpp:358-381 | the loop ends on every text and returns the sizes before the first unreadable one |
| `PreviewBuffers.PreviewWindow.DequeueBuffer` | camera/device/CameraDevice.cpp:149-185 | the pointer handed out maps back to the buffer's id, older pointers keep their ids, a buffer is imported only the first time; the maps stay inverse |
| `PreviewBuffers.PreviewWindow.ReturnBuffer` | camera/device/CameraDevice.cpp:191-209 | a known pointer goes back under its id, an unknown one throws |
| `PreviewBuffers.PreviewWindow.BorrowAndReturn` | camera/device/CameraDevice.cpp:149-209 | a dequeued buffer goes back under its own id whatever is dequeued in between, and is unknown once a cleanup has run |
| `PreviewBuffers.PreviewWindow.CleanUpCirculatingBuffers` | camera/device/CameraDevice.cpp:140-147 | every handle imported so far has been freed exactly once and both maps are empty |
| `PreviewBuffers.PreviewWindow.Destroy` | camera/device/CameraDevice.cpp:117-124 | by destruction every imported handle has been freed exactly once |

## Left out

- Widths of addresses, ports and handles in the NAT part: they are only compared with each other and with zero.
- Error codes of the driver other than success: failures return -1 here.
- The NAT hardware table inside `ipa_nat_drvi.c` (hash chains, expansion table, DMA commands): the driver is
  a map from live handles to rules that may refuse any call.
- `NatApp` calls from the timestamp thread interleaved with others: each call is one step.
- `NatApp.Init`, `GetInstance` and reading the conntrack timeouts: allocation and file reading.
- IPv6, LAN-to-LAN and CT_OPT branches: not compiled in.
- `CheckNatIface`: its three outcomes are inputs; the private-subnet test and the passthrough setting are
  inputs of a message.
- Filter updates and thread creation of the listener: no effect on the modelled state.
- The number of STA clients against the STA list: only the code's own update of both is modelled.
- Failing mutex and condition-variable calls, and the two queues' lazy creation.
- ListenerProperties.ArrivalKeepsIff: if a copy of a cached connection is waiting, the flush after the arrival
  may put it in the place of an erased one; `ReturnKeepsIff` is about the step that erases, without that condition.
- EventLoop.AllDrained: wake-ups out of nothing are left out of the bound, since they can go on for ever.
- Dispatch.DispatchSafe: a callback that registers for the same event without end keeps the loop going for
  ever; callbacks act by a finite script.
- Callbacks of the LAN, WLAN and WAN classes: any list changes they make are inputs.
- The order of interfaces in `create_iface_instance` follows the Android branches only.
- Equalizer.NoSaturation: exact reals, no float rounding; infinities and NaN are not values of the model.
- Reading the equaliser file: only the packing of a line is modelled.
- Tfa.Data2Bytes: the least 32-bit value is excluded because the source's negation of it is undefined.
- Strings with embedded terminators, floats in camera parameters, and the other size and range keys.
- Reuse of freed addresses by the preview buffer map: the model's addresses are never reused; both maps are
  emptied together, so no freed address stays in them.
- Remaining parts of the repository (filtering, routing, headers, light, vibrator, USB, shims, RIL): they
  forward calls or are simple.
