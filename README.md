# EventManagerAPI, modelled in Dafny

EventManagerAPI lets a Bukkit plugin register many callbacks on the server's
event bus while the bus only ever sees one listener per (event class,
priority). The facade `EventManager` keeps:

- a map `events` from event class to an `EventGroup`;
- in each group, an array of buckets (`EventListener`), one slot per priority;
- in each bucket, a map from owner to that owner's consumers in registration
  order, plus the one bus subscription the bucket opened when it was created.

A private sentinel owner keeps a plugin-disable hook registered at MONITOR
priority. Whenever an operation could remove that hook, the hook is
registered again.

The model has four modules:

- `Events` (events.dfy): identities, priorities and their slots, status codes,
  and the computation of the array length.
- `RegistrySpec` (registry_spec.dfy): the registry as a value. The nested map
  `RegistryView` is class, then slot, then owner, then list of consumers. It
  has one function per operation and the lemmas about them: what each
  operation keeps and removes, which subscriptions exist, and the hook
  invariant.
- `Dispatch` (dispatch.dfy): `call` as a trace of invocations, and the
  fan-out, order and fault-isolation lemmas.
- `EventManagerAPI` (event_manager.dfy): the three Java classes as Dafny
  classes.
  - `EventGroup` keeps its `array<EventListener?>`, and slots are nulled in place.
  - Each bucket's map is a field that the bucket's methods reassign.
  - The manager's `events` is a `map` field.
  - Every method is proved against `RegistrySpec`. It states the returned
    status and the new `Contents()`, which is the registry read out through
    every group and bucket. It also states what happened on the bus: which
    subscriptions were released, and in what order. While the manager is
    enabled, `Valid()` also fixes the live subscriptions to one per bucket
    of the new registry.

The Bukkit plugin manager becomes the ghost object `HostBus`. It has two
fields:

- `live` is the set of subscriptions currently open.
- `released` is the log of every `unregisterAll`, in order.

Its two operations:

- `Subscribe` may only open a subscription that is not live, so no bucket
  subscribes twice.
- `Release` may only drop a live subscription, and appends it to the log.

The log makes release counts visible. `unregisterEvent(t)` logs each
subscription of `t` exactly once (`TypeLogOnce`), and `disable()` logs each
subscription of the registry exactly once (`RegistryLogOnce`). When
`unregisterEvent(PluginDisableEvent.class)` releases the hook's MONITOR
subscription, the release appears in the log. When the hook is then
registered again, the same subscription is live again.

While the manager is enabled, `EventManager.Valid()` requires the live set
to equal exactly one subscription per existing bucket. `plugin.isEnabled()`
is a parameter `pluginEnabled` of every operation that reads it. Java
exceptions become the returned `Status` (`Ok`, `IllegalState`,
`IllegalArgument`).

- An `IllegalState` failure changes nothing: not the registry and not the bus.
- `IllegalArgument` from `register` also changes nothing.
- `unregister`, `clearEventListener` and `unregisterEvent` are different.
  They raise `IllegalArgument` only from the hook's re-registration. By
  then the owner, the class's buckets or the class's group have already been
  removed, and the model keeps that change, as the code does.

The plugin-disable hook in the code does not call `disable()`. It sets the
flag to false and clears `events`, but it does not release any bucket's bus
subscription. The model follows the code: `HandlePluginDisable` leaves
`bus.live` unchanged.

## Model

| member | source | states |
|---|---|---|
| Events.ComputePriorities | src/main/java/com/fren_gor/eventManagerAPI/EventManager.java:47-55 | the array length is greater than every priority's slot and equals some slot plus one (6) |
| Events.TypeOf | src/main/java/com/fren_gor/eventManagerAPI/EventManager.java:326 | an event's exact class is `PluginDisableEvent` exactly when the event is a plugin-disable event |
| EventManagerAPI.HostBus.Subscribe | src/main/java/com/fren_gor/eventManagerAPI/EventManager.java:281 | a subscription is opened only if it is not already live, and is live afterwards |
| EventManagerAPI.HostBus.Release | src/main/java/com/fren_gor/eventManagerAPI/EventManager.java:317 | only a live subscription is released; exactly that one is dropped and appended to the release log |
| EventManagerAPI.EventListener.constructor | src/main/java/com/fren_gor/eventManagerAPI/EventManager.java:279-282 | a new bucket has no owners and adds exactly its own (class, slot) subscription to the bus |
| EventManagerAPI.EventListener.Register | src/main/java/com/fren_gor/eventManagerAPI/EventManager.java:284-294 | the consumer is appended to the end of the owner's list, which starts empty if the owner is absent; other owners are unchanged |
| EventManagerAPI.EventListener.UnregisterListener | src/main/java/com/fren_gor/eventManagerAPI/EventManager.java:296-303 | exactly the owner's key is removed |
| EventManagerAPI.EventListener.ClearListeners | src/main/java/com/fren_gor/eventManagerAPI/EventManager.java:305-312 | the owner map becomes empty; the subscription is untouched |
| EventManagerAPI.EventListener.UnregisterBukkitListener | src/main/java/com/fren_gor/eventManagerAPI/EventManager.java:314-322 | the bucket's own subscription (which must be live) is released, logged once, and the map is emptied |
| EventManagerAPI.EventListener.Deliver | src/main/java/com/fren_gor/eventManagerAPI/EventManager.java:334-341 | one owner's consumers are invoked in list order, each once, and each throw is recorded and the loop goes on |
| EventManagerAPI.EventListener.Call | src/main/java/com/fren_gor/eventManagerAPI/EventManager.java:324-346 | an event of another exact class invokes nothing; otherwise the owners are visited in some enumeration of the map, every owner's consumers run exactly once in registration order, nobody else runs, and each invocation records whether that consumer threw |
| EventManagerAPI.EventGroup.constructor | src/main/java/com/fren_gor/eventManagerAPI/EventManager.java:234 | a new group has an array of `PRIORITIES` null slots, so no bucket |
| EventManagerAPI.EventGroup.GetListener | src/main/java/com/fren_gor/eventManagerAPI/EventManager.java:237-243 | returns the slot's bucket. A bucket, with its single subscription, is created only when the slot was null. An existing bucket is returned as the same object, with the array, contents, footprint and bus unchanged. |
| EventManagerAPI.EventGroup.Add | src/main/java/com/fren_gor/eventManagerAPI/EventManager.java:117 | the consumer is appended to the owner's list in the priority's slot; no other slot changes; the bus gains a subscription only for a new bucket |
| EventManagerAPI.EventGroup.UnregisterListener | src/main/java/com/fren_gor/eventManagerAPI/EventManager.java:245-251 | every non-null slot loses the owner's key; the slots and footprint stay |
| EventManagerAPI.EventGroup.ClearListeners | src/main/java/com/fren_gor/eventManagerAPI/EventManager.java:253-259 | every non-null slot's map is emptied; the slots stay |
| EventManagerAPI.EventGroup.UnregisterBukkitListener | src/main/java/com/fren_gor/eventManagerAPI/EventManager.java:261-269 | every slot is nulled and every former bucket emptied. Exactly the group's subscriptions are released, one per former bucket, and they are logged in slot order (`SlotsLog`) |
| EventManagerAPI.EventManager.constructor | src/main/java/com/fren_gor/eventManagerAPI/EventManager.java:69-74 | a new manager is enabled and holds only the hook, at MONITOR of `PluginDisableEvent`, with that bucket's single subscription live |
| EventManagerAPI.EventManager.Create | src/main/java/com/fren_gor/eventManagerAPI/EventManager.java:69-74 | construction fails with IllegalArgument exactly when the plugin is disabled; otherwise a manager with the hook installed is returned |
| EventManagerAPI.EventManager.IsEnabled | src/main/java/com/fren_gor/eventManagerAPI/EventManager.java:212-214 | reports the enabled flag |
| EventManagerAPI.EventManager.CheckInitialisation | src/main/java/com/fren_gor/eventManagerAPI/EventManager.java:227-230 | fails with IllegalState exactly when the manager is disabled |
| EventManagerAPI.EventManager.Register | src/main/java/com/fren_gor/eventManagerAPI/EventManager.java:86-88 | the three-argument form behaves as registration at NORMAL |
| EventManagerAPI.EventManager.RegisterAt | src/main/java/com/fren_gor/eventManagerAPI/EventManager.java:101-118 | IllegalState if disabled, else IllegalArgument if the plugin is disabled, and then nothing changes; otherwise the registry becomes `AddTo` of the old one and the live set gains only that (class, slot) |
| EventManagerAPI.EventManager.RegisterEnabled | src/main/java/com/fren_gor/eventManagerAPI/EventManager.java:112-117 | past the checks, `computeIfAbsent` followed by the group's registration yields `AddTo` of the old registry |
| EventManagerAPI.EventManager.ComputeIfAbsent | src/main/java/com/fren_gor/eventManagerAPI/EventManager.java:112-115 | returns the class's group, filing an empty one only if the class was absent; the bus is unchanged |
| EventManagerAPI.EventManager.AddToGroup | src/main/java/com/fren_gor/eventManagerAPI/EventManager.java:117 | registering in the filed group changes the registry only at (class, slot, owner) and keeps one live subscription per bucket |
| EventManagerAPI.EventManager.RegisterPluginDisableEvent | src/main/java/com/fren_gor/eventManagerAPI/EventManager.java:216-225 | the hook is registered by the sentinel at MONITOR through `register`, subject to both of its checks |
| EventManagerAPI.EventManager.Unregister | src/main/java/com/fren_gor/eventManagerAPI/EventManager.java:127-138 | IllegalState if disabled, and then neither the registry nor the bus changes. Otherwise the owner is dropped from every bucket of every class while buckets and subscriptions stay. For the sentinel the hook is then registered again; that fails with IllegalArgument if the plugin is disabled, after the removal. Nothing is ever released. |
| EventManagerAPI.EventManager.UnregisterInGroup | src/main/java/com/fren_gor/eventManagerAPI/EventManager.java:131-133 | one loop step changes only the current class's group |
| EventManagerAPI.EventManager.ClearEventListener | src/main/java/com/fren_gor/eventManagerAPI/EventManager.java:147-159 | IllegalState if disabled, and then neither the registry nor the bus changes. An absent class changes nothing. Otherwise every bucket of the class is emptied while buckets and subscriptions stay. For `PluginDisableEvent` the hook is then registered again. Nothing is ever released. |
| EventManagerAPI.EventManager.ClearEnabled | src/main/java/com/fren_gor/eventManagerAPI/EventManager.java:150-158 | past the check, the registry becomes `AfterClear` of the old one |
| EventManagerAPI.EventManager.ClearInGroup | src/main/java/com/fren_gor/eventManagerAPI/EventManager.java:151-153 | clearing one group changes only that class's entry and keeps the footprint |
| EventManagerAPI.EventManager.UnregisterEvent | src/main/java/com/fren_gor/eventManagerAPI/EventManager.java:168-180 | IllegalState if disabled, and then neither the registry nor the bus changes. An absent class changes nothing. Otherwise the class's group is removed. The release log gains exactly that class's subscriptions, `PluginDisableEvent` included, and the live set loses them. For `PluginDisableEvent` the hook is then registered again. |
| EventManagerAPI.EventManager.UnregisterEnabled | src/main/java/com/fren_gor/eventManagerAPI/EventManager.java:171-179 | past the check, the registry becomes `AfterRemove` of the old one |
| EventManagerAPI.EventManager.RemoveGroup | src/main/java/com/fren_gor/eventManagerAPI/EventManager.java:172-174 | the group leaves `events`; the bus loses exactly that class's subscriptions and logs each of them |
| EventManagerAPI.EventManager.Disable | src/main/java/com/fren_gor/eventManagerAPI/EventManager.java:185-195 | afterwards the manager is disabled. The first call empties `events` and releases every subscription. The groups are visited in some enumeration of the classes, and the log gains each group's subscriptions in turn (`RegistryLog`). A later call changes nothing and never fails. |
| EventManagerAPI.EventManager.ReleaseAll | src/main/java/com/fren_gor/eventManagerAPI/EventManager.java:189-192 | the loop visits every class once and tears its group down; at the end no subscription is live and the log holds each group's releases in visiting order |
| EventManagerAPI.EventManager.SwitchOff | src/main/java/com/fren_gor/eventManagerAPI/EventManager.java:186-188 | reports whether this call flipped the flag from true, and leaves it false |
| EventManagerAPI.EventManager.ReleaseGroup | src/main/java/com/fren_gor/eventManagerAPI/EventManager.java:190-192 | one step of the `disable` loop empties one group, logs that group's subscriptions, and keeps the live set equal to the remaining buckets' subscriptions |
| EventManagerAPI.EventManager.ClearEvents | src/main/java/com/fren_gor/eventManagerAPI/EventManager.java:193 | `events` becomes empty |
| EventManagerAPI.EventManager.HandlePluginDisable | src/main/java/com/fren_gor/eventManagerAPI/EventManager.java:217-224 | for this manager's own plugin, the manager is disabled and `events` is emptied; the bus subscriptions stay live and nothing is released. For another plugin nothing changes |
| RegistrySpec.AddToLookup | src/main/java/com/fren_gor/eventManagerAPI/EventManager.java:101-118 | registration appends to exactly one list, adds only its bucket and class if absent, and leaves every other (class, slot, owner) list alone |
| RegistrySpec.AddToEmptyGroup | src/main/java/com/fren_gor/eventManagerAPI/EventManager.java:114 | filing an empty group first does not change the result of a registration |
| RegistrySpec.AddToSubscriptions | src/main/java/com/fren_gor/eventManagerAPI/EventManager.java:237-243 | a registration adds at most the subscription of its own bucket, and none if the bucket exists |
| RegistrySpec.RemoveOwnerGroup | src/main/java/com/fren_gor/eventManagerAPI/EventManager.java:245-251 | removing an owner from a group keeps the group's slots |
| RegistrySpec.RemoveOwnerLookup | src/main/java/com/fren_gor/eventManagerAPI/EventManager.java:127-138 | after unregistering, the owner has no consumers anywhere, every other owner's lists are unchanged, and every bucket and class remains |
| RegistrySpec.RemoveOwnerKeepsSubscriptions | src/main/java/com/fren_gor/eventManagerAPI/EventManager.java:296-303 | unregistering an owner releases no subscription |
| RegistrySpec.RemoveOwnerIdempotent | src/main/java/com/fren_gor/eventManagerAPI/EventManager.java:127-138 | unregistering twice equals unregistering once |
| RegistrySpec.RemoveOwnerUndoesAddTo | src/main/java/com/fren_gor/eventManagerAPI/EventManager.java:127-138 | unregistering an owner undoes its registration: each list is as if the owner had never registered |
| RegistrySpec.ClearGroup | src/main/java/com/fren_gor/eventManagerAPI/EventManager.java:253-259 | clearing a group keeps its slots |
| RegistrySpec.ClearTypeLookup | src/main/java/com/fren_gor/eventManagerAPI/EventManager.java:147-159 | clearing a class empties all of its lists, keeps every bucket, and leaves every other class alone |
| RegistrySpec.ClearTypeKeepsSubscriptions | src/main/java/com/fren_gor/eventManagerAPI/EventManager.java:305-312 | clearing releases no subscription |
| RegistrySpec.ClearThenRegisterReusesSubscription | src/main/java/com/fren_gor/eventManagerAPI/EventManager.java:237-243 | registering again after a clear reuses the existing bucket, so no new subscription is opened |
| RegistrySpec.RemoveTypeLookup | src/main/java/com/fren_gor/eventManagerAPI/EventManager.java:168-180 | removing a class drops all of its buckets and leaves every other class's buckets and lists alone |
| RegistrySpec.RemoveTypeSubscriptions | src/main/java/com/fren_gor/eventManagerAPI/EventManager.java:261-269 | removing a class releases exactly that class's subscriptions, all of which were live |
| RegistrySpec.RemoveThenRegisterResubscribes | src/main/java/com/fren_gor/eventManagerAPI/EventManager.java:114 | after a removal, a registration to the class builds a fresh group whose single bucket opens a new subscription |
| RegistrySpec.SlotsLogOnce | src/main/java/com/fren_gor/eventManagerAPI/EventManager.java:261-269 | tearing a group down slot by slot logs each of its buckets' subscriptions exactly once, and nothing else |
| RegistrySpec.TypeLogOnce | src/main/java/com/fren_gor/eventManagerAPI/EventManager.java:168-180 | `unregisterEvent` releases each subscription of the class exactly once, and nothing else |
| RegistrySpec.RegistryLogOnce | src/main/java/com/fren_gor/eventManagerAPI/EventManager.java:185-195 | `disable()`, visiting the classes in any order, releases each subscription of the registry exactly once, and nothing else |
| RegistrySpec.EmptyGroupSubscriptions | src/main/java/com/fren_gor/eventManagerAPI/EventManager.java:261-269 | a group with no buckets owns no subscription |
| RegistrySpec.NoBucketsNoSubscriptions | src/main/java/com/fren_gor/eventManagerAPI/EventManager.java:190-193 | once every group is torn down, no subscription remains |
| RegistrySpec.SameBucketsSameSubscriptions | src/main/java/com/fren_gor/eventManagerAPI/EventManager.java:281 | subscriptions depend only on which buckets exist, not on their contents |
| RegistrySpec.RegisterKeepsHook | src/main/java/com/fren_gor/eventManagerAPI/EventManager.java:101-118 | a client registration never disturbs the hook |
| RegistrySpec.UnregisterKeepsHook | src/main/java/com/fren_gor/eventManagerAPI/EventManager.java:134-136 | `unregister` of a client always keeps the hook installed, and so does `unregister` of any owner while the plugin is enabled. For the sentinel, the hook survives exactly when the plugin is enabled |
| RegistrySpec.ClearKeepsHook | src/main/java/com/fren_gor/eventManagerAPI/EventManager.java:154-156 | the same for `clearEventListener`, including on `PluginDisableEvent` itself |
| RegistrySpec.RemoveKeepsHook | src/main/java/com/fren_gor/eventManagerAPI/EventManager.java:175-177 | the same for `unregisterEvent`, including on `PluginDisableEvent` itself |
| Dispatch.FlattenIsFanOut | src/main/java/com/fren_gor/eventManagerAPI/EventManager.java:332-342 | a nested loop over any enumeration of the owners invokes every owner's consumers exactly once, in registration order, and no one else |
| Dispatch.FlattenProject | src/main/java/com/fren_gor/eventManagerAPI/EventManager.java:332-342 | over distinct owners, the invocations of each owner are exactly its list, or nothing if it was not enumerated |
| Dispatch.FlattenReportsThrows | src/main/java/com/fren_gor/eventManagerAPI/EventManager.java:335-340 | a throw is reported against the consumer that raised it |
| Dispatch.ThrowsDoNotChangeCalls | src/main/java/com/fren_gor/eventManagerAPI/EventManager.java:335-340 | which consumers throw has no influence on which consumers run or in what order |
| Dispatch.AbsentOwnerIsNotInvoked | src/main/java/com/fren_gor/eventManagerAPI/EventManager.java:332-342 | an owner without a key in the bucket, for instance one just unregistered, is never invoked |

## Left out

- Concurrency is not modelled: the `synchronized` blocks and methods, the read/write locks of each bucket, and the `AtomicBoolean`. Every operation runs alone, and `compareAndSet` is the sequential check-and-set `SwitchOff`.
- The Bukkit plugin manager is not modelled. `registerEvent` and `HandlerList.unregisterAll` become the ghost set `HostBus.live`. Delivery of an event to a bucket is `EventListener.Call` invoked directly.
- Null checks (`Preconditions.checkNotNull`, `Objects.requireNonNull`) are left out, because Dafny references and values are never null.
- `getPlugin` is a plain field read, the constant `plugin`.
- The diagnostic output of `call` (`System.err.println`, `printStackTrace`) is left out. Only the fact that a consumer threw is recorded.
- Consumers are opaque identities. What a consumer does, apart from whether it throws, is not modelled; `throws` is a parameter of `Call`.
- Generics, casts and reflection on event classes are reduced to equality of exact classes (`TypeOf(e) != clazz`). Subclass events are not modelled.
- `HashMap` iteration order is unspecified. The loops over `events` and over a bucket's entry set pick an arbitrary remaining key, and `Call` reports the order it used as a ghost result.
- The hook is the consumer identity `DisableHook`. Its effect is `EventManager.HandlePluginDisable`, which is not called from `Call` because consumers are opaque.
- EventManagerAPI.EventManager.constructor: requires the plugin to be enabled. The failing path (IllegalArgument for a disabled plugin) is modelled by `EventManager.Create`, since a Dafny constructor cannot fail.
- EventManagerAPI.EventManager.HandlePluginDisable: after the hook fires, the invariant tying the live subscriptions to the buckets no longer holds. The subscriptions stay live, as in the code, and `Valid()` demands that tie only while the manager is enabled.
- Bukkit's own handling of a disabled plugin is not modelled. The test double of the plugin manager drops every listener when a plugin-disable event is called, so no consumer runs afterwards. In the model, the buckets orphaned by `HandlePluginDisable` keep their owner maps, and their subscriptions stay live.
- The JUnit tests and the test doubles of the plugin manager are not modelled. The table above states their other scenarios: registration and priorities, the hook surviving each removal, the state checks, and the one release of `unregisterEvent`.
