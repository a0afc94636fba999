/** `EventManager` and its two inner classes, `EventGroup` (one per event
    class, an array of buckets indexed by priority slot) and `EventListener`
    (one bucket: an owner map and one subscription on the host bus).

    The locks of the Java code are erased: every operation runs alone. The
    host bus is the ghost account `HostBus`; `plugin.isEnabled()` is read
    from the parameter `pluginEnabled` of each operation that consults it. */
module EventManagerAPI {
  import opened Events
  import opened RegistrySpec
  import opened Dispatch

  /** The manager's account on Bukkit's plugin manager: the subscriptions
      its buckets currently hold, and the log of every release so far, in
      order. `registerEvent` may only add one that is not live (no bucket is
      subscribed twice) and `unregisterAll` may only drop one that is (no
      bucket is released twice). */
  class HostBus {
    ghost var live: set<Sub>
    ghost var released: seq<Sub>

    constructor ()
      ensures live == {} && released == []
    {
      live := {};
      released := [];
    }

    /** `PluginManager.registerEvent` for one listener. */
    ghost method Subscribe(s: Sub)
      requires s !in live
      modifies this
      ensures live == old(live) + {s}
      ensures released == old(released)
    {
      live := live + {s};
    }

    /** `HandlerList.unregisterAll` for one listener. */
    ghost method Release(s: Sub)
      requires s in live
      modifies this
      ensures live == old(live) - {s}
      ensures released == old(released) + [s]
    {
      live := live - {s};
      released := released + [s];
    }
  }

  /** A bucket: every consumer registered for one (event class, priority). */
  class EventListener {
    const clazz: EventType
    ghost const slot: nat
    const bus: HostBus
    var registrations: Registrations

    ghost function Subscription(): Sub
    {
      Sub(clazz, slot)
    }

    /** Subscribes the new bucket on the host bus, once, for its whole life. */
    constructor (clazz: EventType, priority: Priority, bus: HostBus)
      requires Sub(clazz, Slot(priority)) !in bus.live
      modifies bus
      ensures this.clazz == clazz && slot == Slot(priority) && this.bus == bus
      ensures registrations == map[]
      ensures bus.live == old(bus.live) + {Sub(clazz, Slot(priority))}
      ensures bus.released == old(bus.released)
    {
      this.clazz := clazz;
      slot := Slot(priority);
      this.bus := bus;
      registrations := map[];
      new;
      bus.Subscribe(Sub(clazz, Slot(priority)));
    }

    /** Appends the consumer to the owner's list, creating the list if absent. */
    method Register(listener: Owner, consumer: Consumer)
      modifies this
      ensures registrations == old(registrations)[listener := Consumers(old(registrations), listener) + [consumer]]
    {
      registrations := registrations[listener := Consumers(registrations, listener) + [consumer]];
    }

    method UnregisterListener(listener: Owner)
      modifies this
      ensures registrations == old(registrations) - {listener}
    {
      registrations := registrations - {listener};
    }

    method ClearListeners()
      modifies this
      ensures registrations == map[]
    {
      registrations := map[];
    }

    /** Releases the bucket's subscription and forgets every owner. */
    method UnregisterBukkitListener()
      requires Subscription() in bus.live
      modifies this, bus
      ensures registrations == map[]
      ensures bus.live == old(bus.live) - {Subscription()}
      ensures bus.released == old(bus.released) + [Subscription()]
    {
      bus.Release(Subscription());
      registrations := map[];
    }

    /** The inner loop of `call`: runs one owner's consumers in registration
        order, reporting each consumer that throws and going on. */
    static method Deliver(instance: Owner, consumers: seq<Consumer>, throws: (Owner, Consumer) -> bool)
      returns (block: seq<Invocation>)
      ensures block == Block(instance, consumers, throws)
    {
      block := [];
      for j := 0 to |consumers|
        invariant block == Block(instance, consumers[..j], throws)
      {
        BlockSnoc(instance, consumers, j, throws);
        block := block + [Invocation(instance, consumers[j], throws(instance, consumers[j]))];
      }
      assert consumers[..|consumers|] == consumers;
    }

    /** Delivers `e` to every consumer of every owner. An event whose exact
        class is not this bucket's is ignored. Owners are visited in the map's
        (unspecified) order, returned as `order`; each owner's consumers run
        in registration order; a consumer that throws is reported and the
        loop goes on. The bucket is not modified. */
    method Call(e: Event, throws: (Owner, Consumer) -> bool) returns (trace: seq<Invocation>, ghost order: seq<Owner>)
      ensures TypeOf(e) != clazz ==> trace == []
      ensures TypeOf(e) == clazz ==> IsEnumeration(order, registrations)
      ensures TypeOf(e) == clazz ==> trace == Flatten(registrations, order, throws)
      ensures TypeOf(e) == clazz ==> IsFanOut(registrations, trace)
      ensures forall k :: 0 <= k < |trace| ==> trace[k].threw == throws(trace[k].owner, trace[k].consumer)
    {
      trace, order := [], [];
      if TypeOf(e) != clazz {
        return;
      }
      var remaining := registrations.Keys;
      while remaining != {}
        invariant remaining <= registrations.Keys
        invariant Distinct(order)
        invariant forall o :: o in order <==> o in registrations && o !in remaining
        invariant trace == Flatten(registrations, order, throws)
        decreases remaining
      {
        var instance :| instance in remaining;
        var block := Deliver(instance, registrations[instance], throws);
        FlattenSnoc(registrations, order, instance, throws);
        trace := trace + block;
        order := order + [instance];
        remaining := remaining - {instance};
      }
      FlattenIsFanOut(registrations, order, throws);
      FlattenReportsThrows(registrations, order, throws);
    }
  }

  /** The buckets of one event class, one array slot per priority. `Contents`
      is the group read out: the map of every non-null slot. */
  class EventGroup {
    ghost const eventType: EventType
    const bus: HostBus
    const eventListeners: array<EventListener?>
    ghost var Contents: GroupView
    ghost var Repr: set<object>

    /** Every bucket sits in its own slot and belongs to this class and this
        bus; the bus is outside `Repr`. */
    ghost predicate WellShaped()
      reads this, Repr
    {
      this in Repr && eventListeners in Repr && bus !in Repr &&
      eventListeners.Length == PRIORITIES &&
      (forall s: nat :: s in Contents <==> s < PRIORITIES && eventListeners[s] != null) &&
      (forall s | s in Contents ::
         eventListeners[s] in Repr &&
         eventListeners[s].clazz == eventType && eventListeners[s].slot == s && eventListeners[s].bus == bus)
    }

    /** ... and every bucket holds what `Contents` says. */
    ghost predicate Valid()
      reads this, Repr
    {
      WellShaped() &&
      forall s | s in Contents :: eventListeners[s].registrations == Contents[s]
    }

    constructor (ghost eventType: EventType, bus: HostBus)
      ensures this.eventType == eventType && this.bus == bus
      ensures Valid() && fresh(Repr) && Contents == map[]
    {
      this.eventType := eventType;
      this.bus := bus;
      eventListeners := new EventListener?[PRIORITIES](_ => null);
      Contents := map[];
      new;
      Repr := {this, eventListeners};
    }

    /** The bucket of a slot, created (and subscribed) only when the slot is
        still null. */
    method GetListener(priority: Priority, event: EventType) returns (l: EventListener)
      requires Valid() && event == eventType
      requires Slot(priority) !in Contents ==> Sub(event, Slot(priority)) !in bus.live
      modifies this, eventListeners, bus
      ensures Valid() && fresh(Repr - old(Repr))
      ensures l in Repr && eventListeners[Slot(priority)] == l
      ensures Contents == if Slot(priority) in old(Contents) then old(Contents) else old(Contents)[Slot(priority) := map[]]
      ensures bus.live == if Slot(priority) in old(Contents) then old(bus.live)
                          else old(bus.live) + {Sub(event, Slot(priority))}
      ensures bus.released == old(bus.released)
      ensures Slot(priority) in old(Contents) ==>
                l == old(eventListeners[Slot(priority)]) && eventListeners[..] == old(eventListeners[..]) && Repr == old(Repr)
    {
      var existing := eventListeners[Slot(priority)];
      if existing != null {
        l := existing;
      } else {
        l := new EventListener(event, priority, bus);
        eventListeners[Slot(priority)] := l;
        Contents := Contents[Slot(priority) := map[]];
        Repr := Repr + {l};
      }
    }

    /** Re-reads slot `s` into `Contents` once its bucket was changed
        directly, as `register` does with the bucket `getListener` returns. */
    ghost method Sync(s: nat)
      requires WellShaped() && s in Contents
      requires forall s' | s' in Contents && s' != s :: eventListeners[s'].registrations == Contents[s']
      modifies this
      ensures Valid() && Repr == old(Repr)
      ensures Contents == old(Contents)[s := eventListeners[s].registrations]
    {
      Contents := Contents[s := eventListeners[s].registrations];
    }

    /** The expression `getListener(priority, event).register(listener,
        consumer)` of `EventManager.register`: the consumer is appended to the
        owner's list in the slot's bucket, which is created if absent. */
    method Add(priority: Priority, event: EventType, listener: Owner, consumer: Consumer)
      requires Valid() && event == eventType
      requires Slot(priority) !in Contents ==> Sub(event, Slot(priority)) !in bus.live
      modifies Repr, bus
      ensures Valid() && fresh(Repr - old(Repr))
      ensures Contents == old(Contents)[Slot(priority) := AddToBucket(if Slot(priority) in old(Contents) then old(Contents)[Slot(priority)] else map[], listener, consumer)]
      ensures bus.live == if Slot(priority) in old(Contents) then old(bus.live)
                          else old(bus.live) + {Sub(event, Slot(priority))}
      ensures bus.released == old(bus.released)
    {
      var l := GetListener(priority, event);
      ghost var bucket := Contents[Slot(priority)];
      assert l.registrations == bucket && this as object != l as object;
      l.Register(listener, consumer);
      assert l.registrations == AddToBucket(bucket, listener, consumer);
      Sync(Slot(priority));
    }

    /** Drops the owner's key from every bucket. */
    method UnregisterListener(listener: Owner)
      requires Valid()
      modifies Repr
      ensures Valid() && Repr == old(Repr)
      ensures Contents == RemoveOwnerGroup(old(Contents), listener)
    {
      for i := 0 to eventListeners.Length
        invariant eventListeners[..] == old(eventListeners[..])
        invariant Contents == old(Contents) && Repr == old(Repr) && WellShaped()
        invariant forall s | s in Contents :: eventListeners[s].registrations ==
                    if s < i then Contents[s] - {listener} else Contents[s]
      {
        var l := eventListeners[i];
        if l != null {
          l.UnregisterListener(listener);
        }
      }
      Contents := RemoveOwnerGroup(Contents, listener);
    }

    /** Every bucket forgets all its owners; the buckets stay. */
    method ClearListeners()
      requires Valid()
      modifies Repr
      ensures Valid() && Repr == old(Repr)
      ensures Contents == ClearGroup(old(Contents))
    {
      for i := 0 to eventListeners.Length
        invariant eventListeners[..] == old(eventListeners[..])
        invariant Contents == old(Contents) && Repr == old(Repr) && WellShaped()
        invariant forall s | s in Contents :: eventListeners[s].registrations ==
                    if s < i then map[] else Contents[s]
      {
        var l := eventListeners[i];
        if l != null {
          l.ClearListeners();
        }
      }
      Contents := ClearGroup(Contents);
    }

    /** Releases every bucket's subscription, clears it and nulls its slot. */
    method UnregisterBukkitListener()
      requires Valid()
      requires GroupSubscriptions(eventType, Contents) <= bus.live
      modifies Repr, bus
      ensures Valid() && Repr == old(Repr)
      ensures Contents == map[]
      ensures forall i :: 0 <= i < eventListeners.Length ==> eventListeners[i] == null
      ensures forall s | s in old(Contents) :: old(eventListeners[s]) != null && old(eventListeners[s]).slot == s
      ensures forall l: EventListener | l in old(eventListeners[..]) :: l.registrations == map[]
      ensures bus.live == old(bus.live) - GroupSubscriptions(eventType, old(Contents))
      ensures bus.released == old(bus.released) + SlotsLog(eventType, old(Contents), PRIORITIES)
    {
      ghost var buckets := eventListeners[..];
      for i := 0 to eventListeners.Length
        invariant Contents == old(Contents) && Repr == old(Repr)
        invariant forall j :: 0 <= j < i ==> eventListeners[j] == null
        invariant forall j :: i <= j < eventListeners.Length ==> eventListeners[j] == old(eventListeners[j])
        invariant forall j :: 0 <= j < |buckets| && buckets[j] != null ==> buckets[j].slot == j
        invariant forall j :: 0 <= j < i && buckets[j] != null ==> buckets[j].registrations == map[]
        invariant forall j :: i <= j < eventListeners.Length && eventListeners[j] != null ==>
                    eventListeners[j].registrations == Contents[j]
        invariant bus.live == old(bus.live) - SlotsBelow(eventType, Contents, i)
        invariant bus.released == old(bus.released) + SlotsLog(eventType, Contents, i)
      {
        var l := eventListeners[i];
        SlotsBelowStep(eventType, Contents, i);
        SlotsLogStep(old(bus.released), eventType, Contents, i);
        assert i in Contents <==> l != null;
        if l != null {
          assert l.Subscription() == Sub(eventType, i) && l == buckets[i];
          InGroupSubscriptions(eventType, Contents, Sub(eventType, i));
          l.UnregisterBukkitListener();
          eventListeners[i] := null;
        }
      }
      SlotsBelowAll(eventType, Contents, PRIORITIES);
      Contents := map[];
    }
  }

  /** The facade. Its abstract state `Contents()` is `events` read out
      through every group, and its footprint `Repr()` is the union of the
      groups' footprints. */
  class EventManager {
    const plugin: Plugin
    var enabled: bool
    var events: map<EventType, EventGroup>
    const bus: HostBus

    ghost function Contents(): RegistryView
      reads this`events, events.Values
    {
      map t | t in events :: events[t].Contents
    }

    ghost function Repr(): set<object>
      reads this`events, events.Values
    {
      {this, bus} + set t, o | t in events && o in events[t].Repr :: o
    }

    /** Every group is filed under its own class, is valid and owns a
        footprint shared with no other group; while enabled, the live
        subscriptions are exactly one per bucket. */
    ghost predicate Valid()
      reads this, events.Values, Repr()
    {
      (forall t | t in events ::
         this !in events[t].Repr &&
         events[t].eventType == t && events[t].bus == bus && events[t].Valid()) &&
      (forall t1, t2 | t1 in events && t2 in events && t1 != t2 :: events[t1].Repr !! events[t2].Repr) &&
      (enabled ==> bus.live == Subscriptions(Contents()))
    }

    /** The constructor once the plugin check has passed: the manager starts
        enabled with only the plugin-disable hook registered. */
    constructor (plugin: Plugin, pluginEnabled: bool)
      requires pluginEnabled
      ensures Valid()
      ensures fresh(Repr())
      ensures this.plugin == plugin && enabled
      ensures Contents() == AddHook(map[]) && HookInstalled(Contents())
      ensures bus.live == {Sub(PluginDisableEventClass, Slot(Monitor))} && bus.released == []
    {
      this.plugin := plugin;
      enabled := true;
      events := map[];
      bus := new HostBus();
      new;
      ghost var r0 := Repr();
      assert r0 == {this, bus} && fresh(r0);
      var r := RegisterPluginDisableEvent(pluginEnabled);
      assert Repr() <= (Repr() - r0) + r0;
      AddToSubscriptions(map[], Internal, PluginDisableEventClass, Slot(Monitor), DisableHook);
    }

    /** `new EventManager(plugin)`: refused with IllegalArgument for a
        disabled plugin. */
    static method Create(plugin: Plugin, pluginEnabled: bool) returns (r: Status, m: EventManager?)
      ensures r == if pluginEnabled then Ok else IllegalArgument
      ensures r == Ok <==> m != null
      ensures m != null ==> fresh(m.Repr()) && m.Valid() && m.enabled && m.plugin == plugin
      ensures m != null ==> m.Contents() == AddHook(map[]) && HookInstalled(m.Contents())
    {
      if !pluginEnabled {
        return IllegalArgument, null;
      }
      m := new EventManager(plugin, pluginEnabled);
      r := Ok;
    }

    function IsEnabled(): (b: bool)
      reads this
      ensures b <==> enabled
    {
      enabled
    }

    function CheckInitialisation(): (r: Status)
      reads this
      ensures r == Ok <==> enabled
      ensures r != Ok ==> r == IllegalState
    {
      if enabled then Ok else IllegalState
    }

    /** `register(listener, event, consumer)`: priority NORMAL. */
    method Register(listener: Owner, event: EventType, consumer: Consumer, pluginEnabled: bool) returns (r: Status)
      requires Valid()
      modifies Repr()
      ensures Valid() && fresh(Repr() - old(Repr()))
      ensures enabled == old(enabled)
      ensures r == if !old(enabled) then IllegalState else if !pluginEnabled then IllegalArgument else Ok
      ensures Contents() == if r == Ok then AddTo(old(Contents()), listener, event, Slot(Normal), consumer) else old(Contents())
      ensures bus.live == if r == Ok then old(bus.live) + {Sub(event, Slot(Normal))} else old(bus.live)
      ensures bus.released == old(bus.released)
    {
      r := RegisterAt(listener, event, Normal, consumer, pluginEnabled);
    }

    /** `register(listener, event, priority, consumer)`: fails first on a
        disabled manager, then on a disabled plugin, changing nothing; else
        appends the consumer in bucket (event, priority), creating the group
        and the bucket (and its one subscription) only if absent. */
    method RegisterAt(listener: Owner, event: EventType, priority: Priority, consumer: Consumer, pluginEnabled: bool)
      returns (r: Status)
      requires Valid()
      modifies Repr()
      ensures Valid() && fresh(Repr() - old(Repr()))
      ensures enabled == old(enabled)
      ensures r == if !old(enabled) then IllegalState else if !pluginEnabled then IllegalArgument else Ok
      ensures Contents() == if r == Ok then AddTo(old(Contents()), listener, event, Slot(priority), consumer) else old(Contents())
      ensures bus.live == if r == Ok then old(bus.live) + {Sub(event, Slot(priority))} else old(bus.live)
      ensures bus.released == old(bus.released)
    {
      if !enabled {
        return IllegalState;
      }
      if !pluginEnabled {
        return IllegalArgument;
      }
      RegisterEnabled(listener, event, priority, consumer);
      r := Ok;
    }

    /** The body of `register` past its two checks:
        `events.computeIfAbsent(...)` and then the group's registration. */
    method RegisterEnabled(listener: Owner, event: EventType, priority: Priority, consumer: Consumer)
      requires Valid() && enabled
      modifies Repr()
      ensures Valid() && fresh(Repr() - old(Repr())) && enabled
      ensures Contents() == AddTo(old(Contents()), listener, event, Slot(priority), consumer)
      ensures bus.live == old(bus.live) + {Sub(event, Slot(priority))}
      ensures bus.released == old(bus.released)
    {
      ghost var v0 := Contents();
      var el := ComputeIfAbsent(event);
      if event !in v0 {
        AddToEmptyGroup(v0, listener, event, Slot(priority), consumer);
      }
      AddToGroup(el, event, priority, listener, consumer);
    }

    /** `el.getListener(priority, event).register(listener, consumer)` on the
        group filed under `event`. */
    method AddToGroup(el: EventGroup, event: EventType, priority: Priority, listener: Owner, consumer: Consumer)
      requires Valid() && enabled && event in events && el == events[event]
      modifies Repr()
      ensures Valid() && fresh(Repr() - old(Repr())) && enabled
      ensures Contents() == AddTo(old(Contents()), listener, event, Slot(priority), consumer)
      ensures bus.live == old(bus.live) + {Sub(event, Slot(priority))}
      ensures bus.released == old(bus.released)
    {
      assert this !in el.Repr && this as object != bus as object && el.Contents == Contents()[event];
      InSubscriptions(Contents(), Sub(event, Slot(priority)));
      AddToSubscriptions(Contents(), listener, event, Slot(priority), consumer);
      el.Add(priority, event, listener, consumer);
      GroupChangedInPlace(Filing(this, event));
    }

    /** `events.computeIfAbsent(event, c -> new EventGroup())`: the group
        of `event`, filed empty if there was none. */
    method ComputeIfAbsent(event: EventType) returns (el: EventGroup)
      requires Valid()
      modifies this
      ensures Valid() && fresh(Repr() - old(Repr()))
      ensures enabled == old(enabled) && bus.live == old(bus.live) && bus.released == old(bus.released)
      ensures event in events && el == events[event]
      ensures event in old(events) ==> events == old(events)
      ensures Contents() == if event in old(events) then old(Contents()) else old(Contents())[event := map[]]
    {
      if event in events {
        el := events[event];
      } else {
        el := new EventGroup(event, bus);
        events := events[event := el];
        GroupCreated(Filing(this, event));
      }
    }

    /** `registerPluginDisableEvent()`: the sentinel registers the hook at
        MONITOR through the ordinary `register`, with its checks. */
    method RegisterPluginDisableEvent(pluginEnabled: bool) returns (r: Status)
      requires Valid()
      modifies Repr()
      ensures Valid() && fresh(Repr() - old(Repr()))
      ensures enabled == old(enabled)
      ensures r == if !old(enabled) then IllegalState else if !pluginEnabled then IllegalArgument else Ok
      ensures Contents() == if r == Ok then AddHook(old(Contents())) else old(Contents())
      ensures bus.released == old(bus.released)
    {
      r := RegisterAt(Internal, PluginDisableEventClass, Monitor, DisableHook, pluginEnabled);
    }

    /** `unregister(listener)`: drops the owner from every bucket; buckets and
        subscriptions stay. For the sentinel the hook is registered again,
        which fails with IllegalArgument if the plugin is disabled. */
    method Unregister(listener: Owner, pluginEnabled: bool) returns (r: Status)
      requires Valid()
      modifies Repr()
      ensures Valid() && fresh(Repr() - old(Repr()))
      ensures enabled == old(enabled)
      ensures r == if !old(enabled) then IllegalState
                   else if listener == Internal && !pluginEnabled then IllegalArgument else Ok
      ensures Contents() == if old(enabled) then AfterUnregister(old(Contents()), listener, pluginEnabled) else old(Contents())
      ensures !old(enabled) ==> bus.live == old(bus.live)
      ensures bus.released == old(bus.released)
    {
      r := CheckInitialisation();
      if r != Ok {
        return;
      }
      ghost var v0 := Contents();
      RemoveOwnerExceptEnds(v0, listener);
      var keys := events.Keys;
      while keys != {}
        invariant keys <= events.Keys
        invariant events == old(events) && enabled
        invariant Valid() && Repr() == old(Repr())
        invariant Contents() == RemoveOwnerExcept(v0, listener, keys)
        invariant bus.released == old(bus.released)
        decreases keys
      {
        var t :| t in keys;
        RemoveOwnerExceptStep(v0, listener, keys, t);
        UnregisterInGroup(t, listener);
        keys := keys - {t};
      }
      if listener == Internal {
        r := RegisterPluginDisableEvent(pluginEnabled);
      }
    }

    /** `group.unregisterListener(listener)` on the group filed under `t`. */
    method UnregisterInGroup(t: EventType, listener: Owner)
      requires Valid() && enabled && t in events
      modifies Repr()
      ensures Valid() && Repr() == old(Repr())
      ensures events == old(events) && enabled
      ensures Contents() == old(Contents())[t := RemoveOwnerGroup(old(Contents())[t], listener)]
      ensures bus.released == old(bus.released)
    {
      var el := events[t];
      assert this !in el.Repr && this as object != bus as object && el.Contents == Contents()[t];
      SameSlotsSameSubscriptions(Contents(), t, RemoveOwnerGroup(Contents()[t], listener));
      el.UnregisterListener(listener);
      GroupChangedInPlace(Filing(this, t));
      FootprintKept(Filing(this, t));
    }

    /** `clearEventListener(event)`: every bucket of the class forgets all its
        owners; buckets and subscriptions stay. The hook is registered again
        when the class is `PluginDisableEvent`. */
    method ClearEventListener(event: EventType, pluginEnabled: bool) returns (r: Status)
      requires Valid()
      modifies Repr()
      ensures Valid()
      ensures fresh(Repr() - old(Repr()))
      ensures enabled == old(enabled)
      ensures r == if !old(enabled) then IllegalState
                   else if event in old(events) && event == PluginDisableEventClass && !pluginEnabled then IllegalArgument
                   else Ok
      ensures Contents() == if old(enabled) then AfterClear(old(Contents()), event, pluginEnabled) else old(Contents())
      ensures !old(enabled) ==> bus.live == old(bus.live)
      ensures bus.released == old(bus.released)
    {
      r := CheckInitialisation();
      if r != Ok {
        return;
      }
      r := ClearEnabled(event, pluginEnabled);
    }

    /** The body of `clearEventListener` past its check. */
    method ClearEnabled(event: EventType, pluginEnabled: bool) returns (r: Status)
      requires Valid() && enabled
      modifies Repr()
      ensures Valid() && fresh(Repr() - old(Repr())) && enabled
      ensures r == if event in old(events) && event == PluginDisableEventClass && !pluginEnabled then IllegalArgument else Ok
      ensures Contents() == AfterClear(old(Contents()), event, pluginEnabled)
      ensures bus.released == old(bus.released)
    {
      r := Ok;
      if event in events {
        ClearInGroup(event);
        if event == PluginDisableEventClass {
          r := RegisterPluginDisableEvent(pluginEnabled);
        }
      }
    }

    /** `group.clearListeners()` on the group filed under `t`. */
    method ClearInGroup(t: EventType)
      requires Valid() && enabled && t in events
      modifies Repr()
      ensures Valid() && Repr() == old(Repr())
      ensures events == old(events) && enabled
      ensures Contents() == old(Contents())[t := ClearGroup(old(Contents())[t])]
      ensures bus.released == old(bus.released)
    {
      var el := events[t];
      assert this !in el.Repr && this as object != bus as object && el.Contents == Contents()[t];
      SameSlotsSameSubscriptions(Contents(), t, ClearGroup(Contents()[t]));
      el.ClearListeners();
      GroupChangedInPlace(Filing(this, t));
      FootprintKept(Filing(this, t));
    }

    /** `unregisterEvent(event)`: removes the class's group, releasing each of
        its buckets' subscriptions once. The hook is registered again when the
        class is `PluginDisableEvent`. */
    method UnregisterEvent(event: EventType, pluginEnabled: bool) returns (r: Status)
      requires Valid()
      modifies Repr()
      ensures Valid() && fresh(Repr() - old(Repr()))
      ensures enabled == old(enabled)
      ensures r == if !old(enabled) then IllegalState
                   else if event in old(events) && event == PluginDisableEventClass && !pluginEnabled then IllegalArgument
                   else Ok
      ensures Contents() == if old(enabled) then AfterRemove(old(Contents()), event, pluginEnabled) else old(Contents())
      ensures old(enabled) && event != PluginDisableEventClass ==>
                bus.live == old(bus.live) - TypeSubscriptions(old(Contents()), event)
      ensures old(enabled) ==> bus.released == old(bus.released) + TypeLog(old(Contents()), event)
      ensures !old(enabled) ==> bus.live == old(bus.live) && bus.released == old(bus.released)
    {
      r := CheckInitialisation();
      if r != Ok {
        return;
      }
      r := UnregisterEnabled(event, pluginEnabled);
    }

    /** The body of `unregisterEvent` past its check. */
    method UnregisterEnabled(event: EventType, pluginEnabled: bool) returns (r: Status)
      requires Valid() && enabled
      modifies Repr()
      ensures Valid() && fresh(Repr() - old(Repr())) && enabled
      ensures r == if event in old(events) && event == PluginDisableEventClass && !pluginEnabled then IllegalArgument else Ok
      ensures Contents() == AfterRemove(old(Contents()), event, pluginEnabled)
      ensures event != PluginDisableEventClass ==> bus.live == old(bus.live) - TypeSubscriptions(old(Contents()), event)
      ensures bus.released == old(bus.released) + TypeLog(old(Contents()), event)
    {
      r := Ok;
      if event in events {
        RemoveGroup(event);
        if event == PluginDisableEventClass {
          r := RegisterPluginDisableEvent(pluginEnabled);
        }
      }
    }

    /** `events.remove(event)` followed by `unregisterBukkitListener()` on
        the removed group. */
    method RemoveGroup(event: EventType)
      requires Valid() && enabled && event in events
      modifies Repr()
      ensures Valid() && fresh(Repr() - old(Repr()))
      ensures enabled
      ensures Contents() == RemoveType(old(Contents()), event)
      ensures bus.live == old(bus.live) - TypeSubscriptions(old(Contents()), event)
      ensures bus.released == old(bus.released) + TypeLog(old(Contents()), event)
    {
      var el := events[event];
      assert this !in el.Repr && this as object != bus as object && el.Contents == Contents()[event];
      RemoveTypeSubscriptions(Contents(), event);
      label before:
      events := events - {event};
      el.UnregisterBukkitListener();
      GroupRemoved@before(Filing(this, event));
    }

    /** `disable()`: only the call that flips `enabled` acts; it releases
        every bucket's subscription and empties `events`. Never fails. The
        groups are torn down in the map's (unspecified) order, returned as
        `order`. */
    method Disable() returns (ghost order: seq<EventType>)
      requires Valid()
      modifies Repr()
      ensures Valid() && fresh(Repr() - old(Repr()))
      ensures !enabled
      ensures old(enabled) ==> events == map[] && Contents() == map[] && bus.live == {}
      ensures old(enabled) ==> Distinct(order) && (forall t :: t in order <==> t in old(events))
      ensures old(enabled) ==> bus.released == old(bus.released) + RegistryLog(old(Contents()), order)
      ensures !old(enabled) ==> events == old(events) && Contents() == old(Contents())
      ensures !old(enabled) ==> bus.live == old(bus.live) && bus.released == old(bus.released)
    {
      order := [];
      var flipped := SwitchOff();
      if !flipped {
        return;
      }
      order := ReleaseAll();
      ClearEvents();
    }

    /** The loop of `disable()`: every group, in the map's order, releases
        its buckets' subscriptions. */
    method ReleaseAll() returns (ghost order: seq<EventType>)
      requires Valid() && !enabled
      requires bus.live == Subscriptions(Contents())
      modifies Repr()
      ensures Valid() && Repr() == old(Repr())
      ensures events == old(events) && !enabled
      ensures Contents() == ReleasedExcept(old(Contents()), {}) && bus.live == {}
      ensures Distinct(order) && forall t :: t in order <==> t in events
      ensures bus.released == old(bus.released) + RegistryLog(old(Contents()), order)
    {
      order := [];
      ghost var v0 := Contents();
      ReleasedExceptStart(v0);
      var keys := events.Keys;
      while keys != {}
        invariant keys <= events.Keys
        invariant events == old(events) && !enabled
        invariant Valid() && Repr() == old(Repr())
        invariant Contents() == ReleasedExcept(v0, keys)
        invariant bus.live == Subscriptions(Contents())
        invariant Distinct(order) && forall t :: t in order <==> t in events && t !in keys
        invariant bus.released == old(bus.released) + RegistryLog(v0, order)
        decreases keys
      {
        var t :| t in keys;
        ReleasedExceptStep(v0, keys, t);
        ReleasedExceptLog(v0, keys, t);
        RegistryLogSnoc(old(bus.released), v0, order, t);
        EnumerationStep(order, events.Keys, keys, t);
        ReleaseGroup(t);
        order := order + [t];
        keys := keys - {t};
      }
      NoBucketsNoSubscriptions(Contents());
    }

    /** `events.clear()` once the manager is off. */
    method ClearEvents()
      requires Valid() && !enabled
      modifies this`events
      ensures Valid() && events == map[] && Contents() == map[]
      ensures Repr() <= old(Repr())
    {
      events := map[];
    }

    /** `enabled.compareAndSet(true, false)`: reports whether this call was
        the one that turned the manager off. Only the flag changes, so the
        registrations and the live subscriptions still agree. */
    method SwitchOff() returns (flipped: bool)
      requires Valid()
      modifies this`enabled
      ensures flipped == old(enabled) && !enabled
      ensures Valid() && Contents() == old(Contents()) && Repr() == old(Repr())
      ensures flipped ==> bus.live == Subscriptions(Contents())
    {
      flipped := enabled;
      enabled := false;
    }

    /** `group.unregisterBukkitListener()` on the group filed under `t`,
        once the manager is off. */
    method ReleaseGroup(t: EventType)
      requires Valid() && !enabled && t in events
      requires bus.live == Subscriptions(Contents())
      modifies Repr()
      ensures Valid() && Repr() == old(Repr())
      ensures events == old(events) && !enabled
      ensures Contents() == old(Contents())[t := map[]]
      ensures bus.live == Subscriptions(Contents())
      ensures bus.released == old(bus.released) + TypeLog(old(Contents()), t)
    {
      var el := events[t];
      assert this !in el.Repr && this as object != bus as object && el.Contents == Contents()[t];
      RemoveTypeSubscriptions(Contents(), t);
      EmptyGroupSubscriptions(Contents(), t);
      el.UnregisterBukkitListener();
      GroupChangedInPlace(Filing(this, t));
      FootprintKept(Filing(this, t));
    }

    /** The hook's body: on the disable event of this manager's own plugin it
        turns the manager off and empties `events`, without releasing the
        buckets' subscriptions (it does not go through `disable()`). */
    method HandlePluginDisable(e: Event)
      requires Valid()
      requires TypeOf(e) == PluginDisableEventClass
      modifies this
      ensures Valid() && fresh(Repr() - old(Repr()))
      ensures bus.live == old(bus.live) && bus.released == old(bus.released)
      ensures e.plugin == plugin ==> !enabled && events == map[] && Contents() == map[]
      ensures e.plugin != plugin ==> enabled == old(enabled) && events == old(events)
    {
      if e.plugin == plugin {
        enabled := false;
        events := map[];
      }
    }
  }

  /** The group filed under `t` in manager `m`. (Bundled into one value so
      that each lemma below takes a single argument.) */
  datatype Filing = Filing(m: EventManager, t: EventType)

  /** While one group of a manager changes, every other group keeps its
      footprint, its validity and its contents. */
  twostate lemma OtherGroupsUntouched(at: Filing)
    requires old(at.m.Valid())
    requires forall t' | t' in at.m.events && t' != at.t :: t' in old(at.m.events) && at.m.events[t'] == old(at.m.events[t'])
    requires forall t' | t' in old(at.m.events) && t' != at.t :: unchanged(old(at.m.events[t'].Repr))
    ensures forall t' | t' in at.m.events && t' != at.t ::
              at.m.events[t'].Repr == old(at.m.events[t'].Repr) && at.m.events[t'].Valid() &&
              at.m.events[t'].Contents == old(at.m.events[t'].Contents)
  {
    var m, t := at.m, at.t;
    forall t' | t' in m.events && t' != t
      ensures m.events[t'].Repr == old(m.events[t'].Repr) && m.events[t'].Valid() &&
              m.events[t'].Contents == old(m.events[t'].Contents)
    {
      var h := m.events[t'];
      assert forall o | o in old(h.Repr) :: unchanged(o);
    }
  }

  /** The manager's view follows its groups: if every group other than that
      of `at.t` kept its contents, the view changed at most at `at.t`. */
  twostate lemma ContentsFollowGroups(at: Filing)
    requires forall t' | t' in at.m.events && t' != at.t ::
               t' in old(at.m.events) && at.m.events[t'].Contents == old(at.m.events[t'].Contents)
    requires forall t' | t' in old(at.m.events) && t' != at.t :: t' in at.m.events
    ensures at.t in at.m.events ==> at.m.Contents() == old(at.m.Contents())[at.t := at.m.events[at.t].Contents]
    ensures at.t !in at.m.events ==> at.m.Contents() == old(at.m.Contents()) - {at.t}
  {
    var m, t := at.m, at.t;
    var c, c0 := m.Contents(), old(m.Contents());
    var w := if t in m.events then c0[t := m.events[t].Contents] else c0 - {t};
    assert c.Keys == w.Keys;
    forall t' | t' in c ensures c[t'] == w[t'] {
      if t' != t {
        assert c[t'] == m.events[t'].Contents;
      }
    }
  }

  /** After an operation on the group of `at.t` that touched only that
      group's objects (or new ones) and the bus, the manager is valid again
      and shows the group's new contents. */
  twostate lemma GroupChangedInPlace(at: Filing)
    requires old(at.m.Valid()) && at.t in old(at.m.events)
    requires at.m.events == old(at.m.events)
    requires at.m.events[at.t].Valid() && fresh(at.m.events[at.t].Repr - old(at.m.events[at.t].Repr))
    requires forall t' | t' in old(at.m.events) && t' != at.t :: unchanged(old(at.m.events[t'].Repr))
    requires at.m.enabled ==> at.m.bus.live == Subscriptions(old(at.m.Contents())[at.t := at.m.events[at.t].Contents])
    ensures at.m.Contents() == old(at.m.Contents())[at.t := at.m.events[at.t].Contents]
    ensures fresh(at.m.Repr() - old(at.m.Repr()))
    ensures at.m.Valid()
  {
    var m, t := at.m, at.t;
    var g := m.events[t];
    OtherGroupsUntouched(at);
    ContentsFollowGroups(at);
    forall t1, t2 | t1 in m.events && t2 in m.events && t1 != t2 ensures m.events[t1].Repr !! m.events[t2].Repr {
      if t1 == t {
        assert old(m.events[t2].Repr) !! old(g.Repr);
      } else if t2 == t {
        assert old(m.events[t1].Repr) !! old(g.Repr);
      }
    }
    forall o | o in m.Repr() && old(allocated(o)) ensures o in old(m.Repr()) {
      if o != m && o != m.bus {
        var t' :| t' in m.events && o in m.events[t'].Repr;
        assert o in old(m.events[t'].Repr);
      }
    }
  }

  /** When the changed group kept its footprint, so does the manager. */
  twostate lemma FootprintKept(at: Filing)
    requires old(at.m.Valid()) && at.t in old(at.m.events)
    requires at.m.events == old(at.m.events)
    requires at.m.events[at.t].Repr == old(at.m.events[at.t].Repr)
    requires forall t' | t' in old(at.m.events) && t' != at.t :: unchanged(old(at.m.events[t'].Repr))
    ensures at.m.Repr() == old(at.m.Repr())
  {
    var m := at.m;
    OtherGroupsUntouched(at);
    forall o | o in m.Repr() ensures o in old(m.Repr()) {
      if o != m && o != m.bus {
        var t' :| t' in m.events && o in m.events[t'].Repr;
        assert o in old(m.events[t'].Repr);
      }
    }
    forall o | o in old(m.Repr()) ensures o in m.Repr() {
      if o != m && o != m.bus {
        var t' :| t' in old(m.events) && o in old(m.events[t'].Repr);
        assert o in m.events[t'].Repr;
      }
    }
  }

  /** After a new, empty group of `at.t` is filed, the manager is valid
      again and shows an empty group for `at.t`. */
  twostate lemma GroupCreated(at: Filing)
    requires old(at.m.Valid()) && at.t !in old(at.m.events)
    requires at.t in at.m.events && at.m.events == old(at.m.events)[at.t := at.m.events[at.t]]
    requires fresh(at.m.events[at.t].Repr)
    requires at.m.events[at.t].Valid() && at.m.events[at.t].Contents == map[]
    requires at.m.events[at.t].eventType == at.t && at.m.events[at.t].bus == at.m.bus
    requires at.m.enabled == old(at.m.enabled) && at.m.bus.live == old(at.m.bus.live)
    requires forall t' | t' in old(at.m.events) :: unchanged(old(at.m.events[t'].Repr))
    ensures at.m.Contents() == old(at.m.Contents())[at.t := map[]]
    ensures fresh(at.m.Repr() - old(at.m.Repr()))
    ensures at.m.Valid()
  {
    OtherGroupsUntouched(at);
    ContentsFollowGroups(at);
    NewGroupFootprint(at);
    EmptyGroupSubscriptions(old(at.m.Contents()), at.t);
  }

  /** Filing a new group adds only that group's (new) objects to the
      manager's footprint. */
  twostate lemma NewGroupFootprint(at: Filing)
    requires at.t in at.m.events && at.m.events == old(at.m.events)[at.t := at.m.events[at.t]]
    requires fresh(at.m.events[at.t].Repr)
    requires forall t' | t' in at.m.events && t' != at.t :: at.m.events[t'].Repr == old(at.m.events[t'].Repr)
    ensures fresh(at.m.Repr() - old(at.m.Repr()))
  {
    var m, t := at.m, at.t;
    forall o | o in m.Repr() && o !in m.events[t].Repr ensures o in old(m.Repr()) {
      if o != m && o != m.bus {
        var t' :| t' in m.events && o in m.events[t'].Repr;
        assert o in old(m.events[t'].Repr);
      }
    }
  }

  /** After the group of `at.t` is taken out of the manager (and torn down),
      the manager is valid again and shows no group for `at.t`. */
  twostate lemma GroupRemoved(at: Filing)
    requires old(at.m.Valid()) && at.t in old(at.m.events)
    requires at.m.events == old(at.m.events) - {at.t}
    requires forall t' | t' in old(at.m.events) && t' != at.t :: unchanged(old(at.m.events[t'].Repr))
    requires at.m.enabled ==> at.m.bus.live == Subscriptions(RemoveType(old(at.m.Contents()), at.t))
    ensures at.m.Contents() == RemoveType(old(at.m.Contents()), at.t)
    ensures fresh(at.m.Repr() - old(at.m.Repr()))
    ensures at.m.Valid()
  {
    var m, t := at.m, at.t;
    OtherGroupsUntouched(at);
    ContentsFollowGroups(at);
    forall o | o in m.Repr() ensures o in old(m.Repr()) {
      if o != m && o != m.bus {
        var t' :| t' in m.events && o in m.events[t'].Repr;
        assert o in old(m.events[t'].Repr);
      }
    }
  }
}
