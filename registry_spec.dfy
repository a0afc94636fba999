/** The registry as a value: what `EventManager.events` holds once every
    group's array and every bucket's map is read out. The classes in
    event_manager.dfy are proved against these functions; the lemmas here
    state what the operations promise about the registry as a whole. */
module RegistrySpec {
  import opened Events

  /** One group: for each slot that has a bucket, that bucket's map. A slot
      that is null in the array is absent here. */
  type GroupView = map<nat, Registrations>

  /** `events`: each registered event class and its group. */
  type RegistryView = map<EventType, GroupView>

  /** Whether the bucket for (t, s) exists. */
  predicate HasBucket(v: RegistryView, t: EventType, s: nat)
  {
    t in v && s in v[t]
  }

  /** The consumers owner `o` has in bucket (t, s), in registration order. */
  function Lookup(v: RegistryView, t: EventType, s: nat, o: Owner): seq<Consumer>
  {
    if HasBucket(v, t, s) then Consumers(v[t][s], o) else []
  }

  /** The host-bus subscriptions the registry's buckets own: one per bucket. */
  function Subscriptions(v: RegistryView): set<Sub>
  {
    set t, s | t in v && s in v[t] :: Sub(t, s)
  }

  /** The subscriptions owned by the buckets of one group of class `t`. */
  function GroupSubscriptions(t: EventType, g: GroupView): set<Sub>
  {
    set s | s in g :: Sub(t, s)
  }

  /** The subscriptions of the buckets of `g` below slot `i`. */
  function SlotsBelow(t: EventType, g: GroupView, i: nat): set<Sub>
  {
    set s | s in g && s < i :: Sub(t, s)
  }

  lemma SlotsBelowStep(t: EventType, g: GroupView, i: nat)
    ensures Sub(t, i) !in SlotsBelow(t, g, i)
    ensures SlotsBelow(t, g, i + 1) == SlotsBelow(t, g, i) + (if i in g then {Sub(t, i)} else {})
  {
  }

  lemma SlotsBelowAll(t: EventType, g: GroupView, n: nat)
    requires forall s :: s in g ==> s < n
    ensures SlotsBelow(t, g, n) == GroupSubscriptions(t, g)
  {
  }

  /** The subscriptions owned by the buckets of one event class. */
  function TypeSubscriptions(v: RegistryView, t: EventType): set<Sub>
  {
    if t in v then GroupSubscriptions(t, v[t]) else {}
  }

  lemma InGroupSubscriptions(t: EventType, g: GroupView, x: Sub)
    ensures x in GroupSubscriptions(t, g) <==> x.eventType == t && x.slot in g
  {
    if x.eventType == t && x.slot in g {
      assert Sub(t, x.slot) == x;
    }
  }

  lemma InSubscriptions(v: RegistryView, x: Sub)
    ensures x in Subscriptions(v) <==> HasBucket(v, x.eventType, x.slot)
    ensures x in TypeSubscriptions(v, x.eventType) <==> HasBucket(v, x.eventType, x.slot)
  {
    if HasBucket(v, x.eventType, x.slot) {
      assert Sub(x.eventType, x.slot) == x;
    }
  }

  /** Subscriptions depend only on which buckets exist, not on their maps. */
  lemma SameBucketsSameSubscriptions(v: RegistryView, w: RegistryView)
    requires forall t, s :: HasBucket(v, t, s) <==> HasBucket(w, t, s)
    ensures Subscriptions(v) == Subscriptions(w)
  {
    forall x | x in Subscriptions(v) ensures x in Subscriptions(w) {
      InSubscriptions(v, x);
      InSubscriptions(w, x);
    }
    forall x | x in Subscriptions(w) ensures x in Subscriptions(v) {
      InSubscriptions(v, x);
      InSubscriptions(w, x);
    }
  }

  /** Replacing a group by one with the same slots keeps the subscriptions. */
  lemma SameSlotsSameSubscriptions(v: RegistryView, t: EventType, g: GroupView)
    requires t in v && g.Keys == v[t].Keys
    ensures Subscriptions(v[t := g]) == Subscriptions(v)
  {
    SameBucketsSameSubscriptions(v[t := g], v);
  }

  /** A group without buckets owns no subscription. */
  lemma EmptyGroupSubscriptions(v: RegistryView, t: EventType)
    ensures Subscriptions(v[t := map[]]) == Subscriptions(v) - TypeSubscriptions(v, t)
  {
    var r := v[t := map[]];
    forall x ensures x in Subscriptions(r) <==> x in Subscriptions(v) - TypeSubscriptions(v, t) {
      InSubscriptions(r, x);
      InSubscriptions(v, x);
    }
  }

  /** `disable()` part way through its loop: the groups of the classes not in
      `todo` have already been torn down. */
  function ReleasedExcept(v: RegistryView, todo: set<EventType>): RegistryView
  {
    map t | t in v :: if t in todo then v[t] else map[]
  }

  lemma ReleasedExceptStep(v: RegistryView, todo: set<EventType>, t: EventType)
    requires t in todo && t in v
    ensures ReleasedExcept(v, todo)[t := map[]] == ReleasedExcept(v, todo - {t})
  {
  }

  lemma ReleasedExceptStart(v: RegistryView)
    ensures ReleasedExcept(v, v.Keys) == v
  {
  }

  // ----- the release log -----

  /** The releases that tearing down group `g` of class `t` logs, in slot
      order, for the slots below `i`: one per bucket. */
  function SlotsLog(t: EventType, g: GroupView, i: nat): seq<Sub>
  {
    if i == 0 then []
    else SlotsLog(t, g, i - 1) + (if i - 1 in g then [Sub(t, i - 1)] else [])
  }

  /** One more slot torn down, after the releases `r` logged before. */
  lemma SlotsLogStep(r: seq<Sub>, t: EventType, g: GroupView, i: nat)
    ensures i in g ==> r + SlotsLog(t, g, i + 1) == r + SlotsLog(t, g, i) + [Sub(t, i)]
    ensures i !in g ==> r + SlotsLog(t, g, i + 1) == r + SlotsLog(t, g, i)
  {
  }

  /** Tearing down a group releases each of its buckets' subscriptions
      exactly once, and nothing else. */
  lemma {:induction false} SlotsLogOnce(t: EventType, g: GroupView, i: nat)
    ensures Distinct(SlotsLog(t, g, i))
    ensures forall x :: x in SlotsLog(t, g, i) <==> x in SlotsBelow(t, g, i)
  {
    if i > 0 {
      var log := SlotsLog(t, g, i - 1);
      SlotsLogOnce(t, g, i - 1);
      SlotsBelowStep(t, g, i - 1);
      assert Sub(t, i - 1) !in log;
      forall x ensures x in SlotsLog(t, g, i) <==> x in SlotsBelow(t, g, i) {
        assert x in SlotsLog(t, g, i) <==> x in log || (i - 1 in g && x == Sub(t, i - 1));
      }
    }
  }

  /** The releases `unregisterBukkitListener` logs for the group of `t`. */
  function TypeLog(v: RegistryView, t: EventType): seq<Sub>
  {
    if t in v then SlotsLog(t, v[t], PRIORITIES) else []
  }

  /** Removing a class releases each of its subscriptions exactly once. */
  lemma TypeLogOnce(v: RegistryView, t: EventType)
    requires t in v ==> forall s | s in v[t] :: s < PRIORITIES
    ensures Distinct(TypeLog(v, t))
    ensures forall x :: x in TypeLog(v, t) <==> x in TypeSubscriptions(v, t)
  {
    if t in v {
      SlotsLogOnce(t, v[t], PRIORITIES);
      SlotsBelowAll(t, v[t], PRIORITIES);
    }
  }

  /** The releases of tearing down the groups of `order`, one group after
      the other. */
  function RegistryLog(v: RegistryView, order: seq<EventType>): seq<Sub>
  {
    if order == [] then []
    else RegistryLog(v, order[..|order| - 1]) + TypeLog(v, order[|order| - 1])
  }

  /** One more group torn down, after the releases `r` logged before. */
  lemma RegistryLogSnoc(r: seq<Sub>, v: RegistryView, order: seq<EventType>, t: EventType)
    ensures r + RegistryLog(v, order + [t]) == r + RegistryLog(v, order) + TypeLog(v, t)
  {
    assert (order + [t])[..|order|] == order;
  }

  /** Tearing down every group, in any order, releases each subscription of
      the registry exactly once, and nothing else. */
  lemma {:induction false} RegistryLogOnce(v: RegistryView, order: seq<EventType>)
    requires Distinct(order)
    requires forall t, s | t in v && s in v[t] :: s < PRIORITIES
    ensures Distinct(RegistryLog(v, order))
    ensures forall x :: x in RegistryLog(v, order) <==> x in Subscriptions(v) && x.eventType in order
    decreases |order|
  {
    if order != [] {
      var order', t := order[..|order| - 1], order[|order| - 1];
      var log, tail := RegistryLog(v, order'), TypeLog(v, t);
      RegistryLogOnce(v, order');
      TypeLogOnce(v, t);
      assert t !in order' by {
        forall i | 0 <= i < |order'| ensures order'[i] != t {
          assert order[i] != order[|order| - 1];
        }
      }
      forall x | x in tail ensures x.eventType == t && x in Subscriptions(v) {
        InSubscriptions(v, x);
      }
      forall x ensures x in log + tail <==> x in Subscriptions(v) && x.eventType in order {
        InSubscriptions(v, x);
        assert x.eventType in order <==> x.eventType in order' || x.eventType == t;
      }
      forall i, j | 0 <= i < j < |log + tail| ensures (log + tail)[i] != (log + tail)[j] {
        if i < |log| && j >= |log| {
          assert (log + tail)[i] in log && (log + tail)[j] in tail;
        }
      }
    }
  }

  /** `disable()` tears a group down as it was when the loop began. */
  lemma ReleasedExceptLog(v: RegistryView, todo: set<EventType>, t: EventType)
    requires t in todo
    ensures TypeLog(ReleasedExcept(v, todo), t) == TypeLog(v, t)
  {
  }

  /** A registry whose groups have no buckets owns no subscription. */
  lemma NoBucketsNoSubscriptions(v: RegistryView)
    requires forall t | t in v :: v[t] == map[]
    ensures Subscriptions(v) == {}
  {
    forall x | x in Subscriptions(v) ensures false {
      InSubscriptions(v, x);
    }
  }

  // ----- register -----

  /** `EventListener.register`: `c` appended to the owner's list. */
  function AddToBucket(m: Registrations, o: Owner, c: Consumer): Registrations
  {
    m[o := Consumers(m, o) + [c]]
  }

  /** `register(owner, t, p, c)` once the state checks pass: create the group
      and the bucket if absent, then append `c` to the owner's list. */
  function AddTo(v: RegistryView, o: Owner, t: EventType, s: nat, c: Consumer): RegistryView
  {
    var g := if t in v then v[t] else map[];
    var m := if s in g then g[s] else map[];
    v[t := g[s := AddToBucket(m, o, c)]]
  }

  /** A registration appends `c` to exactly one list, that of `o` in bucket
      (t, s); it adds the bucket (t, s) and the group `t` if absent and
      nothing else. */
  lemma AddToLookup(v: RegistryView, o: Owner, t: EventType, s: nat, c: Consumer)
    ensures Lookup(AddTo(v, o, t, s, c), t, s, o) == Lookup(v, t, s, o) + [c]
    ensures forall t', s': nat, o' :: (t', s', o') != (t, s, o) ==>
              Lookup(AddTo(v, o, t, s, c), t', s', o') == Lookup(v, t', s', o')
    ensures forall t', s': nat :: HasBucket(AddTo(v, o, t, s, c), t', s') <==> HasBucket(v, t', s') || (t', s') == (t, s)
    ensures AddTo(v, o, t, s, c).Keys == v.Keys + {t}
  {
  }

  /** Filing an empty group first does not change what a registration
      yields: `computeIfAbsent` followed by `register`. */
  lemma AddToEmptyGroup(v: RegistryView, o: Owner, t: EventType, s: nat, c: Consumer)
    requires t !in v
    ensures AddTo(v[t := map[]], o, t, s, c) == AddTo(v, o, t, s, c)
  {
  }

  /** Registering opens a subscription only for a bucket that did not exist:
      at most one subscription per (type, slot). */
  lemma AddToSubscriptions(v: RegistryView, o: Owner, t: EventType, s: nat, c: Consumer)
    ensures Subscriptions(AddTo(v, o, t, s, c)) == Subscriptions(v) + {Sub(t, s)}
    ensures HasBucket(v, t, s) ==> Subscriptions(AddTo(v, o, t, s, c)) == Subscriptions(v)
  {
    var r := AddTo(v, o, t, s, c);
    forall x ensures x in Subscriptions(r) <==> x in Subscriptions(v) + {Sub(t, s)} {
      InSubscriptions(r, x);
      InSubscriptions(v, x);
    }
  }

  // ----- unregister(owner) -----

  function RemoveOwnerGroup(g: GroupView, o: Owner): (r: GroupView)
    ensures r.Keys == g.Keys
  {
    map s | s in g :: g[s] - {o}
  }

  /** `unregister(owner)` before the hook is re-added: drop the owner's key
      from every bucket of every class; buckets stay. */
  function RemoveOwner(v: RegistryView, o: Owner): RegistryView
  {
    map t | t in v :: RemoveOwnerGroup(v[t], o)
  }

  /** `unregister(owner)` part way through its loop: the classes in `todo`
      are still untouched. */
  function RemoveOwnerExcept(v: RegistryView, o: Owner, todo: set<EventType>): RegistryView
  {
    map t | t in v :: if t in todo then v[t] else RemoveOwnerGroup(v[t], o)
  }

  /** One more class done; with none left the loop has done `RemoveOwner`. */
  lemma RemoveOwnerExceptStep(v: RegistryView, o: Owner, todo: set<EventType>, t: EventType)
    requires t in todo && t in v
    ensures RemoveOwnerExcept(v, o, todo)[t := RemoveOwnerGroup(v[t], o)] == RemoveOwnerExcept(v, o, todo - {t})
  {
  }

  lemma RemoveOwnerExceptEnds(v: RegistryView, o: Owner)
    ensures RemoveOwnerExcept(v, o, v.Keys) == v
    ensures RemoveOwnerExcept(v, o, {}) == RemoveOwner(v, o)
  {
  }

  /** Unregistering empties exactly the owner's lists and keeps every
      bucket and group. */
  lemma RemoveOwnerLookup(v: RegistryView, o: Owner)
    ensures forall t, s, o' :: Lookup(RemoveOwner(v, o), t, s, o') == if o' == o then [] else Lookup(v, t, s, o')
    ensures forall t, s :: HasBucket(RemoveOwner(v, o), t, s) <==> HasBucket(v, t, s)
    ensures RemoveOwner(v, o).Keys == v.Keys
  {
  }

  lemma RemoveOwnerKeepsSubscriptions(v: RegistryView, o: Owner)
    ensures Subscriptions(RemoveOwner(v, o)) == Subscriptions(v)
  {
    SameBucketsSameSubscriptions(RemoveOwner(v, o), v);
  }

  /** Unregistering twice is unregistering once. */
  lemma RemoveOwnerIdempotent(v: RegistryView, o: Owner)
    ensures RemoveOwner(RemoveOwner(v, o), o) == RemoveOwner(v, o)
  {
    var w := RemoveOwner(v, o);
    var ww := RemoveOwner(w, o);
    forall t | t in w ensures ww[t] == w[t] {
      forall s | s in w[t] ensures ww[t][s] == w[t][s] {
        assert ww[t][s] == w[t][s] - {o};
        assert o !in w[t][s];
      }
    }
  }

  /** Unregistering an owner undoes every registration it made: afterwards
      every bucket holds what it would hold had the owner never registered. */
  lemma RemoveOwnerUndoesAddTo(v: RegistryView, o: Owner, t: EventType, s: nat, c: Consumer,
                               t': EventType, s': nat, o': Owner)
    ensures Lookup(RemoveOwner(AddTo(v, o, t, s, c), o), t', s', o')
         == Lookup(RemoveOwner(v, o), t', s', o')
  {
    if o' != o && (t', s', o') != (t, s, o) {
      assert Lookup(AddTo(v, o, t, s, c), t', s', o') == Lookup(v, t', s', o');
    }
  }

  // ----- clearEventListener(type) -----

  function ClearGroup(g: GroupView): (r: GroupView)
    ensures r.Keys == g.Keys
  {
    map s | s in g :: map[]
  }

  /** `clearEventListener(t)` before the hook is re-added: every bucket of
      `t` loses all its owners; the buckets stay. Absent `t`: no change. */
  function ClearType(v: RegistryView, t: EventType): RegistryView
  {
    if t in v then v[t := ClearGroup(v[t])] else v
  }

  /** Clearing a class empties every list of that class, keeps its buckets
      and leaves every other class alone. */
  lemma ClearTypeLookup(v: RegistryView, t: EventType)
    ensures forall s, o :: Lookup(ClearType(v, t), t, s, o) == []
    ensures forall t', s, o :: t' != t ==> Lookup(ClearType(v, t), t', s, o) == Lookup(v, t', s, o)
    ensures forall t', s :: HasBucket(ClearType(v, t), t', s) <==> HasBucket(v, t', s)
  {
  }

  lemma ClearTypeKeepsSubscriptions(v: RegistryView, t: EventType)
    ensures Subscriptions(ClearType(v, t)) == Subscriptions(v)
  {
    SameBucketsSameSubscriptions(ClearType(v, t), v);
  }

  /** After a clear, registering to an existing bucket again does not open a
      second subscription: the bucket and its subscription are reused. */
  lemma ClearThenRegisterReusesSubscription(v: RegistryView, t: EventType, s: nat, o: Owner, c: Consumer)
    requires HasBucket(v, t, s)
    ensures Subscriptions(AddTo(ClearType(v, t), o, t, s, c)) == Subscriptions(v)
    ensures Lookup(AddTo(ClearType(v, t), o, t, s, c), t, s, o) == [c]
  {
    ClearTypeKeepsSubscriptions(v, t);
    AddToSubscriptions(ClearType(v, t), o, t, s, c);
  }

  // ----- unregisterEvent(type) -----

  /** `unregisterEvent(t)` before the hook is re-added: the class's group is
      gone together with its buckets. */
  function RemoveType(v: RegistryView, t: EventType): RegistryView
  {
    v - {t}
  }

  /** Removing a class drops its buckets and leaves every other class
      alone. */
  lemma RemoveTypeLookup(v: RegistryView, t: EventType)
    ensures forall s: nat :: !HasBucket(RemoveType(v, t), t, s)
    ensures forall s: nat, o :: Lookup(RemoveType(v, t), t, s, o) == []
    ensures forall t', s: nat :: t' != t ==> HasBucket(RemoveType(v, t), t', s) == HasBucket(v, t', s)
    ensures forall t', s: nat, o :: t' != t ==> Lookup(RemoveType(v, t), t', s, o) == Lookup(v, t', s, o)
    ensures RemoveType(v, t).Keys == v.Keys - {t}
  {
  }

  /** Removing a class releases exactly that class's subscriptions. */
  lemma RemoveTypeSubscriptions(v: RegistryView, t: EventType)
    ensures TypeSubscriptions(v, t) <= Subscriptions(v)
    ensures Subscriptions(RemoveType(v, t)) == Subscriptions(v) - TypeSubscriptions(v, t)
  {
    var r := RemoveType(v, t);
    forall x ensures x in Subscriptions(r) <==> x in Subscriptions(v) - TypeSubscriptions(v, t) {
      InSubscriptions(r, x);
      InSubscriptions(v, x);
    }
    forall x | x in TypeSubscriptions(v, t) ensures x in Subscriptions(v) {
      InSubscriptions(v, x);
    }
  }

  /** A registration after the class was removed builds a fresh group whose
      single bucket opens a new subscription. */
  lemma RemoveThenRegisterResubscribes(v: RegistryView, t: EventType, s: nat, o: Owner, c: Consumer)
    ensures Sub(t, s) !in Subscriptions(RemoveType(v, t))
    ensures Subscriptions(AddTo(RemoveType(v, t), o, t, s, c)) == Subscriptions(RemoveType(v, t)) + {Sub(t, s)}
    ensures TypeSubscriptions(AddTo(RemoveType(v, t), o, t, s, c), t) == {Sub(t, s)}
    ensures Lookup(AddTo(RemoveType(v, t), o, t, s, c), t, s, o) == [c]
  {
    var w := RemoveType(v, t);
    var r := AddTo(w, o, t, s, c);
    InSubscriptions(w, Sub(t, s));
    AddToSubscriptions(w, o, t, s, c);
    forall x ensures x in TypeSubscriptions(r, t) <==> x == Sub(t, s) {
      InSubscriptions(r, x);
    }
  }

  // ----- the plugin-disable hook -----

  /** `registerPluginDisableEvent()` once the state checks pass. */
  function AddHook(v: RegistryView): RegistryView
  {
    AddTo(v, Internal, PluginDisableEventClass, Slot(Monitor), DisableHook)
  }

  /** The sentinel owns exactly one consumer, the hook, in the MONITOR bucket
      of `PluginDisableEvent`. */
  predicate HookInstalled(v: RegistryView)
  {
    Lookup(v, PluginDisableEventClass, Slot(Monitor), Internal) == [DisableHook]
  }

  /** What `unregister(o)` leaves: the owner removed everywhere, then the hook
      re-added when `o` is the sentinel and the plugin is still enabled (the
      re-registration goes through `register`, which checks the plugin). */
  function AfterUnregister(v: RegistryView, o: Owner, pluginEnabled: bool): RegistryView
  {
    var w := RemoveOwner(v, o);
    if o == Internal && pluginEnabled then AddHook(w) else w
  }

  /** What `clearEventListener(t)` leaves. */
  function AfterClear(v: RegistryView, t: EventType, pluginEnabled: bool): RegistryView
  {
    if t !in v then v
    else
      var w := ClearType(v, t);
      if t == PluginDisableEventClass && pluginEnabled then AddHook(w) else w
  }

  /** What `unregisterEvent(t)` leaves. */
  function AfterRemove(v: RegistryView, t: EventType, pluginEnabled: bool): RegistryView
  {
    if t !in v then v
    else
      var w := RemoveType(v, t);
      if t == PluginDisableEventClass && pluginEnabled then AddHook(w) else w
  }

  /** A client registration never disturbs the hook. */
  lemma RegisterKeepsHook(v: RegistryView, o: Owner, t: EventType, s: nat, c: Consumer)
    requires HookInstalled(v)
    requires o != Internal
    ensures HookInstalled(AddTo(v, o, t, s, c))
  {
    assert (PluginDisableEventClass, Slot(Monitor), Internal) != (t, s, o);
  }

  /** `unregister` of a client never disturbs the hook, and while the plugin
      is enabled neither does `unregister` of the sentinel; for the sentinel
      itself the hook survives exactly when the plugin is enabled. */
  lemma UnregisterKeepsHook(v: RegistryView, o: Owner, pluginEnabled: bool)
    requires HookInstalled(v)
    ensures pluginEnabled ==> HookInstalled(AfterUnregister(v, o, pluginEnabled))
    ensures o != Internal ==> HookInstalled(AfterUnregister(v, o, pluginEnabled))
    ensures o == Internal ==> (HookInstalled(AfterUnregister(v, o, pluginEnabled)) <==> pluginEnabled)
  {
    var w := RemoveOwner(v, o);
    if o == Internal {
      assert Lookup(w, PluginDisableEventClass, Slot(Monitor), Internal) == [];
      if pluginEnabled {
        assert Lookup(AddHook(w), PluginDisableEventClass, Slot(Monitor), Internal) == [] + [DisableHook];
      }
    } else {
      assert Lookup(w, PluginDisableEventClass, Slot(Monitor), Internal)
          == Lookup(v, PluginDisableEventClass, Slot(Monitor), Internal);
    }
  }

  /** `clearEventListener` keeps the hook while the plugin is enabled; when
      it clears `PluginDisableEvent` the hook survives exactly then. */
  lemma ClearKeepsHook(v: RegistryView, t: EventType, pluginEnabled: bool)
    requires HookInstalled(v)
    ensures pluginEnabled ==> HookInstalled(AfterClear(v, t, pluginEnabled))
    ensures t == PluginDisableEventClass ==> (HookInstalled(AfterClear(v, t, pluginEnabled)) <==> pluginEnabled)
  {
    assert t == PluginDisableEventClass ==> t in v;
    if t in v {
      var w := ClearType(v, t);
      if t == PluginDisableEventClass {
        assert Lookup(w, PluginDisableEventClass, Slot(Monitor), Internal) == [];
        if pluginEnabled {
          assert Lookup(AddHook(w), PluginDisableEventClass, Slot(Monitor), Internal) == [] + [DisableHook];
        }
      } else {
        assert Lookup(w, PluginDisableEventClass, Slot(Monitor), Internal)
            == Lookup(v, PluginDisableEventClass, Slot(Monitor), Internal);
      }
    }
  }

  /** `unregisterEvent` keeps the hook while the plugin is enabled; when it
      removes `PluginDisableEvent` the hook survives exactly then. */
  lemma RemoveKeepsHook(v: RegistryView, t: EventType, pluginEnabled: bool)
    requires HookInstalled(v)
    ensures pluginEnabled ==> HookInstalled(AfterRemove(v, t, pluginEnabled))
    ensures t == PluginDisableEventClass ==> (HookInstalled(AfterRemove(v, t, pluginEnabled)) <==> pluginEnabled)
  {
    assert t == PluginDisableEventClass ==> t in v;
    if t in v {
      var w := RemoveType(v, t);
      if t == PluginDisableEventClass {
        assert Lookup(w, PluginDisableEventClass, Slot(Monitor), Internal) == [];
        if pluginEnabled {
          assert Lookup(AddHook(w), PluginDisableEventClass, Slot(Monitor), Internal) == [] + [DisableHook];
        }
      } else {
        assert Lookup(w, PluginDisableEventClass, Slot(Monitor), Internal)
            == Lookup(v, PluginDisableEventClass, Slot(Monitor), Internal);
      }
    }
  }
}
