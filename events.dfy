/** Identities and constants shared by the event manager model.

    Owners, consumers, plugins and event classes are opaque identities in the
    Java code (any object, a lambda, a Plugin, a Class); here they are values
    compared by equality. */
module Events {

  /** The key a consumer is registered under. `Internal` is the manager's
      private sentinel object (`INTERNAL_LISTENER`); every other object a
      client may pass is some `Client`. */
  datatype Owner = Internal | Client(id: nat)

  /** A registered `Consumer<E>`. `DisableHook` is the lambda the manager
      registers for itself under `Internal`. */
  datatype Consumer = DisableHook | Callback(id: nat)

  datatype Plugin = Plugin(id: nat)

  /** An event class. `PluginDisableEventClass` is Bukkit's
      `PluginDisableEvent.class`. */
  datatype EventType = PluginDisableEventClass | EventClass(id: nat)

  /** A concrete event object; its exact runtime class is `TypeOf(e)`. */
  datatype Event = PluginDisableEvent(plugin: Plugin) | CustomEvent(classId: nat)

  function TypeOf(e: Event): (t: EventType)
    ensures t == PluginDisableEventClass <==> e.PluginDisableEvent?
  {
    match e
    case PluginDisableEvent(_) => PluginDisableEventClass
    case CustomEvent(id) => EventClass(id)
  }

  /** Bukkit's `EventPriority`, in the order `EventPriority.values()` lists it. */
  datatype Priority = Lowest | Low | Normal | High | Highest | Monitor

  /** `EventPriority.getSlot()`: the slot of each priority in a group's array. */
  function Slot(p: Priority): nat
  {
    match p
    case Lowest => 0
    case Low => 1
    case Normal => 2
    case High => 3
    case Highest => 4
    case Monitor => 5
  }

  /** `EventPriority.values()`. */
  const AllPriorities: seq<Priority> := [Lowest, Low, Normal, High, Highest, Monitor]

  /** The length of every group's array: the largest slot plus one. */
  const PRIORITIES: nat := 6

  /** The static initialiser of `EventManager`: scan every priority and keep
      the largest slot; the array length is that slot plus one. */
  method ComputePriorities() returns (n: nat)
    ensures forall p: Priority :: Slot(p) < n
    ensures exists p: Priority :: Slot(p) + 1 == n
    ensures n == PRIORITIES
  {
    var max := 0;
    var i := 0;
    while i < |AllPriorities|
      invariant 0 <= i <= |AllPriorities|
      invariant forall k :: 0 <= k < i ==> Slot(AllPriorities[k]) <= max
      invariant max == 0 || exists k :: 0 <= k < i && Slot(AllPriorities[k]) == max
    {
      if max < Slot(AllPriorities[i]) {
        max := Slot(AllPriorities[i]);
      }
      i := i + 1;
    }
    n := max + 1;
    forall p: Priority ensures Slot(p) < n {
      assert AllPriorities[Slot(p)] == p;
    }
    assert Slot(Monitor) + 1 == n;
  }

  /** How a public operation of the manager ends: normally, or with the
      `IllegalStateException` / `IllegalArgumentException` it throws. */
  datatype Status = Ok | IllegalState | IllegalArgument

  /** One subscription on the host bus: an event class at a priority slot. */
  datatype Sub = Sub(eventType: EventType, slot: nat)

  /** No element of `s` occurs twice. */
  predicate Distinct<T(==)>(s: seq<T>)
  {
    forall i, j :: 0 <= i < j < |s| ==> s[i] != s[j]
  }

  /** A loop that visits the elements of `all` one at a time, `todo` being
      those still to visit, lists each visited element once in `order`. */
  lemma EnumerationStep<T>(order: seq<T>, all: set<T>, todo: set<T>, x: T)
    requires Distinct(order) && todo <= all && x in todo
    requires forall y :: y in order <==> y in all && y !in todo
    ensures Distinct(order + [x])
    ensures forall y :: y in order + [x] <==> y in all && y !in todo - {x}
  {
  }

  /** A bucket's `map`: each owner's consumers in registration order. */
  type Registrations = map<Owner, seq<Consumer>>

  /** The consumers `o` has in `m`; an absent key has none. */
  function Consumers(m: Registrations, o: Owner): seq<Consumer>
  {
    if o in m then m[o] else []
  }
}
