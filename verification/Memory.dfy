/** Buffers, where they are, and who must free them. */
module Memory {
  import opened Fhn
  import opened Sets
  import opened MovementPlan

  type Handle = nat

  datatype Place = Device | Host

  datatype Buffer<V> = Buffer(value: V, place: Place)

  /** Two inputs may be the same buffer only if it is neither released nor evicted by the plan. */
  ghost predicate Shareable(c: Config, x: Id) {
    x in c.p.inputs && x in c.pinned && c.budget == 0
  }

  ghost predicate Sharing(c: Config, table: map<Id, Handle>) {
    forall x, y :: x in table && y in table && x != y && table[x] == table[y] ==> Shareable(c, x) && Shareable(c, y)
  }

  /** The buffer table holds exactly the live ids; their buffers exist, hold the values computed so far
      and, where the plan says so, are on the device. Without movement hooks everything is. */
  ghost predicate Holds<V>(
      c: Config, moves: bool, heap: map<Handle, Buffer<V>>, table: map<Id, Handle>,
      live: set<Id>, onDevice: set<Id>, vals: map<Id, V>)
  {
    && table.Keys == live
    && (forall x :: x in table ==> table[x] in heap)
    && (forall x :: x in table && x in vals ==> heap[table[x]].value == vals[x])
    && (forall x :: x in table && (x in onDevice || !moves) ==> heap[table[x]].place == Device)
    && onDevice <= live
    && Sharing(c, table)
  }

  function HandlesOf(table: map<Id, Handle>, ids: set<Id>): set<Handle> {
    set x | x in ids && x in table :: table[x]
  }

  /** Each input that still has its buffer finds there the value it came with. */
  ghost predicate KeepsInputs<V>(
      c: Config, heap0: map<Handle, Buffer<V>>, table0: map<Id, Handle>,
      heap: map<Handle, Buffer<V>>, table: map<Id, Handle>)
  {
    forall x :: x in table && x in SetOf(c.p.inputs) ==>
      x in table0 && table[x] == table0[x] && SameValue(heap0, heap, table[x])
  }

  ghost predicate SameValue<V>(heap0: map<Handle, Buffer<V>>, heap: map<Handle, Buffer<V>>, h: Handle) {
    h in heap0 && h in heap && heap[h].value == heap0[h].value
  }

  /** `owned` lists the buffers the plan allocated and has not freed; of the caller's buffers only unpinned
      inputs that are no longer live are gone, and the others hold what they did. */
  ghost predicate Owns<V>(
      c: Config, heap0: map<Handle, Buffer<V>>, table0: map<Id, Handle>,
      heap: map<Handle, Buffer<V>>, table: map<Id, Handle>, owned: seq<Id>)
  {
    var inputs := SetOf(c.p.inputs);
    && NoDup(owned)
    && SetOf(owned) == table.Keys - inputs
    && (forall x :: x in owned && x in table ==> table[x] !in heap0.Keys - HandlesOf(table0, inputs - table.Keys))
    && KeepsInputs(c, heap0, table0, heap, table)
    && inputs - table.Keys !! c.pinned
    && heap.Keys == heap0.Keys - HandlesOf(table0, inputs - table.Keys) + HandlesOf(table, SetOf(owned))
    && (forall h :: h in heap0 && h !in table0.Values ==> h in heap && heap[h] == heap0[h])
  }

  // ----- what each action does to the invariant -----

  /** Moving one buffer between host and device keeps every value. */
  lemma {:induction false} MoveHolds<V>(
      c: Config, moves: bool, heap: map<Handle, Buffer<V>>, table: map<Id, Handle>,
      live: set<Id>, onDevice: set<Id>, vals: map<Id, V>, x: Id, place: Place)
    requires Holds(c, moves, heap, table, live, onDevice, vals) && x in live && moves
    ensures x in table && table[x] in heap
    ensures place == Device ==>
      Holds(c, moves, heap[table[x] := heap[table[x]].(place := Device)], table, live, onDevice + {x}, vals)
    ensures place == Host && c.budget > 0 ==>
      Holds(c, moves, heap[table[x] := heap[table[x]].(place := Host)], table, live, onDevice - {x}, vals)
  {
  }

  lemma FewerOnDevice<V>(
      c: Config, moves: bool, heap: map<Handle, Buffer<V>>, table: map<Id, Handle>,
      live: set<Id>, onDevice: set<Id>, fewer: set<Id>, vals: map<Id, V>)
    requires Holds(c, moves, heap, table, live, onDevice, vals) && fewer <= onDevice
    ensures Holds(c, moves, heap, table, live, fewer, vals)
  {
    hide Sharing;
  }

  lemma MoreOnDevice<V>(
      c: Config, heap: map<Handle, Buffer<V>>, table: map<Id, Handle>,
      live: set<Id>, onDevice: set<Id>, x: Id, vals: map<Id, V>)
    requires Holds(c, false, heap, table, live, onDevice, vals) && x in live
    ensures Holds(c, false, heap, table, live, onDevice + {x}, vals)
  {
    hide Sharing;
  }

  lemma ForeignHandles(table: map<Id, Handle>, ids: set<Id>)
    ensures HandlesOf(table, ids) <= table.Values
  {
  }

  lemma {:induction false} MoveOwns<V>(
      c: Config, heap0: map<Handle, Buffer<V>>, table0: map<Id, Handle>,
      heap: map<Handle, Buffer<V>>, table: map<Id, Handle>, owned: seq<Id>, x: Id, buffer: Buffer<V>)
    requires Owns(c, heap0, table0, heap, table, owned) && Sharing(c, table)
    requires x in table && table[x] in heap && table0.Keys == SetOf(c.p.inputs)
    requires x in c.p.inputs ==> buffer.value == heap[table[x]].value
    ensures Owns(c, heap0, table0, heap[table[x] := buffer], table, owned)
  {
    hide NoDup;
    ForeignHandles(table0, SetOf(c.p.inputs) - table.Keys);
    hide HandlesOf;
    assert x in owned || x in SetOf(c.p.inputs) by { assert x in SetOf(owned) + SetOf(c.p.inputs); }
    assert heap[table[x] := buffer].Keys == heap.Keys;
    if x in SetOf(c.p.inputs) {
      assert table0[x] in table0.Values;
    }
  }

  /** Allocating a fresh buffer for a result. */
  lemma {:induction false} AllocHolds<V>(
      c: Config, moves: bool, heap: map<Handle, Buffer<V>>, table: map<Id, Handle>,
      live: set<Id>, onDevice: set<Id>, vals: map<Id, V>, x: Id, h: Handle, blank: V)
    requires Holds(c, moves, heap, table, live, onDevice, vals) && x !in live && h !in heap && x !in vals
    ensures Holds(c, moves, heap[h := Buffer(blank, Device)], table[x := h], live + {x}, onDevice + {x}, vals)
  {
  }

  lemma AllocKeepsInputs<V>(
      c: Config, heap0: map<Handle, Buffer<V>>, table0: map<Id, Handle>,
      heap: map<Handle, Buffer<V>>, table: map<Id, Handle>, x: Id, h: Handle, buffer: Buffer<V>)
    requires KeepsInputs(c, heap0, table0, heap, table) && x !in c.p.inputs && h !in heap
    ensures KeepsInputs(c, heap0, table0, heap[h := buffer], table[x := h])
  {
  }

  lemma {:induction false} AllocOwns<V>(
      c: Config, heap0: map<Handle, Buffer<V>>, table0: map<Id, Handle>,
      heap: map<Handle, Buffer<V>>, table: map<Id, Handle>, owned: seq<Id>, x: Id, h: Handle, buffer: Buffer<V>)
    requires Owns(c, heap0, table0, heap, table, owned)
    requires x !in table && x !in c.p.inputs && h !in heap
    ensures Owns(c, heap0, table0, heap[h := buffer], table[x := h], owned + [x])
  {
    hide *;
    var table', owned' := table[x := h], owned + [x];
    InSetOf(owned, x);
    InSetOf(c.p.inputs, x);
    OwnsMeans(c, heap0, table0, heap, table, owned);
    OwnsMeans(c, heap0, table0, heap[h := buffer], table', owned');
    AllocKeepsInputs(c, heap0, table0, heap, table, x, h, buffer);
    AllocFresh(c, heap0, table0, heap, table, owned, x, h);
    SetOfSnoc(owned, x);
    NoDupSnoc(owned, x);
    assert SetOf(c.p.inputs) - table'.Keys == SetOf(c.p.inputs) - table.Keys;
    HandlesGrow(table, SetOf(owned), x, h);
  }

  lemma InSetOf(s: seq<Id>, x: Id)
    ensures x in SetOf(s) <==> x in s
  {
  }

  lemma OwnsMeans<V>(
      c: Config, heap0: map<Handle, Buffer<V>>, table0: map<Id, Handle>,
      heap: map<Handle, Buffer<V>>, table: map<Id, Handle>, owned: seq<Id>)
    ensures var inputs := SetOf(c.p.inputs);
      Owns(c, heap0, table0, heap, table, owned) <==>
        && NoDup(owned)
        && SetOf(owned) == table.Keys - inputs
        && (forall x :: x in owned && x in table ==> table[x] !in heap0.Keys - HandlesOf(table0, inputs - table.Keys))
        && KeepsInputs(c, heap0, table0, heap, table)
        && inputs - table.Keys !! c.pinned
        && heap.Keys == heap0.Keys - HandlesOf(table0, inputs - table.Keys) + HandlesOf(table, SetOf(owned))
        && (forall h :: h in heap0 && h !in table0.Values ==> h in heap && heap[h] == heap0[h])
  {
    hide NoDup; hide SetOf; hide HandlesOf; hide KeepsInputs;
  }

  lemma AllocFresh<V>(
      c: Config, heap0: map<Handle, Buffer<V>>, table0: map<Id, Handle>,
      heap: map<Handle, Buffer<V>>, table: map<Id, Handle>, owned: seq<Id>, x: Id, h: Handle)
    requires Owns(c, heap0, table0, heap, table, owned) && x !in c.p.inputs && h !in heap
    ensures forall y :: y in owned + [x] && y in table[x := h] ==>
      table[x := h][y] !in heap0.Keys - HandlesOf(table0, SetOf(c.p.inputs) - table[x := h].Keys)
  {
    hide HandlesOf; hide KeepsInputs; hide NoDup;
    assert SetOf(c.p.inputs) - table[x := h].Keys == SetOf(c.p.inputs) - table.Keys;
    hide SetOf;
  }

  /** A kernel writes its result buffer and nothing else. */
  lemma {:induction false} ComputeHolds<V>(
      c: Config, moves: bool, heap: map<Handle, Buffer<V>>, table: map<Id, Handle>,
      live: set<Id>, onDevice: set<Id>, vals: map<Id, V>, x: Id, v: V)
    requires Holds(c, moves, heap, table, live, onDevice, vals) && x in onDevice && x !in c.p.inputs
    ensures x in table && table[x] in heap
    ensures Holds(c, moves, heap[table[x] := Buffer(v, Device)], table, live, onDevice, vals[x := v])
  {
  }

  /** Freeing a buffer that is not shared. */
  lemma {:induction false} FreeHolds<V>(
      c: Config, moves: bool, heap: map<Handle, Buffer<V>>, table: map<Id, Handle>,
      live: set<Id>, onDevice: set<Id>, vals: map<Id, V>, x: Id)
    requires Holds(c, moves, heap, table, live, onDevice, vals) && x in live && x !in c.pinned
    ensures x in table && table[x] in heap
    ensures Holds(c, moves, heap - {table[x]}, table - {x}, live - {x}, onDevice - {x}, vals)
  {
  }

  /** `owned` after an id is released, keeping the order of the others. */
  function Without(owned: seq<Id>, x: Id): seq<Id> {
    if owned == [] then []
    else Without(owned[..|owned| - 1], x) + (if owned[|owned| - 1] == x then [] else [owned[|owned| - 1]])
  }

  lemma {:induction false} WithoutDrops(owned: seq<Id>, x: Id)
    requires NoDup(owned)
    ensures NoDup(Without(owned, x)) && SetOf(Without(owned, x)) == SetOf(owned) - {x}
  {
    if owned != [] {
      var front, last := owned[..|owned| - 1], owned[|owned| - 1];
      WithoutDrops(front, x);
      assert owned == front + [last];
      SetOfSnoc(front, last);
      assert last !in front;
      if last != x {
        SetOfSnoc(Without(front, x), last);
        assert last !in Without(front, x) by { assert last !in SetOf(Without(front, x)); }
        NoDupAppend(Without(front, x), [last]);
      } else {
        assert Without(front, x) + [] == Without(front, x);
        assert last !in SetOf(front);
      }
    }
  }

  lemma {:induction false} FreeOwns<V>(
      c: Config, heap0: map<Handle, Buffer<V>>, table0: map<Id, Handle>,
      heap: map<Handle, Buffer<V>>, table: map<Id, Handle>, owned: seq<Id>, x: Id)
    requires Owns(c, heap0, table0, heap, table, owned) && Sharing(c, table) && Sharing(c, table0)
    requires x in table && table[x] in heap && !(x in c.pinned && x in c.p.inputs)
    requires table0.Keys == SetOf(c.p.inputs) && HandlesOf(table0, table0.Keys) <= heap0.Keys
    ensures Owns(c, heap0, table0, heap - {table[x]}, table - {x}, Without(owned, x))
  {
    var inputs := SetOf(c.p.inputs);
    WithoutDrops(owned, x);
    FreedHandles(c, heap0, table0, heap, table, owned, x);
    FreeKeepsInputs(c, heap0, table0, heap, table, x);
    FreedStaysFresh(c, heap0, table0, heap, table, owned, x);
    hide NoDup; hide HandlesOf; hide Sharing; hide KeepsInputs; hide Without;
    assert x in SetOf(owned) || x in inputs;
    assert SetOf(Without(owned, x)) == (table - {x}).Keys - inputs;
  }

  /** Freeing one buffer leaves the values of the inputs that stay. */
  lemma FreeKeepsInputs<V>(
      c: Config, heap0: map<Handle, Buffer<V>>, table0: map<Id, Handle>,
      heap: map<Handle, Buffer<V>>, table: map<Id, Handle>, x: Id)
    requires KeepsInputs(c, heap0, table0, heap, table) && Sharing(c, table)
    requires x in table && !(x in c.pinned && x in c.p.inputs)
    ensures KeepsInputs(c, heap0, table0, heap - {table[x]}, table - {x})
  {
  }

  /** What stays owned is none of the caller's buffers, also with one input less. */
  lemma FreedStaysFresh<V>(
      c: Config, heap0: map<Handle, Buffer<V>>, table0: map<Id, Handle>,
      heap: map<Handle, Buffer<V>>, table: map<Id, Handle>, owned: seq<Id>, x: Id)
    requires Owns(c, heap0, table0, heap, table, owned) && x in table && NoDup(owned)
    requires SetOf(Without(owned, x)) == SetOf(owned) - {x}
    ensures forall y :: y in Without(owned, x) && y in table - {x} ==>
      (table - {x})[y] !in heap0.Keys - HandlesOf(table0, SetOf(c.p.inputs) - (table - {x}).Keys)
  {
    var inputs := SetOf(c.p.inputs);
    HandlesMonotone(table0, inputs - table.Keys, inputs - (table - {x}).Keys);
    forall y | y in Without(owned, x) ensures y in owned {
      assert y in SetOf(Without(owned, x));
      assert y in SetOf(owned);
    }
    hide Without; hide NoDup; hide HandlesOf; hide KeepsInputs;
  }

  lemma HandlesMonotone(table: map<Id, Handle>, ids: set<Id>, more: set<Id>)
    requires ids <= more
    ensures HandlesOf(table, ids) <= HandlesOf(table, more)
  {
  }

  lemma HandlesDrop(table: map<Id, Handle>, ids: set<Id>, x: Id)
    requires x in table && forall y :: y in ids && y in table && y != x ==> table[y] != table[x]
    ensures HandlesOf(table - {x}, ids - {x}) == HandlesOf(table, ids) - {table[x]}
  {
    forall h | h in HandlesOf(table, ids) && h != table[x] ensures h in HandlesOf(table - {x}, ids - {x}) {
      var y :| y in ids && y in table && table[y] == h;
      assert (table - {x})[y] == h;
    }
  }

  lemma HandlesAdd(table: map<Id, Handle>, ids: set<Id>, x: Id)
    requires x in table
    ensures HandlesOf(table, ids + {x}) == HandlesOf(table, ids) + {table[x]}
    ensures table[x] in HandlesOf(table, table.Keys)
  {
  }

  lemma HandlesGrow(table: map<Id, Handle>, ids: set<Id>, x: Id, h: Handle)
    requires x !in ids
    ensures HandlesOf(table[x := h], ids + {x}) == HandlesOf(table, ids) + {h}
  {
    forall g | g in HandlesOf(table, ids) ensures g in HandlesOf(table[x := h], ids + {x}) {
      var y :| y in ids && y in table && table[y] == g;
      assert table[x := h][y] == g;
    }
    assert table[x := h][x] == h;
  }

  /** The set of live handles after a release. */
  lemma {:induction false} FreedHandles<V>(
      c: Config, heap0: map<Handle, Buffer<V>>, table0: map<Id, Handle>,
      heap: map<Handle, Buffer<V>>, table: map<Id, Handle>, owned: seq<Id>, x: Id)
    requires Owns(c, heap0, table0, heap, table, owned) && Sharing(c, table) && Sharing(c, table0)
    requires x in table && table[x] in heap && !(x in c.pinned && x in c.p.inputs)
    requires table0.Keys == SetOf(c.p.inputs) && HandlesOf(table0, table0.Keys) <= heap0.Keys
    ensures var inputs := SetOf(c.p.inputs);
      (heap - {table[x]}).Keys ==
        heap0.Keys - HandlesOf(table0, inputs - (table - {x}).Keys) + HandlesOf(table - {x}, SetOf(owned) - {x})
    ensures forall h :: h in heap0 && h !in table0.Values ==> h in heap - {table[x]}
  {
    hide NoDup; hide HandlesOf;
    var inputs := SetOf(c.p.inputs);
    var table' := table - {x};
    ForeignHandles(table0, inputs - table.Keys);
    assert forall y :: y in SetOf(owned) ==> y in owned && y in table;
    assert forall y :: y in SetOf(owned) && y != x ==> table[y] != table[x];
    HandlesDrop(table, SetOf(owned), x);
    if x in inputs {
      assert inputs - table'.Keys == inputs - table.Keys + {x};
      HandlesAdd(table0, inputs - table.Keys, x);
    } else {
      assert x in SetOf(owned);
      assert inputs - table'.Keys == inputs - table.Keys;
    }
  }

  lemma OwnsSameIds<V>(
      c: Config, heap0: map<Handle, Buffer<V>>, table0: map<Id, Handle>,
      heap: map<Handle, Buffer<V>>, table: map<Id, Handle>, owned: seq<Id>, same: seq<Id>)
    requires Owns(c, heap0, table0, heap, table, owned) && NoDup(same) && SetOf(same) == SetOf(owned)
    ensures Owns(c, heap0, table0, heap, table, same)
  {
    hide NoDup; hide HandlesOf;
    assert forall x :: x in same <==> x in SetOf(same);
    assert forall x :: x in owned <==> x in SetOf(owned);
  }

  /** Owned ids have buffers, and every table entry points at a live buffer. */
  lemma OwnedAreLive<V>(
      c: Config, heap0: map<Handle, Buffer<V>>, table0: map<Id, Handle>,
      heap: map<Handle, Buffer<V>>, table: map<Id, Handle>, owned: seq<Id>, x: Id)
    requires Owns(c, heap0, table0, heap, table, owned) && x in owned
    ensures x in table && table[x] in heap && x !in c.p.inputs
  {
    assert x in SetOf(owned);
    assert table[x] in HandlesOf(table, SetOf(owned));
  }

  // ----- the device's contents -----

  /** The ids whose buffer is on the device. */
  ghost function OnDevice<V>(heap: map<Handle, Buffer<V>>, table: map<Id, Handle>): set<Id> {
    set x | x in table && table[x] in heap && heap[table[x]].place == Device
  }

  lemma {:induction false} MoveOnDevice<V>(
      c: Config, heap: map<Handle, Buffer<V>>, table: map<Id, Handle>, x: Id, place: Place)
    requires c.budget > 0 && Sharing(c, table) && x in table && table[x] in heap
    ensures OnDevice(heap[table[x] := heap[table[x]].(place := place)], table) ==
      if place == Device then OnDevice(heap, table) + {x} else OnDevice(heap, table) - {x}
  {
  }

  lemma {:induction false} AllocOnDevice<V>(
      heap: map<Handle, Buffer<V>>, table: map<Id, Handle>, x: Id, h: Handle, blank: V)
    requires x !in table && h !in heap && forall y :: y in table ==> table[y] in heap
    ensures OnDevice(heap[h := Buffer(blank, Device)], table[x := h]) == OnDevice(heap, table) + {x}
  {
    var after := OnDevice(heap[h := Buffer(blank, Device)], table[x := h]);
    forall y | y in table ensures y in after <==> y in OnDevice(heap, table) {
    }
  }

  lemma {:induction false} FreeOnDevice<V>(c: Config, heap: map<Handle, Buffer<V>>, table: map<Id, Handle>, x: Id)
    requires c.budget > 0 && Sharing(c, table) && x in table && table[x] in heap
    ensures OnDevice(heap - {table[x]}, table - {x}) == OnDevice(heap, table) - {x}
  {
  }

  lemma {:induction false} ComputeOnDevice<V>(
      heap: map<Handle, Buffer<V>>, table: map<Id, Handle>, x: Id, buffer: Buffer<V>)
    requires x in table && table[x] in heap && heap[table[x]].place == Device == buffer.place
    ensures OnDevice(heap[table[x] := buffer], table) == OnDevice(heap, table)
  {
  }
}
