/** core/handle_table.h and core/handle_table.cc: generation-tagged handles over a fixed array of reused slots. */
module HandleTables {
  import opened Basics

  datatype Code = Ok | Exhausted | InvalidArgument

  /** std::bit_width: as many bits as x needs and no more. */
  function BitWidth(x: nat): (bits: nat)
    ensures x < Pow2(bits)
    ensures if x == 0 then bits == 0 else bits > 0 && Pow2(bits - 1) <= x
  {
    if x == 0 then 0 else 1 + BitWidth(x / 2)
  }

  /** What a history of allocations and frees amounts to. */
  datatype Ledger = Ledger(issued: set<int>, live: set<int>)

  ghost predicate Allocates(a: Ledger, b: Ledger, h: int) {
    h !in a.issued && b == Ledger(a.issued + {h}, a.live + {h})
  }

  ghost predicate Frees(a: Ledger, b: Ledger, h: int) {
    h in a.live && b == Ledger(a.issued, a.live - {h})
  }

  ghost predicate Next(a: Ledger, b: Ledger) {
    a == b || (exists h :: Allocates(a, b, h)) || (exists h :: Frees(a, b, h))
  }

  /** The slot number and the generation of a handle, unit being two to the index bits. */
  function Slot(h: int, unit: nat): (index: nat)
    requires unit > 0
    ensures index < unit
  {
    h % unit
  }

  function Tag(h: int, unit: nat): int
    requires unit > 0
  {
    h / unit
  }

  /** The slots handed out so far hold exactly the live handles; the free list holds the others, once each. */
  ghost predicate Consistent(unit: nat, slots: seq<int>, next: nat, generation: nat, free: seq<nat>, ledger: Ledger) {
    && unit > 0 && next <= |slots| && generation >= 1
    && (forall i, j :: 0 <= i < j < |free| ==> free[i] != free[j])
    && (forall i <- free :: i < next && slots[i] == 0)
    && (forall i :: 0 <= i < next && slots[i] != 0 ==> slots[i] in ledger.live && Slot(slots[i], unit) == i)
    && (forall h <- ledger.issued :: Slot(h, unit) < next && 1 <= Tag(h, unit) < generation)
    && (forall h <- ledger.live :: h != 0 && h in ledger.issued && slots[Slot(h, unit)] == h)
    && |ledger.live| + |free| == next
  }

  /** A new handle for the last free index keeps the table consistent. */
  lemma ReusesFree(unit: nat, slots: seq<int>, next: nat, g: nat, free: seq<nat>, ledger: Ledger, h: int)
    requires Consistent(unit, slots, next, g, free, ledger)
    requires free != [] && h > 0 && Slot(h, unit) == free[|free| - 1] < next && Tag(h, unit) == g
    ensures var l := Ledger(ledger.issued + {h}, ledger.live + {h});
            Allocates(ledger, l, h)
            && Consistent(unit, slots[Slot(h, unit) := h], next, g + 1, free[..|free| - 1], l)
    ensures forall k <- ledger.live :: Slot(k, unit) != Slot(h, unit)
  {
    hide Slot, Tag;
    var index := Slot(h, unit);
    assert free[|free| - 1] in free;
    assert forall i <- free[..|free| - 1] :: i in free;
    assert h !in ledger.issued;
  }

  lemma LastIsFree(unit: nat, slots: seq<int>, next: nat, g: nat, free: seq<nat>, ledger: Ledger)
    requires Consistent(unit, slots, next, g, free, ledger) && free != []
    ensures free[|free| - 1] < next
  {
    assert free[|free| - 1] in free;
  }

  /** A new handle for a slot never handed out before keeps the table consistent. */
  lemma TakesNext(unit: nat, slots: seq<int>, next: nat, g: nat, ledger: Ledger, h: int)
    requires Consistent(unit, slots, next, g, [], ledger)
    requires next < |slots| && h > 0 && Slot(h, unit) == next && Tag(h, unit) == g
    ensures var l := Ledger(ledger.issued + {h}, ledger.live + {h});
            Allocates(ledger, l, h) && Consistent(unit, slots[next := h], next + 1, g + 1, [], l)
    ensures forall k <- ledger.live :: Slot(k, unit) != Slot(h, unit)
  {
    hide Slot, Tag;
    assert h !in ledger.issued;
  }

  lemma Returns(unit: nat, slots: seq<int>, next: nat, g: nat, free: seq<nat>, ledger: Ledger, h: int)
    requires Consistent(unit, slots, next, g, free, ledger) && h in ledger.live
    ensures var index, l := Slot(h, unit), ledger.(live := ledger.live - {h});
            Frees(ledger, l, h) && Consistent(unit, slots[index := 0], next, g, free + [index], l)
  {
    hide Slot, Tag;
    assert Slot(h, unit) !in free;
  }

  class HandleTable {
    const n: nat
    const indexBits: nat
    const slots: array<int>     // each slot's handle field
    var nextAllocate: nat
    var generation: nat
    var freeIndexes: seq<nat>
    ghost var ledger: Ledger

    function GetIndex(h: int): (index: nat)
      ensures index < Pow2(indexBits)
    {
      Slot(h, Pow2(indexBits))
    }

    predicate ValidateHandle(h: int) {
      0 <= GetIndex(h) < n
    }

    predicate CanAllocate()
      reads this
    {
      freeIndexes != [] || nextAllocate < n
    }

    ghost predicate Valid()
      reads this, slots
    {
      && n > 0 && indexBits == BitWidth(n - 1) && slots.Length == n
      && Consistent(Pow2(indexBits), slots[..], nextAllocate, generation, freeIndexes, ledger)
    }

    /** The slot memory is whatever posix_memalign returned: no slot is initialised. */
    constructor (maxN: nat, memory: array<int>)
      requires maxN > 0 && memory.Length == maxN
      ensures Valid() && n == maxN && slots == memory
      ensures ledger == Ledger({}, {})
    {
      n, indexBits, slots := maxN, BitWidth(maxN - 1), memory;
      nextAllocate, generation, freeIndexes := 0, 1, [];
      ledger := Ledger({}, {});
    }

    /** Pops a free index or takes the next fresh one, and tags it with a new generation. */
    method AllocateHandle() returns (h: int)
      requires Valid() && CanAllocate()
      modifies this`freeIndexes, this`nextAllocate, this`generation
      ensures generation == old(generation) + 1
      ensures Tag(h, Pow2(indexBits)) == old(generation) && h > 0
      ensures if old(freeIndexes) != []
              then freeIndexes + [GetIndex(h)] == old(freeIndexes) && nextAllocate == old(nextAllocate)
              else freeIndexes == [] && GetIndex(h) == old(nextAllocate) == nextAllocate - 1
    {
      var index;
      assert n <= Pow2(indexBits);
      if freeIndexes != [] {
        assert freeIndexes[|freeIndexes| - 1] in freeIndexes;
        index := freeIndexes[|freeIndexes| - 1];
        freeIndexes := freeIndexes[..|freeIndexes| - 1];
      } else {
        index := nextAllocate;
        nextAllocate := nextAllocate + 1;
      }
      // The source retries while the handle is zero; generations start at one, so it never is.
      h := generation * Pow2(indexBits) + index;
      TagAndIndex(generation, Pow2(indexBits), index);
      generation := generation + 1;
    }

    /** Fails exactly when n handles are live; otherwise the handle is new and its slot belongs to no live handle. */
    method Allocate() returns (code: Code, h: int)
      requires Valid()
      requires generation < 0x8000_0000_0000_0000 / Pow2(indexBits)  // the tag still fits an int64_t
      modifies this, slots
      ensures Valid()
      ensures code == (if |old(ledger.live)| == n then Exhausted else Ok)
      ensures code == Exhausted ==> ledger == old(ledger)
      ensures code == Ok ==> Allocates(old(ledger), ledger, h)
      ensures code == Ok ==> forall k <- old(ledger.live) :: GetIndex(k) != GetIndex(h)
    {
      h := 0;
      if !CanAllocate() {
        return Exhausted, h;
      }
      hide Slot, Tag, Consistent;
      ghost var was, free, next, g, l := slots[..], freeIndexes, nextAllocate, generation, ledger;
      h := AllocateHandle();
      var index := GetIndex(h);
      if free != [] {
        assert freeIndexes == free[..|free| - 1];
        LastIsFree(Pow2(indexBits), was, next, g, free, l);
        ReusesFree(Pow2(indexBits), was, next, g, free, l, h);
      } else {
        TakesNext(Pow2(indexBits), was, next, g, l, h);
      }
      slots[index] := h;
      assert slots[..] == was[index := h];
      ledger := Ledger(ledger.issued + {h}, ledger.live + {h});
      code := Ok;
    }

    /** For a handle whose slot has ever been handed out: found exactly if it is live now. */
    method Lookup(h: int) returns (code: Code, index: nat)
      requires Valid()
      ensures code == (if ValidateHandle(h) && slots[GetIndex(h)] == h && h != 0 then Ok else InvalidArgument)
      ensures GetIndex(h) < nextAllocate ==> (code == Ok <==> h in ledger.live)
      ensures code == Ok ==> index == GetIndex(h)
    {
      index := GetIndex(h);
      if !ValidateHandle(h) {
        return InvalidArgument, index;
      }
      if slots[index] != h || slots[index] == 0 {
        return InvalidArgument, index;
      }
      code := Ok;
    }

    method Free(h: int) returns (code: Code)
      requires Valid() && GetIndex(h) < nextAllocate
      modifies this, slots
      ensures Valid() && nextAllocate == old(nextAllocate)
      ensures code == (if h in old(ledger.live) then Ok else InvalidArgument)
      ensures if code == Ok then Frees(old(ledger), ledger, h) else ledger == old(ledger)
    {
      if !ValidateHandle(h) {
        return InvalidArgument;
      }
      var index := GetIndex(h);
      if slots[index] != h || slots[index] == 0 {
        return InvalidArgument;
      }
      Returns(Pow2(indexBits), slots[..], nextAllocate, generation, freeIndexes, ledger, h);
      assert slots[..][index := 0] == slots[..index] + [0] + slots[index + 1..];
      slots[index] := 0;
      freeIndexes := freeIndexes + [index];
      ledger := ledger.(live := ledger.live - {h});
      code := Ok;
    }

    /** Live handles occupy distinct slots, none of them on the free list. */
    lemma LiveSlots()
      requires Valid()
      ensures forall h, k :: h in ledger.live && k in ledger.live && h != k ==> GetIndex(h) != GetIndex(k)
      ensures forall h <- ledger.live :: GetIndex(h) !in freeIndexes
    {
    }
  }

  /** (tag << bits) | index, taken apart again. */
  lemma TagAndIndex(tag: nat, unit: nat, index: nat)
    requires tag >= 1 && index < unit
    ensures var h := tag * unit + index; h > 0 && h / unit == tag && h % unit == index
  {
    var h := tag * unit + index;
    var blocks := h / unit - tag;
    assert blocks * unit == index - h % unit;
    WholeBlocks(blocks, unit);
    WholeBlocks(tag, unit);
  }

  // ---- Any history ----

  ghost predicate History(run: seq<Ledger>) {
    forall i :: 0 < i < |run| ==> Next(run[i - 1], run[i])
  }

  /** Handles once issued stay issued, and live ones were issued. */
  lemma {:induction false} IssuedGrows(run: seq<Ledger>, i: nat, j: nat)
    requires History(run) && i <= j < |run| && run[i].live <= run[i].issued
    ensures run[i].issued <= run[j].issued && run[j].live <= run[j].issued
  {
    if i < j {
      IssuedGrows(run, i, j - 1);
      assert Next(run[j - 1], run[j]);
    }
  }

  /** A handle that was issued and is no longer live is never live again, whatever happens to its slot. */
  lemma {:induction false} DeadForever(run: seq<Ledger>, i: nat, j: nat, h: int)
    requires History(run) && i <= j < |run| && run[i].live <= run[i].issued
    requires h in run[i].issued && h !in run[i].live
    ensures h in run[j].issued && h !in run[j].live
  {
    if i < j {
      DeadForever(run, i, j - 1, h);
      assert Next(run[j - 1], run[j]);
    }
  }

  /** No handle is issued twice. */
  lemma NeverReissued(run: seq<Ledger>, i: nat, j: nat, h: int)
    requires History(run) && 0 < i < j < |run| && run[0] == Ledger({}, {})
    requires Allocates(run[i - 1], run[i], h)
    ensures !Allocates(run[j - 1], run[j], h)
  {
    IssuedGrows(run, 0, i);
    IssuedGrows(run, i, j - 1);
  }
}
