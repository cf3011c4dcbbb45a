/** core/intrusive_list.h: circular doubly-linked rings threaded through the elements, erased from blindly. */
module IntrusiveLists {
  class Hook {
    var prev: Hook?
    var next: Hook?

    constructor ()
      ensures prev == null && next == null
    {
      prev, next := null, null;
    }

    predicate IsLinked()
      reads this
    {
      prev != null
    }
  }

  /** The ring position i: the sentinel is both position 0 and the one after the last element. */
  ghost function At(sentinel: Hook, items: seq<Hook>, i: int): Hook {
    if 1 <= i <= |items| then items[i - 1] else sentinel
  }

  ghost predicate Distinct(sentinel: Hook, items: seq<Hook>) {
    forall i, j :: 0 <= i < j <= |items| ==> At(sentinel, items, i) != At(sentinel, items, j)
  }

  class IntrusiveList {
    const sentinel: Hook
    /** The elements, front to back. */
    ghost var items: seq<Hook>

    ghost function Nodes(): set<Hook>
      reads this
    {
      {sentinel} + set h | h in items
    }

    /** The next and prev pointers run round the ring in the order of items, and no hook occurs twice. */
    ghost predicate Valid()
      reads this, sentinel, items
    {
      && Distinct(sentinel, items)
      && (forall i :: 0 <= i <= |items| ==> At(sentinel, items, i).next == At(sentinel, items, i + 1))
      && (forall i :: 1 <= i <= |items| + 1 ==> At(sentinel, items, i).prev == At(sentinel, items, i - 1))
    }

    constructor ()
      ensures Valid() && items == [] && fresh(sentinel)
    {
      sentinel := new Hook();
      items := [];
      new;
      sentinel.next := sentinel;
      sentinel.prev := sentinel;
    }

    method Empty() returns (empty: bool)
      requires Valid()
      ensures empty <==> items == []
    {
      assert At(sentinel, items, 0).next == At(sentinel, items, 1);
      assert items != [] ==> At(sentinel, items, 0) != At(sentinel, items, 1);
      empty := sentinel.next == sentinel;
    }

    /** Members of a valid list are linked, so an unlinked hook is in no list. */
    lemma MembersAreLinked()
      requires Valid()
      ensures forall h <- Nodes() :: h.IsLinked() && h.next != null
    {
      assert At(sentinel, items, |items| + 1) == sentinel;
      forall k | 0 <= k < |items| ensures items[k].IsLinked() && items[k].next != null {
        assert At(sentinel, items, k + 1) == items[k];
        assert At(sentinel, items, k + 1).next == At(sentinel, items, k + 2);
        assert At(sentinel, items, k + 1).prev == At(sentinel, items, k);
      }
      assert At(sentinel, items, 0) == sentinel == At(sentinel, items, |items| + 1);
      assert sentinel.next == At(sentinel, items, 1) && sentinel.prev == At(sentinel, items, |items|);
    }

    /** x goes in just before pos, which is ring position k + 1. */
    method InsertBefore(pos: Hook, x: Hook, ghost k: nat)
      requires Valid() && !x.IsLinked()
      requires k <= |items| && pos == At(sentinel, items, k + 1)
      modifies this, x, pos, pos.prev
      ensures Valid() && items == old(items)[..k] + [x] + old(items)[k..]
    {
      MembersAreLinked();
      ghost var was := items;
      assert pos.prev == At(sentinel, was, k);
      var prev := pos.prev;
      x.prev := prev;
      x.next := pos;
      prev.next := x;
      pos.prev := x;
      items := items[..k] + [x] + items[k..];
      InsertedAt(sentinel, was, x, k);
    }

    method InsertAfter(pos: Hook, x: Hook, ghost k: nat)
      requires Valid() && !x.IsLinked()
      requires k <= |items| && pos == At(sentinel, items, k)
      modifies this, x, pos, pos.next
      ensures Valid() && items == old(items)[..k] + [x] + old(items)[k..]
    {
      MembersAreLinked();
      ghost var was := items;
      assert pos.next == At(sentinel, was, k + 1);
      var next := pos.next;
      x.prev := pos;
      x.next := next;
      pos.next := x;
      next.prev := x;
      items := items[..k] + [x] + items[k..];
      InsertedAt(sentinel, was, x, k);
    }

    method PushBack(x: Hook, ghost lists: set<IntrusiveList>)
      requires World(lists) && this in lists && !x.IsLinked()
      modifies this, x, sentinel, sentinel.prev
      ensures World(lists)
      ensures items == old(items) + [x]
    {
      AllLinked(lists);
      ghost var n, touched := |items|, sentinel.prev;
      assert sentinel == At(sentinel, items, n + 1) && sentinel.prev == At(sentinel, items, n);
      assert touched in Nodes();
      InsertBefore(sentinel, x, n);
      assert items == old(items) + [x];
      forall o | o in lists && o != this ensures o.Valid() && o.items == old(o.items) && x !in o.Nodes() {
        assert o.Nodes() !! old(Nodes()) && touched !in o.Nodes();
      }
      assert Nodes() == old(Nodes()) + {x};
    }

    method PushFront(x: Hook, ghost lists: set<IntrusiveList>)
      requires World(lists) && this in lists && !x.IsLinked()
      modifies this, x, sentinel, sentinel.next
      ensures World(lists)
      ensures items == [x] + old(items)
    {
      AllLinked(lists);
      ghost var touched := sentinel.next;
      assert sentinel == At(sentinel, items, 0) && sentinel.next == At(sentinel, items, 1);
      assert touched in Nodes();
      InsertAfter(sentinel, x, 0);
      assert items == [x] + old(items);
      forall o | o in lists && o != this ensures o.Valid() && o.items == old(o.items) && x !in o.Nodes() {
        assert o.Nodes() !! old(Nodes()) && touched !in o.Nodes();
      }
      assert Nodes() == old(Nodes()) + {x};
    }

    method PopBack(ghost lists: set<IntrusiveList>)
      requires World(lists) && this in lists && items != []
      modifies this, Nodes()
      ensures World(lists)
      ensures items == old(items)[..|old(items)| - 1]
    {
      ghost var n := |items|;
      assert sentinel == At(sentinel, items, n + 1) && sentinel.prev == At(sentinel, items, n) == items[n - 1];
      assert At(sentinel, items, n).next == At(sentinel, items, n + 1);
      assert sentinel.prev.prev == At(sentinel, items, n - 1) && sentinel.prev.next == sentinel;
      assert sentinel.prev in Nodes() && sentinel.prev.prev in Nodes();
      Unlink(sentinel.prev, this, n - 1, lists);
    }

    method PopFront(ghost lists: set<IntrusiveList>)
      requires World(lists) && this in lists && items != []
      modifies this, Nodes()
      ensures World(lists)
      ensures items == old(items)[1..]
      ensures !old(items)[0].IsLinked()
    {
      assert sentinel == At(sentinel, items, 0) && sentinel.next == At(sentinel, items, 1) == items[0];
      assert At(sentinel, items, 1).prev == At(sentinel, items, 0);
      assert sentinel.next.prev == sentinel && sentinel.next.next == At(sentinel, items, 2);
      assert sentinel.next in Nodes() && sentinel.next.next in Nodes();
      Unlink(sentinel.next, this, 0, lists);
    }

    method Clear(ghost lists: set<IntrusiveList>)
      requires World(lists) && this in lists
      modifies this, Nodes()
      ensures World(lists)
      ensures items == []
      ensures forall x <- old(items) :: !x.IsLinked()
    {
      ghost var was, n := items, 0;
      var empty := Empty();
      while !empty
        invariant World(lists) && n <= |was| && items == was[n..]
        invariant empty <==> items == []
        invariant forall i :: 0 <= i < n ==> !was[i].IsLinked()
        decreases |items|
      {
        forall i | 0 <= i < n ensures was[i] !in Nodes() {
          assert was[i] == At(sentinel, was, i + 1);
          forall j | n <= j < |was| ensures was[i] != was[j] {
            assert was[j] == At(sentinel, was, j + 1);
          }
          assert At(sentinel, was, 0) == sentinel;
        }
        PopFront(lists);
        n := n + 1;
        empty := Empty();
      }
    }

    /** MoveFrom, into an empty list: o's whole chain changes hands and o is left empty. */
    method MoveFrom(o: IntrusiveList, ghost lists: set<IntrusiveList>)
      requires World(lists) && this in lists && o in lists && o != this && items == []
      modifies this, o, sentinel, o.Nodes()
      ensures World(lists)
      ensures items == old(o.items) && o.items == []
    {
      var empty := o.Empty();
      if empty {
        sentinel.next := sentinel;
        sentinel.prev := sentinel;
        return;
      }
      MoveWhole(o, lists);
    }

    method MoveWhole(o: IntrusiveList, ghost lists: set<IntrusiveList>)
      requires World(lists) && this in lists && o in lists && o != this && items == [] != o.items
      modifies this, o, sentinel, o.Nodes()
      ensures World(lists)
      ensures items == old(o.items) && o.items == []
    {
      ghost var mine, theirs := Nodes(), o.Nodes();
      MoveChain(o);
      assert o.Nodes() == {o.sentinel} && Nodes() <= mine + theirs && Nodes() !! o.Nodes();
      forall l | l in lists && l != this && l != o
        ensures l.Valid() && l.Nodes() == old(l.Nodes()) && l.Nodes() !! mine + theirs
      {
        assert old(l.Nodes()) !! mine && old(l.Nodes()) !! theirs;
      }
      forall a, b | a in lists && b in lists && a != b ensures a.Nodes() !! b.Nodes() {
        assert a != this && a != o && b != this && b != o ==> old(a.Nodes()) !! old(b.Nodes());
      }
    }

    /** The pointer writes of a move from a list that is not empty. */
    method MoveChain(o: IntrusiveList)
      requires o != this && o.Valid() && o.items != [] && sentinel !in o.Nodes()
      modifies this, o, sentinel, o.Nodes()
      ensures Valid() && o.Valid()
      ensures items == old(o.items) && o.items == []
      ensures o.sentinel !in Nodes()
    {
      ghost var n, chain := |o.items|, o.items;
      assert o.sentinel == At(o.sentinel, chain, 0) == At(o.sentinel, chain, n + 1);
      assert o.sentinel.next == At(o.sentinel, chain, 1) == chain[0];
      assert o.sentinel.prev == At(o.sentinel, chain, n) == chain[n - 1];
      ChainMoved(o.sentinel, sentinel, chain);
      sentinel.next := o.sentinel.next;
      sentinel.prev := o.sentinel.prev;
      sentinel.next.prev := sentinel;
      sentinel.prev.next := sentinel;
      o.sentinel.next := o.sentinel;
      o.sentinel.prev := o.sentinel;
      items, o.items := chain, [];
      forall i | 0 <= i < n ensures chain[i] != o.sentinel {
        assert At(o.sentinel, chain, 0) != At(o.sentinel, chain, i + 1);
      }
    }

    /** Move assignment: whatever this list held is unlinked first. */
    method MoveAssign(o: IntrusiveList, ghost lists: set<IntrusiveList>)
      requires World(lists) && this in lists && o in lists
      modifies this, o, Nodes(), o.Nodes()
      ensures World(lists)
      ensures items == old(o.items)
      ensures o != this ==> o.items == [] && forall x <- old(items) :: !x.IsLinked()
    {
      if this != o {
        ghost var mine := items;
        assert Nodes() !! o.Nodes();
        forall i | 0 <= i < |mine| ensures mine[i] != sentinel {
          assert At(sentinel, mine, 0) != At(sentinel, mine, i + 1);
        }
        Clear(lists);
        MoveFrom(o, lists);
      }
    }

    /** Erase, knowing only the element: whichever list holds it loses it, and no other list changes. */
    static method Erase(x: Hook, ghost lists: set<IntrusiveList>)
      requires World(lists)
      requires x.IsLinked() ==> exists l <- lists :: x in l.items
      modifies lists`items, x, x.prev, x.next
      ensures World(lists)
      ensures !x.IsLinked()
      ensures forall l <- lists :: l.items == Without(old(l.items), x)
    {
      if !x.IsLinked() {
        AllLinked(lists);
        forall l | l in lists ensures l.items == Without(l.items, x) {
          assert x !in l.Nodes();
          WithoutAbsent(l.items, x);
        }
        return;
      }
      ghost var home :| home in lists && x in home.items;
      ghost var k :| 0 <= k < |home.items| && home.items[k] == x;
      ghost var before, behind := x.prev, x.next;
      assert x == At(home.sentinel, home.items, k + 1) && x in home.Nodes();
      assert before == At(home.sentinel, home.items, k) && behind == At(home.sentinel, home.items, k + 2);
      assert before in home.Nodes() && behind in home.Nodes();
      WithoutAt(home.sentinel, home.items, k);
      forall l | l in lists && l != home ensures l.items == Without(l.items, x) {
        assert x !in l.Nodes();
        WithoutAbsent(l.items, x);
      }
      Unlink(x, home, k, lists);
    }
  }

  /** Hook::Unlink on a linked element; the list holding it and its position there are for the proof only. */
  method Unlink(x: Hook, ghost home: IntrusiveList, ghost k: nat, ghost lists: set<IntrusiveList>)
    requires World(lists) && home in lists && k < |home.items| && x == home.items[k]
    modifies home`items, x, x.prev, x.next
    ensures World(lists)
    ensures home.items == old(home.items)[..k] + old(home.items)[k + 1..]
    ensures x.prev == null && x.next == null
  {
    ghost var prev, next, mine := x.prev, x.next, home.Nodes();
    assert x == At(home.sentinel, home.items, k + 1) && x in mine;
    assert prev == At(home.sentinel, home.items, k) && next == At(home.sentinel, home.items, k + 2);
    assert prev in mine && next in mine;
    UnlinkFrom(x, home, k);
    forall o | o in lists && o != home ensures o.Valid() && o.items == old(o.items) {
      assert o.Nodes() !! mine && prev !in o.Nodes() && next !in o.Nodes() && x !in o.Nodes();
    }
    assert home.Nodes() <= mine;
  }

  method UnlinkFrom(x: Hook, ghost home: IntrusiveList, ghost k: nat)
    requires home.Valid() && k < |home.items| && x == home.items[k]
    modifies home`items, x, x.prev, x.next
    ensures home.Valid()
    ensures home.items == old(home.items)[..k] + old(home.items)[k + 1..]
    ensures x.prev == null && x.next == null
  {
    home.MembersAreLinked();
    ghost var was, sentinel := home.items, home.sentinel;
    home.items := was[..k] + was[k + 1..];
    RemovedAt(sentinel, was, k);
    assert x == At(sentinel, was, k + 1);
    assert x.prev == At(sentinel, was, k) && x.next == At(sentinel, was, k + 2);
    x.prev.next := x.next;
    x.next.prev := x.prev;
    x.prev := null;
    x.next := null;
  }

  /** The positions of the same elements round another sentinel. */
  lemma ChainMoved(from: Hook, into: Hook, chain: seq<Hook>)
    requires Distinct(from, chain) && into !in chain
    ensures Distinct(into, chain)
    ensures forall i :: 1 <= i <= |chain| ==> At(into, chain, i) == At(from, chain, i)
  {
    forall i, j | 0 <= i < j <= |chain| ensures At(into, chain, i) != At(into, chain, j) {
      assert At(from, chain, i) != At(from, chain, j);
    }
  }

  ghost function Without(s: seq<Hook>, x: Hook): seq<Hook> {
    if s == [] then [] else if s[0] == x then s[1..] else [s[0]] + Without(s[1..], x)
  }

  lemma {:induction false} WithoutAbsent(s: seq<Hook>, x: Hook)
    requires x !in s
    ensures Without(s, x) == s
  {
    if s != [] {
      WithoutAbsent(s[1..], x);
    }
  }

  lemma {:induction false} WithoutIndex(s: seq<Hook>, k: nat)
    requires k < |s| && forall i :: 0 <= i < k ==> s[i] != s[k]
    ensures Without(s, s[k]) == s[..k] + s[k + 1..]
  {
    if k > 0 {
      WithoutIndex(s[1..], k - 1);
    }
  }

  lemma WithoutAt(sentinel: Hook, items: seq<Hook>, k: nat)
    requires Distinct(sentinel, items) && k < |items|
    ensures Without(items, items[k]) == items[..k] + items[k + 1..]
  {
    forall i | 0 <= i < k ensures items[i] != items[k] {
      assert At(sentinel, items, i + 1) != At(sentinel, items, k + 1);
    }
    WithoutIndex(items, k);
  }

  /** Many lists over one tag: each a well-formed ring, no hook in two of them. */
  ghost predicate World(lists: set<IntrusiveList>)
    reads *
  {
    && (forall l <- lists :: l.Valid())
    && (forall a, b :: a in lists && b in lists && a != b ==> a.Nodes() !! b.Nodes())
  }

  lemma AllLinked(lists: set<IntrusiveList>)
    requires World(lists)
    ensures forall l <- lists, h <- l.Nodes() :: h.IsLinked() && h.next != null
  {
    forall l | l in lists ensures forall h <- l.Nodes() :: h.IsLinked() && h.next != null {
      l.MembersAreLinked();
    }
  }

  lemma RemovedAt(sentinel: Hook, was: seq<Hook>, k: nat)
    requires Distinct(sentinel, was) && k < |was|
    ensures var items := was[..k] + was[k + 1..];
      && Distinct(sentinel, items)
      && (forall i :: 0 <= i <= k ==> At(sentinel, items, i) == At(sentinel, was, i))
      && (forall i :: k < i <= |items| + 1 ==> At(sentinel, items, i) == At(sentinel, was, i + 1))
  {
    var items := was[..k] + was[k + 1..];
    forall i, j | 0 <= i < j <= |items| ensures At(sentinel, items, i) != At(sentinel, items, j) {
      assert At(sentinel, items, i) == At(sentinel, was, if i <= k then i else i + 1);
      assert At(sentinel, items, j) == At(sentinel, was, if j <= k then j else j + 1);
    }
  }

  /** Ring positions after an insertion behind position k. */
  lemma InsertedAt(sentinel: Hook, was: seq<Hook>, x: Hook, k: nat)
    requires Distinct(sentinel, was) && k <= |was| && x != sentinel && x !in was
    ensures var items := was[..k] + [x] + was[k..];
      && Distinct(sentinel, items)
      && At(sentinel, items, k + 1) == x
      && (forall i :: 0 <= i <= k ==> At(sentinel, items, i) == At(sentinel, was, i))
      && (forall i :: k + 1 < i <= |items| + 1 ==> At(sentinel, items, i) == At(sentinel, was, i - 1))
  {
    var items := was[..k] + [x] + was[k..];
    forall i, j | 0 <= i < j <= |items| ensures At(sentinel, items, i) != At(sentinel, items, j) {
      var a, b := if i <= k then i else i - 1, if j <= k then j else j - 1;
      assert i != k + 1 ==> At(sentinel, items, i) == At(sentinel, was, a);
      assert j != k + 1 ==> At(sentinel, items, j) == At(sentinel, was, b);
    }
  }
}
