/** core/flat_map.h: a map kept as a vector sorted by key; and capsule/view_mapper: the insert-only map of a decoder. */
module FlatMaps {
  import opened Bytes

  /** Strictly increasing keys. */
  ghost predicate Sorted<V>(c: seq<(u32, V)>) {
    forall i, j :: 0 <= i < j < |c| ==> c[i].0 < c[j].0
  }

  /** The map a vector of pairs stands for. */
  ghost function MapOf<V>(c: seq<(u32, V)>): map<u32, V> {
    if c == [] then map[] else MapOf(c[..|c| - 1])[c[|c| - 1].0 := c[|c| - 1].1]
  }

  lemma {:induction false} MapHas<V>(c: seq<(u32, V)>, i: nat)
    requires Sorted(c) && i < |c|
    ensures c[i].0 in MapOf(c) && MapOf(c)[c[i].0] == c[i].1
    decreases |c|
  {
    if i < |c| - 1 {
      MapHas(c[..|c| - 1], i);
    }
  }

  lemma {:induction false} MapLacks<V>(c: seq<(u32, V)>, k: u32)
    requires forall i :: 0 <= i < |c| ==> c[i].0 != k
    ensures k !in MapOf(c)
    decreases |c|
  {
    if c != [] {
      MapLacks(c[..|c| - 1], k);
    }
  }

  ghost function Inserted<V>(c: seq<(u32, V)>, it: nat, p: (u32, V)): seq<(u32, V)>
    requires it <= |c|
  {
    c[..it] + [p] + c[it..]
  }

  lemma {:induction false} MapOfInserted<V>(c: seq<(u32, V)>, it: nat, p: (u32, V))
    requires it <= |c|
    requires forall i :: it <= i < |c| ==> p.0 != c[i].0
    ensures MapOf(Inserted(c, it, p)) == MapOf(c)[p.0 := p.1]
    decreases |c|
  {
    var d := Inserted(c, it, p);
    if it == |c| {
      assert d[..|d| - 1] == c;
    } else {
      assert d[..|d| - 1] == Inserted(c[..|c| - 1], it, p);
      MapOfInserted(c[..|c| - 1], it, p);
    }
  }

  lemma MapOfErased<V>(c: seq<(u32, V)>, it: nat)
    requires Sorted(c) && it < |c|
    ensures var d := c[..it] + c[it + 1..]; Sorted(d) && MapOf(d) == MapOf(c) - {c[it].0}
  {
    var d := c[..it] + c[it + 1..];
    assert c == Inserted(d, it, c[it]);
    forall i, j | 0 <= i < j < |d| ensures d[i].0 < d[j].0 {
      assert d[i] == c[if i < it then i else i + 1] && d[j] == c[if j < it then j else j + 1];
    }
    MapOfInserted(d, it, c[it]);
    MapLacks(d, c[it].0);
  }

  lemma SortedInserted<V>(c: seq<(u32, V)>, it: nat, p: (u32, V))
    requires Sorted(c) && it <= |c|
    requires forall i :: 0 <= i < it ==> c[i].0 < p.0
    requires forall i :: it <= i < |c| ==> p.0 < c[i].0
    ensures Sorted(Inserted(c, it, p))
  {
    var d := Inserted(c, it, p);
    forall i, j | 0 <= i < j < |d| ensures d[i].0 < d[j].0 {
      assert d[i] == if i < it then c[i] else if i == it then p else c[i - 1];
      assert d[j] == if j < it then c[j] else if j == it then p else c[j - 1];
    }
  }

  class FlatMap<V> {
    var c: seq<(u32, V)>

    ghost predicate Valid()
      reads this
    {
      Sorted(c)
    }

    ghost function Contents(): map<u32, V>
      requires Valid()
      reads this
    {
      MapOf(c)
    }

    constructor ()
      ensures Valid() && Contents() == map[]
    {
      c := [];
    }

    /** std::lower_bound: the first position whose key is not below k. */
    method FindLowerBound(k: u32) returns (it: nat)
      requires Valid()
      ensures it <= |c|
      ensures forall i :: 0 <= i < it ==> c[i].0 < k
      ensures forall i :: it <= i < |c| ==> k <= c[i].0
    {
      it := 0;
      var end := |c|;
      while it < end
        invariant 0 <= it <= end <= |c|
        invariant forall i :: 0 <= i < it ==> c[i].0 < k
        invariant forall i :: end <= i < |c| ==> k <= c[i].0
      {
        var mid := (it + end) / 2;
        if c[mid].0 < k {
          it := mid + 1;
        } else {
          end := mid;
        }
      }
    }

    /** The position of k, or end. */
    method Find(k: u32) returns (it: nat)
      requires Valid()
      ensures it <= |c|
      ensures it < |c| <==> k in Contents()
      ensures it < |c| ==> c[it] == (k, Contents()[k])
    {
      it := FindLowerBound(k);
      if it == |c| || c[it].0 != k {
        MapLacks(c, k);
        it := |c|;
      } else {
        MapHas(c, it);
      }
    }

    /** An existing key keeps its value. */
    method Insert(k: u32, v: V) returns (it: nat, inserted: bool)
      requires Valid()
      modifies this
      ensures Valid()
      ensures inserted <==> k !in old(Contents())
      ensures Contents() == if inserted then old(Contents())[k := v] else old(Contents())
      ensures it < |c| && c[it].0 == k
    {
      it := FindLowerBound(k);
      if it < |c| && c[it].0 == k {
        MapHas(c, it);
        return it, false;
      }
      MapOfInserted(c, it, (k, v));
      SortedInserted(c, it, (k, v));
      MapLacks(c, k);
      c := c[..it] + [(k, v)] + c[it..];
      inserted := true;
    }

    method Erase(k: u32) returns (removed: nat)
      requires Valid()
      modifies this
      ensures Valid()
      ensures removed == if k in old(Contents()) then 1 else 0
      ensures Contents() == old(Contents()) - {k}
    {
      var it := Find(k);
      if it == |c| {
        return 0;
      }
      MapOfErased(c, it);
      c := c[..it] + c[it + 1..];
      removed := 1;
    }
  }

  datatype Code = Ok | NotFound | Precondition | CapsuleFatal | Error | InvalidArgument | StreamFatal | Unreadable {
    /** The first code that is not Ok stays. */
    function Incorporate(other: Code): Code {
      if this.Ok? then other else this
    }
  }

  class ViewMapper {
    const map_: FlatMap<u32>

    ghost predicate Valid()
      reads map_
    {
      map_.Valid()
    }

    ghost function Contents(): map<u32, u32>
      requires Valid()
      reads map_
    {
      map_.Contents()
    }

    constructor ()
      ensures Valid() && fresh(map_) && Contents() == map[]
    {
      map_ := new FlatMap<u32>();
    }

    method Lookup(h: u32) returns (code: Code, out: u32)
      requires Valid()
      ensures code == (if h in Contents() then Ok else NotFound)
      ensures h in Contents() ==> out == Contents()[h]
    {
      out := 0;
      var it := map_.Find(h);
      if it == |map_.c| {
        return NotFound, out;
      }
      return Ok, map_.c[it].1;
    }

    method Insert(h: u32, value: u32) returns (code: Code)
      requires Valid()
      modifies map_
      ensures Valid()
      ensures code == (if h in old(Contents()) then Precondition else Ok)
      ensures Contents() == if code.Ok? then old(Contents())[h := value] else old(Contents())
    {
      var it := map_.Find(h);
      if it == |map_.c| {
        var _, _ := map_.Insert(h, value);
        return Ok;
      }
      return Precondition;
    }

    /** Fills the map from an offset table of n entries at off. Reading past mem stops with Unreadable. */
    static method Build(mem: seq<byte>, off: nat, n: nat) returns (code: Code, v: ViewMapper)
      ensures fresh(v) && fresh(v.map_) && v.Valid()
      ensures match IndexTable(mem, off, n)
              case Indexed(m) => code == Ok && v.Contents() == m
              case Failed(e) => code == e
    {
      v := new ViewMapper();
      for i := 0 to n
        invariant fresh(v) && fresh(v.map_) && v.Valid()
        invariant IndexTable(mem, off, i) == Indexed(v.Contents())
      {
        if off + 8 * i + 8 > |mem| {
          IndexFails(mem, off, i + 1, n);
          return Unreadable, v;
        }
        code := v.Insert(Word32(mem[off + 8 * i..][..4]), Word32(mem[off + 8 * i + 4..][..4]));
        if code != Ok {
          IndexFails(mem, off, i + 1, n);
          return;
        }
      }
      code := Ok;
    }
  }

  datatype Indexing = Indexed(index: map<u32, u32>) | Failed(code: Code)

  /** The first n entries of the table at off as a map, in table order; a repeated hash is refused. */
  function IndexTable(mem: seq<byte>, off: nat, n: nat): Indexing {
    if n == 0 then Indexed(map[])
    else
      var at := off + 8 * (n - 1);
      match IndexTable(mem, off, n - 1)
      case Failed(e) => Failed(e)
      case Indexed(m) =>
        if at + 8 > |mem| then Failed(Unreadable)
        else
          var h := Word32(mem[at..][..4]);
          if h in m then Failed(Precondition) else Indexed(m[h := Word32(mem[at + 4..][..4])])
  }

  lemma {:induction false} IndexFails(mem: seq<byte>, off: nat, k: nat, n: nat)
    requires k <= n && IndexTable(mem, off, k).Failed?
    ensures IndexTable(mem, off, n) == IndexTable(mem, off, k)
  {
    if k < n {
      IndexFails(mem, off, k, n - 1);
    }
  }
}
