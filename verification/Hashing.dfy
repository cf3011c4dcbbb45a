/**
 * capsule/hashing.cc: which capsule declarations the compiler accepts, and what acceptance promises the decoder;
 * and the indices capsule/generator.cc gives the fields.
 */
module Hashing {
  import opened Basics
  import opened Bytes
  import opened Crc32c
  import Values
  import Decoders
  import RoundTrips

  datatype Attribute = Formerly(name: seq<byte>) | Retired | Other(text: seq<byte>)

  /** What the parser read of one field. */
  datatype Decl = Decl(name: seq<byte>, attributes: seq<Attribute>) {
    predicate IsRetired() { Retired in attributes }
  }

  function HashOf(name: seq<byte>): u32 { Value(Crc(name, 0)) }

  function FormerHashes(attributes: seq<Attribute>): seq<u32> {
    if attributes == [] then []
    else
      var n := |attributes| - 1;
      FormerHashes(attributes[..n]) + if attributes[n].Formerly? then [HashOf(attributes[n].name)] else []
  }

  /** The current name's hash first, then those of the former names. */
  function HashesOf(d: Decl): seq<u32> {
    [HashOf(d.name)] + FormerHashes(d.attributes)
  }

  class Field {
    const decl: Decl
    var hashes: seq<u32>

    constructor (decl: Decl)
      ensures this.decl == decl && hashes == []
    {
      this.decl := decl;
      hashes := [];
    }

    /** Refuses a field whose hashes were computed already. */
    method ComputeHashes() returns (ok: bool)
      modifies this
      ensures ok == (old(hashes) == [])
      ensures hashes == if ok then HashesOf(decl) else old(hashes)
    {
      hide HashOf;
      if hashes != [] {
        return false;
      }
      hashes := [HashOf(decl.name)];
      for i := 0 to |decl.attributes|
        invariant hashes == [HashOf(decl.name)] + FormerHashes(decl.attributes[..i])
      {
        assert decl.attributes[..i + 1][..i] == decl.attributes[..i];
        if decl.attributes[i].Formerly? {
          hashes := hashes + [HashOf(decl.attributes[i].name)];
        }
      }
      assert decl.attributes[..|decl.attributes|] == decl.attributes;
      ok := true;
    }
  }

  // ---- Distinct hashes ----

  ghost function Flat(lists: seq<seq<u32>>): seq<u32> {
    if lists == [] then [] else Flat(lists[..|lists| - 1]) + lists[|lists| - 1]
  }

  lemma FlatStep(lists: seq<seq<u32>>, i: nat)
    requires i < |lists|
    ensures Flat(lists[..i + 1]) == Flat(lists[..i]) + lists[i]
  {
    assert lists[..i + 1][..i] == lists[..i];
  }

  ghost function Elements(hs: seq<u32>): set<u32> {
    set h | h in hs
  }

  lemma OneMore(hs: seq<u32>, h: u32)
    ensures Elements(hs + [h]) == Elements(hs) + {h}
  {}

  /** Counting the repetitions of a sequence tells whether there are any. */
  lemma {:induction false} UniqueByCount(hs: seq<u32>)
    ensures |Elements(hs)| <= |hs|
    ensures |Elements(hs)| == |hs| <==> NoDup(hs)
  {
    if hs != [] {
      var n := |hs| - 1;
      var init := hs[..n];
      UniqueByCount(init);
      assert hs == init + [hs[n]];
      assert Elements(hs) == Elements(init) + {hs[n]};
      if hs[n] in init {
        var i :| 0 <= i < n && init[i] == hs[n];
        assert hs[i] == hs[n];
      } else {
        assert NoDup(init) ==> NoDup(hs) by {
          assert forall i :: 0 <= i < n ==> hs[i] == init[i];
        }
      }
      if NoDup(hs) {
        assert forall i :: 0 <= i < n ==> hs[i] == init[i];
      }
    }
  }

  /** The hash that field second shares with the earlier occurrence in field first. */
  datatype Complaint = Complaint(hash: u32, first: nat, second: nat)

  function Lists(fields: seq<Field>): (r: seq<seq<u32>>)
    reads fields
    ensures |r| == |fields| && forall i :: 0 <= i < |r| ==> r[i] == fields[i].hashes
  {
    if fields == [] then [] else Lists(fields[..|fields| - 1]) + [fields[|fields| - 1].hashes]
  }

  ghost predicate Accurate(c: Complaint, lists: seq<seq<u32>>, n: nat) {
    && c.first <= c.second < n && c.second < |lists|
    && c.hash in lists[c.first] && c.hash in lists[c.second]
  }

  ghost predicate AllAccurate(cs: seq<Complaint>, lists: seq<seq<u32>>, n: nat) {
    forall k :: 0 <= k < |cs| ==> Accurate(cs[k], lists, n)
  }

  /** Every hash in the map is there with a field that has it. */
  ghost predicate Remembers(m: map<u32, nat>, lists: seq<seq<u32>>, n: nat) {
    forall h <- m :: m[h] < n && m[h] < |lists| && h in lists[m[h]]
  }

  lemma Remembered(m: map<u32, nat>, lists: seq<seq<u32>>, i: nat, h: u32)
    requires Remembers(m, lists, i + 1) && i < |lists| && h in lists[i] && h !in m
    ensures m[h := i].Keys == m.Keys + {h} && |m[h := i].Keys| == |m.Keys| + 1
    ensures Remembers(m[h := i], lists, i + 1)
  {}

  lemma Complained(cs: seq<Complaint>, m: map<u32, nat>, lists: seq<seq<u32>>, i: nat, h: u32)
    requires AllAccurate(cs, lists, i + 1) && Remembers(m, lists, i + 1) && i < |lists| && h in lists[i] && h in m
    ensures AllAccurate(cs + [Complaint(h, m[h], i)], lists, i + 1)
  {}

  lemma Onwards(cs: seq<Complaint>, m: map<u32, nat>, lists: seq<seq<u32>>, i: nat)
    requires AllAccurate(cs, lists, i) && Remembers(m, lists, i)
    ensures AllAccurate(cs, lists, i + 1) && Remembers(m, lists, i + 1)
  {}

  lemma StillAccurate(cs: seq<Complaint>, lists: seq<seq<u32>>, i: nat, n: nat)
    requires AllAccurate(cs, lists, i) && i <= n
    ensures AllAccurate(cs, lists, n)
  {}

  /** The inner loop of ValidateHashes: the hashes of field i, after those in before. */
  method ValidateField(hashes: seq<u32>, i: nat, m0: map<u32, nat>, complaints0: seq<Complaint>,
                       ghost before: seq<u32>, ghost lists: seq<seq<u32>>)
      returns (m: map<u32, nat>, complaints: seq<Complaint>)
    requires i < |lists| && lists[i] == hashes
    requires m0.Keys == Elements(before) && Remembers(m0, lists, i) && AllAccurate(complaints0, lists, i)
    ensures m.Keys == Elements(before + hashes) && Remembers(m, lists, i + 1) && AllAccurate(complaints, lists, i + 1)
    ensures |complaints| + |Elements(before + hashes)| == |complaints0| + |Elements(before)| + |hashes|
  {
    Onwards(complaints0, m0, lists, i);
    hide Elements, Remembers, AllAccurate;
    m, complaints := m0, complaints0;
    assert before + hashes[..0] == before;
    for j := 0 to |hashes|
      invariant m.Keys == Elements(before + hashes[..j]) && Remembers(m, lists, i + 1)
      invariant |complaints| + |m.Keys| == |complaints0| + |m0.Keys| + j
      invariant AllAccurate(complaints, lists, i + 1)
    {
      var h := hashes[j];
      assert before + hashes[..j + 1] == (before + hashes[..j]) + [h];
      OneMore(before + hashes[..j], h);
      if h !in m {
        Remembered(m, lists, i, h);
        m := m[h := i];
      } else {
        Complained(complaints, m, lists, i, h);
        assert m.Keys + {h} == m.Keys;
        complaints := complaints + [Complaint(h, m[h], i)];
      }
    }
    assert hashes[..|hashes|] == hashes;
  }

  /** The loop over the fields. */
  method ValidateFields(lists: seq<seq<u32>>) returns (ok: bool, complaints: seq<Complaint>)
    ensures ok <==> forall i :: 0 <= i < |lists| ==> lists[i] != []
    ensures ok ==> |complaints| + |Elements(Flat(lists))| == |Flat(lists)|
    ensures AllAccurate(complaints, lists, |lists|)
  {
    var m: map<u32, nat> := map[];
    complaints := [];
    assert Elements([]) == {} && m.Keys == Elements([]) && Remembers(m, lists, 0) && AllAccurate(complaints, lists, 0);
    assert Flat(lists[..0]) == [];
    hide *;
    for i := 0 to |lists|
      invariant forall k :: 0 <= k < i ==> lists[k] != []
      invariant m.Keys == Elements(Flat(lists[..i])) && Remembers(m, lists, i) && AllAccurate(complaints, lists, i)
      invariant |complaints| + |Elements(Flat(lists[..i]))| == |Flat(lists[..i])|
    {
      if lists[i] == [] {
        StillAccurate(complaints, lists, i, |lists|);
        return false, complaints;
      }
      FlatStep(lists, i);
      m, complaints := ValidateField(lists[i], i, m, complaints, Flat(lists[..i]), lists);
    }
    assert lists[..|lists|] == lists;
    ok := true;
  }

  /**
   * ValidateHashes. Fails on a field without hashes; otherwise makes one complaint for every hash that has occurred
   * before, so there is no complaint exactly when all the hashes of the capsule are distinct.
   */
  method ValidateHashes(fields: seq<Field>) returns (ok: bool, complaints: seq<Complaint>)
    ensures ok <==> forall i :: 0 <= i < |fields| ==> fields[i].hashes != []
    ensures ok ==> |complaints| + |Elements(Flat(Lists(fields)))| == |Flat(Lists(fields))|
    ensures ok ==> (complaints == [] <==> NoDup(Flat(Lists(fields))))
    ensures AllAccurate(complaints, Lists(fields), |fields|)
  {
    hide *;
    ok, complaints := ValidateFields(Lists(fields));
    UniqueByCount(Flat(Lists(fields)));
  }

  // ---- What acceptance promises ----

  ghost function AllHashes(ds: seq<Decl>): (r: seq<seq<u32>>)
    ensures |r| == |ds| && forall i :: 0 <= i < |r| ==> r[i] == HashesOf(ds[i])
  {
    seq(|ds|, i requires 0 <= i < |ds| => HashesOf(ds[i]))
  }

  /** The compiler's precondition on a capsule: no name or former name of it has the hash of another. */
  ghost predicate Accepted(ds: seq<Decl>) {
    NoDup(Flat(AllHashes(ds)))
  }

  /** Where list i starts in the concatenation. */
  ghost function StartOf(lists: seq<seq<u32>>, i: nat): nat
    requires i <= |lists|
  {
    |Flat(lists[..i])|
  }

  lemma {:induction false} InFlat(lists: seq<seq<u32>>, i: nat, k: nat)
    requires i < |lists| && k < |lists[i]|
    ensures StartOf(lists, i) + k < StartOf(lists, i + 1) <= |Flat(lists)|
    ensures Flat(lists)[StartOf(lists, i) + k] == lists[i][k]
    decreases |lists|
  {
    var n := |lists| - 1;
    var init := lists[..n];
    assert lists[..i + 1][..i] == lists[..i];
    if i < n {
      InFlat(init, i, k);
      assert init[..i] == lists[..i] && init[..i + 1] == lists[..i + 1];
    } else {
      assert lists[..i + 1] == lists;
    }
  }

  lemma {:induction false} StartsGrow(lists: seq<seq<u32>>, i: nat, j: nat)
    requires i <= j <= |lists|
    ensures StartOf(lists, i) <= StartOf(lists, j)
    decreases j - i
  {
    if i < j {
      StartsGrow(lists, i, j - 1);
      assert lists[..j][..j - 1] == lists[..j - 1];
    }
  }

  /** Names, current or former, of different fields of an accepted capsule have different hashes. */
  lemma AcceptedApart(ds: seq<Decl>, i: nat, j: nat, k: nat, l: nat)
    requires Accepted(ds) && i < j < |ds| && k < |HashesOf(ds[i])| && l < |HashesOf(ds[j])|
    ensures HashesOf(ds[i])[k] != HashesOf(ds[j])[l]
  {
    var lists := AllHashes(ds);
    InFlat(lists, i, k);
    InFlat(lists, j, l);
    StartsGrow(lists, i + 1, j);
  }

  /** The reader's fields: retired ones are not generated, though their hashes are validated. */
  function Generated(ds: seq<Decl>, types: seq<(Decoders.Ty, Values.Value)>): seq<Decoders.FieldSpec>
    requires |types| == |ds|
  {
    if ds == [] then []
    else
      var n := |ds| - 1;
      Generated(ds[..n], types[..n])
        + if ds[n].IsRetired() then [] else [Decoders.FieldSpec(HashesOf(ds[n]), types[n].0, types[n].1)]
  }

  lemma {:induction false} GeneratedFrom(ds: seq<Decl>, types: seq<(Decoders.Ty, Values.Value)>, i: nat, j: nat)
      returns (k: nat, l: nat)
    requires |types| == |ds| && i < j < |Generated(ds, types)|
    ensures k < l < |ds|
    ensures Generated(ds, types)[i].hashes == HashesOf(ds[k]) && Generated(ds, types)[j].hashes == HashesOf(ds[l])
    decreases |ds|
  {
    hide HashesOf;
    var n := |ds| - 1;
    var init := Generated(ds[..n], types[..n]);
    if j < |init| {
      k, l := GeneratedFrom(ds[..n], types[..n], i, j);
    } else {
      k := OneFrom(ds[..n], types[..n], i);
      l := n;
    }
  }

  lemma {:induction false} OneFrom(ds: seq<Decl>, types: seq<(Decoders.Ty, Values.Value)>, i: nat) returns (k: nat)
    requires |types| == |ds| && i < |Generated(ds, types)|
    ensures k < |ds| && Generated(ds, types)[i].hashes == HashesOf(ds[k])
    decreases |ds|
  {
    hide HashesOf;
    var n := |ds| - 1;
    var init := Generated(ds[..n], types[..n]);
    if i < |init| {
      k := OneFrom(ds[..n], types[..n], i);
    } else {
      k := n;
    }
  }

  /** Every live field is generated, once, in order: the count is kFieldCount. */
  lemma {:induction false} GeneratedCount(ds: seq<Decl>, types: seq<(Decoders.Ty, Values.Value)>)
    requires |types| == |ds|
    ensures |Generated(ds, types)| == LiveCount(ds)
    ensures ds != [] && !ds[|ds| - 1].IsRetired() ==>
      var fs, n := Generated(ds, types), |ds| - 1;
      fs != [] && fs[|fs| - 1] == Decoders.FieldSpec(HashesOf(ds[n]), types[n].0, types[n].1)
    decreases |ds|
  {
    hide HashesOf;
    if ds != [] {
      GeneratedCount(ds[..|ds| - 1], types[..|ds| - 1]);
    }
  }

  /** The current name comes first, and the rest are the hashes of the former names and of nothing else. */
  lemma {:induction false} HashesAreNames(d: Decl, h: u32)
    ensures HashesOf(d)[0] == HashOf(d.name)
    ensures h in HashesOf(d)[1..] <==> exists k :: 0 <= k < |d.attributes| && d.attributes[k].Formerly? && HashOf(d.attributes[k].name) == h
  {
    FormersHashed(d.attributes, h);
    hide HashOf, FormerHashes;
    assert HashesOf(d)[1..] == FormerHashes(d.attributes);
  }

  lemma {:induction false} FormersHashed(attributes: seq<Attribute>, h: u32)
    ensures h in FormerHashes(attributes) <==>
      exists k :: 0 <= k < |attributes| && attributes[k].Formerly? && HashOf(attributes[k].name) == h
    decreases |attributes|
  {
    hide HashOf;
    if attributes != [] {
      var n := |attributes| - 1;
      FormersHashed(attributes[..n], h);
      assert forall k :: 0 <= k < n ==> attributes[..n][k] == attributes[k];
    }
  }

  /** Former names keep their order. */
  lemma FormersInOrder(before: seq<Attribute>, name: seq<byte>)
    ensures FormerHashes(before + [Formerly(name)]) == FormerHashes(before) + [HashOf(name)]
    ensures FormerHashes(before + [Retired]) == FormerHashes(before)
  {
    hide HashOf;
    assert (before + [Formerly(name)])[..|before|] == before && (before + [Retired])[..|before|] == before;
  }

  /** A name's hash is its CRC32C, from zero. */
  lemma HashOfDigits()
    ensures HashOf([0x31, 0x32, 0x33, 0x34, 0x35, 0x36, 0x37, 0x38, 0x39]) == 0xE306_9283
  {
    CheckValue();
    hide Crc, Value;
  }

  /** Every capsule type the compiler accepts meets the hypothesis of the decoder's round trip. */
  lemma AcceptedRoundTrips(ds: seq<Decl>, types: seq<(Decoders.Ty, Values.Value)>)
    requires |types| == |ds| && Accepted(ds)
    ensures RoundTrips.DistinctHashes(Generated(ds, types))
  {
    var fs := Generated(ds, types);
    forall i | 0 <= i < |fs| ensures fs[i].hashes != [] {
      var k := OneFrom(ds, types, i);
    }
    forall i, j | 0 <= i < j < |fs| ensures fs[i].hashes[0] != fs[j].hashes[0] {
      var k, l := GeneratedFrom(ds, types, i, j);
      AcceptedApart(ds, k, l, 0, 0);
    }
  }

  ghost function Decls(fields: seq<Field>): (r: seq<Decl>)
    ensures |r| == |fields| && forall i :: 0 <= i < |r| ==> r[i] == fields[i].decl
  {
    seq(|fields|, i requires 0 <= i < |fields| => fields[i].decl)
  }

  /** Stops at the first field whose hashes were there already. */
  method ComputeAll(fields: seq<Field>) returns (ok: bool)
    requires forall i, j :: 0 <= i < j < |fields| ==> fields[i] != fields[j]
    modifies fields
    ensures ok <==> forall i :: 0 <= i < |fields| ==> old(fields[i].hashes) == []
    ensures ok ==> forall i :: 0 <= i < |fields| ==> fields[i].hashes == HashesOf(fields[i].decl)
  {
    hide HashesOf;
    for i := 0 to |fields|
      invariant forall k :: 0 <= k < i ==> old(fields[k].hashes) == []
      invariant forall k :: 0 <= k < i ==> fields[k].hashes == HashesOf(fields[k].decl)
      invariant forall k :: i <= k < |fields| ==> fields[k].hashes == old(fields[k].hashes)
    {
      var computed := fields[i].ComputeHashes();
      if !computed {
        return false;
      }
    }
    ok := true;
  }

  lemma Computed(fields: seq<Field>)
    requires forall i :: 0 <= i < |fields| ==> fields[i].hashes == HashesOf(fields[i].decl)
    ensures Lists(fields) == AllHashes(Decls(fields))
    ensures forall i :: 0 <= i < |fields| ==> fields[i].hashes != []
  {
    forall i | 0 <= i < |fields| ensures fields[i].hashes != [] {
      assert |HashesOf(fields[i].decl)| > 0;
    }
    hide HashesOf;
    assert Lists(fields) == AllHashes(Decls(fields));
  }

  /** ComputeAndValidateHashes on the fields of one capsule: succeeds exactly on what Accepted describes. */
  method ComputeAndValidateHashes(fields: seq<Field>) returns (ok: bool)
    requires forall i, j :: 0 <= i < j < |fields| ==> fields[i] != fields[j]
    modifies fields
    ensures ok <==> (forall i :: 0 <= i < |fields| ==> old(fields[i].hashes) == []) && Accepted(Decls(fields))
    ensures ok ==> forall i :: 0 <= i < |fields| ==> fields[i].hashes == HashesOf(fields[i].decl)
  {
    hide HashesOf, NoDup, Flat, Elements;
    ok := ComputeAll(fields);
    if !ok {
      return;
    }
    var valid, complaints := ValidateHashes(fields);
    Computed(fields);
    ok := valid && complaints == [];
  }

  // ---- Presence bits ----

  /** kFieldCount, which is the size of has_. */
  function LiveCount(ds: seq<Decl>): (n: nat)
    ensures n <= |ds|
  {
    if ds == [] then 0
    else LiveCount(ds[..|ds| - 1]) + if ds[|ds| - 1].IsRetired() then 0 else 1
  }

  /** A live field's index counts the retired fields before it. */
  ghost predicate IndicesFit(ds: seq<Decl>) {
    forall i :: 0 <= i < |ds| && !ds[i].IsRetired() ==> i < LiveCount(ds)
  }

  ghost predicate RetiredLast(ds: seq<Decl>) {
    forall i, j :: 0 <= i < j < |ds| && ds[i].IsRetired() ==> ds[j].IsRetired()
  }

  lemma {:induction false} AllLive(ds: seq<Decl>)
    ensures LiveCount(ds) == |ds| <==> forall i :: 0 <= i < |ds| ==> !ds[i].IsRetired()
  {
    if ds != [] {
      AllLive(ds[..|ds| - 1]);
      assert forall i :: 0 <= i < |ds| - 1 ==> ds[i] == ds[..|ds| - 1][i];
    }
  }

  /** Decode's accesses to has_ are within it exactly when the retired fields come after all the live ones. */
  lemma {:induction false} PresenceBitsFit(ds: seq<Decl>)
    ensures IndicesFit(ds) <==> RetiredLast(ds)
  {
    if ds != [] {
      var n := |ds| - 1;
      var init := ds[..n];
      assert forall i :: 0 <= i < n ==> ds[i] == init[i];
      AllLive(ds);
      AllLive(init);
      if ds[n].IsRetired() {
        PresenceBitsFit(init);
      } else if RetiredLast(ds) {
        assert forall i :: 0 <= i < n ==> !ds[i].IsRetired();
      }
    }
  }

  /** One retired field before a live one: has_ has one bit, and the live field's is the second. */
  lemma PresenceBitMissing()
    ensures !IndicesFit([Decl([1], [Retired]), Decl([2], [])])
  {
    var ds := [Decl([1], [Retired]), Decl([2], [])];
    assert ds[0].IsRetired() && !ds[1].IsRetired();
    PresenceBitsFit(ds);
  }
}
