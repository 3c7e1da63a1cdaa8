/**
 Function boundaries: symbols and the ends of the code areas are sorted by address, ties by
 their original order, and the size of each is the distance to its neighbour.
 */
module FuncBounds {

  /** A function, or the end of an area (`marker`); `index` is its place before sorting. */
  datatype Item = Item(addr: nat, index: nat, marker: bool)

  /** compare_items */
  function Compare(a: Item, b: Item): int {
    if a.addr == b.addr then
      if a.index == b.index then 0 else if a.index < b.index then -1 else 1
    else if a.addr < b.addr then -1 else 1
  }

  /** Sorted by the comparison; no two items compare equal. */
  ghost predicate Sorted(s: seq<Item>) { forall i, j :: 0 <= i < j < |s| ==> Compare(s[i], s[j]) < 0 }

  /** The comparison is a strict total order on items with different indices. */
  lemma TotalOrder(a: Item, b: Item, c: Item)
    ensures Compare(a, b) == -Compare(b, a)
    ensures a.index != b.index ==> Compare(a, b) != 0
    ensures Compare(a, b) < 0 && Compare(b, c) < 0 ==> Compare(a, c) < 0
  {
  }

  /** Whatever algorithm sorts, stable or not, there is only one result. */
  lemma {:induction false} SortIsUnique(s: seq<Item>, t: seq<Item>)
    requires Sorted(s) && Sorted(t) && multiset(s) == multiset(t)
    ensures s == t
    decreases |s|
  {
    assert |s| == |multiset(s)| && |t| == |multiset(t)|;
    if s != [] {
      SameLeast(s, t);
      assert s == [s[0]] + s[1..] && t == [t[0]] + t[1..];
      assert multiset(s) == multiset{s[0]} + multiset(s[1..]) && multiset(t) == multiset{t[0]} + multiset(t[1..]);
      SameRest(multiset{s[0]}, multiset(s[1..]), multiset(t[1..]));
      SortIsUnique(s[1..], t[1..]);
    }
  }

  lemma SameRest(x: multiset<Item>, a: multiset<Item>, b: multiset<Item>)
    requires x + a == x + b
    ensures a == b
  {
    forall e
      ensures a[e] == b[e]
    {
      assert (x + a)[e] == x[e] + a[e] && (x + b)[e] == x[e] + b[e];
    }
  }

  lemma SameLeast(s: seq<Item>, t: seq<Item>)
    requires Sorted(s) && Sorted(t) && s != [] && t != [] && multiset(s) == multiset(t)
    ensures s[0] == t[0]
  {
    assert s[0] in multiset(t) && t[0] in multiset(s);
    var i :| 0 <= i < |t| && t[i] == s[0];
    var j :| 0 <= j < |s| && s[j] == t[0];
    TotalOrder(s[0], t[0], s[0]);
  }

  // ------------------------------------------------------------------- sizes

  /** The distance to the next item; the last one keeps 0. */
  ghost function SizeAt(s: seq<Item>, k: nat): int
    requires k < |s|
  {
    if k + 1 < |s| then s[k + 1].addr - s[k].addr else 0
  }

  /** The loop of find_functions over the sorted boundaries, from the last but one down. */
  method ComputeSizes(s: seq<Item>) returns (sizes: array<int>)
    requires Sorted(s)
    ensures fresh(sizes) && sizes.Length == |s|
    ensures forall k :: 0 <= k < |s| ==> sizes[k] == SizeAt(s, k) >= 0
  {
    sizes := new int[|s|](_ => 0);
    var i := |s| - 1;
    while i > 0
      invariant |s| > 0 ==> 0 <= i < |s|
      invariant forall k :: 0 <= k < i ==> sizes[k] == 0
      invariant forall k :: 0 <= i <= k < |s| ==> sizes[k] == SizeAt(s, k) >= 0
    {
      i := i - 1;
      assert Compare(s[i], s[i + 1]) < 0;
      sizes[i] := s[i + 1].addr - s[i].addr;
    }
  }

  ghost predicate InRange(s: seq<Item>, k: nat, a: nat)
    requires k < |s|
  {
    s[k].addr <= a < s[k].addr + SizeAt(s, k)
  }

  lemma AddressesGrow(s: seq<Item>, j: nat, k: nat)
    requires Sorted(s) && j <= k < |s|
    ensures s[j].addr <= s[k].addr
  {
    assert j < k ==> Compare(s[j], s[k]) < 0;
  }

  /** No address belongs to two items. */
  lemma Disjoint(s: seq<Item>, j: nat, k: nat, a: nat)
    requires Sorted(s) && j < k < |s| && InRange(s, j, a)
    ensures !InRange(s, k, a)
  {
    AddressesGrow(s, j + 1, k);
  }

  /** Every address between the first item and the last belongs to one. */
  lemma {:induction false} Covered(s: seq<Item>, n: nat, a: nat) returns (k: nat)
    requires Sorted(s) && n < |s| && s[0].addr <= a < s[n].addr
    ensures k < n && InRange(s, k, a)
    decreases n
  {
    if s[n - 1].addr <= a {
      k := n - 1;
    } else {
      k := Covered(s, n - 1, a);
    }
  }

  ghost function SumOfSizes(s: seq<Item>, n: nat): int
    requires n <= |s|
  {
    if n == 0 then 0 else SumOfSizes(s, n - 1) + SizeAt(s, n - 1)
  }

  /** The sizes add up to the span that is covered. */
  lemma {:induction false} Telescopes(s: seq<Item>, n: nat)
    requires n < |s|
    ensures SumOfSizes(s, n) == s[n].addr - s[0].addr
    decreases n
  {
    if n > 0 {
      Telescopes(s, n - 1);
    }
  }

  /** No function reaches past the end of an area in which it starts. */
  lemma StopsAtAreaEnd(s: seq<Item>, k: nat, m: nat)
    requires Sorted(s) && k < |s| && m < |s| && s[m].marker && s[k].addr < s[m].addr
    ensures s[k].addr + SizeAt(s, k) <= s[m].addr
  {
    if m <= k {
      AddressesGrow(s, m, k);
    } else {
      AddressesGrow(s, k + 1, m);
    }
  }

  /** Of several symbols for one address only the last can have a size. */
  lemma OneOfTheAliases(s: seq<Item>, j: nat, k: nat)
    requires Sorted(s) && j < k < |s| && s[j].addr == s[k].addr
    ensures SizeAt(s, j) == 0
  {
    AddressesGrow(s, j + 1, k);
    AddressesGrow(s, j, j + 1);
  }

  /** Area ends are numbered before functions, so a function at an area's end has its own size. */
  lemma MarkersFirst(s: seq<Item>, j: nat, k: nat)
    requires Sorted(s) && j < |s| && k < |s| && s[j].addr == s[k].addr
    requires s[j].marker && !s[k].marker
    requires forall a, b :: 0 <= a < |s| && 0 <= b < |s| && s[a].marker && !s[b].marker ==> s[a].index < s[b].index
    ensures j < k && SizeAt(s, j) == 0
  {
    OneOfTheAliases(s, j, k);
  }

  const JMP_SIZE := 5

  /** remove_aliases_and_small_funcs: what is left are functions big enough for a jump, one for each address. */
  method RemoveSmall(s: seq<Item>, sizes: array<int>) returns (kept: seq<nat>)
    requires Sorted(s) && sizes.Length == |s| && forall k :: 0 <= k < |s| ==> sizes[k] == SizeAt(s, k)
    ensures forall k :: k in kept <==> 0 <= k < |s| && !s[k].marker && SizeAt(s, k) >= JMP_SIZE
    ensures forall i, j :: 0 <= i < j < |kept| ==> kept[i] < kept[j] < |s| && s[kept[i]].addr < s[kept[j]].addr
  {
    kept := [];
    for k := 0 to |s|
      invariant forall i :: i in kept <==> 0 <= i < k && !s[i].marker && SizeAt(s, i) >= JMP_SIZE
      invariant forall i :: 0 <= i < |kept| ==> kept[i] < k
      invariant forall i, j :: 0 <= i < j < |kept| ==> kept[i] < kept[j]
    {
      if !s[k].marker && sizes[k] >= JMP_SIZE {
        kept := kept + [k];
      }
    }
    forall i, j | 0 <= i < j < |kept|
      ensures s[kept[i]].addr < s[kept[j]].addr
    {
      assert kept[i] in kept;
      AddressesGrow(s, kept[i] + 1, kept[j]);
    }
  }
}
