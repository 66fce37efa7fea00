/** The list_alloc kernel in its three disciplines, bench/kernels/list_alloc: a
    heap node per element, one arena, and a growing vector. Masking an int64
    with 2^k - 1 is its Euclidean remainder modulo 2^k. */
module ListAlloc {
  import opened Wrappers

  // ----------------------------------------------------------- the value --

  /** The sum of the elements `i & 1023` for `i < n`. */
  function Total(n: nat): nat {
    if n == 0 then 0 else Total(n - 1) + (n - 1) % 1_024
  }

  /** The indices a walk visits, last first. */
  function Countdown(n: nat): (s: seq<int>)
    ensures |s| == n && forall k :: 0 <= k < n ==> s[k] == n - 1 - k
  {
    seq(n, k => n - 1 - k)
  }

  lemma {:induction false} TotalClosedForm(n: nat)
    ensures Total(n) == n / 1_024 * 523_776 + n % 1_024 * (n % 1_024 - 1) / 2
  {
    if n > 0 {
      TotalClosedForm(n - 1);
      var q, r := (n - 1) / 1_024, (n - 1) % 1_024;
      Triangle(r);
      if r < 1_023 {
        assert n == 1_024 * q + (r + 1);
        assert n / 1_024 == q && n % 1_024 == r + 1;
      } else {
        assert n == 1_024 * (q + 1);
        assert n / 1_024 == q + 1 && n % 1_024 == 0;
      }
    }
  }

  lemma Triangle(r: int)
    ensures (r + 1) * r / 2 == r * (r - 1) / 2 + r
  {
    assert (r + 1) * r == r * (r - 1) + 2 * r;
  }

  lemma MaskAdds(x: int, y: int)
    ensures (x % 0x10_0000 + y) % 0x10_0000 == (x + y) % 0x10_0000
  {
  }

  // ------------------------------------------------------- naive C: heap --

  class Node {
    var v: int
    var next: int
  }

  /** `malloc` and `free`: the blocks now allocated, and how often each was called. */
  class Heap {
    ghost var live: set<object>
    ghost var mallocs: nat
    ghost var frees: nat

    constructor ()
      ensures live == {} && mallocs == frees == 0
    {
      live, mallocs, frees := {}, 0, 0;
    }

    method MallocNode() returns (n: Node)
      modifies this
      ensures fresh(n) && live == old(live) + {n}
      ensures mallocs == old(mallocs) + 1 && frees == old(frees)
    {
      n := new Node;
      live, mallocs := live + {n}, mallocs + 1;
    }

    method MallocSlots(n: nat) returns (slots: array<Node?>)
      modifies this
      ensures fresh(slots) && slots.Length == n && live == old(live) + {slots}
      ensures mallocs == old(mallocs) + 1 && frees == old(frees)
    {
      slots := new Node?[n];
      live, mallocs := live + {slots}, mallocs + 1;
    }

    method MallocArena(n: nat) returns (arena: array<Cell>)
      modifies this
      ensures fresh(arena) && arena.Length == n && live == old(live) + {arena}
      ensures mallocs == old(mallocs) + 1 && frees == old(frees)
    {
      arena := new Cell[n];
      live, mallocs := live + {arena}, mallocs + 1;
    }

    /** Only a live block may be freed, so no block is freed twice. */
    method Free(block: object)
      requires block in live
      modifies this
      ensures live == old(live) - {block}
      ensures mallocs == old(mallocs) && frees == old(frees) + 1
    {
      live, frees := live - {block}, frees + 1;
    }

    /** Only a live node may be read. */
    method Read(n: Node) returns (v: int, next: int)
      requires n in live
      ensures v == n.v && next == n.next
    {
      v, next := n.v, n.next;
    }
  }

  /** `ns` are distinct nodes, element `i` of which holds `i & 1023` and a link to `i - 1`. */
  ghost predicate Linked(ns: seq<Node>)
    reads ns
  {
    && (forall i :: 0 <= i < |ns| ==> ns[i].v == i % 1_024 && ns[i].next == i - 1)
    && (forall i, j :: 0 <= i < j < |ns| ==> ns[i] != ns[j])
  }

  /** The walk of the slots: every node visited once, last first, and none read dead. */
  method WalkSlots(heap: Heap, slots: array<Node?>, ghost ns: seq<Node>)
      returns (sum: int, ghost visits: seq<int>)
    requires |ns| == slots.Length && forall j :: 0 <= j < |ns| ==> slots[j] == ns[j]
    requires Linked(ns) && forall n | n in ns :: n in heap.live
    ensures sum == Total(|ns|) % 0x10_0000 && visits == Countdown(|ns|)
  {
    sum := 0;
    visits := [];
    var idx := slots.Length - 1;
    while idx >= 0
      invariant -1 <= idx < |ns|
      invariant sum == (Total(|ns|) - Total(idx + 1)) % 0x10_0000
      invariant visits == Countdown(|ns|)[..|ns| - 1 - idx]
    {
      assert ns[idx] in ns;
      var v, next := heap.Read(slots[idx]);
      MaskAdds(Total(|ns|) - Total(idx + 1), v);
      sum := (sum + v) % 0x10_0000;
      visits := visits + [idx];
      idx := next;
    }
  }

  /** Visits every node once, ends, reads no dead one, frees each allocation
      once. A negative count stores, visits and frees no node. */
  method BuildWalkHeap(heap: Heap, nodes: int) returns (sum: int, ghost visits: seq<int>)
    modifies heap
    ensures sum == Total(AtLeastZero(nodes)) % 0x10_0000 && visits == Countdown(AtLeastZero(nodes))
    ensures heap.live == old(heap.live)
    ensures heap.mallocs - old(heap.mallocs) == AtLeastZero(nodes) + 1 == heap.frees - old(heap.frees)
  {
    var slots := heap.MallocSlots(AtLeastZero(nodes));
    ghost var ns: seq<Node> := [];
    for i := 0 to AtLeastZero(nodes)
      invariant |ns| == i && (forall j :: 0 <= j < i ==> slots[j] == ns[j])
      invariant Linked(ns) && forall n | n in ns :: fresh(n)
      invariant heap.live == old(heap.live) + {slots} + set n | n in ns
      invariant heap.mallocs == old(heap.mallocs) + 1 + i && heap.frees == old(heap.frees)
    {
      var n := heap.MallocNode();
      n.v := i % 1_024;
      n.next := i - 1;
      slots[i] := n;
      ns := ns + [n];
    }
    sum, visits := WalkSlots(heap, slots, ns);
    for i := 0 to AtLeastZero(nodes)
      invariant heap.live == old(heap.live) + {slots} + set n | n in ns[i..]
      invariant heap.mallocs == old(heap.mallocs) + 1 + |ns| && heap.frees == old(heap.frees) + i
      invariant forall j :: 0 <= j < |ns| ==> slots[j] == ns[j]
    {
      assert ns[i..] == [ns[i]] + ns[i + 1..];
      assert ns[i] in ns && ns[i] !in ns[i + 1..];
      heap.Free(slots[i]);
    }
    heap.Free(slots);
  }

  // ------------------------------------------------ expert C: one arena --

  datatype Cell = Cell(v: int, next: int)

  predicate CellsLinked(cells: seq<Cell>) {
    forall i :: 0 <= i < |cells| ==> cells[i] == Cell(i % 1_024, i - 1)
  }

  method BuildWalkArena(heap: Heap, nodes: int) returns (sum: int, ghost visits: seq<int>)
    modifies heap
    ensures sum == Total(AtLeastZero(nodes)) % 0x10_0000 && visits == Countdown(AtLeastZero(nodes))
    ensures heap.live == old(heap.live)
    ensures heap.mallocs - old(heap.mallocs) == 1 == heap.frees - old(heap.frees)
  {
    var count := AtLeastZero(nodes);
    var arena := heap.MallocArena(count);
    for i := 0 to count
      invariant CellsLinked(arena[..i])
      modifies arena
    {
      arena[i] := Cell(i % 1_024, i - 1);
      assert arena[..i + 1] == arena[..i] + [arena[i]];
    }
    sum := 0;
    visits := [];
    var idx := nodes - 1;
    while idx >= 0
      invariant (0 <= nodes ==> -1 <= idx) && (nodes < 0 ==> idx == nodes - 1) && idx < count
      invariant sum == (Total(count) - Total(AtLeastZero(idx + 1))) % 0x10_0000
      invariant visits == Countdown(count)[..count - AtLeastZero(idx + 1)]
      modifies {}
    {
      assert arena[idx] == arena[..count][idx];
      MaskAdds(Total(count) - Total(idx + 1), arena[idx].v);
      sum := (sum + arena[idx].v) % 0x10_0000;
      visits := visits + [idx];
      idx := arena[idx].next;
    }
    heap.Free(arena);
  }

  // --------------------------------------------- Rust: a growing vector --

  /** The Rust lane takes any count; a negative one builds and walks nothing. */
  method BuildWalkVec(nodes: int) returns (sum: int, ghost visits: seq<int>)
    ensures sum == Total(AtLeastZero(nodes)) % 0x10_0000 && visits == Countdown(AtLeastZero(nodes))
  {
    var xs: seq<Cell> := [];
    var i := 0;
    while i < nodes
      invariant |xs| == i && (0 <= nodes ==> i <= nodes) && (nodes < 0 ==> i == 0)
      invariant CellsLinked(xs)
    {
      xs := xs + [Cell(i % 1_024, i - 1)];
      i := i + 1;
    }
    sum := 0;
    visits := [];
    var idx := nodes - 1;
    while idx >= 0
      invariant 0 <= nodes ==> -1 <= idx < nodes
      invariant 0 <= nodes ==> sum == (Total(nodes) - Total(idx + 1)) % 0x10_0000
      invariant 0 <= nodes ==> visits == Countdown(nodes)[..nodes - 1 - idx]
      invariant nodes < 0 ==> sum == 0 && visits == []
    {
      var n := xs[idx];
      MaskAdds(Total(nodes) - Total(idx + 1), n.v);
      sum := (sum + n.v) % 0x10_0000;
      visits := visits + [idx];
      idx := n.next;
    }
  }
}
