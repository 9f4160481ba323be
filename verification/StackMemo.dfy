/**
  Call stacks: the sampler keeps the valid addresses of a sample in reverse, StackToHash turns them into a doubly
  linked list from the back, and lists are cached by process and key.
*/
module StackMemo {
  import opened Words
  import opened StackKey

  // ----- The addresses of a sample -----

  const CONTEXT_HV: u64 := TWO64 - 32
  const CONTEXT_KERNEL: u64 := TWO64 - 128
  const CONTEXT_USER: u64 := TWO64 - 512
  const CONTEXT_GUEST: u64 := TWO64 - 2048
  const CONTEXT_GUEST_KERNEL: u64 := TWO64 - 2176
  const CONTEXT_GUEST_USER: u64 := TWO64 - 2560
  const CONTEXT_MAX: u64 := TWO64 - 4095

  /** An address, not one of the markers the kernel puts between the parts of a chain. */
  predicate IsValidIp(ip: u64) {
    && ip != CONTEXT_HV && ip != CONTEXT_KERNEL && ip != CONTEXT_USER && ip != CONTEXT_GUEST
    && ip != CONTEXT_GUEST_KERNEL && ip != CONTEXT_GUEST_USER && ip != CONTEXT_MAX
  }

  /** The markers are the seven negative numbers of enum perf_callchain_context. */
  lemma MarkersAre(ip: u64)
    ensures !IsValidIp(ip) <==> ip - TWO64 in {-32, -128, -512, -2048, -2176, -2560, -4095}
  {
  }

  /** The valid addresses, in the kernel's order. */
  function Valid(ips: seq<u64>): (r: seq<u64>) {
    if ips == [] then [] else (if IsValidIp(ips[0]) then [ips[0]] else []) + Valid(ips[1..])
  }

  function Reverse(s: seq<u64>): (r: seq<u64>)
    ensures |r| == |s| && forall i :: 0 <= i < |s| ==> r[i] == s[|s| - 1 - i]
  {
    if s == [] then [] else Reverse(s[1..]) + [s[0]]
  }

  lemma ReverseTwice(s: seq<u64>)
    ensures Reverse(Reverse(s)) == s
  {
  }

  lemma ReverseCons(x: u64, s: seq<u64>)
    ensures Reverse([x] + s) == Reverse(s) + [x]
  {
    assert ([x] + s)[1..] == s;
  }

  /** RawSampleProcess with call stacks: from the last address to the first. */
  method StoreStack(ips: seq<u64>) returns (r: seq<u64>)
    ensures r == Reverse(Valid(ips))
  {
    r := [];
    var i := |ips|;
    assert ips[i..] == [];
    while i > 0
      invariant 0 <= i <= |ips| && r == Reverse(Valid(ips[i..]))
    {
      i := i - 1;
      assert ips[i..] == [ips[i]] + ips[i + 1..];
      hide IsValidIp;
      if IsValidIp(ips[i]) {
        ReverseCons(ips[i], Valid(ips[i + 1..]));
        r := r + [ips[i]];
      } else {
        assert [] + Valid(ips[i + 1..]) == Valid(ips[i + 1..]);
      }
    }
    assert ips[0..] == ips;
  }

  /** RawSampleProcess without call stacks: the first valid address, if there is one. */
  method StoreTop(ips: seq<u64>) returns (r: seq<u64>)
    ensures r == if Valid(ips) == [] then [] else [Valid(ips)[0]]
  {
    var i := 0;
    assert ips[0..] == ips;
    while i < |ips| && !IsValidIp(ips[i])
      invariant 0 <= i <= |ips| && Valid(ips) == Valid(ips[i..])
    {
      assert ips[i..][1..] == ips[i + 1..];
      assert [] + Valid(ips[i + 1..]) == Valid(ips[i + 1..]);
      i := i + 1;
    }
    if i < |ips| {
      return [ips[i]];
    }
    return [];
  }

  // ----- The linked list -----

  class Node {
    var addr: u64
    var next: Node?
    var prev: Node?

    constructor (addr: u64)
      ensures this.addr == addr && next == null && prev == null
    {
      this.addr, next, prev := addr, null, null;
    }
  }

  /** `nodes` are linked in this order, and back. */
  ghost predicate Linked(nodes: seq<Node>)
    reads nodes
  {
    && (forall i, j :: 0 <= i < j < |nodes| ==> nodes[i] != nodes[j])
    && forall i :: 0 <= i < |nodes| ==> nodes[i].next == At(nodes, i + 1) && nodes[i].prev == At(nodes, i - 1)
  }

  function At(nodes: seq<Node>, i: int): Node? {
    if 0 <= i < |nodes| then nodes[i] else null
  }

  ghost predicate Spells(nodes: seq<Node>, addrs: seq<u64>)
    reads nodes
  {
    |nodes| == |addrs| && forall i :: 0 <= i < |nodes| ==> nodes[i].addr == addrs[i]
  }

  function HeadOf(nodes: seq<Node>): Node? {
    if nodes == [] then null else nodes[0]
  }

  lemma NextNode(nodes: seq<Node>, i: nat)
    requires Linked(nodes) && i < |nodes|
    ensures nodes[i].next == null <==> i == |nodes| - 1
    ensures i < |nodes| - 1 ==> nodes[i].next == nodes[i + 1]
  {
    assert nodes[i].next == At(nodes, i + 1);
  }

  /** The walk to the last node. */
  method LastNode(head: Node, ghost nodes: seq<Node>) returns (current: Node)
    requires Linked(nodes) && nodes != [] && head == nodes[0]
    ensures current == nodes[|nodes| - 1]
  {
    current := head;
    ghost var i := 0;
    while current.next != null
      invariant 0 <= i < |nodes| && current == nodes[i]
      decreases |nodes| - i
    {
      NextNode(nodes, i);
      current, i := current.next, i + 1;
    }
    NextNode(nodes, i);
  }

  /** AddDoubleLinkedTail: walks to the last node and hangs the new one behind it. */
  method AddDoubleLinkedTail(head: Node?, node: Node, ghost nodes: seq<Node>) returns (first: Node?)
    requires Linked(nodes) && head == HeadOf(nodes) && node !in nodes && node.next == null && node.prev == null
    modifies nodes, node
    ensures Linked(nodes + [node]) && first == HeadOf(nodes + [node])
    ensures node.addr == old(node.addr) && forall k :: 0 <= k < |nodes| ==> nodes[k].addr == old(nodes[k].addr)
  {
    if head == null {
      return node;
    }
    var current := LastNode(head, nodes);
    current.next := node;
    node.prev := current;
    ghost var all := nodes + [node];
    forall k | 0 <= k < |nodes|
      ensures all[k].prev == At(all, k - 1) && all[k].next == At(all, k + 1)
    {
      assert all[k] == nodes[k] && old(nodes[k].prev) == At(nodes, k - 1) && old(nodes[k].next) == At(nodes, k + 1);
    }
    first := head;
  }

  /** The loop of StackToHash: the list spells the stack backwards. */
  method BuildList(stack: seq<u64>) returns (head: Node?, ghost nodes: seq<Node>)
    ensures Linked(nodes) && head == HeadOf(nodes) && Spells(nodes, Reverse(stack))
    ensures forall k :: 0 <= k < |nodes| ==> fresh(nodes[k])
  {
    hide Linked, Reverse;
    head, nodes := null, [];
    NoNodes();
    var i := |stack|;
    assert stack[i..] == [];
    while i > 0
      invariant 0 <= i <= |stack| && Linked(nodes) && head == HeadOf(nodes) && Spells(nodes, Reverse(stack[i..]))
      invariant forall k :: 0 <= k < |nodes| ==> fresh(nodes[k])
    {
      i := i - 1;
      var current := new Node(stack[i]);
      ghost var spelled := Reverse(stack[i + 1..]);
      head := AddDoubleLinkedTail(head, current, nodes);
      assert Spells(nodes, spelled);
      SpellsMore(nodes, current, spelled);
      assert stack[i..] == [stack[i]] + stack[i + 1..];
      ReverseCons(stack[i], stack[i + 1..]);
      nodes := nodes + [current];
    }
    assert stack[0..] == stack;
  }

  lemma NoNodes()
    ensures Linked([]) && Spells([], Reverse([]))
  {
  }

  lemma SpellsMore(nodes: seq<Node>, node: Node, addrs: seq<u64>)
    requires Spells(nodes, addrs)
    ensures Spells(nodes + [node], addrs + [node.addr])
  {
  }

  // ----- The cache -----

  class StackTable {
    var cache: map<(int, string), Node?>
    ghost var origin: map<(int, string), seq<u64>> // the stack a cached list was built from
    ghost var lists: map<(int, string), seq<Node>>
    ghost var repr: set<Node>

    ghost predicate Valid()
      reads this, repr
    {
      AllHold(cache, origin, lists, repr)
    }

    constructor ()
      ensures Valid() && cache == map[] && origin == map[] && repr == {}
    {
      cache, origin, lists, repr := map[], map[], map[], {};
    }

    /** StackToHash: a cached list is returned as it is, else a new one is built and cached. */
    method StackToHash(pid: int, stack: seq<u64>) returns (head: Node?, ghost nodes: seq<Node>)
      requires Valid()
      modifies this
      ensures Valid() && old(repr) <= repr && fresh(repr - old(repr)) && InRepr(nodes, repr)
      ensures head == HeadOf(nodes) && Linked(nodes) && (pid, Key(stack)) in origin
      ensures origin == Known(old(origin), pid, stack)
      ensures Spells(nodes, Reverse(origin[(pid, Key(stack))]))
    {
      hide Holds, Key, Reverse;
      var id := HashStr(stack);
      var key := (pid, id);
      if key in cache {
        HoldsMeans(key.1, origin[key], lists[key], cache[key]);
        return cache[key], lists[key];
      }
      head, nodes := BuildList(stack);
      HoldsNow(id, stack, nodes, head);
      Remember(key, stack, head, nodes);
      HoldsMeans(key.1, stack, nodes, head);
    }

    method Remember(key: (int, string), ghost stack: seq<u64>, head: Node?, ghost nodes: seq<Node>)
      requires Valid() && key !in cache && Holds(key.1, stack, nodes, head)
      modifies this
      ensures Valid() && repr == old(repr) + NodesOf(nodes) && InRepr(nodes, repr)
      ensures origin == old(origin)[key := stack] && Holds(key.1, stack, nodes, head)
    {
      hide Holds, InRepr, NodesOf, AllHold;
      OneMoreHolds(cache, origin, lists, repr, key, stack, head, nodes);
      cache, origin, lists := cache[key := head], origin[key := stack], lists[key := nodes];
      repr := repr + NodesOf(nodes);
    }
  }

  /** Every cached list is the list of the stack it was built from, made of nodes in `repr`. */
  ghost predicate AllHold(cache: map<(int, string), Node?>, origin: map<(int, string), seq<u64>>,
                          lists: map<(int, string), seq<Node>>, repr: set<Node>)
    reads repr
  {
    && (forall k :: k in cache <==> k in origin) && (forall k :: k in cache <==> k in lists)
    && forall k :: k in cache ==> InRepr(lists[k], repr) && Holds(k.1, origin[k], lists[k], cache[k])
  }

  lemma OneMoreHolds(cache: map<(int, string), Node?>, origin: map<(int, string), seq<u64>>,
                     lists: map<(int, string), seq<Node>>, repr: set<Node>,
                     key: (int, string), stack: seq<u64>, head: Node?, nodes: seq<Node>)
    requires AllHold(cache, origin, lists, repr) && Holds(key.1, stack, nodes, head)
    ensures InRepr(nodes, repr + NodesOf(nodes))
    ensures AllHold(cache[key := head], origin[key := stack], lists[key := nodes], repr + NodesOf(nodes))
  {
    hide Holds, InRepr, NodesOf;
    ReprGrows(repr, nodes);
  }

  /** The first stack seen under each key. */
  function Known(origin: map<(int, string), seq<u64>>, pid: int, stack: seq<u64>): map<(int, string), seq<u64>> {
    if (pid, Key(stack)) in origin then origin else origin[(pid, Key(stack)) := stack]
  }

  ghost function NodesOf(nodes: seq<Node>): set<Node> {
    set i | 0 <= i < |nodes| :: nodes[i]
  }

  ghost predicate InRepr(nodes: seq<Node>, repr: set<Node>) {
    forall i :: 0 <= i < |nodes| ==> nodes[i] in repr
  }

  lemma ReprGrows(repr: set<Node>, nodes: seq<Node>)
    ensures InRepr(nodes, repr + NodesOf(nodes))
    ensures forall other: seq<Node> :: InRepr(other, repr) ==> InRepr(other, repr + NodesOf(nodes))
  {
  }

  /** A cached list is the list of the stack it was built from. */
  ghost predicate Holds(id: string, stack: seq<u64>, nodes: seq<Node>, head: Node?)
    reads nodes
  {
    id == Key(stack) && head == HeadOf(nodes) && Linked(nodes) && Spells(nodes, Reverse(stack))
  }

  lemma HoldsNow(id: string, stack: seq<u64>, nodes: seq<Node>, head: Node?)
    requires id == Key(stack) && head == HeadOf(nodes) && Linked(nodes) && Spells(nodes, Reverse(stack))
    ensures Holds(id, stack, nodes, head)
  {
  }

  lemma HoldsMeans(id: string, stack: seq<u64>, nodes: seq<Node>, head: Node?)
    requires Holds(id, stack, nodes, head)
    ensures id == Key(stack) && head == HeadOf(nodes) && Linked(nodes) && Spells(nodes, Reverse(stack))
  {
  }

  /** The list returned for a stack spells it exactly when its widths are those of the stack the list was built from. */
  lemma CachedIsRight(nodes: seq<Node>, stack: seq<u64>, origin: seq<u64>)
    requires Spells(nodes, Reverse(origin)) && Key(origin) == Key(stack)
    ensures Spells(nodes, Reverse(stack)) <==> SameWidths(origin, stack)
  {
    SameKeyIff(origin, stack);
    if Spells(nodes, Reverse(stack)) {
      assert Reverse(stack) == Reverse(origin);
      ReverseTwice(stack);
      ReverseTwice(origin);
    }
  }

  /** A sample's stack: the two reversals cancel, so the list spells the valid addresses in the kernel's order, unless
      an earlier stack of the process has the key with other widths. */
  method SampleStack(table: StackTable, pid: int, ips: seq<u64>) returns (head: Node?, ghost nodes: seq<Node>)
    requires table.Valid()
    modifies table
    ensures table.Valid() && old(table.repr) <= table.repr && fresh(table.repr - old(table.repr))
    ensures InRepr(nodes, table.repr)
    ensures head == HeadOf(nodes) && Linked(nodes)
    ensures table.origin == Known(old(table.origin), pid, Reverse(Valid(ips)))
    ensures (pid, Key(Reverse(Valid(ips)))) in table.origin
    ensures Spells(nodes, Valid(ips))
            <==> SameWidths(table.origin[(pid, Key(Reverse(Valid(ips))))], Reverse(Valid(ips)))
  {
    hide StackTable.Valid, Valid, Linked, Key, Reverse, SameWidths;
    var stored := StoreStack(ips);
    head, nodes := table.StackToHash(pid, stored);
    ghost var k := (pid, Key(stored));
    OriginKey(table, k);
    ReverseTwice(Valid(ips));
    CachedIsRight(nodes, stored, table.origin[k]);
  }

  lemma OriginKey(table: StackTable, k: (int, string))
    requires table.Valid() && k in table.origin
    ensures Key(table.origin[k]) == k.1
  {
    assert Holds(k.1, table.origin[k], table.lists[k], table.cache[k]);
  }

  // ----- Every run of lookups -----

  datatype Sample = Sample(pid: int, ips: seq<u64>)

  function Stored(s: Sample): seq<u64> {
    Reverse(Valid(s.ips))
  }

  function KeyOf(s: Sample): (int, string) {
    (s.pid, Key(Stored(s)))
  }

  /** The first sample with the key of sample `i`, searching from `j`. */
  function First(samples: seq<Sample>, i: nat, j: nat): (f: nat)
    requires j <= i < |samples|
    ensures j <= f <= i && KeyOf(samples[f]) == KeyOf(samples[i])
    ensures forall k :: j <= k < f ==> KeyOf(samples[k]) != KeyOf(samples[i])
    decreases i - j
  {
    if KeyOf(samples[j]) == KeyOf(samples[i]) then j else First(samples, i, j + 1)
  }

  /** The stack known under the key of sample `i` is the one that came first. */
  ghost predicate KnowsFirst(origin: map<(int, string), seq<u64>>, samples: seq<Sample>, i: nat)
    requires i < |samples|
  {
    KeyOf(samples[i]) in origin && origin[KeyOf(samples[i])] == Stored(samples[First(samples, i, 0)])
  }

  ghost predicate Seen(samples: seq<Sample>, n: nat, k: (int, string))
    requires n <= |samples|
  {
    exists i :: 0 <= i < n && KeyOf(samples[i]) == k
  }

  /** After `n` samples the table knows their keys and no others, each with the stack that came first. */
  ghost predicate Origins(origin: map<(int, string), seq<u64>>, samples: seq<Sample>, n: nat)
    requires n <= |samples|
  {
    (forall k :: k in origin ==> Seen(samples, n, k)) && forall i :: 0 <= i < n ==> KnowsFirst(origin, samples, i)
  }

  lemma OriginsNext(origin: map<(int, string), seq<u64>>, samples: seq<Sample>, n: nat)
    requires n < |samples| && Origins(origin, samples, n)
    ensures Origins(Known(origin, samples[n].pid, Stored(samples[n])), samples, n + 1)
  {
    hide KeyOf, Stored, Known, KnowsFirst, Seen;
    KnownMeans(origin, samples[n]);
    var after := Known(origin, samples[n].pid, Stored(samples[n]));
    forall k | k in after
      ensures Seen(samples, n + 1, k)
    {
      if k in origin {
        SeenMore(samples, n, k);
      } else {
        SeenNow(samples, n);
      }
    }
    forall i | 0 <= i < n + 1
      ensures KnowsFirst(after, samples, i)
    {
      if i == n {
        FirstKnown(origin, samples, n);
      } else {
        StillKnown(origin, samples, n, i);
      }
    }
  }

  lemma SeenMore(samples: seq<Sample>, n: nat, k: (int, string))
    requires n < |samples| && Seen(samples, n, k)
    ensures Seen(samples, n + 1, k)
  {
  }

  lemma SeenNow(samples: seq<Sample>, n: nat)
    requires n < |samples|
    ensures Seen(samples, n + 1, KeyOf(samples[n]))
  {
  }

  lemma StillKnown(origin: map<(int, string), seq<u64>>, samples: seq<Sample>, n: nat, i: nat)
    requires i < n < |samples| && KnowsFirst(origin, samples, i)
    ensures KnowsFirst(Known(origin, samples[n].pid, Stored(samples[n])), samples, i)
  {
    hide KeyOf, Stored, First, Known;
    KnownMeans(origin, samples[n]);
  }

  lemma FirstKnown(origin: map<(int, string), seq<u64>>, samples: seq<Sample>, n: nat)
    requires n < |samples| && Origins(origin, samples, n)
    ensures KnowsFirst(Known(origin, samples[n].pid, Stored(samples[n])), samples, n)
  {
    hide KeyOf, Stored, First, Known;
    KnownMeans(origin, samples[n]);
    if KeyOf(samples[n]) in origin {
      assert Seen(samples, n, KeyOf(samples[n]));
      var i :| 0 <= i < n && KeyOf(samples[i]) == KeyOf(samples[n]);
      assert KnowsFirst(origin, samples, i);
      assert First(samples, n, 0) == First(samples, i, 0);
    } else {
      forall i | 0 <= i < n
        ensures KeyOf(samples[i]) != KeyOf(samples[n])
      {
        assert KnowsFirst(origin, samples, i);
      }
    }
  }

  lemma KnownMeans(origin: map<(int, string), seq<u64>>, s: Sample)
    ensures Known(origin, s.pid, Stored(s)) == if KeyOf(s) in origin then origin else origin[KeyOf(s) := Stored(s)]
  {
  }

  /** Looking samples up one after the other: which of them get their own stack. */
  method SampleRun(samples: seq<Sample>) returns (table: StackTable, heads: seq<Node?>, ghost lists: seq<seq<Node>>)
    ensures fresh(table) && table.Valid() && Origins(table.origin, samples, |samples|)
    ensures |heads| == |lists| == |samples|
    ensures forall i :: 0 <= i < |samples| ==> heads[i] == HeadOf(lists[i]) && Linked(lists[i])
    ensures forall i :: 0 <= i < |samples| ==>
      (Spells(lists[i], Valid(samples[i].ips)) <==> IsRight(samples, i))
  {
    hide StackTable.Valid, Linked, Spells, Known, Origins, IsRight;
    table := new StackTable();
    heads, lists := [], [];
    OriginsStart(samples);
    for n := 0 to |samples|
      invariant fresh(table) && table.Valid() && fresh(table.repr) && Origins(table.origin, samples, n)
      invariant |heads| == |lists| == n
      invariant forall i :: 0 <= i < n ==> InRepr(lists[i], table.repr)
      invariant forall i :: 0 <= i < n ==> heads[i] == HeadOf(lists[i]) && Linked(lists[i])
      invariant forall i :: 0 <= i < n ==> (Spells(lists[i], Valid(samples[i].ips)) <==> IsRight(samples, i))
    {
      var head;
      ghost var nodes;
      ghost var known := table.origin;
      head, nodes := SampleStack(table, samples[n].pid, samples[n].ips);
      OriginsNext(known, samples, n);
      RightNow(table.origin, samples, n);
      heads, lists := heads + [head], lists + [nodes];
    }
  }

  /** Sample `i` gets its own stack: its widths are those of the first sample with its key. */
  predicate IsRight(samples: seq<Sample>, i: nat)
    requires i < |samples|
  {
    SameWidths(Stored(samples[First(samples, i, 0)]), Stored(samples[i]))
  }

  lemma OriginsStart(samples: seq<Sample>)
    ensures Origins(map[], samples, 0)
  {
  }

  lemma RightNow(origin: map<(int, string), seq<u64>>, samples: seq<Sample>, n: nat)
    requires n < |samples| && Origins(origin, samples, n + 1)
    ensures KeyOf(samples[n]) in origin
    ensures IsRight(samples, n) <==> SameWidths(origin[KeyOf(samples[n])], Stored(samples[n]))
  {
    assert KnowsFirst(origin, samples, n);
  }

  /** Every sample of a run gets its own stack exactly when stacks of one process with one key agree in their widths. */
  lemma AllRightIff(samples: seq<Sample>)
    ensures (forall i :: 0 <= i < |samples| ==> IsRight(samples, i))
            <==> forall i, j :: 0 <= i < j < |samples| && KeyOf(samples[i]) == KeyOf(samples[j]) ==>
                   SameWidths(Valid(samples[i].ips), Valid(samples[j].ips))
  {
    hide Valid, Key, SameWidths, Reverse;
    if forall i :: 0 <= i < |samples| ==> IsRight(samples, i) {
      forall i, j | 0 <= i < j < |samples| && KeyOf(samples[i]) == KeyOf(samples[j])
        ensures SameWidths(Valid(samples[i].ips), Valid(samples[j].ips))
      {
        assert First(samples, i, 0) == First(samples, j, 0);
        assert IsRight(samples, i) && IsRight(samples, j);
        SameKeyIff(Stored(samples[First(samples, i, 0)]), Stored(samples[i]));
        SameKeyIff(Stored(samples[First(samples, j, 0)]), Stored(samples[j]));
        SameKeyIff(Stored(samples[i]), Stored(samples[j]));
        WidthsReversed(Valid(samples[i].ips), Valid(samples[j].ips));
      }
    }
    if forall i, j :: 0 <= i < j < |samples| && KeyOf(samples[i]) == KeyOf(samples[j]) ==>
        SameWidths(Valid(samples[i].ips), Valid(samples[j].ips)) {
      forall i | 0 <= i < |samples|
        ensures IsRight(samples, i)
      {
        var f := First(samples, i, 0);
        if f < i {
          WidthsReversed(Valid(samples[f].ips), Valid(samples[i].ips));
        } else {
          SameKeyIff(Stored(samples[i]), Stored(samples[i]));
        }
      }
    }
  }

  lemma WidthsReversed(a: seq<u64>, b: seq<u64>)
    ensures SameWidths(a, b) <==> SameWidths(Reverse(a), Reverse(b))
  {
    hide Decimal, Reverse;
    if |a| == |b| && SameWidths(Reverse(a), Reverse(b)) {
      forall i | 0 <= i < |a|
        ensures |Decimal(a[i])| == |Decimal(b[i])|
      {
        assert a[i] == Reverse(a)[|a| - 1 - i] && b[i] == Reverse(b)[|a| - 1 - i];
      }
    }
  }

  /** With addresses of one width every sample gets its own stack. */
  lemma OneWidthIsRight(samples: seq<Sample>, w: nat)
    requires forall i :: 0 <= i < |samples| ==> OfWidth(w, Valid(samples[i].ips))
    ensures forall i :: 0 <= i < |samples| ==> IsRight(samples, i)
  {
    hide Valid, Key, SameWidths, Reverse, OfWidth;
    forall i | 0 <= i < |samples|
      ensures IsRight(samples, i)
    {
      var f := First(samples, i, 0);
      WidthOfReverse(w, Valid(samples[f].ips));
      WidthOfReverse(w, Valid(samples[i].ips));
      KeyInjective(w, Stored(samples[f]), Stored(samples[i]));
      SameKeyIff(Stored(samples[f]), Stored(samples[i]));
    }
  }

  lemma WidthOfReverse(w: nat, s: seq<u64>)
    requires OfWidth(w, s)
    ensures OfWidth(w, Reverse(s))
  {
    hide Decimal;
    assert forall i :: 0 <= i < |s| ==> Reverse(s)[i] == s[|s| - 1 - i];
  }

  /** Two stacks of different widths in one process: the second gets the list of the first. */
  method WrongStack() returns (table: StackTable, ghost nodes: seq<Node>)
    ensures fresh(table) && Spells(nodes, Reverse([1, 23])) && !Spells(nodes, Reverse([12, 3]))
  {
    KeysCollide();
    table := new StackTable();
    ghost var first;
    var a, b;
    a, first := table.StackToHash(7, [1, 23]);
    b, nodes := table.StackToHash(7, [12, 3]);
    SameKeyIff([1, 23], [12, 3]);
    CachedIsRight(nodes, [12, 3], [1, 23]);
  }
}
