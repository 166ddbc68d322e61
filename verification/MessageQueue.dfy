/**
 The bounded priority queue. The heap array is the one of Python's `heapq`: `heappush` sifts the new
 entry towards the root, `heappop` moves the last entry to the root, sifts it to a leaf along the
 smaller children and from there back towards the root. Every locked method is one atomic step.
 */
module MessageQueue {
  import opened Common

  const NORMAL := 2
  const LOW := 3

  /** Python's `IndexError`. */
  datatype Error = IndexError

  datatype Item<T> = Item(priority: int, counter: nat, payload: T)

  /** The order of the dataclass: priority, then arrival. */
  predicate Less<T>(a: Item<T>, b: Item<T>) {
    a.priority < b.priority || (a.priority == b.priority && a.counter < b.counter)
  }

  // ---------- heapq ----------

  function Above(i: nat): nat
    requires i > 0
  {
    (i - 1) / 2
  }

  predicate EdgeOk<T>(h: seq<Item<T>>, i: nat)
    requires 0 < i < |h|
  {
    !Less(h[i], h[Above(i)])
  }

  predicate IsHeap<T>(h: seq<Item<T>>) {
    forall i :: 0 < i < |h| ==> EdgeOk(h, i)
  }

  function Swap<T>(h: seq<Item<T>>, i: nat, j: nat): (r: seq<Item<T>>)
    requires i < |h| && j < |h|
    ensures |r| == |h|
  {
    h[i := h[j]][j := h[i]]
  }

  lemma SwapKeepsBag<T>(h: seq<Item<T>>, i: nat, j: nat)
    requires i < |h| && j < |h|
    ensures multiset(Swap(h, i, j)) == multiset(h)
  {
    var once := h[i := h[j]];
    assert multiset(once) == multiset(h) - multiset{h[i]} + multiset{h[j]};
    assert multiset(once[j := h[i]]) == multiset(once) - multiset{once[j]} + multiset{h[i]};
  }

  function ToRoot<T>(h: seq<Item<T>>, pos: nat): (r: seq<Item<T>>)
    requires pos < |h|
    ensures |r| == |h|
    decreases pos
  {
    if pos > 0 && Less(h[pos], h[Above(pos)]) then ToRoot(Swap(h, pos, Above(pos)), Above(pos)) else h
  }

  function SmallerChild<T>(h: seq<Item<T>>, pos: nat): (child: nat)
    requires 2 * pos + 1 < |h|
    ensures pos < child < |h| && (child == 2 * pos + 1 || child == 2 * pos + 2)
  {
    var left := 2 * pos + 1;
    if left + 1 < |h| && !Less(h[left], h[left + 1]) then left + 1 else left
  }

  function ToLeaf<T>(h: seq<Item<T>>, pos: nat): (r: (seq<Item<T>>, nat))
    requires pos < |h|
    ensures |r.0| == |h| && r.1 < |h|
    decreases |h| - pos
  {
    if 2 * pos + 1 < |h| then
      var child := SmallerChild(h, pos);
      ToLeaf(Swap(h, pos, child), child)
    else (h, pos)
  }

  function Push<T>(h: seq<Item<T>>, item: Item<T>): seq<Item<T>> {
    ToRoot(h + [item], |h|)
  }

  function Pop<T>(h: seq<Item<T>>): (Item<T>, seq<Item<T>>)
    requires h != []
  {
    var last := h[|h| - 1];
    var rest := h[..|h| - 1];
    if rest == [] then (last, [])
    else
      var (sunk, pos) := ToLeaf(rest[0 := last], 0);
      (rest[0], ToRoot(sunk, pos))
  }

  /** Nothing below `pos` is smaller than what is above it. */
  predicate Bridged<T>(h: seq<Item<T>>, pos: nat)
    requires pos < |h|
  {
    pos > 0 ==>
      && (2 * pos + 1 < |h| ==> !Less(h[2 * pos + 1], h[Above(pos)]))
      && (2 * pos + 2 < |h| ==> !Less(h[2 * pos + 2], h[Above(pos)]))
  }

  /** A heap but for the edge above `pos`. */
  predicate HeapButUp<T>(h: seq<Item<T>>, pos: nat)
    requires pos < |h|
  {
    Bridged(h, pos) && forall i :: 0 < i < |h| && i != pos ==> EdgeOk(h, i)
  }

  /** A heap but for the edges above and below `pos`. */
  predicate HeapButAround<T>(h: seq<Item<T>>, pos: nat)
    requires pos < |h|
  {
    Bridged(h, pos) && forall i :: 0 < i < |h| && i != pos && Above(i) != pos ==> EdgeOk(h, i)
  }

  /** An entry smaller than the one above it trades places with it. */
  lemma Rises<T>(h: seq<Item<T>>, pos: nat)
    requires 0 < pos < |h| && HeapButUp(h, pos) && Less(h[pos], h[Above(pos)])
    ensures HeapButUp(Swap(h, pos, Above(pos)), Above(pos))
  {
    var parent := Above(pos);
    var next := Swap(h, pos, parent);
    forall i | 0 < i < |next| && i != parent ensures EdgeOk(next, i) {
      assert i == pos || EdgeOk(h, i);
      assert Above(i) == pos ==> i == 2 * pos + 1 || i == 2 * pos + 2;
    }
    if parent > 0 {
      assert EdgeOk(h, parent);
      assert 2 * parent + 1 != pos && 2 * parent + 1 < |h| ==> EdgeOk(h, 2 * parent + 1);
      assert 2 * parent + 2 != pos && 2 * parent + 2 < |h| ==> EdgeOk(h, 2 * parent + 2);
    }
  }

  lemma {:induction false} ToRootRestores<T>(h: seq<Item<T>>, pos: nat)
    requires pos < |h| && HeapButUp(h, pos)
    ensures IsHeap(ToRoot(h, pos)) && multiset(ToRoot(h, pos)) == multiset(h)
    decreases pos
  {
    if pos > 0 && Less(h[pos], h[Above(pos)]) {
      var parent := Above(pos);
      var next := Swap(h, pos, parent);
      SwapKeepsBag(h, pos, parent);
      Rises(h, pos);
      hide HeapButUp, Swap, Less;
      ToRootRestores(next, parent);
    } else if pos > 0 {
      assert EdgeOk(h, pos);
    }
  }

  /** The smaller child moves up in place of the entry that sinks. */
  lemma Sinks<T>(h: seq<Item<T>>, pos: nat)
    requires 2 * pos + 1 < |h| && HeapButAround(h, pos)
    ensures HeapButAround(Swap(h, pos, SmallerChild(h, pos)), SmallerChild(h, pos))
  {
    var child := SmallerChild(h, pos);
    var next := Swap(h, pos, child);
    SinkEdges(h, pos, child);
    assert 2 * child + 1 < |h| ==> EdgeOk(h, 2 * child + 1);
    assert 2 * child + 2 < |h| ==> EdgeOk(h, 2 * child + 2);
  }

  lemma SinkEdges<T>(h: seq<Item<T>>, pos: nat, child: nat)
    requires 2 * pos + 1 < |h| && HeapButAround(h, pos) && child == SmallerChild(h, pos)
    ensures var next := Swap(h, pos, child);
            forall i | 0 < i < |next| && i != child && Above(i) != child :: EdgeOk(next, i)
  {
    var next := Swap(h, pos, child);
    forall i | 0 < i < |next| && i != child && Above(i) != child ensures EdgeOk(next, i) {
      assert i == pos || Above(i) == pos || EdgeOk(h, i);
      assert Above(i) == pos ==> i == 2 * pos + 1 || i == 2 * pos + 2;
    }
  }

  lemma {:induction false} ToLeafOpens<T>(h: seq<Item<T>>, pos: nat)
    requires pos < |h| && HeapButAround(h, pos)
    ensures var (sunk, leaf) := ToLeaf(h, pos); HeapButUp(sunk, leaf) && multiset(sunk) == multiset(h)
    decreases |h| - pos
  {
    if 2 * pos + 1 < |h| {
      var child := SmallerChild(h, pos);
      var next := Swap(h, pos, child);
      SwapKeepsBag(h, pos, child);
      Sinks(h, pos);
      hide HeapButAround, Swap, Less;
      ToLeafOpens(next, child);
    } else {
      forall i | 0 < i < |h| && i != pos ensures EdgeOk(h, i) {
        assert Above(i) != pos;
      }
    }
  }

  /** `heappush` and `heappop` keep the heap and lose or invent nothing; the root is what is popped. */
  lemma PushKeepsHeap<T>(h: seq<Item<T>>, item: Item<T>)
    requires IsHeap(h)
    ensures IsHeap(Push(h, item)) && multiset(Push(h, item)) == multiset(h) + multiset{item}
    ensures |Push(h, item)| == |h| + 1
  {
    var longer := h + [item];
    forall i | 0 < i < |h| ensures EdgeOk(longer, i) {
      assert EdgeOk(h, i);
    }
    ToRootRestores(longer, |h|);
  }

  lemma PopKeepsHeap<T>(h: seq<Item<T>>)
    requires IsHeap(h) && h != []
    ensures IsHeap(Pop(h).1) && Pop(h).0 == h[0]
    ensures multiset(h) == multiset(Pop(h).1) + multiset{h[0]} && |Pop(h).1| == |h| - 1
  {
    var last, rest := h[|h| - 1], h[..|h| - 1];
    assert h == rest + [last];
    if rest != [] {
      hide ToLeaf, ToRoot, HeapButAround, HeapButUp, Less;
      var moved := rest[0 := last];
      RootReplaced(h);
      ToLeafOpens(moved, 0);
      var (sunk, pos) := ToLeaf(moved, 0);
      ToRootRestores(sunk, pos);
    }
  }

  lemma RootBag<T>(h: seq<Item<T>>)
    requires |h| > 1
    ensures var last, rest := h[|h| - 1], h[..|h| - 1];
            multiset(h) == multiset(rest[0 := last]) + multiset{h[0]}
  {
    var last, rest := h[|h| - 1], h[..|h| - 1];
    assert h == rest + [last] && rest == [h[0]] + rest[1..] && rest[0 := last] == [last] + rest[1..];
  }

  lemma RootReplaced<T>(h: seq<Item<T>>)
    requires IsHeap(h) && |h| > 1
    ensures var last, rest := h[|h| - 1], h[..|h| - 1];
            HeapButAround(rest[0 := last], 0) && multiset(h) == multiset(rest[0 := last]) + multiset{h[0]}
  {
    hide Less;
    var last, rest := h[|h| - 1], h[..|h| - 1];
    var moved := rest[0 := last];
    RootBag(h);
    forall i | 0 < i < |moved| && Above(i) != 0 ensures EdgeOk(moved, i) {
      assert EdgeOk(h, i);
    }
  }

  lemma {:induction false} RootIsLeast<T>(h: seq<Item<T>>, i: nat)
    requires IsHeap(h) && i < |h|
    ensures !Less(h[i], h[0])
    decreases i
  {
    if i > 0 {
      assert EdgeOk(h, i);
      RootIsLeast(h, Above(i));
    }
  }

  /** What remains to be popped is nowhere smaller than what is popped. */
  lemma PopIsLeast<T>(h: seq<Item<T>>, x: Item<T>)
    requires IsHeap(h) && h != [] && x in multiset(h)
    ensures !Less(x, Pop(h).0)
  {
    PopKeepsHeap(h);
    var i :| 0 <= i < |h| && h[i] == x;
    RootIsLeast(h, i);
  }

  // ---------- the queue ----------

  class PriorityMessageQueue<T> {
    const maxsize: int
    var heap: seq<Item<T>>
    var counter: nat
    var dropped: nat

    constructor (maxsize: int)
      ensures this.maxsize == maxsize && heap == [] && counter == 0 && dropped == 0
    {
      this.maxsize := maxsize;
      heap, counter, dropped := [], 0, 0;
    }

    method SiftToRoot(start: nat)
      requires start < |heap|
      modifies this`heap
      ensures heap == ToRoot(old(heap), start)
    {
      var pos := start;
      while pos > 0
        invariant 0 <= pos < |heap| && ToRoot(heap, pos) == ToRoot(old(heap), start)
      {
        var parent := (pos - 1) / 2;
        if !Less(heap[pos], heap[parent]) {
          return;
        }
        heap := heap[pos := heap[parent]][parent := heap[pos]];
        pos := parent;
      }
    }

    method SiftToLeaf() returns (pos: nat)
      requires |heap| > 0
      modifies this`heap
      ensures (heap, pos) == ToLeaf(old(heap), 0)
    {
      pos := 0;
      while 2 * pos + 1 < |heap|
        invariant pos < |heap| == |old(heap)| && ToLeaf(heap, pos) == ToLeaf(old(heap), 0)
        decreases |heap| - pos
      {
        var child := 2 * pos + 1;
        if child + 1 < |heap| && !Less(heap[child], heap[child + 1]) {
          child := child + 1;
        }
        heap := heap[pos := heap[child]][child := heap[pos]];
        pos := child;
      }
    }

    method HeapPop() returns (item: Item<T>)
      requires heap != []
      modifies this`heap
      ensures (item, heap) == Pop(old(heap))
    {
      item := heap[|heap| - 1];
      heap := heap[..|heap| - 1];
      if heap != [] {
        var last := item;
        item := heap[0];
        heap := heap[0 := last];
        var pos := SiftToLeaf();
        SiftToRoot(pos);
      }
    }

    /**
     With room the entry is added. A full queue gives its last slot for it if it may drop the oldest, and rejects it
     otherwise. A negative bound counts as full at once; evicting from the empty list is an IndexError and changes
     nothing.
     */
    method Put(payload: T, priority: int, dropOldest: bool) returns (stored: Result<bool, Error>)
      modifies this
      ensures var q := Apply(old(Snapshot()), maxsize, OpPut(payload, priority, dropOldest));
              && Snapshot() == q.0
              && stored == if q.1.Raised? then Err(IndexError) else Ok(!q.1.Rejected?)
      ensures PutIsRight(old(Snapshot()), maxsize, payload, priority, dropOldest, Snapshot(), stored)
    {
      hide PutIsRight, Less;
      PutDoes(Snapshot(), maxsize, payload, priority, dropOldest);
      if maxsize != 0 && |heap| >= maxsize {
        if !dropOldest {
          dropped := dropped + 1;
          return Ok(false);
        }
        if heap == [] {
          return Err(IndexError);
        }
        heap := heap[..|heap| - 1];
        dropped := dropped + 1;
      }
      heap := heap + [Item(priority, counter, payload)];
      counter := counter + 1;
      SiftToRoot(|heap| - 1);
      return Ok(true);
    }

    /** `get` once its wait is over, and `get_nowait`. */
    method Get() returns (payload: Option<T>)
      modifies this`heap
      ensures var q := Apply(old(Snapshot()), maxsize, OpGet);
              Snapshot() == q.0 && payload == if q.1.Taken? then Some(q.1.item.payload) else None
    {
      if |heap| == 0 {
        return None;
      }
      var item := HeapPop();
      return Some(item.payload);
    }

    method Clear() returns (count: nat)
      modifies this`heap
      ensures Snapshot() == Apply(old(Snapshot()), maxsize, OpClear).0 && count == |old(heap)|
    {
      count := |heap|;
      heap := [];
    }

    ghost function Snapshot(): Queue<T>
      reads this
    {
      Queue(heap, counter, dropped)
    }
  }

  // ---------- runs ----------

  datatype Queue<T> = Queue(heap: seq<Item<T>>, counter: nat, dropped: nat)

  datatype Op<T> = OpPut(payload: T, priority: int, dropOldest: bool) | OpGet | OpClear

  /** What happened to which entry in one operation. */
  datatype Effect<T> =
    | Rejected
    | Raised
    | Stored(item: Item<T>)
    | StoredEvicting(item: Item<T>, evicted: Item<T>)
    | Taken(item: Item<T>)
    | Nothing
    | Cleared(items: seq<Item<T>>)

  function Apply<T>(q: Queue<T>, maxsize: int, op: Op<T>): (Queue<T>, Effect<T>) {
    match op
    case OpPut(payload, priority, dropOldest) =>
      var item := Item(priority, q.counter, payload);
      if maxsize != 0 && |q.heap| >= maxsize then
        if !dropOldest then (q.(dropped := q.dropped + 1), Rejected)
        else if q.heap == [] then (q, Raised)
        else
          var last := |q.heap| - 1;
          (Queue(Push(q.heap[..last], item), q.counter + 1, q.dropped + 1), StoredEvicting(item, q.heap[last]))
      else (q.(heap := Push(q.heap, item), counter := q.counter + 1), Stored(item))
    case OpGet =>
      if q.heap == [] then (q, Nothing) else var (item, rest) := Pop(q.heap); (q.(heap := rest), Taken(item))
    case OpClear => (q.(heap := []), Cleared(q.heap))
  }

  /** Bookkeeping over a run: where every entry that was ever put has gone. */
  datatype Ledger<T(==)> = Ledger(
    puts: nat,
    rejected: nat,
    raised: nat,
    accepted: multiset<Item<T>>,
    delivered: multiset<Item<T>>,
    cleared: multiset<Item<T>>,
    evicted: multiset<Item<T>>)

  function Book<T(==)>(l: Ledger<T>, e: Effect<T>): Ledger<T> {
    match e
    case Rejected => l.(puts := l.puts + 1, rejected := l.rejected + 1)
    case Raised => l.(puts := l.puts + 1, raised := l.raised + 1)
    case Stored(item) => l.(puts := l.puts + 1, accepted := l.accepted + multiset{item})
    case StoredEvicting(item, out) =>
      l.(puts := l.puts + 1, accepted := l.accepted + multiset{item}, evicted := l.evicted + multiset{out})
    case Taken(item) => l.(delivered := l.delivered + multiset{item})
    case Nothing => l
    case Cleared(items) => l.(cleared := l.cleared + multiset(items))
  }

  function Run<T(==)>(q: Queue<T>, l: Ledger<T>, maxsize: int, ops: seq<Op<T>>): (Queue<T>, Ledger<T>)
    decreases |ops|
  {
    if ops == [] then (q, l)
    else
      var (next, effect) := Apply(q, maxsize, ops[0]);
      Run(next, Book(l, effect), maxsize, ops[1..])
  }

  function Empty<T(==)>(): Queue<T> {
    Queue([], 0, 0)
  }

  function Blank<T(==)>(): Ledger<T> {
    Ledger(0, 0, 0, multiset{}, multiset{}, multiset{}, multiset{})
  }

  /** Every entry ever accepted is in exactly one place, every attempt is counted once. */
  predicate Balanced<T(==)>(q: Queue<T>, l: Ledger<T>) {
    && l.accepted == multiset(q.heap) + l.delivered + l.cleared + l.evicted
    && l.puts == |l.accepted| + l.rejected + l.raised
    && q.dropped == |l.evicted| + l.rejected
  }

  /** Arrival numbers identify the accepted entries. */
  predicate Numbered<T(==)>(q: Queue<T>, l: Ledger<T>) {
    && (forall x :: x in l.accepted ==> l.accepted[x] == 1 && x.counter < q.counter)
    && (forall x, y :: x in l.accepted && y in l.accepted && x.counter == y.counter ==> x == y)
  }

  predicate QueueInv<T(==)>(q: Queue<T>, l: Ledger<T>, maxsize: int) {
    && IsHeap(q.heap) && Balanced(q, l) && Numbered(q, l)
    && (maxsize > 0 ==> |q.heap| <= maxsize) && (maxsize < 0 ==> q.heap == [])
    && (maxsize >= 0 ==> l.raised == 0)
  }

  lemma BeginningIsHeap<T>(h: seq<Item<T>>, k: nat)
    requires IsHeap(h) && k <= |h|
    ensures IsHeap(h[..k])
  {
    forall i | 0 < i < k ensures EdgeOk(h[..k], i) {
      assert EdgeOk(h, i);
    }
  }

  lemma AcceptKeepsNumbered<T>(q: Queue<T>, l: Ledger<T>, item: Item<T>, next: Queue<T>, after: Ledger<T>)
    requires Numbered(q, l) && item.counter == q.counter && next.counter == q.counter + 1
    requires after.accepted == l.accepted + multiset{item}
    ensures Numbered(next, after)
  {
    assert item !in l.accepted;
    forall x | x in after.accepted ensures after.accepted[x] == 1 && x.counter < next.counter {
      assert x == item || x in l.accepted;
    }
    forall x, y | x in after.accepted && y in after.accepted && x.counter == y.counter ensures x == y {
      assert x == item || x in l.accepted;
      assert y == item || y in l.accepted;
    }
  }

  lemma EvictingPutKeeps<T>(q: Queue<T>, l: Ledger<T>, maxsize: int, item: Item<T>)
    requires QueueInv(q, l, maxsize) && q.heap != [] && item.counter == q.counter
    ensures var last := |q.heap| - 1;
            var next := Queue(Push(q.heap[..last], item), q.counter + 1, q.dropped + 1);
            QueueInv(next, Book(l, StoredEvicting(item, q.heap[last])), maxsize)
  {
    var last := |q.heap| - 1;
    var kept, gone := q.heap[..last], multiset{q.heap[last]};
    var after := Book(l, StoredEvicting(item, q.heap[last]));
    AcceptKeepsNumbered(q, l, item, Queue(Push(kept, item), q.counter + 1, q.dropped + 1), after);
    BeginningIsHeap(q.heap, last);
    PushKeepsHeap(kept, item);
    assert q.heap == kept + [q.heap[last]];
    assert multiset(q.heap) == multiset(kept) + gone;
    assert after.accepted == (multiset(kept) + multiset{item}) + l.delivered + l.cleared + (l.evicted + gone);
  }

  lemma StoringPutKeeps<T>(q: Queue<T>, l: Ledger<T>, maxsize: int, item: Item<T>)
    requires QueueInv(q, l, maxsize) && item.counter == q.counter && (maxsize != 0 ==> |q.heap| < maxsize)
    ensures QueueInv(q.(heap := Push(q.heap, item), counter := q.counter + 1), Book(l, Stored(item)), maxsize)
  {
    hide Push, IsHeap;
    var after := Book(l, Stored(item));
    AcceptKeepsNumbered(q, l, item, q.(heap := Push(q.heap, item), counter := q.counter + 1), after);
    PushKeepsHeap(q.heap, item);
    hide Numbered;
    assert after.accepted == (multiset(q.heap) + multiset{item}) + l.delivered + l.cleared + l.evicted;
  }

  lemma RefusingPutKeeps<T>(q: Queue<T>, l: Ledger<T>, maxsize: int)
    requires QueueInv(q, l, maxsize)
    ensures QueueInv(q.(dropped := q.dropped + 1), Book(l, Rejected), maxsize)
    ensures maxsize < 0 ==> QueueInv(q, Book(l, Raised), maxsize)
  {
    hide IsHeap;
  }

  lemma PutKeeps<T>(q: Queue<T>, l: Ledger<T>, maxsize: int, op: Op<T>)
    requires QueueInv(q, l, maxsize) && op.OpPut?
    ensures var (next, effect) := Apply(q, maxsize, op); QueueInv(next, Book(l, effect), maxsize)
  {
    var item := Item(op.priority, q.counter, op.payload);
    var (next, effect) := Apply(q, maxsize, op);
    RefusingPutKeeps(q, l, maxsize);
    hide Push, IsHeap, Balanced, Numbered, Book;
    if effect.StoredEvicting? {
      EvictingPutKeeps(q, l, maxsize, item);
    } else if effect.Stored? {
      StoringPutKeeps(q, l, maxsize, item);
    }
  }

  lemma GetKeeps<T>(q: Queue<T>, l: Ledger<T>, maxsize: int)
    requires QueueInv(q, l, maxsize) && q.heap != []
    ensures var (next, effect) := Apply(q, maxsize, OpGet); QueueInv(next, Book(l, effect), maxsize)
  {
    PopKeepsHeap(q.heap);
    var rest, item := Pop(q.heap).1, q.heap[0];
    assert multiset(q.heap) + l.delivered == multiset(rest) + (l.delivered + multiset{item});
  }

  lemma ClearKeeps<T>(q: Queue<T>, l: Ledger<T>, maxsize: int)
    requires QueueInv(q, l, maxsize)
    ensures var (next, effect) := Apply(q, maxsize, OpClear); QueueInv(next, Book(l, effect), maxsize)
  {
    assert multiset(q.heap) + l.cleared == l.cleared + multiset(q.heap);
  }

  lemma OperationKeeps<T>(q: Queue<T>, l: Ledger<T>, maxsize: int, op: Op<T>)
    requires QueueInv(q, l, maxsize)
    ensures var (next, effect) := Apply(q, maxsize, op); QueueInv(next, Book(l, effect), maxsize)
  {
    if op.OpPut? {
      PutKeeps(q, l, maxsize, op);
    } else if op.OpClear? {
      ClearKeeps(q, l, maxsize);
    } else if q.heap != [] {
      GetKeeps(q, l, maxsize);
    }
  }

  lemma {:induction false} RunKeeps<T>(q: Queue<T>, l: Ledger<T>, maxsize: int, ops: seq<Op<T>>)
    requires QueueInv(q, l, maxsize)
    ensures var (end, ledger) := Run(q, l, maxsize, ops); QueueInv(end, ledger, maxsize)
    decreases |ops|
  {
    if ops != [] {
      OperationKeeps(q, l, maxsize, ops[0]);
      var (next, effect) := Apply(q, maxsize, ops[0]);
      RunKeeps(next, Book(l, effect), maxsize, ops[1..]);
    }
  }

  /**
   After any sequence of operations the array is a heap within the bound, and every `put` attempt is
   exactly one of queued, delivered, cleared or counted as dropped. Only under a negative bound, where nothing
   is ever queued, it can also be one that raised.
   */
  lemma EveryRun<T>(maxsize: int, ops: seq<Op<T>>)
    ensures var (q, l) := Run(Empty<T>(), Blank<T>(), maxsize, ops);
            && QueueInv(q, l, maxsize)
            && l.puts == |q.heap| + |l.delivered| + |l.cleared| + q.dropped + l.raised
            && (l.raised > 0 ==> maxsize < 0) && (maxsize < 0 ==> q.heap == [])
  {
    RunKeeps(Empty<T>(), Blank<T>(), maxsize, ops);
  }

  /** What `get` returns in any reachable state comes before everything that stays. */
  lemma GetTakesMostUrgent<T>(q: Queue<T>, l: Ledger<T>, maxsize: int, x: Item<T>)
    requires QueueInv(q, l, maxsize) && q.heap != []
    ensures var (next, effect) := Apply(q, maxsize, OpGet);
            effect.Taken? && (x in multiset(next.heap) ==> Less(effect.item, x))
  {
    var (next, effect) := Apply(q, maxsize, OpGet);
    PopKeepsHeap(q.heap);
    if x in multiset(next.heap) {
      assert x in multiset(q.heap);
      PopIsLeast(q.heap, x);
      DistinctInHeap(q, l, effect.item, x, next);
    }
  }

  lemma DistinctInHeap<T>(q: Queue<T>, l: Ledger<T>, x: Item<T>, y: Item<T>, rest: Queue<T>)
    requires Balanced(q, l) && Numbered(q, l)
    requires multiset(q.heap) == multiset(rest.heap) + multiset{x} && y in multiset(rest.heap)
    ensures x.counter != y.counter
  {
    assert x in multiset(q.heap) && y in multiset(q.heap);
    assert multiset(q.heap)[x] <= l.accepted[x] == 1;
    assert y in l.accepted;
  }

  /** Eviction from two or more entries spares the most urgent one. */
  lemma EvictionSparesMostUrgent<T>(q: Queue<T>, l: Ledger<T>, maxsize: int)
    requires QueueInv(q, l, maxsize) && |q.heap| >= 2
    ensures Less(q.heap[0], q.heap[|q.heap| - 1])
  {
    var last := |q.heap| - 1;
    RootIsLeast(q.heap, last);
    assert q.heap == q.heap[..last] + [q.heap[last]];
    DistinctInHeap(q, l, q.heap[last], q.heap[0], q.(heap := q.heap[..last]));
  }

  // ---------- put ----------

  /** The answer of `put` that goes with an effect. */
  function AnswerOf<T>(effect: Effect<T>): Result<bool, Error> {
    if effect.Raised? then Err(IndexError) else Ok(!effect.Rejected?)
  }

  /** What a put does to the entries, the counters and its caller. */
  predicate PutIsRight<T(==)>(q: Queue<T>, maxsize: int, payload: T, priority: int, dropOldest: bool, next: Queue<T>,
                              stored: Result<bool, Error>)
  {
    var entry := multiset{Item(priority, q.counter, payload)};
    if maxsize == 0 || |q.heap| < maxsize then
      && multiset(next.heap) == multiset(q.heap) + entry
      && next.counter == q.counter + 1 && next.dropped == q.dropped && stored == Ok(true)
    else if !dropOldest then
      next.heap == q.heap && next.counter == q.counter && next.dropped == q.dropped + 1 && stored == Ok(false)
    else if q.heap != [] then
      && multiset(next.heap) == multiset(q.heap) - multiset{q.heap[|q.heap| - 1]} + entry
      && next.counter == q.counter + 1 && next.dropped == q.dropped + 1 && stored == Ok(true)
    else next == q && stored == Err(IndexError)
  }

  lemma PutDoes<T>(q: Queue<T>, maxsize: int, payload: T, priority: int, dropOldest: bool)
    ensures var (next, effect) := Apply(q, maxsize, OpPut(payload, priority, dropOldest));
            PutIsRight(q, maxsize, payload, priority, dropOldest, next, AnswerOf(effect))
  {
    var item := Item(priority, q.counter, payload);
    if maxsize == 0 || |q.heap| < maxsize {
      PushAdds(q.heap, item);
    } else if q.heap != [] {
      var last := |q.heap| - 1;
      PushAdds(q.heap[..last], item);
      assert q.heap == q.heap[..last] + [q.heap[last]];
    }
  }

  lemma PushAdds<T>(h: seq<Item<T>>, item: Item<T>)
    ensures multiset(Push(h, item)) == multiset(h) + multiset{item}
  {
    ToRootKeepsBag(h + [item], |h|);
  }

  lemma {:induction false} ToRootKeepsBag<T>(h: seq<Item<T>>, pos: nat)
    requires pos < |h|
    ensures multiset(ToRoot(h, pos)) == multiset(h)
    decreases pos
  {
    if pos > 0 && Less(h[pos], h[Above(pos)]) {
      SwapKeepsBag(h, pos, Above(pos));
      ToRootKeepsBag(Swap(h, pos, Above(pos)), Above(pos));
    }
  }

  /**
   On every full queue that operations can lead to: with `drop_oldest` the entry takes the place of the one in the
   last slot, without it nothing but the count of dropped entries changes; and neither happens before the queue is
   full. The new entry is the latest.
   */
  lemma PutOnFull<T>(q: Queue<T>, l: Ledger<T>, maxsize: int, payload: T, priority: int, dropOldest: bool)
    requires QueueInv(q, l, maxsize) && maxsize > 0
    ensures var (next, effect) := Apply(q, maxsize, OpPut(payload, priority, dropOldest));
            var entry := multiset{Item(priority, q.counter, payload)};
            && |q.heap| <= maxsize && (forall x <- q.heap :: x.counter < q.counter)
            && (if |q.heap| < maxsize then
                  multiset(next.heap) == multiset(q.heap) + entry && next.dropped == q.dropped
                else if dropOldest then
                  multiset(next.heap) == multiset(q.heap[..maxsize - 1]) + entry && next.dropped == q.dropped + 1
                else next.heap == q.heap && next.dropped == q.dropped + 1)
            && (AnswerOf(effect) == Ok(|q.heap| < maxsize || dropOldest))
  {
    hide Apply, IsHeap, AnswerOf, Balanced, Numbered;
    PutDoes(q, maxsize, payload, priority, dropOldest);
    CountersAreOlder(q, l);
    if |q.heap| == maxsize {
      assert q.heap == q.heap[..maxsize - 1] + [q.heap[maxsize - 1]];
    }
  }

  lemma CountersAreOlder<T>(q: Queue<T>, l: Ledger<T>)
    requires Balanced(q, l) && Numbered(q, l)
    ensures forall x <- q.heap :: x.counter < q.counter
  {
    forall x <- q.heap ensures x.counter < q.counter {
      assert x in multiset(q.heap) && x in l.accepted;
    }
  }

  // ---------- draining ----------

  function Drain<T(==)>(q: Queue<T>, maxsize: int): seq<Item<T>>
    decreases |q.heap|
  {
    var (next, effect) := Apply(q, maxsize, OpGet);
    if effect.Taken? && |next.heap| < |q.heap| then [effect.item] + Drain(next, maxsize) else []
  }

  /** By priority, the lowest number first, and by arrival within one. */
  predicate Sorted<T>(items: seq<Item<T>>) {
    forall i, j :: 0 <= i < j < |items| ==>
      items[i].priority < items[j].priority
      || (items[i].priority == items[j].priority && items[i].counter < items[j].counter)
  }

  lemma SortedCons<T>(first: Item<T>, later: seq<Item<T>>)
    requires Sorted(later) && forall x :: x in multiset(later) ==> Less(first, x)
    ensures Sorted([first] + later) && multiset([first] + later) == multiset{first} + multiset(later)
  {
    forall j | 0 <= j < |later| ensures Less(first, later[j]) {
      assert later[j] in multiset(later);
    }
  }

  /** Draining a reachable queue yields its entries sorted by priority and, within one, by arrival. */
  lemma {:induction false} DrainIsStableSort<T>(q: Queue<T>, l: Ledger<T>, maxsize: int)
    requires QueueInv(q, l, maxsize)
    ensures multiset(Drain(q, maxsize)) == multiset(q.heap)
    ensures Sorted(Drain(q, maxsize))
    decreases |q.heap|
  {
    if q.heap != [] {
      var (next, effect) := Apply(q, maxsize, OpGet);
      PopKeepsHeap(q.heap);
      OperationKeeps(q, l, maxsize, OpGet);
      DrainIsStableSort(next, Book(l, effect), maxsize);
      var later := Drain(next, maxsize);
      forall x | x in multiset(later) ensures Less(effect.item, x) {
        GetTakesMostUrgent(q, l, maxsize, x);
      }
      SortedCons(effect.item, later);
    }
  }

  // ---------- the evicted entry ----------

  /** The entry in the last slot is the least urgent one, as the comment on eviction says. */
  predicate LastIsLeastUrgent<T(==)>(h: seq<Item<T>>) {
    forall i :: 0 <= i < |h| ==> !Less(h[|h| - 1], h[i])
  }

  /** `k` entries of normal priority in arrival order. */
  function Normals<T(==)>(x: T, k: nat): seq<Item<T>> {
    seq(k, i requires 0 <= i < k => Item(NORMAL, i, x))
  }

  function RepeatThen<T(==)>(op: Op<T>, k: nat, more: seq<Op<T>>): seq<Op<T>>
    decreases k
  {
    if k == 0 then more else [op] + RepeatThen(op, k - 1, more)
  }

  /** A put that is not more urgent than the slot above its place only appends. */
  lemma PutAppends<T>(q: Queue<T>, l: Ledger<T>, maxsize: int, op: Op<T>, more: seq<Op<T>>)
    requires op.OpPut? && |q.heap| < maxsize
    requires |q.heap| > 0 ==> !Less(Item(op.priority, q.counter, op.payload), q.heap[Above(|q.heap|)])
    ensures var item := Item(op.priority, q.counter, op.payload);
            Run(q, l, maxsize, [op] + more) ==
            Run(Queue(q.heap + [item], q.counter + 1, q.dropped), Book(l, Stored(item)), maxsize, more)
  {
    assert ([op] + more)[1..] == more;
  }

  lemma {:induction false} PutNormals<T>(x: T, k: nat, done: nat, l: Ledger<T>, maxsize: int, more: seq<Op<T>>)
    returns (ledger: Ledger<T>)
    requires done + k < maxsize
    ensures Run(Queue(Normals(x, done), done, 0), l, maxsize, RepeatThen(OpPut(x, NORMAL, true), k, more))
         == Run(Queue(Normals(x, done + k), done + k, 0), ledger, maxsize, more)
    decreases k
  {
    hide Run, Book;
    var put := OpPut(x, NORMAL, true);
    if k == 0 {
      ledger := l;
    } else {
      ledger := Book(l, Stored(Item(NORMAL, done, x)));
      PutNormal(x, done, l, maxsize, RepeatThen(put, k - 1, more));
      ledger := PutNormals(x, k - 1, done + 1, ledger, maxsize, more);
    }
  }

  lemma PutNormal<T>(x: T, done: nat, l: Ledger<T>, maxsize: int, more: seq<Op<T>>)
    requires done < maxsize
    ensures Run(Queue(Normals(x, done), done, 0), l, maxsize, [OpPut(x, NORMAL, true)] + more) ==
            Run(Queue(Normals(x, done + 1), done + 1, 0), Book(l, Stored(Item(NORMAL, done, x))), maxsize, more)
  {
    PutAppends(Queue(Normals(x, done), done, 0), l, maxsize, OpPut(x, NORMAL, true), more);
    assert Normals(x, done) + [Item(NORMAL, done, x)] == Normals(x, done + 1);
  }

  /** Normal entries, a low one and a normal one: the last slot then holds a normal entry. */
  lemma LowIsNotLast<T>(maxsize: int, x: T) returns (ops: seq<Op<T>>)
    requires maxsize >= 3
    ensures var h := Run(Empty<T>(), Blank<T>(), maxsize, ops).0.heap;
            |h| == maxsize && !LastIsLeastUrgent(h)
  {
    var n := maxsize - 2;
    var low, normal := OpPut(x, LOW, true), OpPut(x, NORMAL, true);
    ops := RepeatThen(normal, n, [low] + ([normal] + []));
    assert Normals(x, 0) == [];
    var ledger := PutNormals(x, n, 0, Blank<T>(), maxsize, [low] + ([normal] + []));
    PutLowThenNormal(x, n, ledger, maxsize);
    var h := Normals(x, n) + [Item(LOW, n, x)] + [Item(NORMAL, n + 1, x)];
    assert Less(h[n + 1], h[n]);
  }

  lemma RunsNothing<T>(q: Queue<T>, l: Ledger<T>, maxsize: int)
    ensures Run(q, l, maxsize, []) == (q, l)
  {}

  lemma PutLowThenNormal<T>(x: T, n: nat, l: Ledger<T>, maxsize: int)
    requires 1 <= n == maxsize - 2
    ensures Run(Queue(Normals(x, n), n, 0), l, maxsize, [OpPut(x, LOW, true)] + ([OpPut(x, NORMAL, true)] + [])).0.heap
         == Normals(x, n) + [Item(LOW, n, x)] + [Item(NORMAL, n + 1, x)]
  {
    hide Run, Book;
    var low, normal := OpPut(x, LOW, true), OpPut(x, NORMAL, true);
    PutAppends(Queue(Normals(x, n), n, 0), l, maxsize, low, [normal] + []);
    var h := Normals(x, n) + [Item(LOW, n, x)];
    assert h[Above(n + 1)] == Item(NORMAL, Above(n + 1), x);
    PutAppends(Queue(h, n + 1, 0), Book(l, Stored(Item(LOW, n, x))), maxsize, normal, []);
    RunsNothing(Queue(h + [Item(NORMAL, n + 1, x)], n + 2, 0),
                Book(Book(l, Stored(Item(LOW, n, x))), Stored(Item(NORMAL, n + 1, x))), maxsize);
  }

  lemma TwoAreOrdered<T>(h: seq<Item<T>>)
    requires IsHeap(h) && |h| <= 2
    ensures LastIsLeastUrgent(h)
  {
    assert |h| == 2 ==> EdgeOk(h, 1);
  }

  /**
   A full queue always evicts its least urgent entry exactly if it holds at most two entries; for every
   larger bound there is a run after which the evicted entry is not the least urgent one.
   */
  lemma EvictsLeastUrgent<T>(maxsize: int, x: T)
    requires maxsize > 0
    ensures (forall ops: seq<Op<T>> ::
               var h := Run(Empty<T>(), Blank<T>(), maxsize, ops).0.heap; |h| == maxsize ==> LastIsLeastUrgent(h))
            <==> maxsize <= 2
  {
    if maxsize <= 2 {
      forall ops: seq<Op<T>>
        ensures var h := Run(Empty<T>(), Blank<T>(), maxsize, ops).0.heap; |h| == maxsize ==> LastIsLeastUrgent(h)
      {
        EveryRun(maxsize, ops);
        var h := Run(Empty<T>(), Blank<T>(), maxsize, ops).0.heap;
        if |h| == maxsize {
          TwoAreOrdered(h);
        }
      }
    } else {
      var ops := LowIsNotLast(maxsize, x);
    }
  }
}
