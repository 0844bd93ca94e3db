/** The k-way merge of sorted iterators (internal/iter/merge.go).

    An iterator is represented by the entries it has still to yield. The heap is a list from which
    the least item is taken: container/heap is represented by its contract.
 */
module MergeSorts {
  import opened Tables
  import opened Keys

  datatype Item = Item(entry: Entry, index: nat)

  /** The order of the heap: by key, then by the iterator's position. */
  predicate Before(a: Item, b: Item) {
    Less(a.entry.key, b.entry.key) || (a.entry.key == b.entry.key && a.index < b.index)
  }

  lemma BeforeTransitive(a: Item, b: Item, c: Item)
    requires Before(a, b) && Before(b, c)
    ensures Before(a, c)
  {
    if Less(a.entry.key, b.entry.key) && Less(b.entry.key, c.entry.key) {
      LessTransitive(a.entry.key, b.entry.key, c.entry.key);
    }
  }

  /** The position of an item that no item precedes. */
  method LeastItem(heap: seq<Item>) returns (p: nat)
    requires heap != []
    ensures p < |heap|
    ensures forall q :: 0 <= q < |heap| ==> !Before(heap[q], heap[p])
  {
    p := 0;
    LessIrreflexive(heap[0].entry.key);
    for i := 1 to |heap|
      invariant p < |heap|
      invariant forall q :: 0 <= q < i ==> !Before(heap[q], heap[p])
    {
      if Before(heap[i], heap[p]) {
        forall q | 0 <= q < i ensures !Before(heap[q], heap[i]) {
          if Before(heap[q], heap[i]) {
            BeforeTransitive(heap[q], heap[i], heap[p]);
          }
        }
        LessIrreflexive(heap[i].entry.key);
        p := i;
      }
    }
  }

  // ---------------------------------------------------------------- streams

  /** Every stream is sorted and has no empty key. */
  ghost predicate StreamsOk(streams: seq<seq<Entry>>) {
    forall i :: 0 <= i < |streams| ==> StreamOk(streams[i])
  }

  ghost predicate StreamOk(stream: seq<Entry>) {
    Sorted(stream) && forall j :: 0 <= j < |stream| ==> stream[j].key != []
  }

  ghost predicate NoneBelow(streams: seq<seq<Entry>>, key: bytes) {
    forall i, j :: 0 <= i < |streams| && 0 <= j < |streams[i]| ==> !Less(streams[i][j].key, key)
  }

  ghost function TotalLen(streams: seq<seq<Entry>>): nat {
    if streams == [] then 0 else |streams[0]| + TotalLen(streams[1..])
  }

  lemma {:induction false} TotalLenDrops(streams: seq<seq<Entry>>, i: nat)
    requires i < |streams| && streams[i] != []
    ensures TotalLen(streams[i := streams[i][1..]]) == TotalLen(streams) - 1
  {
    var streams' := streams[i := streams[i][1..]];
    if i == 0 {
      assert streams'[1..] == streams[1..];
    } else {
      assert streams'[1..] == streams[1..][i - 1 := streams[i][1..]];
      TotalLenDrops(streams[1..], i - 1);
    }
  }

  /** What is left to deliver: the streams layered, the first on top, without the key delivered last. */
  ghost function Remaining(streams: seq<seq<Entry>>, lastKey: bytes): Table {
    Layers(TablesOf(streams)) - {lastKey}
  }

  lemma {:induction false} SearchAgrees(ts: seq<Table>, ts': seq<Table>, key: bytes)
    requires |ts| == |ts'| && forall i :: 0 <= i < |ts| ==> Lookup(ts[i], key) == Lookup(ts'[i], key)
    ensures Search(ts, key) == Search(ts', key)
  {
    if ts != [] {
      forall i | 0 <= i < |ts| - 1 ensures Lookup(ts[1..][i], key) == Lookup(ts'[1..][i], key) {
        assert ts[1..][i] == ts[i + 1] && ts'[1..][i] == ts'[i + 1];
      }
      assert Lookup(ts[0], key) == Lookup(ts'[0], key);
      SearchAgrees(ts[1..], ts'[1..], key);
    }
  }

  lemma {:induction false} SearchHits(ts: seq<Table>, i: nat, key: bytes)
    requires i < |ts| && key in ts[i] && forall j :: 0 <= j < i ==> key !in ts[j]
    ensures Search(ts, key) == Some(ts[i][key])
  {
    if i > 0 {
      assert key !in ts[0];
      SearchHits(ts[1..], i - 1, key);
    }
  }

  lemma {:induction false} SearchFinds(ts: seq<Table>, key: bytes) returns (i: nat)
    requires Search(ts, key).Some?
    ensures i < |ts| && key in ts[i] && Search(ts, key) == Some(ts[i][key])
  {
    if key in ts[0] {
      i := 0;
    } else {
      var j := SearchFinds(ts[1..], key);
      i := j + 1;
    }
  }

  /** Dropping the head of one stream removes at most that head's key. */
  lemma DropHead(streams: seq<seq<Entry>>, i: nat)
    requires StreamsOk(streams) && i < |streams| && streams[i] != []
    ensures var streams' := streams[i := streams[i][1..]]; var key := streams[i][0].key;
            && StreamsOk(streams')
            && Layers(TablesOf(streams')) - {key} == Layers(TablesOf(streams)) - {key}
  {
    hide Layers, TableOf, Sorted;
    var streams', key := streams[i := streams[i][1..]], streams[i][0].key;
    SortedTail(streams[i]);
    assert StreamOk(streams[i][1..]);
    var a, b := Layers(TablesOf(streams')), Layers(TablesOf(streams));
    forall k ensures Lookup(a - {key}, k) == Lookup(b - {key}, k) {
      if k != key {
        SearchAgrees(TablesOf(streams'), TablesOf(streams), k);
        SearchIsLookup(TablesOf(streams'), k);
        SearchIsLookup(TablesOf(streams), k);
      }
    }
    SameLookups(a - {key}, b - {key});
  }

  lemma SameLookups(a: Table, b: Table)
    requires forall k :: Lookup(a, k) == Lookup(b, k)
    ensures a == b
  {
    forall k ensures k in a <==> k in b {
      assert Lookup(a, k) == Lookup(b, k);
    }
    forall k | k in a ensures a[k] == b[k] {
      assert Lookup(a, k) == Lookup(b, k);
    }
  }

  lemma NoneBelowKey(streams: seq<seq<Entry>>, key: bytes, k: bytes)
    requires NoneBelow(streams, key) && StreamsOk(streams) && k in Layers(TablesOf(streams))
    ensures !Less(k, key)
  {
    hide Layers, TableOf, Sorted;
    SearchIsLookup(TablesOf(streams), k);
    var i := SearchFinds(TablesOf(streams), k);
    SortedLookup(streams[i], k);
  }

  /** The heads of the streams: the head at i is least, and no stream before i has the same key. */
  ghost predicate LeastHead(streams: seq<seq<Entry>>, i: nat) {
    && i < |streams| && streams[i] != []
    && forall j :: 0 <= j < |streams| && streams[j] != [] ==>
         !Before(Item(streams[j][0], j), Item(streams[i][0], i))
  }

  lemma LeastHeadBounds(streams: seq<seq<Entry>>, i: nat)
    requires StreamsOk(streams) && LeastHead(streams, i)
    ensures NoneBelow(streams, streams[i][0].key)
    ensures Lookup(Layers(TablesOf(streams)), streams[i][0].key) == Some(streams[i][0].value)
  {
    hide Layers, TableOf;
    var key := streams[i][0].key;
    forall j, n | 0 <= j < |streams| && 0 <= n < |streams[j]|
      ensures !Less(streams[j][n].key, key)
      ensures streams[j][n].key == key ==> n == 0 && i <= j
    {
      var head := streams[j][0];
      assert !Before(Item(head, j), Item(streams[i][0], i));
      assert StreamOk(streams[j]);
      if n > 0 {
        assert Less(head.key, streams[j][n].key);
        LessChain(key, head.key, streams[j][n].key);
        LessAsymmetric(key, streams[j][n].key);
      }
    }
    forall j | 0 <= j < i ensures key !in TablesOf(streams)[j] {
      assert StreamOk(streams[j]);
      SortedLookup(streams[j], key);
    }
    assert StreamOk(streams[i]);
    SortedTail(streams[i]);
    SearchHits(TablesOf(streams), i, key);
    SearchIsLookup(TablesOf(streams), key);
  }

  // ---------------------------------------------------------------- the heap

  /** The heap holds exactly the heads of the streams. */
  ghost predicate HeapFits(heap: seq<Item>, streams: seq<seq<Entry>>) {
    && (forall p :: 0 <= p < |heap| ==> IsHead(heap[p], streams))
    && (forall p, q :: 0 <= p < q < |heap| ==> heap[p].index != heap[q].index)
    && (forall i :: 0 <= i < |streams| && streams[i] != [] ==> Item(streams[i][0], i) in heap)
  }

  ghost predicate IsHead(item: Item, streams: seq<seq<Entry>>) {
    item.index < |streams| && streams[item.index] != [] && item.entry == streams[item.index][0]
  }

  /** An iterator is past the entry that it has in the heap. */
  ghost predicate IteratorsFit(iterators: seq<seq<Entry>>, streams: seq<seq<Entry>>) {
    && |iterators| == |streams|
    && forall i :: 0 <= i < |streams| ==> iterators[i] == if streams[i] == [] then [] else streams[i][1..]
  }

  lemma RemoveItem(heap: seq<Item>, p: nat)
    requires p < |heap| && forall a, b :: 0 <= a < b < |heap| ==> heap[a].index != heap[b].index
    ensures var rest := heap[..p] + heap[p + 1..];
            && (forall a :: 0 <= a < |rest| ==> rest[a] in heap && rest[a].index != heap[p].index)
            && (forall x :: x in heap && x != heap[p] ==> x in rest)
            && (forall a, b :: 0 <= a < b < |rest| ==> rest[a].index != rest[b].index)
  {
    var rest := heap[..p] + heap[p + 1..];
    assert forall a :: 0 <= a < |rest| ==> rest[a] == heap[if a < p then a else a + 1];
    forall x | x in heap && x != heap[p] ensures x in rest {
      var a :| 0 <= a < |heap| && heap[a] == x;
      assert rest[if a < p then a else a - 1] == x;
    }
  }

  /** Every head of a stream is in the heap, the popped one at p, the others elsewhere. */
  lemma HeadInHeap(heap: seq<Item>, streams: seq<seq<Entry>>, p: nat, j: nat)
    requires HeapFits(heap, streams) && p < |heap| && j < |streams| && streams[j] != []
    requires forall q :: 0 <= q < |heap| ==> !Before(heap[q], heap[p])
    ensures IsHead(heap[p], streams) && !Before(Item(streams[j][0], j), heap[p])
    ensures j != heap[p].index ==> Item(streams[j][0], j) in heap[..p] + heap[p + 1..]
  {
    hide Before;
    RemoveItem(heap, p);
    assert IsHead(heap[p], streams);
    var q :| 0 <= q < |heap| && heap[q] == Item(streams[j][0], j);
  }

  /** Taking out the least head and putting in the next entry of its stream, if there is one. */
  lemma PopFits(heap: seq<Item>, streams: seq<seq<Entry>>, p: nat)
    requires HeapFits(heap, streams) && p < |heap|
    requires forall q :: 0 <= q < |heap| ==> !Before(heap[q], heap[p])
    ensures IsHead(heap[p], streams) && LeastHead(streams, heap[p].index)
    ensures var i := heap[p].index; var rest := heap[..p] + heap[p + 1..];
            var streams' := streams[i := streams[i][1..]];
            HeapFits(if streams'[i] == [] then rest else rest + [Item(streams'[i][0], i)], streams')
  {
    hide Before;
    assert IsHead(heap[p], streams);
    forall j | 0 <= j < |streams| && streams[j] != []
      ensures !Before(Item(streams[j][0], j), heap[p])
      ensures j != heap[p].index ==> Item(streams[j][0], j) in heap[..p] + heap[p + 1..]
    {
      HeadInHeap(heap, streams, p, j);
    }
    RefillFits(heap, streams, p);
  }

  lemma RefillFits(heap: seq<Item>, streams: seq<seq<Entry>>, p: nat)
    requires HeapFits(heap, streams) && p < |heap| && IsHead(heap[p], streams)
    requires forall j :: 0 <= j < |streams| && streams[j] != [] && j != heap[p].index ==>
               Item(streams[j][0], j) in heap[..p] + heap[p + 1..]
    ensures var i := heap[p].index; var rest := heap[..p] + heap[p + 1..];
            var streams' := streams[i := streams[i][1..]];
            HeapFits(if streams'[i] == [] then rest else rest + [Item(streams'[i][0], i)], streams')
  {
    var i, rest := heap[p].index, heap[..p] + heap[p + 1..];
    var streams': seq<seq<Entry>> := streams[i := streams[i][1..]];
    RemoveItem(heap, p);
    forall a | 0 <= a < |rest| ensures IsHead(rest[a], streams') {
      assert IsHead(rest[a], streams);
    }
  }

  // ---------------------------------------------------------------- the class

  class MergeSort {
    var iterators: seq<seq<Entry>>
    var heap: seq<Item>
    var lastKey: bytes
    ghost var streams: seq<seq<Entry>>  // each iterator with its entry in the heap, if any, in front

    ghost predicate Valid()
      reads this
    {
      HeapFits(heap, streams) && IteratorsFit(iterators, streams) && StreamsOk(streams) && NoneBelow(streams, lastKey)
    }

    ghost function Rest(): Table
      reads this
    {
      Remaining(streams, lastKey)
    }

    constructor (lists: seq<seq<Entry>>)
      requires StreamsOk(lists)
      ensures Valid() && streams == lists && lastKey == []
    {
      iterators := lists;
      heap := [];
      lastKey := [];
      streams := lists;
      new;
      for i := 0 to |lists|
        invariant streams == lists && lastKey == [] && |iterators| == |lists|
        invariant forall j :: 0 <= j < i ==> iterators[j] == if lists[j] == [] then [] else lists[j][1..]
        invariant forall j :: i <= j < |lists| ==> iterators[j] == lists[j]
        invariant forall p :: 0 <= p < |heap| ==>
                    heap[p].index < i && lists[heap[p].index] != [] && heap[p].entry == lists[heap[p].index][0]
        invariant forall p, q :: 0 <= p < q < |heap| ==> heap[p].index != heap[q].index
        invariant forall j :: 0 <= j < i && lists[j] != [] ==> Item(lists[j][0], j) in heap
      {
        if iterators[i] != [] {
          heap := heap + [Item(iterators[i][0], i)];
          iterators := iterators[i := iterators[i][1..]];
        }
      }
    }

    /** Take the least item and refill from its iterator. */
    method PopAndRefill() returns (item: Item)
      requires Valid() && heap != []
      modifies this`heap, this`iterators, this`streams
      ensures HeapFits(heap, streams) && IteratorsFit(iterators, streams) && StreamsOk(streams)
      ensures LeastHead(old(streams), item.index) && item.entry == old(streams)[item.index][0]
      ensures streams == old(streams)[item.index := old(streams)[item.index][1..]]
    {
      hide StreamsOk, HeapFits;
      var p := LeastItem(heap);
      item := heap[p];
      PopFits(heap, streams, p);
      DropHead(streams, item.index);
      var i := item.index;
      heap := heap[..p] + heap[p + 1..];
      streams := streams[i := streams[i][1..]];
      if iterators[i] != [] {
        heap := heap + [Item(iterators[i][0], i)];
        iterators := iterators[i := iterators[i][1..]];
      }
    }

    /** Deliver the entry with the least key that is left, with the value of the first iterator that
        has the key; nothing else is lost and nothing is delivered twice. */
    method NextEntry() returns (r: Option<Entry>)
      requires Valid()
      modifies this
      ensures Valid()
      ensures r.None? <==> old(Rest()) == map[]
      ensures r.Some? ==>
                && Lookup(old(Rest()), r.value.key) == Some(r.value.value)
                && (forall k :: k in old(Rest()) ==> !Less(k, r.value.key))
                && Rest() == old(Rest()) - {r.value.key}
                && Less(old(lastKey), r.value.key) && lastKey == r.value.key
    {
      hide TableOf, Layers, Less, StreamsOk, NoneBelow, HeapFits, IteratorsFit, Before;
      while |heap| > 0
        invariant Valid() && lastKey == old(lastKey)
        invariant Rest() == old(Rest())
        decreases TotalLen(streams)
      {
        ghost var before := streams;
        var item := PopAndRefill();
        var result := item.entry;
        LeastHeadBounds(before, item.index);
        DropHead(before, item.index);
        TotalLenDrops(before, item.index);
        NoneBelowAfter(before, item.index, result.key);
        if result.key != lastKey {
          DeliverStep(before, item.index, lastKey);
          lastKey := result.key;
          return Some(result);
        }
      }
      EmptyHeap(heap, streams, lastKey);
      return None;
    }

  }

  lemma EmptyHeap(heap: seq<Item>, streams: seq<seq<Entry>>, lastKey: bytes)
    requires HeapFits(heap, streams) && heap == []
    ensures Remaining(streams, lastKey) == map[]
  {
    hide TableOf;
    forall i | 0 <= i < |streams| ensures TablesOf(streams)[i] == map[] {
      assert streams[i] == [];
      TableOfNone();
    }
    LayersOfNothing(TablesOf(streams));
  }

  lemma {:induction false} LayersOfNothing(ts: seq<Table>)
    requires forall i :: 0 <= i < |ts| ==> ts[i] == map[]
    ensures Layers(ts) == map[]
  {
    if ts != [] {
      LayersOfNothing(ts[1..]);
    }
  }

  lemma NoneBelowAfter(streams: seq<seq<Entry>>, i: nat, key: bytes)
    requires NoneBelow(streams, key) && i < |streams| && streams[i] != []
    ensures NoneBelow(streams[i := streams[i][1..]], key)
  {
    var streams': seq<seq<Entry>> := streams[i := streams[i][1..]];
    forall a, b | 0 <= a < |streams'| && 0 <= b < |streams'[a]| ensures !Less(streams'[a][b].key, key) {
      if a == i {
        assert streams'[a][b] == streams[a][b + 1];
      }
    }
  }

  /** Delivering the least head: it is the least of what remains, and nothing else goes. */
  lemma DeliverStep(streams: seq<seq<Entry>>, i: nat, lastKey: bytes)
    requires StreamsOk(streams) && LeastHead(streams, i) && NoneBelow(streams, lastKey)
    requires streams[i][0].key != lastKey
    ensures var e := streams[i][0]; var rest := Remaining(streams, lastKey);
            && Less(lastKey, e.key)
            && Lookup(rest, e.key) == Some(e.value)
            && (forall k :: k in rest ==> !Less(k, e.key))
            && Remaining(streams[i := streams[i][1..]], e.key) == rest - {e.key}
  {
    hide TableOf, Layers, Less, StreamsOk;
    var e, all := streams[i][0], Layers(TablesOf(streams));
    LeastHeadBounds(streams, i);
    DropHead(streams, i);
    LessTotal(lastKey, e.key);
    assert !Less(e.key, lastKey);
    forall k | k in all ensures !Less(k, e.key) {
      NoneBelowKey(streams, e.key, k);
    }
    assert lastKey !in all;
    assert Remaining(streams, lastKey) == all;
  }

  // ---------------------------------------------------------------- draining

  /** What has been delivered and what is left make up the goal; what is left lies above. */
  ghost predicate Draining(out: seq<Entry>, rest: Table, last: bytes, goal: Table) {
    && Sorted(out) && (forall i :: 0 <= i < |out| ==> !Less(last, out[i].key))
    && TableOf(out) + rest == goal && TableOf(out).Keys !! rest.Keys
  }

  /** Draining the merge yields the strictly increasing union of the inputs, each key with the value
      of the first input that has it. */
  method Drain(lists: seq<seq<Entry>>) returns (out: seq<Entry>)
    requires StreamsOk(lists)
    ensures Sorted(out)
    ensures TableOf(out) == Layers(TablesOf(lists))
  {
    hide TableOf, Layers, Less, MergeSort.Valid, Remaining;
    var merge := new MergeSort(lists);
    out := [];
    TableOfNone();
    NoEmptyKey(lists);
    while true
      invariant merge.Valid() && fresh(merge)
      invariant Draining(out, merge.Rest(), merge.lastKey, Layers(TablesOf(lists)))
      decreases |merge.Rest()|
    {
      ghost var rest, last := merge.Rest(), merge.lastKey;
      var r := merge.NextEntry();
      if r.None? {
        break;
      }
      DrainStep(out, rest, last, Layers(TablesOf(lists)), r.value);
      out := out + [r.value];
    }
  }

  lemma DrainStep(out: seq<Entry>, rest: Table, last: bytes, goal: Table, e: Entry)
    requires Draining(out, rest, last, goal) && Lookup(rest, e.key) == Some(e.value) && Less(last, e.key)
    ensures Draining(out + [e], rest - {e.key}, e.key, goal)
    ensures |rest - {e.key}| < |rest|
  {
    hide TableOf, Less, Sorted;
    AppendSorted(out, last, e);
    TableOfSnoc(out, e);
    assert rest.Keys == (rest - {e.key}).Keys + {e.key};
  }

  lemma TableOfSnoc(es: seq<Entry>, e: Entry)
    ensures TableOf(es + [e]) == TableOf(es)[e.key := e.value]
  {
    assert (es + [e])[..|es|] == es;
  }

  lemma AppendSorted(es: seq<Entry>, last: bytes, e: Entry)
    requires Sorted(es) && Less(last, e.key) && forall i :: 0 <= i < |es| ==> !Less(last, es[i].key)
    ensures Sorted(es + [e])
    ensures forall i :: 0 <= i <= |es| ==> !Less(e.key, (es + [e])[i].key)
  {
    hide Less;
    forall i | 0 <= i < |es| ensures Less(es[i].key, e.key) && !Less(e.key, es[i].key) {
      LessChain(es[i].key, last, e.key);
      LessAsymmetric(es[i].key, e.key);
    }
    LessIrreflexive(e.key);
  }

  lemma NoEmptyKey(lists: seq<seq<Entry>>)
    requires StreamsOk(lists)
    ensures Remaining(lists, []) == Layers(TablesOf(lists))
  {
    hide TableOf, Layers;
    if [] in Layers(TablesOf(lists)) {
      SearchIsLookup(TablesOf(lists), []);
      var i := SearchFinds(TablesOf(lists), []);
      SortedLookup(lists[i], []);
    }
  }
}
