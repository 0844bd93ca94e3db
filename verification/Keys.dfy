/** The byte order of keys and sorted lists of entries. */
module Keys {
  import opened Tables

  /** bytes.Compare(a, b) < 0 */
  predicate Less(a: bytes, b: bytes) {
    |b| > 0 && (|a| == 0 || a[0] < b[0] || (a[0] == b[0] && Less(a[1..], b[1..])))
  }

  /** The order is lexicographic by byte: a is below b if and only if, after a common part, a ends first or
      has the smaller byte. */
  lemma LessIsLexicographic(a: bytes, b: bytes)
    ensures Less(a, b) <==> exists n: nat :: n <= |a| && n < |b| && DiffersAt(a, b, n)
  {
    if Less(a, b) {
      var n := FirstDifference(a, b);
    }
    forall n: nat | n <= |a| && n < |b| && DiffersAt(a, b, n) ensures Less(a, b) {
      DifferenceDecides(a, b, n);
    }
  }

  /** The first n bytes agree; then a ends, or has the smaller byte. */
  ghost predicate DiffersAt(a: bytes, b: bytes, n: nat)
    requires n <= |a| && n < |b|
  {
    a[..n] == b[..n] && (n == |a| || a[n] < b[n])
  }

  lemma {:induction false} FirstDifference(a: bytes, b: bytes) returns (n: nat)
    requires Less(a, b)
    ensures n <= |a| && n < |b| && DiffersAt(a, b, n)
  {
    if a == [] || a[0] < b[0] {
      n := 0;
    } else {
      var m := FirstDifference(a[1..], b[1..]);
      n := m + 1;
      assert a[..n] == [a[0]] + a[1..][..m] && b[..n] == [b[0]] + b[1..][..m];
    }
  }

  lemma {:induction false} DifferenceDecides(a: bytes, b: bytes, n: nat)
    requires n <= |a| && n < |b| && DiffersAt(a, b, n)
    ensures Less(a, b)
  {
    if n > 0 {
      assert a[..n][0] == b[..n][0];
      assert a[1..][..n - 1] == a[..n][1..] && b[1..][..n - 1] == b[..n][1..];
      DifferenceDecides(a[1..], b[1..], n - 1);
    }
  }

  function Compare(a: bytes, b: bytes): int {
    if a == b then 0 else if Less(a, b) then -1 else 1
  }

  lemma {:induction false} LessIrreflexive(a: bytes)
    ensures !Less(a, a)
  {
    if a != [] {
      LessIrreflexive(a[1..]);
    }
  }

  lemma {:induction false} LessTransitive(a: bytes, b: bytes, c: bytes)
    requires Less(a, b) && Less(b, c)
    ensures Less(a, c)
  {
    if a != [] && a[0] == b[0] == c[0] {
      LessTransitive(a[1..], b[1..], c[1..]);
    }
  }

  lemma {:induction false} LessTotal(a: bytes, b: bytes)
    ensures a == b || Less(a, b) || Less(b, a)
  {
    if a != [] && b != [] && a[0] == b[0] {
      LessTotal(a[1..], b[1..]);
      assert a == [a[0]] + a[1..] && b == [b[0]] + b[1..];
    }
  }

  lemma LessAsymmetric(a: bytes, b: bytes)
    requires Less(a, b)
    ensures a != b && !Less(b, a)
  {
    LessIrreflexive(a);
    if Less(b, a) {
      LessTransitive(a, b, a);
    }
  }

  /** a is not above b, b is below c. */
  lemma LessChain(a: bytes, b: bytes, c: bytes)
    requires !Less(b, a) && Less(b, c)
    ensures Less(a, c)
  {
    LessTotal(a, b);
    if a != b {
      LessTransitive(a, b, c);
    }
  }

  /** a is below b, b is not above c. */
  lemma LessChainRight(a: bytes, b: bytes, c: bytes)
    requires Less(a, b) && !Less(c, b)
    ensures Less(a, c)
  {
    LessTotal(b, c);
    if b != c {
      LessTransitive(a, b, c);
    }
  }

  // ---------------------------------------------------------------- sorted lists

  /** Keys strictly increase. */
  ghost predicate Sorted(es: seq<Entry>) {
    forall i, j :: 0 <= i < j < |es| ==> Less(es[i].key, es[j].key)
  }

  lemma SortedKeysDiffer(es: seq<Entry>, i: nat)
    requires Sorted(es) && i < |es|
    ensures IsLatest(es, i)
  {
    forall j | i < j < |es| ensures es[j].key != es[i].key {
      LessAsymmetric(es[i].key, es[j].key);
    }
  }

  /** A sorted list is the listing of its table. */
  lemma SortedLookup(es: seq<Entry>, key: bytes)
    requires Sorted(es)
    ensures key in TableOf(es) <==> exists i :: 0 <= i < |es| && es[i].key == key
    ensures forall i :: 0 <= i < |es| && es[i].key == key ==> Lookup(TableOf(es), key) == Some(es[i].value)
  {
    if key in TableOf(es) {
      var i := HeldIsLatestWrite(es, key);
    }
    forall i | 0 <= i < |es| && es[i].key == key
      ensures Lookup(TableOf(es), key) == Some(es[i].value)
    {
      SortedKeysDiffer(es, i);
      LatestWriteIsHeld(es, i);
    }
  }

  lemma SortedSlice(es: seq<Entry>, lo: nat, hi: nat)
    requires Sorted(es) && lo <= hi <= |es|
    ensures Sorted(es[lo..hi])
  {
    forall i, j | 0 <= i < j < hi - lo ensures Less(es[lo..hi][i].key, es[lo..hi][j].key) {
      assert Less(es[lo + i].key, es[lo + j].key);
    }
  }

  /** Dropping the head of a sorted list removes its key from the table. */
  lemma SortedTail(es: seq<Entry>)
    requires Sorted(es) && es != []
    ensures Sorted(es[1..])
    ensures TableOf(es[1..]) == TableOf(es) - {es[0].key}
    ensures Lookup(TableOf(es), es[0].key) == Some(es[0].value)
  {
    hide TableOf;
    SortedSlice(es, 1, |es|);
    SortedLookup(es, es[0].key);
    assert es == [es[0]] + es[1..];
    TableOfConcat([es[0]], es[1..]);
    SortedLookup(es[1..], es[0].key);
    assert forall i :: 1 <= i < |es| ==> es[1..][i - 1] == es[i];
    forall i | 0 <= i < |es| - 1 ensures es[1..][i].key != es[0].key {
      LessAsymmetric(es[0].key, es[i + 1].key);
    }
    TableOfOne(es[0]);
  }

  lemma TableOfOne(e: Entry)
    ensures TableOf([e]) == map[e.key := e.value]
  {
    assert [e][..0] == [];
    assert TableOf([e]) == TableOf([])[e.key := e.value];
  }

  /** The tables of several lists. */
  ghost function TablesOf(lists: seq<seq<Entry>>): seq<Table> {
    seq(|lists|, i requires 0 <= i < |lists| => TableOf(lists[i]))
  }

  // ---------------------------------------------------------------- the listing of a table

  /** Put an entry at its place in a sorted list; an entry of the same key is replaced. */
  function Insert(es: seq<Entry>, e: Entry): seq<Entry> {
    if es == [] || Less(e.key, es[0].key) then [e] + es
    else if es[0].key == e.key then [e] + es[1..]
    else [es[0]] + Insert(es[1..], e)
  }

  lemma TableOfHead(e: Entry, es: seq<Entry>)
    ensures TableOf([e] + es) == map[e.key := e.value] + TableOf(es)
  {
    hide TableOf;
    TableOfConcat([e], es);
    TableOfOne(e);
  }

  lemma SortedHead(e: Entry, es: seq<Entry>)
    requires Sorted(es) && forall k :: k in TableOf(es) ==> Less(e.key, k)
    ensures Sorted([e] + es) && e.key !in TableOf(es)
  {
    hide TableOf, Less;
    LessIrreflexive(e.key);
    forall i | 0 <= i < |es| ensures Less(e.key, es[i].key) {
      SortedLookup(es, es[i].key);
    }
  }

  /** A key below the head of a sorted list is not in the list. */
  lemma BelowHead(es: seq<Entry>, key: bytes)
    requires Sorted(es) && es != [] && Less(key, es[0].key)
    ensures key !in TableOf(es)
  {
    hide TableOf, Less;
    SortedLookup(es, key);
    forall i | 0 <= i < |es| ensures es[i].key != key {
      LessIrreflexive(key);
      if i > 0 {
        LessTransitive(key, es[0].key, es[i].key);
      }
    }
  }

  /** The head of a sorted list is below the keys of the rest. */
  lemma HeadBelow(e: Entry, es: seq<Entry>, k: bytes)
    requires Sorted([e] + es) && k in TableOf(es)
    ensures Sorted(es) && Less(e.key, k)
  {
    hide TableOf, Less;
    SortedSlice([e] + es, 1, |es| + 1);
    assert ([e] + es)[1..|es| + 1] == es;
    SortedLookup(es, k);
    var i :| 0 <= i < |es| && es[i].key == k;
    assert ([e] + es)[0] == e && ([e] + es)[i + 1] == es[i];
  }

  lemma {:induction false} InsertHolds(es: seq<Entry>, e: Entry)
    requires Sorted(es)
    ensures Sorted(Insert(es, e)) && TableOf(Insert(es, e)) == TableOf(es)[e.key := e.value]
  {
    hide TableOf, Less, Sorted;
    if es == [] {
      SortedOne(e);
      TableOfOne(e);
      assert TableOf([]) == map[] by { TableOfNone(); }
      assert [e] + es == [e];
    } else {
      var head, rest := es[0], es[1..];
      assert es == [head] + rest;
      SortedTail(es);
      TableOfHead(head, rest);
      forall k | k in TableOf(rest) ensures Less(head.key, k) {
        HeadBelow(head, rest, k);
      }
      if Less(e.key, head.key) {
        forall k | k in TableOf(es) ensures Less(e.key, k) {
          if k != head.key {
            LessTransitive(e.key, head.key, k);
          }
        }
        SortedHead(e, es);
        TableOfHead(e, es);
      } else if head.key == e.key {
        SortedHead(e, rest);
        TableOfHead(e, rest);
      } else {
        LessTotal(head.key, e.key);
        InsertHolds(rest, e);
        SortedHead(head, Insert(rest, e));
        TableOfHead(head, Insert(rest, e));
      }
    }
  }

  lemma SortedOne(e: Entry)
    ensures Sorted([e])
  {}

  lemma TableOfNone()
    ensures TableOf([]) == map[]
  {}

  /** The rows of a table in key order. */
  ghost function Listing(t: Table): (es: seq<Entry>)
    ensures Sorted(es) && TableOf(es) == t
    decreases |t|
  {
    if t == map[] then TableOfNone(); []
    else
      var k :| k in t;
      var rest := t - {k};
      assert t.Keys == rest.Keys + {k};
      InsertHolds(Listing(rest), Entry(k, t[k]));
      Insert(Listing(rest), Entry(k, t[k]))
  }

  /** Only one sorted list has a given table. */
  lemma {:induction false} SortedUnique(a: seq<Entry>, b: seq<Entry>)
    requires Sorted(a) && Sorted(b) && TableOf(a) == TableOf(b)
    ensures a == b
  {
    hide TableOf, Less, Sorted;
    TableOfNone();
    if a != [] && b != [] {
      SortedTail(a);
      SortedTail(b);
      HeadIsLeast(a, b);
      HeadIsLeast(b, a);
      LessTotal(a[0].key, b[0].key);
      SortedUnique(a[1..], b[1..]);
      assert a == [a[0]] + a[1..] && b == [b[0]] + b[1..];
    } else if a != [] {
      SortedTail(a);
    } else if b != [] {
      SortedTail(b);
    }
  }

  lemma HeadIsLeast(a: seq<Entry>, b: seq<Entry>)
    requires Sorted(a) && a != [] && b != [] && b[0].key in TableOf(a)
    ensures !Less(b[0].key, a[0].key)
  {
    hide TableOf, Less;
    SortedLookup(a, b[0].key);
    var i :| 0 <= i < |a| && a[i].key == b[0].key;
    if i == 0 {
      LessIrreflexive(a[0].key);
    } else {
      LessAsymmetric(a[0].key, a[i].key);
    }
  }

  /** Taking the least row off a table takes the head off its listing. */
  lemma ListingHead(t: Table, e: Entry)
    requires Lookup(t, e.key) == Some(e.value) && forall k :: k in t ==> !Less(k, e.key)
    ensures Listing(t) == [e] + Listing(t - {e.key})
  {
    hide TableOf, Less, Sorted, Listing;
    var rest := Listing(t - {e.key});
    forall k | k in TableOf(rest) ensures Less(e.key, k) {
      LessTotal(e.key, k);
    }
    SortedHead(e, rest);
    TableOfHead(e, rest);
    assert map[e.key := e.value] + (t - {e.key}) == t;
    SortedUnique(Listing(t), [e] + rest);
  }
}
