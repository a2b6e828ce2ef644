/**
 The vault's display cache: a lazily sorted vector of items, searched by bisection and
 viewed through an index range, standing for a finite map from keys to items.
 */
module ItemCache {
  import opened Wrappers
  import opened Strings

  datatype ListKey = ListKey(name: string, guid: string)

  /** `sortableName` is the lower-case `name`; the order looks at it and at `guid` only. */
  datatype ListItem = ListItem(
    name: string, sortableName: string, extra: string, guid: string, atime: nat, count: nat)
  {
    function Key(): ListKey { ListKey(sortableName, guid) }
  }

  function NewItem(
      lower: string -> string, name: string, extra: string, guid: string, atime: nat, count: nat): ListItem
  {
    ListItem(name, lower(name), extra, guid, atime, count)
  }

  function KeyFromParts(lower: string -> string, name: string, guid: string): ListKey {
    ListKey(lower(name), guid)
  }

  function CompareKeys(a: ListKey, b: ListKey): Ordering {
    match Compare(a.name, b.name)
    case Equal => Compare(a.guid, b.guid)
    case o => o
  }

  lemma CompareKeysEqual(a: ListKey, b: ListKey)
    ensures CompareKeys(a, b) == Equal <==> a == b
  {
    CompareEqual(a.name, b.name);
    CompareEqual(a.guid, b.guid);
  }

  lemma CompareKeysFlip(a: ListKey, b: ListKey)
    ensures CompareKeys(a, b) == Less <==> CompareKeys(b, a) == Greater
  {
    CompareFlip(a.name, b.name);
    CompareFlip(a.guid, b.guid);
  }

  lemma CompareKeysTransitive(a: ListKey, b: ListKey, c: ListKey)
    requires CompareKeys(a, b) != Greater && CompareKeys(b, c) != Greater
    ensures CompareKeys(a, c) != Greater
    ensures CompareKeys(a, b) == Less || CompareKeys(b, c) == Less ==> CompareKeys(a, c) == Less
  {
    CompareTransitive(a.name, b.name, c.name);
    CompareEqual(a.name, b.name);
    CompareEqual(b.name, c.name);
    CompareEqual(a.name, c.name);
    if a.name == b.name == c.name {
      CompareTransitive(a.guid, b.guid, c.guid);
    }
  }

  // ----- sortedness, uniqueness and the map a list stands for

  ghost predicate Sorted(s: seq<ListItem>) {
    forall i, j :: 0 <= i < j < |s| ==> CompareKeys(s[i].Key(), s[j].Key()) != Greater
  }

  ghost predicate StrictlySorted(s: seq<ListItem>) {
    forall i, j :: 0 <= i < j < |s| ==> CompareKeys(s[i].Key(), s[j].Key()) == Less
  }

  ghost predicate UniqueKeys(s: seq<ListItem>) {
    forall i, j :: 0 <= i < j < |s| ==> s[i].Key() != s[j].Key()
  }

  ghost predicate Normalized(lower: string -> string, s: seq<ListItem>) {
    forall i :: 0 <= i < |s| ==> s[i].sortableName == lower(s[i].name)
  }

  ghost function Index(s: seq<ListItem>): map<ListKey, ListItem>
    requires UniqueKeys(s)
  {
    map x | x in s :: x.Key() := x
  }

  lemma SortedUniqueIsStrict(s: seq<ListItem>)
    requires Sorted(s) && UniqueKeys(s)
    ensures StrictlySorted(s)
  {
    forall i, j | 0 <= i < j < |s| ensures CompareKeys(s[i].Key(), s[j].Key()) == Less {
      CompareKeysEqual(s[i].Key(), s[j].Key());
    }
  }

  // ----- the stable sort

  function InsertSorted(x: ListItem, s: seq<ListItem>): seq<ListItem> {
    if s == [] || CompareKeys(x.Key(), s[0].Key()) != Greater then [x] + s
    else [s[0]] + InsertSorted(x, s[1..])
  }

  function Sort(s: seq<ListItem>): seq<ListItem> {
    if s == [] then [] else InsertSorted(s[0], Sort(s[1..]))
  }

  lemma {:induction false} InsertSortedSplits(x: ListItem, s: seq<ListItem>) returns (k: nat)
    ensures k <= |s| && InsertSorted(x, s) == s[..k] + [x] + s[k..]
    ensures forall i :: 0 <= i < k ==> CompareKeys(x.Key(), s[i].Key()) == Greater
    ensures k < |s| ==> CompareKeys(x.Key(), s[k].Key()) != Greater
  {
    if s == [] || CompareKeys(x.Key(), s[0].Key()) != Greater {
      k := 0;
    } else {
      var m := InsertSortedSplits(x, s[1..]);
      k := m + 1;
      assert s[1..][..m] == s[1..k] && s[1..][m..] == s[k..];
      forall i | 0 <= i < k ensures CompareKeys(x.Key(), s[i].Key()) == Greater {
        if i > 0 { assert s[i] == s[1..][i - 1]; }
      }
    }
  }

  lemma InsertedOrder(s: seq<ListItem>, x: ListItem, k: nat)
    requires Sorted(s) && k <= |s|
    requires forall i :: 0 <= i < k ==> CompareKeys(s[i].Key(), x.Key()) != Greater
    requires forall i :: k <= i < |s| ==> CompareKeys(x.Key(), s[i].Key()) != Greater
    ensures Sorted(s[..k] + [x] + s[k..])
  {
    var t := s[..k] + [x] + s[k..];
    forall i, j | 0 <= i < j < |t| ensures CompareKeys(t[i].Key(), t[j].Key()) != Greater {
      assert t[i] == (if i < k then s[i] else if i == k then x else s[i - 1]);
      assert t[j] == (if j < k then s[j] else if j == k then x else s[j - 1]);
    }
  }

  lemma InsertedKeys(s: seq<ListItem>, x: ListItem, k: nat)
    requires k <= |s|
    ensures UniqueKeys(s[..k] + [x] + s[k..]) <==> UniqueKeys(s) && forall i :: 0 <= i < |s| ==> s[i].Key() != x.Key()
  {
    var t := s[..k] + [x] + s[k..];
    assert t[k] == x;
    if UniqueKeys(t) {
      forall i | 0 <= i < |s| ensures s[i].Key() != x.Key() {
        assert s[i] == t[if i < k then i else i + 1];
      }
      forall i, j | 0 <= i < j < |s| ensures s[i].Key() != s[j].Key() {
        assert s[i] == t[if i < k then i else i + 1];
        assert s[j] == t[if j < k then j else j + 1];
      }
    }
    if UniqueKeys(s) && forall i :: 0 <= i < |s| ==> s[i].Key() != x.Key() {
      forall i, j | 0 <= i < j < |t| ensures t[i].Key() != t[j].Key() {
        assert t[i] == (if i < k then s[i] else if i == k then x else s[i - 1]);
        assert t[j] == (if j < k then s[j] else if j == k then x else s[j - 1]);
      }
    }
  }

  lemma InsertSortedCorrect(x: ListItem, s: seq<ListItem>)
    requires Sorted(s)
    ensures Sorted(InsertSorted(x, s))
    ensures multiset(InsertSorted(x, s)) == multiset(s) + multiset{x}
    ensures UniqueKeys(InsertSorted(x, s)) <==>
            UniqueKeys(s) && forall i :: 0 <= i < |s| ==> s[i].Key() != x.Key()
  {
    var k := InsertSortedSplits(x, s);
    forall i | 0 <= i < k ensures CompareKeys(s[i].Key(), x.Key()) != Greater {
      CompareKeysFlip(s[i].Key(), x.Key());
    }
    forall i | k <= i < |s| ensures CompareKeys(x.Key(), s[i].Key()) != Greater {
      if i > k {
        CompareKeysTransitive(x.Key(), s[k].Key(), s[i].Key());
      }
    }
    InsertedOrder(s, x, k);
    InsertedKeys(s, x, k);
    InsertedItems(s, x, k);
  }

  lemma InsertedItems(s: seq<ListItem>, x: ListItem, k: nat)
    requires k <= |s|
    ensures multiset(s[..k] + [x] + s[k..]) == multiset(s) + multiset{x}
  {
    assert s == s[..k] + s[k..];
  }

  /** Sorting orders the items, keeps every one of them, and neither creates nor hides a duplicate key. */
  lemma {:induction false} SortCorrect(s: seq<ListItem>)
    ensures Sorted(Sort(s)) && multiset(Sort(s)) == multiset(s)
    ensures UniqueKeys(Sort(s)) <==> UniqueKeys(s)
  {
    if s != [] {
      var x, rest := s[0], s[1..];
      SortCorrect(rest);
      InsertSortedCorrect(x, Sort(rest));
      SameItems(rest, Sort(rest));
      InsertedKeys(rest, x, 0);
      assert s == rest[..0] + [x] + rest[0..];
      FreshKey(rest, Sort(rest), x.Key());
    }
  }

  lemma FreshKey(s: seq<ListItem>, t: seq<ListItem>, key: ListKey)
    requires forall x :: x in s <==> x in t
    ensures (forall i :: 0 <= i < |s| ==> s[i].Key() != key) <==> (forall i :: 0 <= i < |t| ==> t[i].Key() != key)
  {
    assert forall i :: 0 <= i < |s| ==> s[i] in t;
    assert forall i :: 0 <= i < |t| ==> t[i] in s;
  }

  lemma SameItems(s: seq<ListItem>, t: seq<ListItem>)
    requires multiset(s) == multiset(t)
    ensures forall x :: x in s <==> x in t
    ensures |s| == |t|
  {
    forall x ensures x in s <==> x in t {
      assert x in s <==> x in multiset(s);
      assert x in t <==> x in multiset(t);
    }
    assert |multiset(s)| == |s| && |multiset(t)| == |t|;
  }

  lemma SortKeepsMeaning(lower: string -> string, s: seq<ListItem>)
    ensures |Sort(s)| == |s|
    ensures Normalized(lower, s) ==> Normalized(lower, Sort(s))
    ensures UniqueKeys(s) ==> UniqueKeys(Sort(s)) && Index(Sort(s)) == Index(s)
  {
    SortCorrect(s);
    SameItems(s, Sort(s));
    if Normalized(lower, s) {
      forall i | 0 <= i < |Sort(s)| ensures Sort(s)[i].sortableName == lower(Sort(s)[i].name) {
        assert Sort(s)[i] in s;
      }
    }
  }

  // ----- bisection

  /** Found(i): the probe calls item i equal. Missing(i): items before i are less, items from i on greater. */
  datatype SearchResult = Found(at: nat) | Missing(at: nat)

  ghost predicate Partitioned(s: seq<ListItem>, probe: ListItem -> Ordering) {
    && (forall i, j :: 0 <= i < j < |s| && probe(s[j]) == Less ==> probe(s[i]) == Less)
    && (forall i, j :: 0 <= i < j < |s| && probe(s[i]) == Greater ==> probe(s[j]) == Greater)
  }

  /** What a binary search may return: with several equal items, any of them. */
  ghost predicate Located(s: seq<ListItem>, probe: ListItem -> Ordering, r: SearchResult) {
    match r
    case Found(i) => i < |s| && probe(s[i]) == Equal
    case Missing(i) =>
      && i <= |s|
      && (forall j :: 0 <= j < i ==> probe(s[j]) == Less)
      && (forall j :: i <= j < |s| ==> probe(s[j]) == Greater)
  }

  method BinarySearchBy(s: seq<ListItem>, probe: ListItem -> Ordering) returns (r: SearchResult)
    requires Partitioned(s, probe)
    ensures Located(s, probe, r)
  {
    var lo, hi := 0, |s|;
    while lo < hi
      invariant 0 <= lo <= hi <= |s|
      invariant forall j :: 0 <= j < lo ==> probe(s[j]) == Less
      invariant forall j :: hi <= j < |s| ==> probe(s[j]) == Greater
    {
      var mid := lo + (hi - lo) / 2;
      match probe(s[mid])
      case Less => lo := mid + 1;
      case Greater => hi := mid;
      case Equal => return Found(mid);
    }
    return Missing(lo);
  }

  function KeyProbe(key: ListKey): ListItem -> Ordering {
    (x: ListItem) => CompareKeys(x.Key(), key)
  }

  function NameProbe(criteria: string): ListItem -> Ordering {
    (x: ListItem) => Compare(x.sortableName, criteria)
  }

  lemma KeyProbePartitions(s: seq<ListItem>, key: ListKey)
    requires Sorted(s)
    ensures Partitioned(s, KeyProbe(key))
  {
    var probe := KeyProbe(key);
    forall i, j | 0 <= i < j < |s| && probe(s[j]) == Less ensures probe(s[i]) == Less {
      CompareKeysTransitive(s[i].Key(), s[j].Key(), key);
    }
    forall i, j | 0 <= i < j < |s| && probe(s[i]) == Greater ensures probe(s[j]) == Greater {
      CompareKeysFlip(key, s[i].Key());
      CompareKeysTransitive(key, s[i].Key(), s[j].Key());
      CompareKeysFlip(key, s[j].Key());
    }
  }

  lemma SortedNames(s: seq<ListItem>, i: nat, j: nat)
    requires Sorted(s) && i <= j < |s|
    ensures Compare(s[i].sortableName, s[j].sortableName) != Greater
  {
    if i == j {
      CompareEqual(s[i].sortableName, s[i].sortableName);
    } else {
      assert CompareKeys(s[i].Key(), s[j].Key()) != Greater;
    }
  }

  lemma NameProbePartitions(s: seq<ListItem>, criteria: string)
    requires Sorted(s)
    ensures Partitioned(s, NameProbe(criteria))
  {
    var probe := NameProbe(criteria);
    forall i, j | 0 <= i < j < |s| && probe(s[j]) == Less ensures probe(s[i]) == Less {
      SortedNames(s, i, j);
      CompareTransitive(s[i].sortableName, s[j].sortableName, criteria);
    }
    forall i, j | 0 <= i < j < |s| && probe(s[i]) == Greater ensures probe(s[j]) == Greater {
      SortedNames(s, i, j);
      CompareFlip(criteria, s[i].sortableName);
      CompareTransitive(criteria, s[i].sortableName, s[j].sortableName);
      CompareFlip(criteria, s[j].sortableName);
    }
  }

  /** Searching by key in a sorted list finds an item exactly when one has that key. */
  lemma SearchFindsKey(s: seq<ListItem>, key: ListKey, r: SearchResult)
    requires Located(s, KeyProbe(key), r)
    ensures r.Found? ==> r.at < |s| && s[r.at].Key() == key
    ensures r.Missing? ==> forall i :: 0 <= i < |s| ==> s[i].Key() != key
  {
    if r.Found? {
      CompareKeysEqual(s[r.at].Key(), key);
    } else {
      forall i | 0 <= i < |s| ensures s[i].Key() != key {
        assert KeyProbe(key)(s[i]) != Equal;
        CompareKeysEqual(s[i].Key(), key);
      }
    }
  }

  // ----- list edits and the map

  lemma InsertAtMissing(s: seq<ListItem>, x: ListItem, at: nat)
    requires Sorted(s) && Located(s, KeyProbe(x.Key()), Missing(at))
    ensures Sorted(s[..at] + [x] + s[at..])
    ensures UniqueKeys(s) ==>
              && UniqueKeys(s[..at] + [x] + s[at..])
              && x.Key() !in Index(s)
              && Index(s[..at] + [x] + s[at..]) == Index(s)[x.Key() := x]
  {
    var t := s[..at] + [x] + s[at..];
    SearchFindsKey(s, x.Key(), Missing(at));
    forall i | at <= i < |s| ensures CompareKeys(x.Key(), s[i].Key()) != Greater {
      assert KeyProbe(x.Key())(s[i]) == Greater;
      CompareKeysFlip(x.Key(), s[i].Key());
    }
    forall i | 0 <= i < at ensures CompareKeys(s[i].Key(), x.Key()) != Greater {
      assert KeyProbe(x.Key())(s[i]) == Less;
    }
    InsertedOrder(s, x, at);
    InsertedKeys(s, x, at);
    if UniqueKeys(s) {
      forall y ensures y in t <==> y in s || y == x {
        assert s == s[..at] + s[at..];
      }
    }
  }

  lemma IndexAt(s: seq<ListItem>, i: nat)
    requires UniqueKeys(s) && i < |s|
    ensures s[i].Key() in Index(s) && Index(s)[s[i].Key()] == s[i]
  {
    assert s[i] in s;
  }

  lemma IndexKey(s: seq<ListItem>, key: ListKey) returns (i: nat)
    requires UniqueKeys(s) && key in Index(s)
    ensures i < |s| && s[i].Key() == key && Index(s)[key] == s[i]
  {
    i :| 0 <= i < |s| && s[i].Key() == key;
    IndexAt(s, i);
  }

  lemma SameKeys(s: seq<ListItem>, t: seq<ListItem>)
    requires |s| == |t| && forall i :: 0 <= i < |s| ==> s[i].Key() == t[i].Key()
    ensures Sorted(s) ==> Sorted(t)
    ensures UniqueKeys(s) ==> UniqueKeys(t)
  {
  }

  lemma ReplacedIndex(s: seq<ListItem>, t: seq<ListItem>, at: nat, k: ListKey)
    requires at < |s| == |t| && UniqueKeys(s) && UniqueKeys(t)
    requires t[at].Key() == s[at].Key() && forall i :: 0 <= i < |s| && i != at ==> t[i] == s[i]
    ensures k in Index(t) <==> k in Index(s)
    ensures k in Index(t) ==> Index(t)[k] == if k == s[at].Key() then t[at] else Index(s)[k]
  {
    if k in Index(t) {
      var i := IndexKey(t, k);
      IndexAt(s, i);
    }
    if k in Index(s) {
      var i := IndexKey(s, k);
      IndexAt(t, i);
    }
  }

  lemma ReplaceAt(s: seq<ListItem>, x: ListItem, at: nat, t: seq<ListItem>)
    requires at < |s| && s[at].Key() == x.Key() && t == s[at := x]
    ensures Sorted(s) ==> Sorted(t)
    ensures UniqueKeys(s) ==>
              && UniqueKeys(t)
              && x.Key() in Index(s) && Index(s)[x.Key()] == s[at]
              && Index(t) == Index(s)[x.Key() := x]
  {
    SameKeys(s, t);
    if UniqueKeys(s) {
      IndexAt(s, at);
      forall k: ListKey {
        ReplacedIndex(s, t, at, k);
      }
    }
  }

  lemma RemovedKeys(s: seq<ListItem>, at: nat)
    requires at < |s|
    ensures Sorted(s) ==> Sorted(s[..at] + s[at + 1..])
    ensures UniqueKeys(s) ==> UniqueKeys(s[..at] + s[at + 1..])
  {
    var t := s[..at] + s[at + 1..];
    assert forall i :: 0 <= i < |t| ==> t[i] == s[if i < at then i else i + 1];
  }

  lemma RemovedIndex(s: seq<ListItem>, t: seq<ListItem>, at: nat, k: ListKey)
    requires at < |s| && t == s[..at] + s[at + 1..] && UniqueKeys(s) && UniqueKeys(t)
    ensures k in Index(t) <==> k in Index(s) && k != s[at].Key()
    ensures k in Index(t) ==> Index(t)[k] == Index(s)[k]
  {
    if k in Index(t) {
      var i := IndexKey(t, k);
      IndexAt(s, if i < at then i else i + 1);
    }
    if k in Index(s) && k != s[at].Key() {
      var i := IndexKey(s, k);
      IndexAt(t, if i < at then i else i - 1);
    }
  }

  lemma RemovedMeaning(s: seq<ListItem>, at: nat, t: seq<ListItem>)
    requires at < |s| && t == s[..at] + s[at + 1..] && UniqueKeys(s) && UniqueKeys(t)
    ensures Index(t) == Index(s) - {s[at].Key()}
  {
    forall k: ListKey ensures k in Index(t) <==> k in Index(s) && k != s[at].Key() {
      RemovedIndex(s, t, at, k);
    }
    forall k: ListKey | k in Index(t) ensures Index(t)[k] == Index(s)[k] {
      RemovedIndex(s, t, at, k);
    }
  }

  lemma RemoveAt(s: seq<ListItem>, at: nat, t: seq<ListItem>)
    requires at < |s| && t == s[..at] + s[at + 1..]
    ensures Sorted(s) ==> Sorted(t)
    ensures UniqueKeys(s) ==>
              && UniqueKeys(t)
              && s[at].Key() in Index(s) && Index(s)[s[at].Key()] == s[at]
              && Index(t) == Index(s) - {s[at].Key()}
  {
    RemovedKeys(s, at);
    if UniqueKeys(s) {
      IndexAt(s, at);
      RemovedMeaning(s, at, t);
    }
  }

  function With(s: seq<ListItem>, x: ListItem, r: SearchResult): seq<ListItem>
    requires if r.Found? then r.at < |s| else r.at <= |s|
  {
    if r.Found? then s[r.at := x] else s[..r.at] + [x] + s[r.at..]
  }

  /** What an insertion of `x` does to the list and to the map, for whatever the search found. */
  lemma InsertFound(s: seq<ListItem>, x: ListItem, r: SearchResult)
    requires Sorted(s) && Located(s, KeyProbe(x.Key()), r)
    ensures if r.Found? then r.at < |s| else r.at <= |s|
    ensures Sorted(With(s, x, r))
    ensures UniqueKeys(s) ==>
              && UniqueKeys(With(s, x, r)) && Index(With(s, x, r)) == Index(s)[x.Key() := x]
              && (x.Key() in Index(s) <==> r.Found?) && (r.Found? ==> Index(s)[x.Key()] == s[r.at])
  {
    SearchFindsKey(s, x.Key(), r);
    if r.Found? {
      ReplaceAt(s, x, r.at, s[r.at := x]);
    } else {
      InsertAtMissing(s, x, r.at);
    }
  }

  function Without(s: seq<ListItem>, at: nat): seq<ListItem>
    requires at < |s|
  {
    s[..at] + s[at + 1..]
  }

  /** What a removal of `key` does to the list and to the map, for whatever the search found. */
  lemma RemoveFound(s: seq<ListItem>, key: ListKey, r: SearchResult)
    requires Sorted(s) && Located(s, KeyProbe(key), r)
    ensures r.Found? ==> r.at < |s| && Sorted(Without(s, r.at))
    ensures UniqueKeys(s) && r.Found? ==>
              && UniqueKeys(Without(s, r.at)) && Index(Without(s, r.at)) == Index(s) - {key}
              && key in Index(s) && Index(s)[key] == s[r.at]
    ensures UniqueKeys(s) && r.Missing? ==> key !in Index(s) && Index(s) - {key} == Index(s)
  {
    SearchFindsKey(s, key, r);
    if r.Found? {
      RemoveAt(s, r.at, Without(s, r.at));
    }
  }

  // ----- the prefix filter

  datatype Range = Range(start: nat, end: nat)

  predicate Matches(lower: string -> string, x: ListItem, criteria: string) { criteria <= lower(x.name) }

  /** The backward walk of the filter: it never looks at index 0 from above. */
  function WalkBack(lower: string -> string, s: seq<ListItem>, criteria: string, index: nat): (k: nat)
    requires index <= |s|
    ensures k <= index
  {
    if index > 1 && Matches(lower, s[index - 1], criteria) then WalkBack(lower, s, criteria, index - 1) else index
  }

  function WalkForward(lower: string -> string, s: seq<ListItem>, criteria: string, end: nat): (k: nat)
    ensures end <= k && (end <= |s| ==> k <= |s|)
    decreases |s| - end
  {
    if end < |s| && Matches(lower, s[end], criteria) then WalkForward(lower, s, criteria, end + 1) else end
  }

  /** The range the filter stores for a non-empty list and criteria, given where bisection landed. */
  function FilterRange(lower: string -> string, s: seq<ListItem>, criteria: string, r: SearchResult): Option<Range>
    requires s != [] && r.at <= |s|
  {
    var probe := if r.at < |s| then r.at else |s| - 1;
    if !Matches(lower, s[probe], criteria) then None
    else
      var start := WalkBack(lower, s, criteria, r.at);
      Some(Range(start, WalkForward(lower, s, criteria, start + 1)))
  }

  lemma {:induction false} WalkBackStops(lower: string -> string, s: seq<ListItem>, criteria: string, index: nat)
    requires index <= |s|
    ensures var k := WalkBack(lower, s, criteria, index);
            && (forall i :: k <= i < index ==> Matches(lower, s[i], criteria))
            && (k > 1 ==> !Matches(lower, s[k - 1], criteria))
            && (index > 0 ==> k > 0)
  {
    if index > 1 && Matches(lower, s[index - 1], criteria) {
      WalkBackStops(lower, s, criteria, index - 1);
    }
  }

  lemma {:induction false} WalkForwardStops(lower: string -> string, s: seq<ListItem>, criteria: string, end: nat)
    ensures var k := WalkForward(lower, s, criteria, end);
            && (forall i :: end <= i < k && i < |s| ==> Matches(lower, s[i], criteria))
            && (k < |s| ==> !Matches(lower, s[k], criteria))
    decreases |s| - end
  {
    if end < |s| && Matches(lower, s[end], criteria) {
      WalkForwardStops(lower, s, criteria, end + 1);
    }
  }

  /** In a sorted list the matching items are contiguous. */
  lemma MatchesAreContiguous(lower: string -> string, s: seq<ListItem>, criteria: string, i: nat, j: nat, k: nat)
    requires Sorted(s) && Normalized(lower, s)
    requires i <= j <= k < |s| && Matches(lower, s[i], criteria) && Matches(lower, s[k], criteria)
    ensures Matches(lower, s[j], criteria)
  {
    SortedNames(s, i, j);
    SortedNames(s, j, k);
    PrefixSortsFirst(criteria, s[i].sortableName);
    CompareTransitive(criteria, s[i].sortableName, s[j].sortableName);
    PrefixIsConvex(criteria, s[j].sortableName, s[k].sortableName);
  }

  /** Where bisection lands relative to any match: at an exact match, or at the first match. */
  lemma LandingPoint(lower: string -> string, s: seq<ListItem>, criteria: string, r: SearchResult, m: nat)
    requires Sorted(s) && Normalized(lower, s) && Located(s, NameProbe(criteria), r)
    requires m < |s| && Matches(lower, s[m], criteria)
    ensures r.at < |s| && Matches(lower, s[r.at], criteria)
    ensures r.Missing? ==> r.at <= m
    ensures r.Found? ==> s[r.at].sortableName == criteria
  {
    PrefixSortsFirst(criteria, s[m].sortableName);
    CompareFlip(criteria, s[m].sortableName);
    assert NameProbe(criteria)(s[m]) != Less;
    match r
    case Found(i) => CompareEqual(s[i].sortableName, criteria);
    case Missing(i) =>
      assert i <= m;
      assert NameProbe(criteria)(s[i]) == Greater;
      CompareFlip(criteria, s[i].sortableName);
      SortedNames(s, i, m);
      PrefixIsConvex(criteria, s[i].sortableName, s[m].sortableName);
  }

  /** There is no range exactly when nothing matches. */
  lemma FilterNoneIff(lower: string -> string, s: seq<ListItem>, criteria: string, r: SearchResult)
    requires s != [] && Sorted(s) && Normalized(lower, s) && Located(s, NameProbe(criteria), r)
    ensures FilterRange(lower, s, criteria, r).None? <==> forall i :: 0 <= i < |s| ==> !Matches(lower, s[i], criteria)
  {
    if m :| 0 <= m < |s| && Matches(lower, s[m], criteria) {
      LandingPoint(lower, s, criteria, r, m);
    }
  }

  /** The stored range is in bounds, not empty, and holds matching items only. */
  lemma FilterSound(lower: string -> string, s: seq<ListItem>, criteria: string, r: SearchResult)
    requires s != [] && Sorted(s) && Normalized(lower, s) && Located(s, NameProbe(criteria), r)
    requires FilterRange(lower, s, criteria, r).Some?
    ensures var f := FilterRange(lower, s, criteria, r).value;
            && f.start < f.end <= |s|
            && forall i :: f.start <= i < f.end ==> Matches(lower, s[i], criteria)
  {
    var probe := if r.at < |s| then r.at else |s| - 1;
    LandingPoint(lower, s, criteria, r, probe);
    RangeMatches(lower, s, criteria, r.at);
  }

  lemma RangeMatches(lower: string -> string, s: seq<ListItem>, criteria: string, at: nat)
    requires at < |s| && Matches(lower, s[at], criteria)
    ensures var start := WalkBack(lower, s, criteria, at);
            var end := WalkForward(lower, s, criteria, start + 1);
            start < end <= |s| && forall i :: start <= i < end ==> Matches(lower, s[i], criteria)
  {
    WalkBackStops(lower, s, criteria, at);
    WalkForwardStops(lower, s, criteria, WalkBack(lower, s, criteria, at) + 1);
  }

  ghost predicate Complete(lower: string -> string, s: seq<ListItem>, criteria: string, f: Option<Range>) {
    forall i :: 0 <= i < |s| && Matches(lower, s[i], criteria) ==> f.Some? && f.value.start <= i < f.value.end
  }

  predicate FirstTwoExact(s: seq<ListItem>, criteria: string) {
    |s| >= 2 && s[0].sortableName == criteria && s[1].sortableName == criteria
  }

  /** With item 0 a match and item r >= 1 named exactly by the criteria, items 0 and 1 are too. */
  lemma SqueezedNames(s: seq<ListItem>, criteria: string, r: nat)
    requires Sorted(s) && 1 <= r < |s| && criteria <= s[0].sortableName && s[r].sortableName == criteria
    ensures FirstTwoExact(s, criteria)
  {
    PrefixSortsFirst(criteria, s[0].sortableName);
    SortedNames(s, 0, 1);
    SortedNames(s, 1, r);
    CompareTransitive(s[0].sortableName, s[1].sortableName, criteria);
    CompareTransitive(criteria, s[0].sortableName, s[1].sortableName);
    CompareFlip(criteria, s[0].sortableName);
    CompareFlip(criteria, s[1].sortableName);
    CompareEqual(criteria, s[0].sortableName);
    CompareEqual(criteria, s[1].sortableName);
  }

  lemma ForwardWalkReaches(lower: string -> string, s: seq<ListItem>, criteria: string, start: nat, m: nat)
    requires Sorted(s) && Normalized(lower, s) && start <= m < |s|
    requires Matches(lower, s[start], criteria) && Matches(lower, s[m], criteria)
    ensures m < WalkForward(lower, s, criteria, start + 1)
  {
    WalkForwardStops(lower, s, criteria, start + 1);
    var end := WalkForward(lower, s, criteria, start + 1);
    if end <= m {
      MatchesAreContiguous(lower, s, criteria, start, end, m);
    }
  }

  lemma BackwardWalkReaches(lower: string -> string, s: seq<ListItem>, criteria: string, m: nat, at: nat)
    requires Sorted(s) && Normalized(lower, s) && m <= at < |s|
    requires Matches(lower, s[m], criteria) && Matches(lower, s[at], criteria)
    requires s[at].sortableName == criteria && !FirstTwoExact(s, criteria)
    ensures WalkBack(lower, s, criteria, at) <= m
  {
    WalkBackStops(lower, s, criteria, at);
    var start := WalkBack(lower, s, criteria, at);
    if m < start {
      if start > 1 {
        MatchesAreContiguous(lower, s, criteria, m, start - 1, at);
      } else {
        // only item 0 can be lost, from an exact match at or after item 1
        SqueezedNames(s, criteria, at);
      }
    }
  }

  lemma FilterMissesOnlyFirst(lower: string -> string, s: seq<ListItem>, criteria: string, r: SearchResult, m: nat)
    requires s != [] && Sorted(s) && Normalized(lower, s) && Located(s, NameProbe(criteria), r)
    requires m < |s| && Matches(lower, s[m], criteria) && !FirstTwoExact(s, criteria)
    ensures var f := FilterRange(lower, s, criteria, r);
            f.Some? && f.value.start <= m < f.value.end
  {
    WalkBackReaches(lower, s, criteria, r, m);
    WalkBackStops(lower, s, criteria, r.at);
    ForwardWalkReaches(lower, s, criteria, WalkBack(lower, s, criteria, r.at), m);
  }

  lemma WalkBackReaches(lower: string -> string, s: seq<ListItem>, criteria: string, r: SearchResult, m: nat)
    requires Sorted(s) && Normalized(lower, s) && Located(s, NameProbe(criteria), r)
    requires m < |s| && Matches(lower, s[m], criteria) && !FirstTwoExact(s, criteria)
    ensures r.at < |s| && Matches(lower, s[r.at], criteria) && WalkBack(lower, s, criteria, r.at) <= m
  {
    LandingPoint(lower, s, criteria, r, m);
    if m < r.at {
      BackwardWalkReaches(lower, s, criteria, m, r.at);
    } else {
      WalkBackStops(lower, s, criteria, r.at);
    }
  }

  /**
   The filter is sure to show every match exactly when the first two sorted items are not both
   named precisely by the criteria; when they are, bisection may land on item 1 and item 0 is lost.
   */
  lemma FilterCompleteIff(lower: string -> string, s: seq<ListItem>, criteria: string)
    requires s != [] && Sorted(s) && Normalized(lower, s)
    ensures (forall r: SearchResult | Located(s, NameProbe(criteria), r) ::
               Complete(lower, s, criteria, FilterRange(lower, s, criteria, r)))
            <==> !FirstTwoExact(s, criteria)
  {
    if FirstTwoExact(s, criteria) {
      var r := Found(1);
      CompareEqual(criteria, criteria);
      assert Located(s, NameProbe(criteria), r);
      assert Matches(lower, s[0], criteria) && Matches(lower, s[1], criteria);
      assert FilterRange(lower, s, criteria, r).value.start == 1;
      assert !Complete(lower, s, criteria, FilterRange(lower, s, criteria, r));
    } else {
      forall r: SearchResult | Located(s, NameProbe(criteria), r)
        ensures Complete(lower, s, criteria, FilterRange(lower, s, criteria, r))
      {
        forall i | 0 <= i < |s| && Matches(lower, s[i], criteria)
          ensures var f := FilterRange(lower, s, criteria, r);
                  f.Some? && f.value.start <= i < f.value.end
        {
          FilterMissesOnlyFirst(lower, s, criteria, r, i);
        }
      }
    }
  }

  /**
   What the filter leaves behind on a non-empty list: a range in bounds with matches only, none
   exactly when nothing matches, and every match unless the first two names equal the criteria.
   */
  ghost predicate FilterOutcome(lower: string -> string, s: seq<ListItem>, criteria: string, f: Option<Range>) {
    && (f.None? <==> forall i :: 0 <= i < |s| ==> !Matches(lower, s[i], criteria))
    && (f.Some? ==>
          && f.value.start < f.value.end <= |s|
          && forall i :: f.value.start <= i < f.value.end ==> Matches(lower, s[i], criteria))
    && (!FirstTwoExact(s, criteria) ==> Complete(lower, s, criteria, f))
  }

  lemma FilterMeans(lower: string -> string, s: seq<ListItem>, criteria: string, r: SearchResult)
    requires s != [] && Sorted(s) && Normalized(lower, s) && Located(s, NameProbe(criteria), r)
    ensures FilterOutcome(lower, s, criteria, FilterRange(lower, s, criteria, r))
  {
    FilterNoneIff(lower, s, criteria, r);
    if FilterRange(lower, s, criteria, r).Some? {
      FilterSound(lower, s, criteria, r);
    }
    FilterCompleteIff(lower, s, criteria);
  }

  // ----- what the user sees

  /** The items whose lower-case name begins with the criteria, in list order. */
  function Matching(lower: string -> string, s: seq<ListItem>, criteria: string): seq<ListItem> {
    if s == [] then []
    else
      var x := s[|s| - 1];
      Matching(lower, s[..|s| - 1], criteria) + if criteria <= lower(x.name) then [x] else []
  }

  lemma {:induction false} NoneMatching(lower: string -> string, s: seq<ListItem>, criteria: string)
    ensures Matching(lower, s, criteria) == [] <==> forall i :: 0 <= i < |s| ==> !Matches(lower, s[i], criteria)
  {
    if s != [] {
      var n := |s| - 1;
      var init := s[..n];
      NoneMatching(lower, init, criteria);
      assert forall i :: 0 <= i < n ==> init[i] == s[i];
    }
  }

  lemma {:induction false} AllMatching(lower: string -> string, s: seq<ListItem>, criteria: string)
    requires forall i :: 0 <= i < |s| ==> Matches(lower, s[i], criteria)
    ensures Matching(lower, s, criteria) == s
  {
    if s != [] {
      var n := |s| - 1;
      var init := s[..n];
      assert forall i :: 0 <= i < n ==> init[i] == s[i];
      AllMatching(lower, init, criteria);
      assert Matches(lower, s[n], criteria) && s == init + [s[n]];
    }
  }

  lemma {:induction false} MatchingJoins(lower: string -> string, a: seq<ListItem>, b: seq<ListItem>, criteria: string)
    ensures Matching(lower, a + b, criteria) == Matching(lower, a, criteria) + Matching(lower, b, criteria)
  {
    if b == [] {
      assert a + b == a;
    } else {
      var n := |b| - 1;
      MatchingJoins(lower, a, b[..n], criteria);
      assert (a + b)[..|a + b| - 1] == a + b[..n];
    }
  }

  /** A stretch of matches with no match before or after it is all that matches. */
  lemma StretchIsMatching(lower: string -> string, s: seq<ListItem>, criteria: string, start: nat, end: nat)
    requires start <= end <= |s|
    requires forall i :: start <= i < end ==> Matches(lower, s[i], criteria)
    requires forall i :: 0 <= i < start || end <= i < |s| ==> !Matches(lower, s[i], criteria)
    ensures Matching(lower, s, criteria) == s[start..end]
  {
    var a, b, c := s[..start], s[start..end], s[end..];
    assert s == (a + b) + c;
    MatchingJoins(lower, a + b, c, criteria);
    MatchingJoins(lower, a, b, criteria);
    NoneMatching(lower, a, criteria);
    NoneMatching(lower, c, criteria);
    AllMatching(lower, b, criteria);
  }

  /** Every match but item 0 is in the range, whatever the search found. */
  lemma LaterMatchesInRange(lower: string -> string, s: seq<ListItem>, criteria: string, r: SearchResult, m: nat)
    requires Sorted(s) && Normalized(lower, s) && Located(s, NameProbe(criteria), r)
    requires 0 < m < |s| && Matches(lower, s[m], criteria)
    ensures var f := FilterRange(lower, s, criteria, r);
            f.Some? && f.value.start <= m < f.value.end
  {
    LandingPoint(lower, s, criteria, r, m);
    LaterWalkBack(lower, s, criteria, r.at, m);
    ForwardWalkReaches(lower, s, criteria, WalkBack(lower, s, criteria, r.at), m);
  }

  lemma LaterWalkBack(lower: string -> string, s: seq<ListItem>, criteria: string, at: nat, m: nat)
    requires Sorted(s) && Normalized(lower, s) && at < |s| && Matches(lower, s[at], criteria)
    requires 0 < m < |s| && Matches(lower, s[m], criteria)
    ensures var start := WalkBack(lower, s, criteria, at);
            start <= m && Matches(lower, s[start], criteria)
  {
    WalkBackStops(lower, s, criteria, at);
    var start := WalkBack(lower, s, criteria, at);
    if m < start {
      MatchesAreContiguous(lower, s, criteria, m, start - 1, at);
    }
  }

  /** What a range shows. */
  function InRange(s: seq<ListItem>, f: Option<Range>): seq<ListItem>
    requires f.Some? ==> f.value.start <= f.value.end <= |s|
  {
    if f.None? then s else s[f.value.start..f.value.end]
  }

  /**
   The filter shows exactly the matches, in order, and everything if there are none; only when the first
   two items are named exactly by the criteria may it leave out the first of them.
   */
  ghost predicate ShowsMatches(lower: string -> string, s: seq<ListItem>, criteria: string, shown: seq<ListItem>) {
    var all := Matching(lower, s, criteria);
    if all == [] then shown == s
    else shown == all || (FirstTwoExact(s, criteria) && shown == all[1..])
  }

  lemma FilterShows(lower: string -> string, s: seq<ListItem>, criteria: string, r: SearchResult)
    requires s != [] && Sorted(s) && Normalized(lower, s) && Located(s, NameProbe(criteria), r)
    ensures var f := FilterRange(lower, s, criteria, r);
            && (f.Some? ==> f.value.start <= f.value.end <= |s|)
            && ShowsMatches(lower, s, criteria, InRange(s, f))
  {
    var f := FilterRange(lower, s, criteria, r);
    FilterNoneIff(lower, s, criteria, r);
    NoneMatching(lower, s, criteria);
    if f.Some? {
      FilterSound(lower, s, criteria, r);
      var start, end := f.value.start, f.value.end;
      forall i | 0 < i < |s| && Matches(lower, s[i], criteria) ensures start <= i < end {
        LaterMatchesInRange(lower, s, criteria, r, i);
      }
      if start > 0 && Matches(lower, s[0], criteria) {
        FirstLeftOut(lower, s, criteria, r);
      } else {
        StretchIsMatching(lower, s, criteria, start, end);
      }
    }
  }

  lemma FirstLeftOut(lower: string -> string, s: seq<ListItem>, criteria: string, r: SearchResult)
    requires s != [] && Sorted(s) && Normalized(lower, s) && Located(s, NameProbe(criteria), r)
    requires var f := FilterRange(lower, s, criteria, r); f.Some? && f.value.start > 0
    requires Matches(lower, s[0], criteria)
    ensures var f := FilterRange(lower, s, criteria, r).value;
            && f.start <= f.end <= |s| && FirstTwoExact(s, criteria) && Matching(lower, s, criteria) != []
            && s[f.start..f.end] == Matching(lower, s, criteria)[1..]
  {
    var f := FilterRange(lower, s, criteria, r).value;
    FilterSound(lower, s, criteria, r);
    if !FirstTwoExact(s, criteria) {
      FilterMissesOnlyFirst(lower, s, criteria, r, 0);
    }
    forall i | 0 < i < |s| && Matches(lower, s[i], criteria) ensures f.start <= i < f.end {
      LaterMatchesInRange(lower, s, criteria, r, i);
    }
    MatchesAreContiguous(lower, s, criteria, 0, 1, f.start);
    AllButFirst(lower, s, criteria, f.end);
  }

  lemma AllButFirst(lower: string -> string, s: seq<ListItem>, criteria: string, end: nat)
    requires 1 <= end <= |s| && Matches(lower, s[0], criteria)
    requires forall i :: 1 <= i < end ==> Matches(lower, s[i], criteria)
    requires forall i :: end <= i < |s| ==> !Matches(lower, s[i], criteria)
    ensures Matching(lower, s, criteria) != [] && s[1..end] == Matching(lower, s, criteria)[1..]
  {
    StretchIsMatching(lower, s, criteria, 0, end);
  }

  /** The two linear walks of the filter, from where bisection landed. */
  method RangeOfMatches(lower: string -> string, s: seq<ListItem>, criteria: string, r: SearchResult)
    returns (f: Option<Range>)
    requires s != [] && r.at <= |s|
    ensures f == FilterRange(lower, s, criteria, r)
  {
    var index := r.at;
    var probe := if index < |s| then index else |s| - 1;
    if !Matches(lower, s[probe], criteria) {
      return None;
    }
    while index > 1
      invariant 0 <= index <= |s|
      invariant WalkBack(lower, s, criteria, index) == WalkBack(lower, s, criteria, r.at)
    {
      if Matches(lower, s[index - 1], criteria) {
        index := index - 1;
      } else {
        break;
      }
    }
    var end := index + 1;
    while end < |s|
      invariant WalkForward(lower, s, criteria, end) == WalkForward(lower, s, criteria, index + 1)
      decreases |s| - end
    {
      if Matches(lower, s[end], criteria) {
        end := end + 1;
      } else {
        break;
      }
    }
    return Some(Range(index, end));
  }

  // ----- the view object

  class FilteredListView {
    const lower: string -> string
    var list: seq<ListItem>
    var sorted: bool
    var itemsPerScreen: nat
    var filterRange: Option<Range>

    ghost predicate Valid()
      reads this
    {
      && Normalized(lower, list)
      && (sorted ==> Sorted(list))
      && itemsPerScreen > 0
      && (filterRange.Some? ==> filterRange.value.start <= filterRange.value.end <= |list|)
    }

    ghost predicate Unique()
      reads this
    {
      UniqueKeys(list)
    }

    /** The finite map the view stands for. */
    ghost function Contents(): map<ListKey, ListItem>
      requires Unique()
      reads this
    {
      Index(list)
    }

    constructor (lower: string -> string)
      ensures Valid() && Unique() && Contents() == map[] && this.lower == lower
    {
      this.lower := lower;
      list, sorted, itemsPerScreen, filterRange := [], false, 1, None;
    }

    method EnsureSorted()
      requires Valid()
      modifies `list, `sorted
      ensures Valid() && sorted && |list| == old(|list|)
      ensures multiset(list) == multiset(old(list))
      ensures Unique() ==> StrictlySorted(list)
      ensures old(Unique()) ==> Unique() && Contents() == old(Contents())
    {
      if !sorted {
        SortCorrect(list);
        SortKeepsMeaning(lower, list);
        list := Sort(list);
        sorted := true;
      }
      StrictWhenUnique();
    }

    lemma StrictWhenUnique()
      requires Valid() && sorted
      ensures Unique() ==> StrictlySorted(list)
    {
      if Unique() {
        SortedUniqueIsStrict(list);
      }
    }

    /** Appending keeps keys unique exactly when the key is new. */
    method Push(item: ListItem)
      requires Valid() && item.sortableName == lower(item.name)
      modifies this
      ensures Valid() && !sorted && list == old(list) + [item]
      ensures old(Unique()) ==> (Unique() <==> item.Key() !in old(Contents()))
      ensures old(Unique()) && Unique() ==> Contents() == old(Contents())[item.Key() := item]
      ensures filterRange == old(filterRange)
    {
      ghost var was := list;
      list := list + [item];
      sorted := false;
      if UniqueKeys(was) {
        assert forall x :: x in list <==> x in was || x == item;
        if k :| 0 <= k < |was| && was[k].Key() == item.Key() {
          assert was[k] in was && list[k].Key() == list[|was|].Key();
        }
      }
    }

    method Clear()
      requires Valid()
      modifies this
      ensures Valid() && Unique() && Contents() == map[] && filterRange == None
    {
      list, sorted, filterRange := [], false, None;
    }

    method SetItemsPerScreen(ips: nat)
      requires Valid()
      modifies `itemsPerScreen
      ensures Valid()
    {
      itemsPerScreen := if ips == 0 then 1 else ips;
    }

    method InsertUnique(item: ListItem) returns (replaced: Option<ListItem>)
      requires Valid() && item.sortableName == lower(item.name)
      modifies this
      ensures Valid() && sorted && filterRange == None
      ensures Unique() ==> StrictlySorted(list)
      ensures old(Unique()) ==>
                && Unique()
                && Contents() == old(Contents())[item.Key() := item]
                && replaced == (if item.Key() in old(Contents()) then Some(old(Contents())[item.Key()]) else None)
    {
      EnsureSorted();
      filterRange := None;
      KeyProbePartitions(list, item.Key());
      var r := BinarySearchBy(list, KeyProbe(item.Key()));
      InsertFound(list, item, r);
      match r {
        case Found(i) =>
          replaced := Some(list[i]);
          list := list[i := item];
        case Missing(i) =>
          replaced := None;
          list := list[..i] + [item] + list[i..];
      }
      StrictWhenUnique();
    }

    method Remove(key: ListKey) returns (removed: Option<ListItem>)
      requires Valid()
      modifies this
      ensures Valid() && sorted && filterRange == None
      ensures Unique() ==> StrictlySorted(list)
      ensures old(Unique()) ==>
                && Unique()
                && Contents() == old(Contents()) - {key}
                && removed == (if key in old(Contents()) then Some(old(Contents())[key]) else None)
    {
      EnsureSorted();
      filterRange := None;
      KeyProbePartitions(list, key);
      var r := BinarySearchBy(list, KeyProbe(key));
      RemoveFound(list, key, r);
      match r {
        case Found(i) =>
          removed := Some(list[i]);
          list := Without(list, i);
        case Missing(i) =>
          removed := None;
      }
      StrictWhenUnique();
    }

    /** The index stands for the mutable reference `get` hands out. */
    method Get(key: ListKey) returns (at: Option<nat>)
      requires Valid()
      modifies `list, `sorted
      ensures Valid() && sorted && multiset(list) == multiset(old(list))
      ensures Unique() ==> StrictlySorted(list)
      ensures at.Some? ==> at.value < |list| && list[at.value].Key() == key
      ensures at.None? ==> forall i :: 0 <= i < |list| ==> list[i].Key() != key
      ensures old(Unique()) ==>
                && Unique() && Contents() == old(Contents())
                && (at.Some? <==> key in Contents())
                && (at.Some? ==> Contents()[key] == list[at.value])
    {
      EnsureSorted();
      KeyProbePartitions(list, key);
      var r := BinarySearchBy(list, KeyProbe(key));
      SearchFindsKey(list, key, r);
      match r
      case Found(i) =>
        at := Some(i);
        assert list[i] in list;
      case Missing(i) => at := None;
    }

    /** A write through the reference that `Get` returned; such writes never change the key. */
    method Overwrite(at: nat, item: ListItem)
      requires Valid() && at < |list|
      requires item.sortableName == lower(item.name) && item.Key() == list[at].Key()
      modifies `list
      ensures Valid() && list == old(list)[at := item]
      ensures old(Unique()) ==> Unique() && Contents() == old(Contents())[item.Key() := item]
    {
      ReplaceAt(list, item, at, list[at := item]);
      list := list[at := item];
    }

    method FilterReset()
      requires Valid()
      modifies `filterRange
      ensures Valid() && filterRange == Some(Range(0, |list|))
      ensures FilteredList() == list
    {
      filterRange := Some(Range(0, |list|));
    }

    method Filter(criteria: string)
      requires Valid()
      modifies `list, `sorted, `filterRange
      ensures Valid() && sorted && multiset(list) == multiset(old(list))
      ensures Unique() ==> StrictlySorted(list)
      ensures old(Unique()) ==> Unique() && Contents() == old(Contents())
      ensures criteria == "" ==> filterRange == Some(Range(0, |list|))
      ensures criteria != "" && list == [] ==> filterRange == old(filterRange)
      ensures criteria != "" && list != [] ==> FilterOutcome(lower, list, criteria, filterRange)
      ensures criteria == "" ==> FilteredList() == list
      ensures criteria != "" ==> ShowsMatches(lower, list, criteria, FilteredList())
    {
      EnsureSorted();
      if criteria == "" {
        FilterReset();
        return;
      }
      if |list| == 0 {
        return;
      }
      NameProbePartitions(list, criteria);
      var r := BinarySearchBy(list, NameProbe(criteria));
      FilterMeans(lower, list, criteria, r);
      FilterShows(lower, list, criteria, r);
      filterRange := RangeOfMatches(lower, list, criteria, r);
    }

    /** What is on display: the filtered range or, without one, the whole list. */
    function FilteredList(): (shown: seq<ListItem>)
      requires Valid()
      reads this
      ensures shown == InRange(list, filterRange)
    {
      match filterRange
      case Some(r) => list[r.start..r.end]
      case None => list
    }
  }
}
