/** The `LinkedHashMap<String, Column>` keyed by DB column that a column
    mapping keeps: a sequence of columns in insertion order whose
    `dbColumn`s are the keys. Re-putting a key that is already present
    replaces its value but keeps its original position, as Java's
    `LinkedHashMap.put` does. */
module LinkedColumnMap {
  import opened Wrappers
  import opened Columns
  import opened Seqs

  /** `keySet()`, in iteration order. */
  function Keys(m: seq<Column>): (ks: seq<string>)
    ensures |ks| == |m|
    ensures forall i :: 0 <= i < |m| ==> ks[i] == m[i].dbColumn
  {
    seq(|m|, i requires 0 <= i < |m| => m[i].dbColumn)
  }

  /** The set of keys. */
  function KeySet(m: seq<Column>): set<string>
  {
    set c | c in m :: c.dbColumn
  }

  /** No key occurs twice: true of every map Java can build. */
  ghost predicate UniqueKeys(m: seq<Column>)
  {
    forall i, j :: 0 <= i < j < |m| ==> m[i].dbColumn != m[j].dbColumn
  }

  /** The position of key `k`, if present. */
  function IndexOfKey(m: seq<Column>, k: string): (r: Option<nat>)
    ensures r.None? <==> forall i :: 0 <= i < |m| ==> m[i].dbColumn != k
    ensures r.Some? ==> r.value < |m| && m[r.value].dbColumn == k
    ensures r.Some? ==> forall i :: 0 <= i < r.value ==> m[i].dbColumn != k
  {
    if |m| == 0 then None
    else if m[0].dbColumn == k then Some(0)
    else match IndexOfKey(m[1..], k)
      case None => None
      case Some(j) => Some(j + 1)
  }

  /** `get(k)`: the column stored under key `k`, or null. */
  function Get(m: seq<Column>, k: string): (r: Option<Column>)
    ensures r.None? <==> k !in KeySet(m)
    ensures r.Some? ==> r.value in m && r.value.dbColumn == k
  {
    match IndexOfKey(m, k)
    case None =>
      assert forall c :: c in m ==> c.dbColumn != k;
      None
    case Some(i) => Some(m[i])
  }

  /** In a map with unique keys, the column at each position is the one
      stored under its key. */
  lemma GetAt(m: seq<Column>, i: nat)
    requires UniqueKeys(m) && i < |m|
    ensures Get(m, m[i].dbColumn) == Some(m[i])
  {
    var j := IndexOfKey(m, m[i].dbColumn);
    assert j.Some?;
  }

  /** Lookups of `k` agree on two maps that hold `k` at the same
      positions. */
  lemma IndexOfKeySame(m: seq<Column>, r: seq<Column>, k: string)
    requires |m| <= |r|
    requires forall i :: 0 <= i < |m| ==> (m[i].dbColumn == k <==> r[i].dbColumn == k)
    requires forall i :: |m| <= i < |r| ==> r[i].dbColumn != k
    ensures IndexOfKey(r, k) == IndexOfKey(m, k)
  {
  }

  /** `put(c.dbColumn, c)`. */
  function Put(m: seq<Column>, c: Column): (r: seq<Column>)
    ensures Get(r, c.dbColumn) == Some(c)
    ensures forall k :: k != c.dbColumn ==> Get(r, k) == Get(m, k)
    ensures KeySet(r) == KeySet(m) + {c.dbColumn}
    ensures c.dbColumn !in KeySet(m) ==> r == m + [c]
    ensures c.dbColumn in KeySet(m) ==> Keys(r) == Keys(m)
    ensures c.dbColumn in KeySet(m) ==>
      forall i :: 0 <= i < |m| && m[i].dbColumn != c.dbColumn ==> r[i] == m[i]
    ensures UniqueKeys(m) ==> UniqueKeys(r)
  {
    match IndexOfKey(m, c.dbColumn)
    case None =>
      PutNewKey(m, c);
      m + [c]
    case Some(i) =>
      PutExistingKey(m, c, i);
      m[i := c]
  }

  /** Appending a column under a fresh key. */
  lemma PutNewKey(m: seq<Column>, c: Column)
    requires c.dbColumn !in KeySet(m)
    ensures forall k :: k != c.dbColumn ==> Get(m + [c], k) == Get(m, k)
    ensures Get(m + [c], c.dbColumn) == Some(c)
    ensures KeySet(m + [c]) == KeySet(m) + {c.dbColumn}
    ensures UniqueKeys(m) ==> UniqueKeys(m + [c])
  {
    var r := m + [c];
    forall k | k != c.dbColumn ensures IndexOfKey(r, k) == IndexOfKey(m, k) {
      IndexOfKeySame(m, r, k);
    }
    assert KeySet(r) == KeySet(m) + {c.dbColumn};
  }

  /** Replacing the column at the position of its key. */
  lemma PutExistingKey(m: seq<Column>, c: Column, i: nat)
    requires i < |m| && m[i].dbColumn == c.dbColumn
    requires forall j :: 0 <= j < i ==> m[j].dbColumn != c.dbColumn
    ensures forall k :: k != c.dbColumn ==> Get(m[i := c], k) == Get(m, k)
    ensures Get(m[i := c], c.dbColumn) == Some(c)
    ensures KeySet(m[i := c]) == KeySet(m)
    ensures Keys(m[i := c]) == Keys(m)
    ensures UniqueKeys(m) ==> UniqueKeys(m[i := c])
  {
    var r := m[i := c];
    forall k | k != c.dbColumn ensures IndexOfKey(r, k) == IndexOfKey(m, k) {
      IndexOfKeySame(m, r, k);
    }
    IndexOfKeySame(m, r, c.dbColumn);
    SameKeys(m, r);
  }

  /** Two maps with the same key at every position have the same keys. */
  lemma SameKeys(m: seq<Column>, r: seq<Column>)
    requires |m| == |r|
    requires forall j :: 0 <= j < |m| ==> r[j].dbColumn == m[j].dbColumn
    ensures Keys(r) == Keys(m) && KeySet(r) == KeySet(m)
  {
    assert Keys(r) == Keys(m);
    forall x | x in KeySet(m) ensures x in KeySet(r) {
      var j :| 0 <= j < |m| && m[j].dbColumn == x;
      assert r[j] in r;
    }
    forall x | x in KeySet(r) ensures x in KeySet(m) {
      var j :| 0 <= j < |r| && r[j].dbColumn == x;
      assert m[j] in m;
    }
  }

  /** Puts every column of `es` in order. */
  function PutAll(m: seq<Column>, es: seq<Column>): (r: seq<Column>)
    ensures UniqueKeys(m) ==> UniqueKeys(r)
    ensures KeySet(r) == KeySet(m) + KeySet(es)
  {
    if |es| == 0 then m
    else
      var init := es[..|es| - 1];
      assert KeySet(es) == KeySet(init) + {es[|es| - 1].dbColumn} by {
        assert es == init + [es[|es| - 1]];
      }
      Put(PutAll(m, init), es[|es| - 1])
  }

  /** The position of the last column in `es` with key `k`, if any. */
  function LastIndexOfKey(es: seq<Column>, k: string): (r: Option<nat>)
    ensures r.None? <==> forall i :: 0 <= i < |es| ==> es[i].dbColumn != k
    ensures r.Some? ==> r.value < |es| && es[r.value].dbColumn == k
    ensures r.Some? ==> forall i :: r.value < i < |es| ==> es[i].dbColumn != k
  {
    var r := LastIndexOf(Keys(es), k);
    assert r.Some? ==> forall i :: r.value < i < |es| ==> Keys(es)[i] in Keys(es)[r.value + 1..];
    r
  }

  /** Putting several columns, the last one put under a key wins; keys not
      put keep their old column. */
  lemma {:induction false} GetPutAll(m: seq<Column>, es: seq<Column>, k: string)
    ensures LastIndexOfKey(es, k).Some? ==>
      Get(PutAll(m, es), k) == Some(es[LastIndexOfKey(es, k).value])
    ensures LastIndexOfKey(es, k).None? ==> Get(PutAll(m, es), k) == Get(m, k)
  {
    if |es| > 0 {
      var init := es[..|es| - 1];
      var last := es[|es| - 1];
      var before := PutAll(m, init);
      assert PutAll(m, es) == Put(before, last);
      GetPutAll(m, init, k);
      if last.dbColumn == k {
        assert LastIndexOfKey(es, k) == Some(|es| - 1);
        assert Get(Put(before, last), k) == Some(last);
      } else {
        assert Keys(init) == Keys(es)[..|es| - 1];
        assert LastIndexOfKey(es, k) == LastIndexOfKey(init, k);
        assert Get(Put(before, last), k) == Get(before, k);
      }
    }
  }

  /** Putting columns with fresh, distinct keys appends them in order. */
  lemma {:induction false} PutAllFresh(m: seq<Column>, es: seq<Column>)
    requires UniqueKeys(es)
    requires KeySet(m) !! KeySet(es)
    ensures PutAll(m, es) == m + es
  {
    if |es| > 0 {
      var init := es[..|es| - 1];
      var last := es[|es| - 1];
      assert es == init + [last];
      assert KeySet(es) == KeySet(init) + {last.dbColumn};
      PutAllFresh(m, init);
      assert last.dbColumn !in KeySet(m + init);
      assert (m + init) + [last] == m + es;
    }
  }

  /** `size()` of a map with unique keys is its number of distinct keys. */
  lemma {:induction false} SizeIsKeyCount(m: seq<Column>)
    requires UniqueKeys(m)
    ensures |KeySet(m)| == |m|
  {
    if |m| > 0 {
      var init := m[..|m| - 1];
      var last := m[|m| - 1];
      assert m == init + [last];
      assert KeySet(m) == KeySet(init) + {last.dbColumn};
      SizeIsKeyCount(init);
    }
  }
}
