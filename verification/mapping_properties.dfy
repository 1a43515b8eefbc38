/** Properties of column mappings that relate several operations: what the
    constructors put where, what a frozen mapping answers, and how the
    query hash depends on the columns. */
module MappingProperties {
  import opened Wrappers
  import opened JavaInt
  import opened Errors
  import opened Columns
  import opened Seqs
  import opened LinkedColumnMap
  import opened Mapping

  // ---------------------------------------------------------------- parsed builder

  /** A parsed builder stores, under each DB column, the last of the given
      columns with that DB column. */
  lemma FromColumnsLastWins(columns: seq<Column>, k: string)
    ensures Get(FromColumns(columns).dbColumnMap, k) ==
      match LastIndexOfKey(columns, k)
      case Some(j) => Some(columns[j])
      case None => None
  {
    GetPutAll([], columns, k);
  }

  /** Columns with distinct DB columns are kept exactly, in order. */
  lemma FromColumnsDistinct(columns: seq<Column>)
    requires UniqueKeys(columns)
    ensures FromColumns(columns).dbColumnMap == columns
  {
    PutAllFresh([], columns);
  }

  // ---------------------------------------------------------------- result-set mode

  /** In result-set mode a property is found at the position of its last
      occurrence among the names, and an unlisted one at -1. */
  lemma CursorIndexPosition(names: seq<string>, h: StringHash, p: string)
    ensures GetIndexPosition(ForResultSet(names, h), p) ==
      Ok(match LastIndexOf(names, p)
         case Some(i) => i
         case None => -1)
  {
    var cols := CursorColumns(names);
    GetPutAll([], cols, p);
  }

  /** With distinct property names, the i-th name is the i-th column (its
      own DB column and property, no alias) and is found at position i. */
  lemma CursorDistinctNames(names: seq<string>, h: StringHash)
    requires forall a, b :: 0 <= a < b < |names| ==> names[a] != names[b]
    ensures ForResultSet(names, h).dbColumnMap == CursorColumns(names)
    ensures forall i :: 0 <= i < |names| ==>
      && ForResultSet(names, h).dbColumnMap[i] == Column(i, names[i], None, Some(names[i]))
      && GetIndexPosition(ForResultSet(names, h), names[i]) == Ok(i)
  {
    var cols := CursorColumns(names);
    assert UniqueKeys(cols) by {
      forall a, b | 0 <= a < b < |cols| ensures cols[a].dbColumn != cols[b].dbColumn {
        assert cols[a].dbColumn == names[a] && cols[b].dbColumn == names[b];
      }
    }
    PutAllFresh([], cols);
    forall i | 0 <= i < |names|
      ensures GetIndexPosition(ForResultSet(names, h), names[i]) == Ok(i)
    {
      CursorIndexPosition(names, h, names[i]);
      LastIndexOfDistinct(names, i);
    }
  }

  /** The result-set hash is built incrementally: one more name folds its
      string hash into the previous value. */
  lemma CursorHashAppend(names: seq<string>, n: string, h: StringHash)
    ensures CursorHash(names + [n], h) == Step31(CursorHash(names, h), h(n))
  {
    assert HashAll(names + [n], h)[..|names|] == HashAll(names, h);
  }

  /** The result-set hash tells apart two name lists that differ in one
      position by names with different string hashes. */
  lemma CursorHashSeparates(names: seq<string>, others: seq<string>, k: nat, h: StringHash)
    requires |names| == |others| && k < |names|
    requires h(names[k]) != h(others[k])
    requires forall i :: 0 <= i < |names| && i != k ==> names[i] == others[i]
    ensures CursorHash(names, h) != CursorHash(others, h)
  {
    Fold31Separates(31, HashAll(names, h), HashAll(others, h), k);
  }

  /** Result-set mode's `queryHash()` answers the fold, unless the fold
      happens to be the sentinel 0. */
  lemma CursorQueryHash(names: seq<string>, h: StringHash)
    ensures QueryHash(ForResultSet(names, h)) ==
      if CursorHash(names, h) == 0 then Err(ZeroQueryHash) else Ok(CursorHash(names, h))
  {
  }

  // ---------------------------------------------------------------- builders and freeze

  /** `getColumns()` lists the columns in insertion order: an unparsed
      builder appends each new DB column at the end, and freezing keeps the
      list as it is. */
  lemma ColumnsInInsertionOrder(cm: ColumnMapping, dbColumn: string,
                                propertyName: Option<string>, h: StringHash)
    requires Valid(cm) && StateOf(cm) == BuildingUnparsed
    requires dbColumn !in KeySet(cm.dbColumnMap)
    ensures SetColumnMapping(cm, dbColumn, propertyName).Ok?
    ensures GetColumns(SetColumnMapping(cm, dbColumn, propertyName).value)
         == GetColumns(cm) + [Column(Size(cm), dbColumn, None, propertyName)]
    ensures CreateImmutableCopy(cm, h).Ok? ==>
      GetColumns(CreateImmutableCopy(cm, h).value) == GetColumns(cm)
  {
  }

  /** A builder never has a query hash: the sentinel survives every
      successful mutation, so `queryHash()` fails until the mapping is
      frozen. */
  lemma BuilderHasNoHash(columns: seq<Column>, dbColumn: string, propertyName: Option<string>)
    ensures QueryHash(FromColumns(columns)) == Err(ZeroQueryHash)
    ensures QueryHash(ForUnparsed()) == Err(ZeroQueryHash)
    ensures forall cm :: cm == FromColumns(columns) || cm == ForUnparsed() ==>
      SetColumnMapping(cm, dbColumn, propertyName).Ok? ==>
        QueryHash(SetColumnMapping(cm, dbColumn, propertyName).value) == Err(ZeroQueryHash)
  {
  }

  /** An unparsed builder grows by one column per new DB column, at the
      position equal to its old size. */
  lemma UnparsedAppend(cm: ColumnMapping, dbColumn: string, propertyName: Option<string>)
    requires Valid(cm) && StateOf(cm) == BuildingUnparsed
    requires dbColumn !in KeySet(cm.dbColumnMap)
    ensures SetColumnMapping(cm, dbColumn, propertyName).Ok?
    ensures var r := SetColumnMapping(cm, dbColumn, propertyName).value;
      && Size(r) == Size(cm) + 1
      && r.dbColumnMap[Size(cm)].indexPos == Size(cm)
      && r.dbColumnMap[..Size(cm)] == cm.dbColumnMap
  {
    var r := SetColumnMapping(cm, dbColumn, propertyName).value;
    assert r.dbColumnMap[..|cm.dbColumnMap|] == cm.dbColumnMap;
  }

  /** Re-mapping a DB column an unparsed builder already holds keeps the
      column in its slot and the size unchanged, but the replacement column
      carries position `size()`, not its slot. */
  lemma UnparsedRemapKeepsSlot(cm: ColumnMapping, dbColumn: string, propertyName: Option<string>)
    requires Valid(cm) && StateOf(cm) == BuildingUnparsed
    requires dbColumn in KeySet(cm.dbColumnMap)
    ensures var r := SetColumnMapping(cm, dbColumn, propertyName).value;
      && Size(r) == Size(cm)
      && Keys(r.dbColumnMap) == Keys(cm.dbColumnMap)
      && Get(r.dbColumnMap, dbColumn).value.indexPos == Size(cm)
  {
  }

  /** Result-set mode over `orderId`, `status`, `customerName` finds them at
      0, 1 and 2, and an unlisted property at -1. */
  lemma CursorPositionsExample(h: StringHash)
    ensures var cm := ForResultSet(["orderId", "status", "customerName"], h);
      && GetIndexPosition(cm, "orderId") == Ok(0)
      && GetIndexPosition(cm, "status") == Ok(1)
      && GetIndexPosition(cm, "customerName") == Ok(2)
      && GetIndexPosition(cm, "orderDate") == Ok(-1)
  {
    var names := ["orderId", "status", "customerName"];
    assert |names[0]| == 7 && |names[1]| == 6 && |names[2]| == 12;
    forall i | 0 <= i < 3 ensures LastIndexOf(names, names[i]) == Some(i) {
      LastIndexOfDistinct(names, i);
    }
    CursorIndexPosition(names, h, names[0]);
    CursorIndexPosition(names, h, names[1]);
    CursorIndexPosition(names, h, names[2]);
    CursorIndexPosition(names, h, "orderDate");
    assert "orderDate" !in names by {
      assert |"orderDate"| == 9;
    }
  }

  /** The parsed builder of the examples below: the select columns
      `order_id` and `c.status`, without aliases, whatever property names
      the parser gave them. */
  function ExampleParsed(p0: Option<string>, p1: Option<string>): (cm: ColumnMapping)
    ensures Valid(cm) && StateOf(cm) == BuildingParsed
    ensures Keys(cm.dbColumnMap) == ["order_id", "c.status"]
    ensures cm.dbColumnMap[1] == Column(1, "c.status", None, p1)
  {
    var columns := [Column(0, "order_id", None, p0), Column(1, "c.status", None, p1)];
    assert UniqueKeys(columns) by {
      assert columns[0].dbColumn == "order_id" && columns[1].dbColumn == "c.status";
      assert "order_id"[0] != "c.status"[0];
    }
    FromColumnsDistinct(columns);
    assert Keys(columns) == ["order_id", "c.status"];
    FromColumns(columns)
  }

  /** A parsed builder refuses a DB column it does not know, listing the
      ones it does. */
  lemma ParsedUnknownKeyExample(p0: Option<string>, p1: Option<string>)
    ensures SetColumnMapping(ExampleParsed(p0, p1), "c.name", Some("customerName"))
            == Err(ColumnNotFound("c.name", ["order_id", "c.status"]))
  {
    var cm := ExampleParsed(p0, p1);
    assert "c.name" !in KeySet(cm.dbColumnMap) by {
      assert "c.name" != "order_id" && "c.name" != "c.status";
      assert forall c :: c in cm.dbColumnMap ==> c.dbColumn in Keys(cm.dbColumnMap);
    }
  }

  /** A parsed builder re-maps a DB column it knows in place, without
      adding a column. */
  lemma ParsedKnownKeyExample(p0: Option<string>, p1: Option<string>)
    ensures var r := SetColumnMapping(ExampleParsed(p0, p1), "c.status", Some("orderStatus"));
      && r.Ok?
      && Size(r.value) == 2
      && Get(r.value.dbColumnMap, "c.status") == Some(Column(1, "c.status", None, Some("orderStatus")))
  {
    var cm := ExampleParsed(p0, p1);
    GetAt(cm.dbColumnMap, 1);
    assert "c.status" in KeySet(cm.dbColumnMap);
    var r := SetColumnMapping(cm, "c.status", Some("orderStatus")).value;
    assert |r.dbColumnMap| == |Keys(r.dbColumnMap)| == 2;
  }

  /** Freezing an unparsed builder over `order_id` and `status` succeeds
      exactly when both have property names, and otherwise names the first
      unmapped one. */
  lemma FreezeExample(a: Option<string>, b: Option<string>, h: StringHash)
    ensures var cm := SetColumnMapping(SetColumnMapping(ForUnparsed(), "order_id", a).value,
                                       "status", b).value;
      && (CreateImmutableCopy(cm, h).Ok? <==> a.Some? && b.Some?)
      && (a.None? ==> CreateImmutableCopy(cm, h) == Err(NoPropertyName("order_id")))
      && (a.Some? && b.None? ==> CreateImmutableCopy(cm, h) == Err(NoPropertyName("status")))
  {
    var cm1 := SetColumnMapping(ForUnparsed(), "order_id", a).value;
    assert cm1.dbColumnMap == [Column(0, "order_id", None, a)];
    assert "status" !in KeySet(cm1.dbColumnMap);
    var cm := SetColumnMapping(cm1, "status", b).value;
    assert cm.dbColumnMap == [Column(0, "order_id", None, a), Column(1, "status", None, b)];
    assert cm.dbColumnMap[..1] == [Column(0, "order_id", None, a)];
  }

  /** Only a frozen mapping refuses a mutation with AlreadyImmutable, and a
      successful mutation never changes the state. */
  lemma MutationKeepsState(cm: ColumnMapping, dbColumn: string, propertyName: Option<string>)
    ensures StateOf(cm) == Frozen <==> SetColumnMapping(cm, dbColumn, propertyName) == Err(AlreadyImmutable)
    ensures SetColumnMapping(cm, dbColumn, propertyName).Ok? ==>
      StateOf(SetColumnMapping(cm, dbColumn, propertyName).value) == StateOf(cm)
  {
  }

  /** A frozen mapping answers property lookups from the last column mapped
      to each property: its position and its DB column. */
  lemma FrozenLookups(cm: ColumnMapping, h: StringHash, p: string)
    requires CreateImmutableCopy(cm, h).Ok?
    ensures var f := CreateImmutableCopy(cm, h).value;
      && GetIndexPosition(f, p) ==
           Ok(match LastWithProperty(cm.dbColumnMap, p)
              case Some(j) => cm.dbColumnMap[j].indexPos
              case None => -1)
      && GetMapping(f).Some?
      && (p in GetMapping(f).value <==> LastWithProperty(cm.dbColumnMap, p).Some?)
      && (p in GetMapping(f).value ==>
            GetMapping(f).value[p] == cm.dbColumnMap[LastWithProperty(cm.dbColumnMap, p).value].dbColumn)
  {
  }

  /** Freezing a frozen mapping again gives back an equal mapping. */
  lemma FreezeIdempotent(f: ColumnMapping, h: StringHash)
    requires Valid(f) && StateOf(f) == Frozen
    requires f.queryHashCode == AsWrittenFrozenHash(f.dbColumnMap, h)
    ensures CreateImmutableCopy(f, h) == Ok(f)
  {
  }

  // ---------------------------------------------------------------- frozen hash

  /** As written, the frozen hash ignores property names and every column but
      the last: two mappings whose last DB columns agree hash alike. */
  lemma AsWrittenIgnoresEarlierColumns(cols: seq<Column>, others: seq<Column>, h: StringHash)
    requires AllMapped(cols) && AllMapped(others)
    requires |cols| > 0 && |others| > 0
    requires cols[|cols| - 1].dbColumn == others[|others| - 1].dbColumn
    ensures AsWrittenFrozenHash(cols, h) == AsWrittenFrozenHash(others, h)
  {
  }

  /** A concrete collision: renaming the property of the only column, or
      replacing an earlier column by another one, leaves the frozen hash
      unchanged. */
  lemma AsWrittenCollision(h: StringHash)
    ensures AsWrittenFrozenHash([Column(0, "order_id", None, Some("order.id"))], h)
         == AsWrittenFrozenHash([Column(0, "order_id", None, Some("order.status"))], h)
    ensures AsWrittenFrozenHash([Column(0, "c.name", None, Some("name")),
                                 Column(1, "order_id", None, Some("id"))], h)
         == AsWrittenFrozenHash([Column(0, "c.status", None, Some("status")),
                                 Column(1, "order_id", None, Some("id"))], h)
  {
  }

  /** The components the intended frozen hash folds: each column's
      property-name hash, then its DB-column hash, column by column. */
  function PairHashes(cols: seq<Column>, h: StringHash): (hs: seq<Int32>)
    requires AllMapped(cols)
    ensures |hs| == 2 * |cols|
  {
    if |cols| == 0 then []
    else
      var c := cols[|cols| - 1];
      PairHashes(cols[..|cols| - 1], h) + [h(c.propertyName.value), h(c.dbColumn)]
  }

  /** Column `i` contributes components `2 * i` and `2 * i + 1`: its
      property-name hash and its DB-column hash. */
  lemma {:induction false} PairHashesAt(cols: seq<Column>, h: StringHash, i: nat)
    requires AllMapped(cols) && i < |cols|
    ensures PairHashes(cols, h)[2 * i] == h(cols[i].propertyName.value)
    ensures PairHashes(cols, h)[2 * i + 1] == h(cols[i].dbColumn)
  {
    var last := |cols| - 1;
    if i < last {
      PairHashesAt(cols[..last], h, i);
      assert cols[..last][i] == cols[i];
    }
  }

  /** The last column is folded in after the columns before it. */
  lemma PairHashesLastColumn(cols: seq<Column>, h: StringHash)
    requires AllMapped(cols) && |cols| > 0
    ensures var c := cols[|cols| - 1];
      Fold31(h(CLASS_NAME), PairHashes(cols, h))
        == Step31(Step31(Fold31(h(CLASS_NAME), PairHashes(cols[..|cols| - 1], h)),
                         h(c.propertyName.value)), h(c.dbColumn))
  {
    var c := cols[|cols| - 1];
    var a, b := h(c.propertyName.value), h(c.dbColumn);
    var ws := PairHashes(cols[..|cols| - 1], h);
    assert PairHashes(cols, h) == ws + [a, b];
    Fold31Append(h(CLASS_NAME), ws, [a, b]);
    Fold31Pair(Fold31(h(CLASS_NAME), ws), a, b);
  }

  /** The frozen hash the immutable constructor evidently intends:
      `hc = 31 * hc + propertyName.hashCode()` then
      `hc = 31 * hc + dbColumn.hashCode()` for every column in order, from
      the class-name hash. */
  function IntendedFrozenHash(cols: seq<Column>, h: StringHash): (r: Int32)
    requires AllMapped(cols)
    ensures |cols| == 0 ==> r == h(CLASS_NAME)
    ensures |cols| > 0 ==>
      var c := cols[|cols| - 1];
      r == Step31(Step31(IntendedFrozenHash(cols[..|cols| - 1], h),
                         h(c.propertyName.value)), h(c.dbColumn))
    decreases |cols|
  {
    if |cols| == 0 then Fold31(h(CLASS_NAME), PairHashes(cols, h))
    else
      PairHashesLastColumn(cols, h);
      Fold31(h(CLASS_NAME), PairHashes(cols, h))
  }

  /** The intended hash depends on every column: changing one column's
      property name, or its DB column, to one with a different string hash
      changes the hash. */
  lemma IntendedHashSeparates(cols: seq<Column>, others: seq<Column>, k: nat, h: StringHash)
    requires AllMapped(cols) && AllMapped(others)
    requires |cols| == |others| && k < |cols|
    requires forall i :: 0 <= i < |cols| && i != k ==> cols[i] == others[i]
    requires || (h(cols[k].propertyName.value) != h(others[k].propertyName.value)
                 && cols[k].dbColumn == others[k].dbColumn)
             || (h(cols[k].dbColumn) != h(others[k].dbColumn)
                 && cols[k].propertyName == others[k].propertyName)
    ensures IntendedFrozenHash(cols, h) != IntendedFrozenHash(others, h)
  {
    var vs, ws := PairHashes(cols, h), PairHashes(others, h);
    var at := if h(cols[k].propertyName.value) != h(others[k].propertyName.value)
                 && cols[k].dbColumn == others[k].dbColumn
              then 2 * k else 2 * k + 1;
    PairHashesAt(cols, h, k);
    PairHashesAt(others, h, k);
    forall j | 0 <= j < |vs| && j != at ensures vs[j] == ws[j] {
      var i := j / 2;
      assert j == 2 * i || j == 2 * i + 1;
      PairHashesAt(cols, h, i);
      PairHashesAt(others, h, i);
    }
    Fold31Separates(h(CLASS_NAME), vs, ws, at);
  }
}
