/** `RawSql.ColumnMapping`: the ordered DB-column-to-property mapping, its
    three states (building unparsed, building parsed, frozen), the
    transitions between them, its query hash and its lookups. */
module Mapping {
  import opened Wrappers
  import opened JavaInt
  import opened Errors
  import opened Columns
  import opened Seqs
  import opened LinkedColumnMap

  /** `ColumnMapping.class.getName()`, the seed of the frozen hash. */
  const CLASS_NAME: string := "com.avaje.ebean.RawSql$ColumnMapping"

  /** The `propertyColumnMap` field: null in a builder, the very same map as
      `dbColumnMap` in result-set mode (keys are property names there), or
      a map built at freeze time. */
  datatype PropertyColumns =
    | NullColumns
    | SharesDbColumnMap
    | ByProperty(columns: map<string, Column>)

  /** The fields of a `ColumnMapping`. `dbColumnMap` holds the columns in
      insertion order, keyed by their `dbColumn`. */
  datatype ColumnMapping = ColumnMapping(
    dbColumnMap: seq<Column>,
    propertyMap: Option<map<string, string>>,
    propertyColumnMap: PropertyColumns,
    parsed: bool,
    immutable: bool,
    queryHashCode: Int32)

  datatype State = BuildingUnparsed | BuildingParsed | Frozen

  function StateOf(cm: ColumnMapping): State
  {
    if cm.immutable then Frozen
    else if cm.parsed then BuildingParsed
    else BuildingUnparsed
  }

  /** Every column has a property name. */
  ghost predicate AllMapped(cols: seq<Column>)
  {
    forall i :: 0 <= i < |cols| ==> cols[i].propertyName.Some?
  }

  /** The property name of every column, in order. */
  function PropertyNames(cols: seq<Column>): (ps: seq<Option<string>>)
    ensures |ps| == |cols|
    ensures forall i :: 0 <= i < |cols| ==> ps[i] == cols[i].propertyName
  {
    seq(|cols|, i requires 0 <= i < |cols| => cols[i].propertyName)
  }

  /** The last column mapped to property `p`: the one whose entries survive
      in the property lookup maps. */
  function LastWithProperty(cols: seq<Column>, p: string): (r: Option<nat>)
    ensures r.None? <==> forall i :: 0 <= i < |cols| ==> cols[i].propertyName != Some(p)
    ensures r.Some? ==> r.value < |cols| && cols[r.value].propertyName == Some(p)
    ensures r.Some? ==> forall i :: r.value < i < |cols| ==> cols[i].propertyName != Some(p)
  {
    var ps := PropertyNames(cols);
    var r := LastIndexOf(ps, Some(p));
    assert r.Some? ==> forall i :: r.value < i < |cols| ==> ps[i] in ps[r.value + 1..];
    r
  }

  /** A property the last column is not mapped to has its last column
      among the earlier ones. */
  lemma LastWithPropertyDropLast(cols: seq<Column>, p: string)
    requires |cols| > 0 && cols[|cols| - 1].propertyName != Some(p)
    ensures LastWithProperty(cols, p) == LastWithProperty(cols[..|cols| - 1], p)
  {
    assert PropertyNames(cols[..|cols| - 1]) == PropertyNames(cols)[..|cols| - 1];
  }

  /** `propertyColumnMap` of a frozen mapping: filled in column order, so a
      property mapped twice keeps its last column. */
  function PropertyColumnMap(cols: seq<Column>): (r: map<string, Column>)
    requires AllMapped(cols)
    ensures forall p :: p in r <==> LastWithProperty(cols, p).Some?
    ensures forall p :: p in r ==> r[p] == cols[LastWithProperty(cols, p).value]
  {
    if |cols| == 0 then map[]
    else
      var init := cols[..|cols| - 1];
      var last := cols[|cols| - 1];
      var r := PropertyColumnMap(init)[last.propertyName.value := last];
      forall p | p != last.propertyName.value
        ensures LastWithProperty(cols, p) == LastWithProperty(init, p)
      {
        LastWithPropertyDropLast(cols, p);
      }
      r
  }

  /** `propertyMap` of a frozen mapping (property to DB column), filled in
      the same loop. */
  function PropertyMap(cols: seq<Column>): (r: map<string, string>)
    requires AllMapped(cols)
    ensures forall p :: p in r <==> LastWithProperty(cols, p).Some?
    ensures forall p :: p in r ==> r[p] == cols[LastWithProperty(cols, p).value].dbColumn
  {
    if |cols| == 0 then map[]
    else
      var init := cols[..|cols| - 1];
      var last := cols[|cols| - 1];
      var r := PropertyMap(init)[last.propertyName.value := last.dbColumn];
      forall p | p != last.propertyName.value
        ensures LastWithProperty(cols, p) == LastWithProperty(init, p)
      {
        LastWithPropertyDropLast(cols, p);
      }
      r
  }

  /** The invariants every mapping built through this module keeps. */
  ghost predicate Valid(cm: ColumnMapping)
  {
    && UniqueKeys(cm.dbColumnMap)
    && (!cm.immutable ==> cm.propertyMap.None? && !cm.propertyColumnMap.ByProperty?)
    && (cm.immutable ==>
          && AllMapped(cm.dbColumnMap)
          && cm.propertyMap == Some(PropertyMap(cm.dbColumnMap))
          && cm.propertyColumnMap == ByProperty(PropertyColumnMap(cm.dbColumnMap)))
  }

  // ---------------------------------------------------------------- constructors

  /** The constructor for parsed SQL whose select columns are known: a
      mutable builder holding the columns keyed by DB column, with the hash
      left at the sentinel. */
  function FromColumns(columns: seq<Column>): (r: ColumnMapping)
    ensures Valid(r) && StateOf(r) == BuildingParsed
    ensures r.queryHashCode == 0
    ensures KeySet(r.dbColumnMap) == KeySet(columns)
  {
    ColumnMapping(PutAll([], columns), None, NullColumns, true, false, 0)
  }

  /** The constructor for unparsed SQL: an empty mutable builder. */
  function ForUnparsed(): (r: ColumnMapping)
    ensures Valid(r) && StateOf(r) == BuildingUnparsed
    ensures r.queryHashCode == 0 && |r.dbColumnMap| == 0
  {
    ColumnMapping([], None, NullColumns, false, false, 0)
  }

  /** The columns result-set mode creates: the i-th property name at
      position i, as both DB column and property. */
  function CursorColumns(names: seq<string>): (cols: seq<Column>)
    ensures |cols| == |names| && Keys(cols) == names
    ensures forall i :: 0 <= i < |names| ==> cols[i] == Column(i, names[i], None, Some(names[i]))
  {
    seq(|names|, i requires 0 <= i < |names| => MakeColumn(i, names[i], None, Some(names[i])))
  }

  /** The string hash of every name, in order. */
  function HashAll(names: seq<string>, h: StringHash): (hs: seq<Int32>)
    ensures |hs| == |names|
    ensures forall i :: 0 <= i < |names| ==> hs[i] == h(names[i])
  {
    seq(|names|, i requires 0 <= i < |names| => h(names[i]))
  }

  /** Result-set mode's hash: `hc = 31 * hc + name.hashCode()` over the
      names, in order, from 31. */
  function CursorHash(names: seq<string>, h: StringHash): (r: Int32)
    ensures |names| == 0 ==> r == 31
    ensures |names| > 0 ==>
      r == Step31(CursorHash(names[..|names| - 1], h), h(names[|names| - 1]))
    decreases |names|
  {
    assert |names| > 0 ==>
      HashAll(names, h)[..|names| - 1] == HashAll(names[..|names| - 1], h);
    Fold31(31, HashAll(names, h))
  }

  /** The constructor for result-set mode: the columns are positional, the
      property lookup map is the DB-column map itself and the hash is
      computed at once. */
  function ForResultSet(names: seq<string>, h: StringHash): (r: ColumnMapping)
    ensures Valid(r) && StateOf(r) == BuildingUnparsed
    ensures r.propertyColumnMap == SharesDbColumnMap
    ensures r.queryHashCode == CursorHash(names, h)
    ensures KeySet(r.dbColumnMap) == set n | n in names
  {
    var cols := CursorColumns(names);
    assert KeySet(cols) == set n | n in names by {
      forall n | n in names ensures n in KeySet(cols) {
        var i :| 0 <= i < |names| && names[i] == n;
        assert cols[i].dbColumn == n;
      }
    }
    ColumnMapping(PutAll([], cols), None, SharesDbColumnMap, false, false,
                  CursorHash(names, h))
  }

  /** One line of the frozen-hash loop as Java parses it:
      `(31 * hc + name) == null ? 0 : name.hashCode()`. The operand compared
      with null is the String concatenation of `31 * hc` and `name`, which is
      never null, so the line always yields `name.hashCode()` and drops
      `hc`. */
  function AsWrittenStep(hc: Int32, name: string, h: StringHash): (r: Int32)
    ensures r == h(name)
    ensures r == Step31(hc, h(name)) <==> hc == 0
  {
    Step31InjectiveAcc(hc, 0, h(name));
    h(name)
  }

  /** The frozen hash as the immutable constructor computes it. It depends
      only on the DB column of the last column. */
  function AsWrittenFrozenHash(cols: seq<Column>, h: StringHash): (r: Int32)
    requires AllMapped(cols)
    ensures |cols| == 0 ==> r == h(CLASS_NAME)
    ensures |cols| > 0 ==> r == h(cols[|cols| - 1].dbColumn)
  {
    if |cols| == 0 then h(CLASS_NAME)
    else
      var c := cols[|cols| - 1];
      var hc := AsWrittenFrozenHash(cols[..|cols| - 1], h);
      var afterProperty := AsWrittenStep(hc, c.propertyName.value, h);
      AsWrittenStep(afterProperty, c.dbColumn, h)
  }

  /** The immutable constructor: stores the validated columns, builds both
      property lookup maps and computes the frozen hash. */
  function FrozenMapping(parsed: bool, cols: seq<Column>, h: StringHash): (r: ColumnMapping)
    requires AllMapped(cols)
    ensures StateOf(r) == Frozen && r.parsed == parsed && r.dbColumnMap == cols
    ensures UniqueKeys(cols) ==> Valid(r)
    ensures r.queryHashCode == AsWrittenFrozenHash(cols, h)
  {
    ColumnMapping(cols, Some(PropertyMap(cols)), ByProperty(PropertyColumnMap(cols)),
                  parsed, true, AsWrittenFrozenHash(cols, h))
  }

  // ---------------------------------------------------------------- transitions

  /** `columnMapping(dbColumn, propertyName)`: refused on a frozen mapping;
      an unparsed builder puts a new column at position `size()`; a parsed
      builder re-maps a column it already knows. */
  function SetColumnMapping(cm: ColumnMapping, dbColumn: string,
                            propertyName: Option<string>): (r: Result<ColumnMapping, Error>)
    ensures cm.immutable ==> r == Err(AlreadyImmutable)
    ensures r.Ok? ==> r.value == cm.(dbColumnMap := r.value.dbColumnMap)
    ensures Valid(cm) && r.Ok? ==> Valid(r.value)
    // unparsed: put under the key, at position size()
    ensures !cm.immutable && !cm.parsed ==> r.Ok?
    ensures !cm.immutable && !cm.parsed ==>
      && Get(r.value.dbColumnMap, dbColumn)
           == Some(Column(|cm.dbColumnMap|, dbColumn, None, propertyName))
      && (forall k :: k != dbColumn ==> Get(r.value.dbColumnMap, k) == Get(cm.dbColumnMap, k))
    ensures !cm.immutable && !cm.parsed && dbColumn !in KeySet(cm.dbColumnMap) ==>
      r.value.dbColumnMap
        == cm.dbColumnMap + [Column(|cm.dbColumnMap|, dbColumn, None, propertyName)]
    // parsed: only known keys, and only their property name changes
    ensures !cm.immutable && cm.parsed ==> (r.Ok? <==> dbColumn in KeySet(cm.dbColumnMap))
    ensures !cm.immutable && cm.parsed && dbColumn !in KeySet(cm.dbColumnMap) ==>
      r == Err(ColumnNotFound(dbColumn, Keys(cm.dbColumnMap)))
    ensures !cm.immutable && cm.parsed && r.Ok? ==>
      && Keys(r.value.dbColumnMap) == Keys(cm.dbColumnMap)
      && Get(r.value.dbColumnMap, dbColumn)
           == Some(Get(cm.dbColumnMap, dbColumn).value.(propertyName := propertyName))
      && (forall i :: 0 <= i < |cm.dbColumnMap| && cm.dbColumnMap[i].dbColumn != dbColumn
                      ==> r.value.dbColumnMap[i] == cm.dbColumnMap[i])
  {
    if cm.immutable then Err(AlreadyImmutable)
    else if !cm.parsed then
      var pos := |cm.dbColumnMap|;
      Ok(cm.(dbColumnMap := Put(cm.dbColumnMap, MakeColumn(pos, dbColumn, None, propertyName))))
    else
      match Get(cm.dbColumnMap, dbColumn)
      case None => Err(ColumnNotFound(dbColumn, Keys(cm.dbColumnMap)))
      case Some(column) =>
        Ok(cm.(dbColumnMap := Put(cm.dbColumnMap, column.(propertyName := propertyName))))
  }

  /** The position of the first column without a property name. */
  function FirstUnmapped(cols: seq<Column>): (r: Option<nat>)
    ensures r.None? <==> AllMapped(cols)
    ensures r.Some? ==> r.value < |cols| && cols[r.value].propertyName.None?
    ensures r.Some? ==> AllMapped(cols[..r.value])
  {
    if |cols| == 0 then None
    else if cols[0].propertyName.None? then Some(0)
    else match FirstUnmapped(cols[1..])
      case None => None
      case Some(j) =>
        assert cols[..j + 1] == [cols[0]] + cols[1..][..j];
        Some(j + 1)
  }

  /** `createImmutableCopy()`: checks every column in order and either
      fails naming the first unmapped one or returns a new frozen mapping
      with the same columns and `parsed` flag. */
  function CreateImmutableCopy(cm: ColumnMapping, h: StringHash): (r: Result<ColumnMapping, Error>)
    ensures r.Ok? <==> AllMapped(cm.dbColumnMap)
    ensures r.Err? ==>
      (exists i :: && 0 <= i < |cm.dbColumnMap|
                   && cm.dbColumnMap[i].propertyName.None?
                   && AllMapped(cm.dbColumnMap[..i])
                   && r.error == NoPropertyName(cm.dbColumnMap[i].dbColumn)
                   && CheckMapping(cm.dbColumnMap[i]) == Fail(r.error))
    ensures r.Err? ==> r.error.Kind() == IllegalStateException
    ensures r.Ok? ==> StateOf(r.value) == Frozen
    ensures r.Ok? ==> r.value.parsed == cm.parsed && r.value.dbColumnMap == cm.dbColumnMap
    ensures r.Ok? ==> r.value.queryHashCode == AsWrittenFrozenHash(cm.dbColumnMap, h)
    ensures Valid(cm) && r.Ok? ==> Valid(r.value)
  {
    match FirstUnmapped(cm.dbColumnMap)
    case Some(i) => Err(CheckMapping(cm.dbColumnMap[i]).error)
    case None => Ok(FrozenMapping(cm.parsed, cm.dbColumnMap, h))
  }

  // ---------------------------------------------------------------- queries

  /** `queryHash()`: the stored hash, unless it is still the sentinel 0. */
  function QueryHash(cm: ColumnMapping): (r: Result<Int32, Error>)
    ensures r.Err? <==> cm.queryHashCode == 0
    ensures r.Err? ==> r.error == ZeroQueryHash && r.error.Kind() == RuntimeException
    ensures r.Ok? ==> r.value == cm.queryHashCode && r.value != 0
  {
    if cm.queryHashCode == 0 then Err(ZeroQueryHash) else Ok(cm.queryHashCode)
  }

  /** `getIndexPosition(property)`: the position of the column mapped to
      `property`, or -1; dereferencing the null lookup map of a builder
      fails. */
  function GetIndexPosition(cm: ColumnMapping, property: string): (r: Result<int, Error>)
    ensures r.Err? <==> cm.propertyColumnMap.NullColumns?
    ensures r.Err? ==> r.error.Kind() == NullPointerException
    ensures Valid(cm) && r.Ok? && r.value != -1 ==>
      exists i :: 0 <= i < |cm.dbColumnMap| && cm.dbColumnMap[i].indexPos == r.value
  {
    match cm.propertyColumnMap
    case NullColumns => Err(NullReference)
    case SharesDbColumnMap =>
      Ok(match Get(cm.dbColumnMap, property)
         case Some(c) => c.indexPos
         case None => -1)
    case ByProperty(m) => Ok(if property in m then m[property].indexPos else -1)
  }

  /** `getMapping()`: property to DB column, null until frozen. */
  function GetMapping(cm: ColumnMapping): (r: Option<map<string, string>>)
    ensures Valid(cm) ==> (r.Some? <==> cm.immutable)
    ensures Valid(cm) && r.Some? ==>
      forall p :: p in r.value ==>
        exists i :: 0 <= i < |cm.dbColumnMap| && cm.dbColumnMap[i].propertyName == Some(p)
                 && cm.dbColumnMap[i].dbColumn == r.value[p]
  {
    cm.propertyMap
  }

  /** `getColumns()`: the columns in insertion order, each key once. */
  function GetColumns(cm: ColumnMapping): (r: seq<Column>)
    ensures r == cm.dbColumnMap
    ensures Valid(cm) ==> UniqueKeys(r)
    ensures KeySet(r) == KeySet(cm.dbColumnMap) && |r| == |cm.dbColumnMap|
  {
    cm.dbColumnMap
  }

  /** `size()`: the number of distinct DB columns. */
  function Size(cm: ColumnMapping): (r: nat)
    ensures Valid(cm) ==> r == |KeySet(cm.dbColumnMap)|
  {
    assert Valid(cm) ==> |cm.dbColumnMap| == |KeySet(cm.dbColumnMap)| by {
      if Valid(cm) {
        SizeIsKeyCount(cm.dbColumnMap);
      }
    }
    |cm.dbColumnMap|
  }
}
