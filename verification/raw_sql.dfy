/** The `RawSql` facade: a SQL value or an open result set, together with
    the column mapping, and the query-plan cache key built from both. */
module RawSqlFacade {
  import opened Wrappers
  import opened JavaInt
  import opened Errors
  import SqlParts
  import opened Mapping

  /** An open JDBC result set, only as an identity; reading and closing it
      belong to query execution. */
  datatype ResultSet = ResultSet(id: nat)

  datatype RawSql = RawSql(
    resultSet: Option<ResultSet>,
    sql: Option<SqlParts.Sql>,
    columnMapping: ColumnMapping)

  /** The public constructor for result-set mode: no SQL, and a positional
      column mapping built from the property names. */
  function FromResultSet(resultSet: Option<ResultSet>, propertyNames: seq<string>,
                         h: StringHash): (r: RawSql)
    ensures r.resultSet == resultSet && r.sql.None?
    ensures r.columnMapping == ForResultSet(propertyNames, h)
  {
    RawSql(resultSet, None, ForResultSet(propertyNames, h))
  }

  /** The protected constructor the builder uses. */
  function Compose(resultSet: Option<ResultSet>, sql: Option<SqlParts.Sql>,
                   columnMapping: ColumnMapping): (r: RawSql)
    ensures r.resultSet == resultSet && r.sql == sql && r.columnMapping == columnMapping
  {
    RawSql(resultSet, sql, columnMapping)
  }

  /** `queryHash()`: with a result set, 31 times the mapping's hash;
      otherwise `31 * sql.queryHash() + columnMapping.queryHash()`, in 32-bit
      arithmetic. The SQL is dereferenced before the mapping is asked. */
  function QueryHash(raw: RawSql): (r: Result<Int32, Error>)
    ensures raw.resultSet.Some? ==>
      r == (match Mapping.QueryHash(raw.columnMapping)
            case Ok(m) => Ok(Wrap(31 * m))
            case Err(e) => Err(e))
    ensures raw.resultSet.None? && raw.sql.None? ==> r == Err(NullReference)
    ensures raw.resultSet.None? && raw.sql.Some? ==>
      r == (match Mapping.QueryHash(raw.columnMapping)
            case Ok(m) => Ok(Step31(SqlParts.QueryHash(raw.sql.value), m))
            case Err(e) => Err(e))
  {
    if raw.resultSet.Some? then
      var m :- Mapping.QueryHash(raw.columnMapping);
      Ok(Wrap(31 * m))
    else if raw.sql.None? then Err(NullReference)
    else
      var s := SqlParts.QueryHash(raw.sql.value);
      var m :- Mapping.QueryHash(raw.columnMapping);
      Ok(Wrap(31 * s + m))
  }

  /** The cache key tells SQL apart: with the same column mapping, two text
      queries whose SQL hashes differ get different keys. */
  lemma TextKeySeparatesSql(a: RawSql, b: RawSql)
    requires a.resultSet.None? && b.resultSet.None? && a.sql.Some? && b.sql.Some?
    requires a.columnMapping.queryHashCode == b.columnMapping.queryHashCode
    requires SqlParts.QueryHash(a.sql.value) != SqlParts.QueryHash(b.sql.value)
    requires QueryHash(a).Ok?
    ensures QueryHash(b).Ok? && QueryHash(a) != QueryHash(b)
  {
    Step31InjectiveAcc(SqlParts.QueryHash(a.sql.value), SqlParts.QueryHash(b.sql.value),
                       a.columnMapping.queryHashCode);
  }

  /** The cache key tells column mappings apart: with the same SQL, or in
      result-set mode, mappings with different hashes give different
      keys. */
  lemma KeySeparatesMappings(a: RawSql, b: RawSql)
    requires a.resultSet.Some? == b.resultSet.Some? && a.sql == b.sql
    requires a.resultSet.None? ==> a.sql.Some?
    requires QueryHash(a).Ok? && QueryHash(b).Ok?
    requires a.columnMapping.queryHashCode != b.columnMapping.queryHashCode
    ensures QueryHash(a) != QueryHash(b)
  {
    var m, n := a.columnMapping.queryHashCode, b.columnMapping.queryHashCode;
    if a.resultSet.Some? {
      Step31InjectiveAcc(m, n, 0);
    } else {
      Step31InjectiveValue(SqlParts.QueryHash(a.sql.value), m, n);
    }
  }

  /** Result-set mode keys on the property names alone. */
  lemma CursorKey(resultSet: ResultSet, propertyNames: seq<string>, h: StringHash)
    ensures QueryHash(FromResultSet(Some(resultSet), propertyNames, h)) ==
      if CursorHash(propertyNames, h) == 0 then Err(ZeroQueryHash)
      else Ok(Wrap(31 * CursorHash(propertyNames, h)))
  {
  }

  /** With SQL hash 7 and mapping hash 11, text mode gives 31*7+11 = 228
      and result-set mode gives 31*11 = 341. */
  lemma KeyExamples(text: RawSql, cursor: RawSql)
    requires text.resultSet.None? && text.sql.Some? && text.sql.value.queryHashCode == 7
    requires text.columnMapping.queryHashCode == 11
    requires cursor.resultSet.Some? && cursor.columnMapping.queryHashCode == 11
    ensures QueryHash(text) == Ok(228)
    ensures QueryHash(cursor) == Ok(341)
  {
  }

  /** Near the top of the `int` range the key wraps around as Java's does. */
  lemma KeyWrapsAround(raw: RawSql)
    requires raw.resultSet.Some? && raw.columnMapping.queryHashCode == 0x4000_0000
    ensures QueryHash(raw) == Ok(-0x4000_0000)
  {
  }
}
