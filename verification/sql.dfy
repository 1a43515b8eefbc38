/** `RawSql.Sql`: the SQL of a raw query, either verbatim (unparsed) or
    split at the points where extra WHERE and HAVING expressions and an
    ORDER BY may be inserted (parsed). */
module SqlParts {
  import opened Wrappers
  import opened JavaInt

  datatype Sql = Sql(
    parsed: bool,
    unparsedSql: Option<string>,
    preFrom: Option<string>,
    preWhere: Option<string>,
    andWhereExpr: bool,
    preHaving: Option<string>,
    andHavingExpr: bool,
    orderBy: Option<string>,
    distinct: bool,
    queryHashCode: Int32)

  /** Exactly one representation is populated, selected by `parsed`: the
      verbatim text, or the fragments and their flags. */
  ghost predicate WellFormed(s: Sql)
  {
    && (s.parsed <==> s.unparsedSql.None?)
    && (!s.parsed ==>
          && s.preFrom.None? && s.preWhere.None? && s.preHaving.None? && s.orderBy.None?
          && !s.andWhereExpr && !s.andHavingExpr && !s.distinct)
  }

  /** The constructor for unparsed SQL: the text is kept verbatim and
      hashed. */
  function Unparsed(text: string, h: StringHash): (s: Sql)
    ensures WellFormed(s) && !IsParsed(s)
    ensures s.unparsedSql == Some(text)
    ensures QueryHash(s) == h(text)
  {
    Sql(false, Some(text), None, None, false, None, false, None, false, h(text))
  }

  /** The constructor for parsed SQL: the fragments come from the SQL parser
      and so does the hash, which is kept exactly as given. */
  function Parsed(queryHashCode: Int32, preFrom: Option<string>, preWhere: Option<string>,
                  andWhereExpr: bool, preHaving: Option<string>, andHavingExpr: bool,
                  orderBy: Option<string>, distinct: bool): (s: Sql)
    ensures WellFormed(s) && IsParsed(s)
    ensures s.unparsedSql.None?
    ensures QueryHash(s) == queryHashCode
    ensures s.preFrom == preFrom && s.preWhere == preWhere && s.preHaving == preHaving
    ensures s.orderBy == orderBy && s.distinct == distinct
    ensures s.andWhereExpr == andWhereExpr && s.andHavingExpr == andHavingExpr
  {
    Sql(true, None, preFrom, preWhere, andWhereExpr, preHaving, andHavingExpr,
        orderBy, distinct, queryHashCode)
  }

  /** `queryHash()`: the hash fixed when the value was constructed. */
  function QueryHash(s: Sql): Int32
  {
    s.queryHashCode
  }

  /** `isParsed()`: whether the query engine may insert expressions. A
      well-formed value is parsed exactly when it holds no verbatim text. */
  function IsParsed(s: Sql): (r: bool)
    ensures WellFormed(s) ==> (r <==> s.unparsedSql.None?)
    ensures WellFormed(s) && !r ==> s.preFrom.None? && s.preWhere.None? && s.orderBy.None?
  {
    s.parsed
  }

  /** `queryHash()` answers the text's hash for unparsed SQL and the
      parser's hash, unchanged, for parsed SQL. */
  lemma QueryHashByMode(text: string, h: StringHash, queryHashCode: Int32,
                        preFrom: Option<string>, preWhere: Option<string>,
                        andWhereExpr: bool, preHaving: Option<string>, andHavingExpr: bool,
                        orderBy: Option<string>, distinct: bool)
    ensures QueryHash(Unparsed(text, h)) == h(text)
    ensures QueryHash(Parsed(queryHashCode, preFrom, preWhere, andWhereExpr, preHaving,
                             andHavingExpr, orderBy, distinct)) == queryHashCode
  {
  }

  /** The two constructors never produce the same value, and which one made
      a well-formed value can be told from `isParsed()` alone. */
  lemma ModesExclusive(s: Sql)
    requires WellFormed(s)
    ensures IsParsed(s) <==> s.unparsedSql.None?
    ensures !IsParsed(s) ==> s == Unparsed(s.unparsedSql.value, _ => s.queryHashCode)
    ensures IsParsed(s) ==>
      s == Parsed(s.queryHashCode, s.preFrom, s.preWhere, s.andWhereExpr,
                  s.preHaving, s.andHavingExpr, s.orderBy, s.distinct)
  {
  }
}
