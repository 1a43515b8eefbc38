/** `RawSql.ColumnMapping.Column`: one result column of the raw SQL and the
    bean property it is mapped to. */
module Columns {
  import opened Wrappers
  import opened Errors

  /** A result column. `indexPos`, `dbColumn` and `dbAlias` are fixed when
      the column is created; `propertyName` is null (`None`) until mapped.
      A value of this type is one snapshot of the Java object. */
  datatype Column = Column(
    indexPos: int,
    dbColumn: string,
    dbAlias: Option<string>,
    propertyName: Option<string>)

  /** Java's `String.indexOf(char)`: the first position of `ch` in `s`, or
      -1 when `s` does not contain it. */
  function IndexOf(s: string, ch: char): (r: int)
    ensures r == -1 <==> ch !in s
    ensures r != -1 ==> 0 <= r < |s| && s[r] == ch && ch !in s[..r]
  {
    if |s| == 0 then -1
    else if s[0] == ch then 0
    else
      var rest := IndexOf(s[1..], ch);
      assert s == [s[0]] + s[1..];
      if rest == -1 then -1
      else
        assert s[..rest + 1] == [s[0]] + s[1..][..rest];
        rest + 1
  }

  /** The column name without its table qualifier: everything after the
      first '.', or the whole name when there is none. */
  function StripQualifier(dbColumn: string): (r: string)
    ensures '.' !in dbColumn ==> r == dbColumn
    ensures '.' in dbColumn ==>
      exists k :: 0 <= k < |dbColumn| && '.' !in dbColumn[..k]
               && dbColumn == dbColumn[..k] + "." + r
  {
    var dotPos := IndexOf(dbColumn, '.');
    if dotPos > -1 then
      assert dbColumn == dbColumn[..dotPos] + "." + dbColumn[dotPos + 1..];
      dbColumn[dotPos + 1..]
    else dbColumn
  }

  /** The default property name of a column: its alias verbatim when it has
      one, otherwise the unqualified column name converted from
      underscore_case to camelCase by `toCamel`. */
  function DerivePropertyName(dbAlias: Option<string>, dbColumn: string,
                              toCamel: string -> string): (r: string)
    ensures dbAlias.Some? ==> r == dbAlias.value
    ensures dbAlias.None? && '.' !in dbColumn ==> r == toCamel(dbColumn)
    ensures dbAlias.None? ==> r == toCamel(StripQualifier(dbColumn))
  {
    if dbAlias.Some? then dbAlias.value
    else toCamel(StripQualifier(dbColumn))
  }

  /** The private four-argument constructor: a null property name falls
      back to the alias. */
  function MakeColumn(indexPos: int, dbColumn: string, dbAlias: Option<string>,
                      propertyName: Option<string>): (c: Column)
    ensures c.indexPos == indexPos && c.dbColumn == dbColumn && c.dbAlias == dbAlias
    ensures propertyName.Some? ==> c.propertyName == propertyName
    ensures propertyName.None? ==> c.propertyName == dbAlias
    ensures c.propertyName.None? <==> propertyName.None? && dbAlias.None?
  {
    var p := if propertyName.None? && dbAlias.Some? then dbAlias else propertyName;
    Column(indexPos, dbColumn, dbAlias, p)
  }

  /** The public three-argument constructor: the property name is derived. */
  function NewColumn(indexPos: int, dbColumn: string, dbAlias: Option<string>,
                     toCamel: string -> string): (c: Column)
    ensures c.indexPos == indexPos && c.dbColumn == dbColumn && c.dbAlias == dbAlias
    ensures c.propertyName == Some(DerivePropertyName(dbAlias, dbColumn, toCamel))
  {
    MakeColumn(indexPos, dbColumn, dbAlias, Some(DerivePropertyName(dbAlias, dbColumn, toCamel)))
  }

  /** `checkMapping`: a column is acceptable to freeze exactly when it has a
      property name; otherwise the failure names its DB column. */
  function CheckMapping(c: Column): (r: Outcome<Error>)
    ensures r.Pass? <==> c.propertyName.Some?
    ensures r.Fail? ==> r.error.Kind() == IllegalStateException && Mentions(r.error.Message(), c.dbColumn)
  {
    if c.propertyName.None? then
      NoPropertyNameMentions(c.dbColumn);
      Fail(NoPropertyName(c.dbColumn))
    else Pass
  }

  /** Whatever the alias, a column built by the public constructor always
      passes `checkMapping`. */
  lemma NewColumnIsMapped(indexPos: int, dbColumn: string, dbAlias: Option<string>,
                          toCamel: string -> string)
    ensures CheckMapping(NewColumn(indexPos, dbColumn, dbAlias, toCamel)).Pass?
  {
  }

  /** A qualified column without alias: `c.order_total_amount` derives
      `orderTotalAmount` given the documented camel-case conversion. */
  lemma DeriveQualifiedExample(toCamel: string -> string)
    requires toCamel("order_total_amount") == "orderTotalAmount"
    ensures NewColumn(0, "c.order_total_amount", None, toCamel).propertyName
            == Some("orderTotalAmount")
  {
    var s := "c.order_total_amount";
    assert s[0] == 'c' && s[1] == '.';
    assert IndexOf(s, '.') == 1;
    assert StripQualifier(s) == s[2..];
    assert s[2..] == "order_total_amount";
  }

  /** An alias takes precedence over derivation: `status` aliased `st`
      maps to `st`. */
  lemma DeriveAliasExample(toCamel: string -> string)
    ensures NewColumn(1, "status", Some("st"), toCamel).propertyName == Some("st")
  {
  }
}
