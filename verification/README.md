# Raw SQL column mapping (Ebean `RawSql`), modelled in Dafny

This project models the core of Ebean's `RawSql`. A caller hands over hand-written SQL, either verbatim ("unparsed") or already split by the SQL parser at its insertion points ("parsed"). It pairs that SQL with a mapping from result columns to bean properties, or wraps an open JDBC `ResultSet` together with positional property names. Ebean uses the combined `queryHash()` of the two as the query-plan cache key.

Modules, following the source's structure:

- `Columns` (`column.dfy`): `RawSql.ColumnMapping.Column`. It covers both constructors, `derivePropertyName` (alias first, otherwise the column name after its first `'.'` turned into camelCase), and `checkMapping`.
- `LinkedColumnMap` (`linked_map.dfy`): the `LinkedHashMap<String, Column>` that holds the columns. It is keyed by DB column and kept in insertion order. Re-putting an existing key keeps that key's original position.
- `Mapping` (`column_mapping.dfy`): `RawSql.ColumnMapping`. It covers:
  - the four constructors;
  - the three states: building-unparsed, building-parsed and frozen;
  - `columnMapping`, `createImmutableCopy` and `queryHash`;
  - `getIndexPosition`, `getMapping`, `getColumns` and `size`.
- `MappingProperties` (`mapping_properties.dfy`): lemmas relating those operations, plus the corrected frozen hash (see Findings).
- `SqlParts` (`sql.dfy`): `RawSql.Sql` and its two constructors.
- `RawSqlFacade` (`raw_sql.dfy`): `RawSql`, its constructors and the combined `queryHash()`.
- `JavaInt` (`java_int.dfy`): Java's 32-bit `int` and the `hc = 31 * hc + x` step. It proves that the step is one-to-one in both arguments, because 31 is invertible modulo 2^32.
- `Errors` (`errors.dfy`): the exceptions thrown, with their messages.
- `Wrappers` and `Seqs`: `Option` (Java null), `Result` (a value or a thrown exception), and searching a sequence from the end.

How the model represents the source:

- Every operation is a pure function. A Java method that throws returns `Err` with the exception it throws.
- Java's `String.hashCode()` is the parameter `h: StringHash`. `CamelCaseHelper.toCamelFromUnderscore` is the parameter `toCamel`. Their implementations are not part of this model.
- Integer arithmetic wraps to 32 bits explicitly (`Wrap`).

## Model

| member | source | states |
|---|---|---|
| `Columns.IndexOf` | src/main/java/com/avaje/ebean/RawSql.java:569 | `indexOf('.')` is -1 exactly when there is no dot; otherwise it is the position of the first dot |
| `Columns.StripQualifier` | src/main/java/com/avaje/ebean/RawSql.java:569-572 | a name with no dot is unchanged; otherwise the name is `qualifier + "." + result`, and the qualifier contains no dot |
| `Columns.DerivePropertyName` | src/main/java/com/avaje/ebean/RawSql.java:565-574 | a non-null alias is used verbatim; without one, the camel-case conversion is applied to the unqualified column name |
| `Columns.MakeColumn` | src/main/java/com/avaje/ebean/RawSql.java:554-563 | identity fields are kept; a given property name wins; a null property name falls back to the alias; the result is null only when both are null |
| `Columns.NewColumn` | src/main/java/com/avaje/ebean/RawSql.java:550-552 | the public constructor always sets the derived property name |
| `Columns.CheckMapping` | src/main/java/com/avaje/ebean/RawSql.java:576-581 | fails exactly when the property name is null, with an IllegalStateException whose message names the DB column |
| `Columns.NewColumnIsMapped` | src/main/java/com/avaje/ebean/RawSql.java:550-552 | a column from the public constructor always passes `checkMapping` |
| `Columns.DeriveQualifiedExample` | src/main/java/com/avaje/ebean/RawSql.java:565-574 | `c.order_total_amount` without an alias derives `orderTotalAmount` |
| `Columns.DeriveAliasExample` | src/main/java/com/avaje/ebean/RawSql.java:565-568 | `status` with alias `st` derives `st` |
| `Errors.MessageNamesColumns` | src/main/java/com/avaje/ebean/RawSql.java:466-469 | the not-found message contains the DB column and every known key; the unmapped-column message contains the DB column |
| `LinkedColumnMap.Get` | src/main/java/com/avaje/ebean/RawSql.java:465 | the result is null exactly when the key is absent; otherwise it is a stored column with that key |
| `LinkedColumnMap.Put` | src/main/java/com/avaje/ebean/RawSql.java:463 | a new key is appended; an existing key is replaced at its original position; other keys are untouched; keys stay unique |
| `LinkedColumnMap.PutAll` | src/main/java/com/avaje/ebean/RawSql.java:378-381 | putting a list of columns leaves exactly the old keys plus the given DB columns, each once |
| `LinkedColumnMap.GetPutAll` | src/main/java/com/avaje/ebean/RawSql.java:378-381 | after putting a list of columns, each key holds the last column put under it |
| `LinkedColumnMap.SizeIsKeyCount` | src/main/java/com/avaje/ebean/RawSql.java:501-503 | the size is the number of distinct DB columns |
| `Mapping.PropertyColumnMap` | src/main/java/com/avaje/ebean/RawSql.java:426-431 | a property is a key exactly when some column maps to it, and its value is the last such column |
| `Mapping.PropertyMap` | src/main/java/com/avaje/ebean/RawSql.java:427-430 | a property maps to the DB column of the last column mapped to it |
| `Mapping.FromColumns` | src/main/java/com/avaje/ebean/RawSql.java:371-382 | the result is a parsed builder with the sentinel hash, holding exactly the given DB columns |
| `Mapping.ForUnparsed` | src/main/java/com/avaje/ebean/RawSql.java:387-394 | the result is an empty unparsed builder with the sentinel hash |
| `Mapping.ForResultSet` | src/main/java/com/avaje/ebean/RawSql.java:399-414 | the result is an unparsed builder whose property lookup is the DB-column map itself; its hash is the seed-31 fold over the names |
| `Mapping.CursorHash` | src/main/java/com/avaje/ebean/RawSql.java:406-413 | the fold starts at 31, and each name adds one `31 * hc + hashCode(name)` step to the hash of the names before it |
| `Mapping.AsWrittenStep` | src/main/java/com/avaje/ebean/RawSql.java:433-434 | one line of the loop as written agrees with the intended step `31 * hc + hashCode(name)` only when the running hash is 0; whatever the running hash, the line yields the bare `hashCode(name)` |
| `Mapping.AsWrittenFrozenHash` | src/main/java/com/avaje/ebean/RawSql.java:424-438 | the frozen hash as written is the hash of the last DB column, or of the class name when there are no columns |
| `Mapping.FrozenMapping` | src/main/java/com/avaje/ebean/RawSql.java:419-439 | the result is frozen, keeps the flag and the columns, and satisfies the frozen invariants (both lookup maps built from the columns) |
| `Mapping.SetColumnMapping` | src/main/java/com/avaje/ebean/RawSql.java:456-473 | frozen: IllegalStateException. Unparsed: the column is put at position `size()`. Parsed: an unknown key throws IllegalArgumentException listing the keys; a known key changes only that column's property name, with keys and order unchanged |
| `Mapping.FirstUnmapped` | src/main/java/com/avaje/ebean/RawSql.java:449-451 | finds the first column in insertion order without a property name, or none when all are mapped |
| `Mapping.CreateImmutableCopy` | src/main/java/com/avaje/ebean/RawSql.java:447-454 | fails exactly when some column is unmapped, with the error that column's `checkMapping` raises for the first such column; otherwise the result is frozen with the same flag and the same columns in the same order |
| `Mapping.QueryHash` | src/main/java/com/avaje/ebean/RawSql.java:478-483 | throws a RuntimeException exactly when the stored hash is 0; otherwise returns the stored value |
| `Mapping.GetIndexPosition` | src/main/java/com/avaje/ebean/RawSql.java:522-525 | throws a NullPointerException exactly when there is no property lookup map; any position other than -1 belongs to a stored column |
| `Mapping.GetMapping` | src/main/java/com/avaje/ebean/RawSql.java:515-517 | null until frozen; afterwards, every entry pairs a property with the DB column of a column mapped to it |
| `Mapping.GetColumns` | src/main/java/com/avaje/ebean/RawSql.java:530-532 | exactly the stored columns, in insertion order, each DB column once |
| `MappingProperties.ColumnsInInsertionOrder` | src/main/java/com/avaje/ebean/RawSql.java:461-463 | after an unparsed builder maps a new DB column, `getColumns()` lists the old columns and then the new one, at position `size()`, with no alias; freezing leaves the list unchanged |
| `Mapping.Size` | src/main/java/com/avaje/ebean/RawSql.java:501-503 | the number of distinct DB columns |
| `MappingProperties.FromColumnsLastWins` | src/main/java/com/avaje/ebean/RawSql.java:378-381 | a parsed builder keeps, under each DB column, the last given column with that DB column |
| `MappingProperties.FromColumnsDistinct` | src/main/java/com/avaje/ebean/RawSql.java:378-381 | columns with distinct DB columns are kept exactly, in order |
| `MappingProperties.CursorIndexPosition` | src/main/java/com/avaje/ebean/RawSql.java:522-525 | in result-set mode, a name is found at the position of its last occurrence; an unlisted name gives -1 |
| `MappingProperties.CursorDistinctNames` | src/main/java/com/avaje/ebean/RawSql.java:406-411 | with distinct names, column i has position i, DB column and property both equal to name i, and no alias; `getIndexPosition(name i)` is i |
| `MappingProperties.CursorHashAppend` | src/main/java/com/avaje/ebean/RawSql.java:408-409 | one more name folds `31 * hc + hashCode(name)` into the previous hash |
| `MappingProperties.CursorHashSeparates` | src/main/java/com/avaje/ebean/RawSql.java:406-413 | name lists that differ at one position, by names with different string hashes, get different hashes |
| `MappingProperties.CursorQueryHash` | src/main/java/com/avaje/ebean/RawSql.java:412-413 | result-set mode's `queryHash()` is the fold, unless the fold is the sentinel 0 |
| `MappingProperties.BuilderHasNoHash` | src/main/java/com/avaje/ebean/RawSql.java:372-388 | builders keep the sentinel through mutations, so their `queryHash()` throws |
| `MappingProperties.UnparsedAppend` | src/main/java/com/avaje/ebean/RawSql.java:461-463 | an unparsed builder given a new key grows by one; the new column's position is the old size; earlier columns are unchanged |
| `MappingProperties.UnparsedRemapKeepsSlot` | src/main/java/com/avaje/ebean/RawSql.java:461-463 | re-mapping a DB column an unparsed builder already holds keeps the size and key order, but the replacement column's position is `size()` |
| `MappingProperties.CursorPositionsExample` | src/main/java/com/avaje/ebean/RawSql.java:399-414 | result-set mode over `orderId`, `status`, `customerName` gives positions 0, 1 and 2, and -1 for an unlisted property |
| `MappingProperties.ParsedUnknownKeyExample` | src/main/java/com/avaje/ebean/RawSql.java:464-470 | a parsed builder over `order_id` and `c.status` refuses `c.name`, listing both known keys |
| `MappingProperties.ParsedKnownKeyExample` | src/main/java/com/avaje/ebean/RawSql.java:464-471 | the same builder re-maps `c.status` to `orderStatus` in place and keeps size 2 |
| `MappingProperties.FreezeExample` | src/main/java/com/avaje/ebean/RawSql.java:447-454 | freezing an unparsed builder over `order_id` and `status` succeeds exactly when both have property names; otherwise it names the first column without one |
| `MappingProperties.MutationKeepsState` | src/main/java/com/avaje/ebean/RawSql.java:456-473 | a mutation is refused with IllegalStateException exactly in the frozen state; a successful mutation never changes the state |
| `MappingProperties.FrozenLookups` | src/main/java/com/avaje/ebean/RawSql.java:429-437 | after a freeze, `getIndexPosition(p)` and `getMapping()[p]` come from the last column mapped to `p`; an unmapped `p` gives -1 and is not a key |
| `MappingProperties.FreezeIdempotent` | src/main/java/com/avaje/ebean/RawSql.java:447-454 | freezing a frozen mapping again gives back an equal mapping |
| `MappingProperties.AsWrittenIgnoresEarlierColumns` | src/main/java/com/avaje/ebean/RawSql.java:433-434 | two mappings whose last DB columns agree get the same frozen hash, whatever their property names or earlier columns |
| `MappingProperties.AsWrittenCollision` | src/main/java/com/avaje/ebean/RawSql.java:433-434 | renaming a property, or replacing an earlier column, leaves the frozen hash unchanged |
| `MappingProperties.PairHashesAt` | src/main/java/com/avaje/ebean/RawSql.java:433-434 | the intended hash components: column `i` contributes its property-name hash at `2 * i` and its DB-column hash at `2 * i + 1` |
| `MappingProperties.IntendedFrozenHash` | src/main/java/com/avaje/ebean/RawSql.java:424-435 | the corrected fold starts from the class-name hash, and each column adds a property-name step and then a DB-column step to the hash of the columns before it |
| `MappingProperties.IntendedHashSeparates` | src/main/java/com/avaje/ebean/RawSql.java:424-435 | the corrected fold changes when one column's property name or DB column changes to one with a different string hash |
| `SqlParts.Unparsed` | src/main/java/com/avaje/ebean/RawSql.java:234-245 | the result is unparsed with the text kept verbatim; its hash is the text's hash; no fragments are set and all flags are false |
| `SqlParts.Parsed` | src/main/java/com/avaje/ebean/RawSql.java:250-264 | the result is parsed with null text; the given hash and fragments are kept exactly |
| `SqlParts.QueryHashByMode` | src/main/java/com/avaje/ebean/RawSql.java:269-271 | `queryHash()` is the text's string hash for unparsed SQL and the parser's hash, unchanged, for parsed SQL |
| `SqlParts.IsParsed` | src/main/java/com/avaje/ebean/RawSql.java:292-294 | a well-formed value is parsed exactly when it holds no verbatim text; an unparsed one has no fragments |
| `SqlParts.ModesExclusive` | src/main/java/com/avaje/ebean/RawSql.java:207-264 | a well-formed value is built by exactly one of the two constructors, and `isParsed()` tells which |
| `RawSqlFacade.FromResultSet` | src/main/java/com/avaje/ebean/RawSql.java:158-162 | result-set mode has no SQL and a mapping built from the property names |
| `RawSqlFacade.Compose` | src/main/java/com/avaje/ebean/RawSql.java:164-168 | the three parts are kept as given |
| `RawSqlFacade.QueryHash` | src/main/java/com/avaje/ebean/RawSql.java:195-200 | with a result set: `31 * mapping hash`; otherwise `31 * sql hash + mapping hash`, wrapping to 32 bits; the mapping's sentinel error propagates; null SQL throws |
| `RawSqlFacade.TextKeySeparatesSql` | src/main/java/com/avaje/ebean/RawSql.java:199 | with equal mapping hashes, different SQL hashes give different keys |
| `RawSqlFacade.KeySeparatesMappings` | src/main/java/com/avaje/ebean/RawSql.java:195-200 | with the same SQL, or in result-set mode, different mapping hashes give different keys |
| `RawSqlFacade.CursorKey` | src/main/java/com/avaje/ebean/RawSql.java:196-197 | the result-set key is 31 times the fold over the property names |
| `RawSqlFacade.KeyExamples` | src/main/java/com/avaje/ebean/RawSql.java:195-200 | SQL hash 7 with mapping hash 11 gives 228; result-set mode with mapping hash 11 gives 341 |
| `RawSqlFacade.KeyWrapsAround` | src/main/java/com/avaje/ebean/RawSql.java:197 | the multiplication wraps like Java `int`: 31 * 2^30 becomes -2^30 |

## Where the code and its evident intent disagree

Lines 433-434 of `RawSql.java` guard each hash step with `== null ? 0 : x.hashCode()`. That guard only makes sense inside parentheses, as `31 * hc + (x == null ? 0 : x.hashCode())`. That form is an order-sensitive fold over every (property name, DB column) pair. Without the parentheses, Java parses each line as `(31 * hc + x) == null ? 0 : x.hashCode()`, so each line only assigns `x.hashCode()`. The model follows the code, so `Mapping.CreateImmutableCopy` stores `AsWrittenFrozenHash`. That value depends only on the last column's DB column, and the model claims nothing stronger for it. The Findings table below records the discrepancy.

## Left out

- Reading and closing the `ResultSet`: the model treats the result set only as an identity that selects result-set mode.
- `Serializable`, the serialized form and every `toString`: they carry no behaviour to verify.
- The plain field getters of `Sql` and `Column`, `ColumnMapping.isParsed` and the protected `mapping()`: they read a field directly. `mapping()` returns the same sequence as `Mapping.GetColumns`.
- `String.hashCode` and `CamelCaseHelper.toCamelFromUnderscore`: their implementations are not part of this model, so every operation takes them as parameters.
- `Columns.NewColumnIsMapped`: the camel-case conversion is assumed to return a non-null string, because `toCamel` has type `string -> string`. If `toCamelFromUnderscore` could return null, a column built by the public constructor (line 551) would fail `checkMapping` (line 577), and the model does not cover that.
- Object identity and sharing: the model uses value semantics. The frozen copy shares `dbColumnMap` and the `Column` objects with the builder it came from (lines 422 and 453). In Java, mutating that builder after freezing also changes the frozen copy's columns, but not its hash or its lookup maps. The model does not reproduce this aliasing. Likewise, the parsed constructor's `Column` objects stay shared with the caller's list.
- Null SQL text, null DB columns, null result-set property names and null lookup keys: the unparsed SQL text, a DB column and a result-set property name are always strings here. In Java, `new Sql(null)` throws a NullPointerException at line 235, where the text is hashed (`SqlParts.Unparsed` takes a non-null text). A null DB column ends in a NullPointerException when the name is derived or the mapping is frozen. On a frozen or result-set mapping, `getIndexPosition(null)` returns -1. On a builder, `getIndexPosition` throws a NullPointerException whatever the argument, and `Mapping.GetIndexPosition` models that.
- Column positions are unbounded integers rather than 32-bit: a mapping cannot in practice hold 2^31 columns.
- `MappingProperties.IntendedHashSeparates`: it does not prove that swapping two columns changes the hash. With an arbitrary string hash, two swapped columns can collide.

## Findings

| source | as written | input that shows it | evidently intended | confidence | as-written member | corrected member |
|---|---|---|---|---|---|---|
| src/main/java/com/avaje/ebean/RawSql.java:433-434 | `hc = 31 * hc + name == null ? 0 : name.hashCode()`: the comparison applies to the string concatenation `31 * hc + name`, which is never null, so each line just assigns `name.hashCode()` | columns `[(c.name, name), (order_id, id)]` and `[(c.status, status), (order_id, id)]` freeze to the same hash | `hc = 31 * hc + (name == null ? 0 : name.hashCode())` for the property name and then the DB column of every column | high, not executed | `MappingProperties.AsWrittenCollision` | `MappingProperties.IntendedHashSeparates` |

`Mapping.CreateImmutableCopy` keeps the as-written hash, because that is the cache key the plan cache actually sees. `MappingProperties.IntendedFrozenHash` is the corrected fold, and `MappingProperties.IntendedHashSeparates` proves that it depends on every column.
