/** The exceptions the raw-SQL mapping core throws, with the messages it
    builds for them. */
module Errors {

  /** The Java exception class a failure surfaces as. */
  datatype ExceptionKind =
    | IllegalStateException
    | IllegalArgumentException
    | RuntimeException
    | NullPointerException

  datatype Error =
      /** A mutation was attempted on a frozen column mapping. */
    | AlreadyImmutable
      /** A column still has no property name when the mapping is frozen. */
    | NoPropertyName(dbColumn: string)
      /** A parsed mapping does not know the DB column being mapped. */
    | ColumnNotFound(dbColumn: string, known: seq<string>)
      /** The stored query hash is still the uninitialised sentinel 0. */
    | ZeroQueryHash
      /** A field the call dereferences is null. */
    | NullReference
  {
    function Kind(): ExceptionKind
    {
      match this
      case AlreadyImmutable => IllegalStateException
      case NoPropertyName(_) => IllegalStateException
      case ColumnNotFound(_, _) => IllegalArgumentException
      case ZeroQueryHash => RuntimeException
      case NullReference => NullPointerException
    }

    function Message(): string
    {
      match this
      case AlreadyImmutable => "Should never happen"
      case NoPropertyName(db) =>
        "No propertyName defined (Column mapping) for dbColumn [" + db + "]"
      case ColumnNotFound(db, known) =>
        NotFoundPrefix(db) + CollectionString(known) + "]"
      case ZeroQueryHash => "Bug: queryHashCode == 0"
      case NullReference => ""
    }
  }

  function NotFoundPrefix(db: string): string
  {
    "DB Column [" + db + "] not found in mapping. Expecting one of ["
  }

  /** Java's `AbstractCollection.toString`: `[a, b, c]`. */
  function CollectionString(items: seq<string>): string
  {
    "[" + Join(items) + "]"
  }

  function Join(items: seq<string>): string
  {
    if |items| == 0 then ""
    else if |items| == 1 then items[0]
    else items[0] + ", " + Join(items[1..])
  }

  /** `t` occurs in `s` as a contiguous substring. */
  ghost predicate Mentions(s: string, t: string)
  {
    exists i :: OccursAt(s, t, i)
  }

  /** `t` occurs in `s` starting at position `i`. */
  ghost predicate OccursAt(s: string, t: string, i: int)
  {
    0 <= i <= |s| - |t| && s[i..i + |t|] == t
  }

  lemma MentionsInMiddle(a: string, t: string, b: string)
    ensures Mentions(a + t + b, t)
  {
    var s := a + t + b;
    assert s[|a|..|a| + |t|] == t;
    assert OccursAt(s, t, |a|);
  }

  lemma MentionsExtend(a: string, s: string, b: string, t: string)
    requires Mentions(s, t)
    ensures Mentions(a + s + b, t)
  {
    var i :| OccursAt(s, t, i);
    var w := a + s + b;
    assert w[|a| + i..|a| + i + |t|] == s[i..i + |t|];
    assert OccursAt(w, t, |a| + i);
  }

  /** Every item of a joined list can be found in the joined text. */
  lemma {:induction false} JoinMentionsEach(items: seq<string>, k: nat)
    requires k < |items|
    ensures Mentions(Join(items), items[k])
  {
    if |items| == 1 {
      MentionsInMiddle("", items[0], "");
      assert "" + items[0] + "" == items[0];
    } else if k == 0 {
      MentionsInMiddle("", items[0], ", " + Join(items[1..]));
      assert "" + items[0] + (", " + Join(items[1..])) == Join(items);
    } else {
      JoinMentionsEach(items[1..], k - 1);
      MentionsExtend(items[0] + ", ", Join(items[1..]), "", items[k]);
      assert items[0] + ", " + Join(items[1..]) + "" == Join(items);
    }
  }

  lemma NoPropertyNameMentions(db: string)
    ensures Mentions(NoPropertyName(db).Message(), db)
  {
    MentionsInMiddle("No propertyName defined (Column mapping) for dbColumn [", db, "]");
  }

  lemma NotFoundPrefixMentions(db: string)
    ensures Mentions(NotFoundPrefix(db), db)
  {
    MentionsInMiddle("DB Column [", db, "] not found in mapping. Expecting one of [");
  }

  lemma ColumnNotFoundMentionsColumn(db: string, known: seq<string>)
    ensures Mentions(ColumnNotFound(db, known).Message(), db)
  {
    var pre, tail := NotFoundPrefix(db), CollectionString(known) + "]";
    NotFoundPrefixMentions(db);
    assert ColumnNotFound(db, known).Message() == pre + tail;
    MentionsExtend("", pre, tail, db);
    assert "" + pre + tail == pre + CollectionString(known) + "]";
  }

  lemma ColumnNotFoundMentionsKey(db: string, known: seq<string>, k: nat)
    requires k < |known|
    ensures Mentions(ColumnNotFound(db, known).Message(), known[k])
  {
    JoinMentionsEach(known, k);
    var pre, j := NotFoundPrefix(db), Join(known);
    MentionsExtend(pre + "[", j, "]" + "]", known[k]);
    assert pre + "[" + j + ("]" + "]") == pre + ("[" + j + "]") + "]";
  }

  /** The errors that concern one DB column name it, and the lookup error
      lists every key the mapping knows, so a misconfiguration can be
      diagnosed from the message alone. */
  lemma MessageNamesColumns(e: Error)
    ensures e.NoPropertyName? ==> Mentions(e.Message(), e.dbColumn)
    ensures e.ColumnNotFound? ==> Mentions(e.Message(), e.dbColumn)
    ensures e.ColumnNotFound? ==>
      forall k :: 0 <= k < |e.known| ==> Mentions(e.Message(), e.known[k])
  {
    match e
    case NoPropertyName(db) =>
      NoPropertyNameMentions(db);
    case ColumnNotFound(db, known) =>
      ColumnNotFoundMentionsColumn(db, known);
      forall k | 0 <= k < |known|
        ensures Mentions(e.Message(), known[k])
      {
        ColumnNotFoundMentionsKey(db, known, k);
      }
    case _ =>
  }
}
