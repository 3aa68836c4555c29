/** Classification of a manifest's `OnPremiseConnectionString` text into a
    file geodatabase, an enterprise database, or neither
    (serviceData.py, `findServicesData`). */
module ConnectionStrings {
  import opened Text

  /** The kind of data store a connection string points at. */
  datatype StoreKind = FileGeodatabase | EnterpriseDatabase

  /** A recognised connection: the store kind and the instance and database
      names written to the report. */
  datatype Connection = Connection(kind: StoreKind, instance: string, database: string)

  /** The outcome of classifying one connection string. `TokenIndexError`
      is the out-of-range token access the source raises, which ends the
      whole run. */
  datatype Classification =
    | Recognized(conn: Connection)
    | Unrecognized
    | TokenIndexError

  const FileGeodatabaseInstance: string := "**File Geodatabase**"
  const DatabaseKey: string := "DATABASE"
  const DatabasePrefix: string := "DATABASE="
  const PropertiesKey: string := "DB_CONNECTION_PROPERTIES"
  const PropertiesPrefix: string := "DB_CONNECTION_PROPERTIES="
  const GdbExtension: string := ".gdb"

  /** The single-token shape: no `;`, and both `DATABASE` and `.gdb` occur. */
  predicate IsFileGeodatabaseText(text: string) {
    ';' !in text && Contains(text, DatabaseKey) && Contains(text, GdbExtension)
  }

  /** Splits on `;` and tests the two shapes in the source's order. Python's
      `and` stops early, so token 4 is only read once token 3 has matched. */
  function Classify(text: string): Classification
  {
    var ts := Split(text, ';');
    if |ts| == 1 && Contains(ts[0], DatabaseKey) && Contains(ts[0], GdbExtension) then
      Recognized(Connection(FileGeodatabase, FileGeodatabaseInstance, RemoveAll(ts[0], DatabasePrefix)))
    else if |ts| < 4 then
      TokenIndexError
    else if !Contains(ts[3], PropertiesKey) then
      Unrecognized
    else if |ts| < 5 then
      TokenIndexError
    else if Contains(ts[4], DatabaseKey) then
      Recognized(Connection(EnterpriseDatabase,
                            RemoveAll(ts[3], PropertiesPrefix),
                            RemoveAll(ts[4], DatabasePrefix)))
    else
      Unrecognized
  }

  /** Classification in terms of the text: a file geodatabase exactly for
      `;`-free text holding `DATABASE` and `.gdb`, with the fixed instance
      text and every `DATABASE=` removed; an enterprise database exactly
      when token 3 holds `DB_CONNECTION_PROPERTIES` and token 4 holds
      `DATABASE`, named by those tokens without their prefixes; an index
      failure exactly for the short shapes Python's `and` reaches. */
  lemma ClassifyShape(text: string)
    ensures Classify(text).Recognized? && Classify(text).conn.kind == FileGeodatabase <==> IsFileGeodatabaseText(text)
    ensures Classify(text).Recognized? && Classify(text).conn.kind == FileGeodatabase ==>
              Classify(text).conn.instance == FileGeodatabaseInstance && Classify(text).conn.database == RemoveAll(text, DatabasePrefix)
    ensures Classify(text).Recognized? && Classify(text).conn.kind == EnterpriseDatabase <==>
              var ts := Split(text, ';');
              !IsFileGeodatabaseText(text) && |ts| >= 5 && Contains(ts[3], PropertiesKey) && Contains(ts[4], DatabaseKey)
    ensures Classify(text).Recognized? && Classify(text).conn.kind == EnterpriseDatabase ==>
              var ts := Split(text, ';');
              Classify(text).conn.instance == RemoveAll(ts[3], PropertiesPrefix) && Classify(text).conn.database == RemoveAll(ts[4], DatabasePrefix)
    ensures Classify(text).TokenIndexError? <==>
              var ts := Split(text, ';');
              !IsFileGeodatabaseText(text) && (|ts| < 4 || (|ts| == 4 && Contains(ts[3], PropertiesKey)))
  {
  }

  /** With at least five tokens the source never fails on an index. */
  lemma FiveTokensNeverFail(text: string)
    requires |Split(text, ';')| >= 5
    ensures !Classify(text).TokenIndexError?
  {
  }

  /** `DATABASE=` followed by a `.gdb` path with no `;` and no second
      `DATABASE=` classifies as a file geodatabase named by that path. */
  lemma {:induction false} FileGeodatabaseConnection(path: string)
    requires ';' !in path
    requires Contains(path, GdbExtension)
    requires !Contains(path, DatabasePrefix)
    ensures Classify(DatabasePrefix + path)
            == Recognized(Connection(FileGeodatabase, FileGeodatabaseInstance, path))
  {
    var text := DatabasePrefix + path;
    assert text[..|DatabaseKey|] == DatabaseKey;
    ContainsAppendLeft(DatabasePrefix, path, GdbExtension);
    RemoveAllLeading(DatabasePrefix, path);
    RemoveAllAbsent(path, DatabasePrefix);
  }

  /** An enterprise connection string built from five or more `;`-free
      tokens, whose fourth and fifth tokens are `DB_CONNECTION_PROPERTIES=`
      and `DATABASE=` entries, yields exactly the instance and database
      written after those prefixes. */
  lemma {:induction false} EnterpriseConnection(
    t0: string, t1: string, t2: string, instance: string, database: string, rest: seq<string>)
    requires ';' !in t0 && ';' !in t1 && ';' !in t2 && ';' !in instance && ';' !in database
    requires forall k :: 0 <= k < |rest| ==> ';' !in rest[k]
    requires !Contains(instance, PropertiesPrefix) && !Contains(database, DatabasePrefix)
    ensures var ts := [t0, t1, t2, PropertiesPrefix + instance, DatabasePrefix + database] + rest;
            Classify(Join(ts, ';')) == Recognized(Connection(EnterpriseDatabase, instance, database))
  {
    var ts := [t0, t1, t2, PropertiesPrefix + instance, DatabasePrefix + database] + rest;
    assert ';' !in PropertiesPrefix + instance;
    assert ';' !in DatabasePrefix + database;
    SplitJoin(ts, ';');
    assert (PropertiesPrefix + instance)[..|PropertiesKey|] == PropertiesKey;
    assert (DatabasePrefix + database)[..|DatabaseKey|] == DatabaseKey;
    RemoveAllLeading(PropertiesPrefix, instance);
    RemoveAllAbsent(instance, PropertiesPrefix);
    RemoveAllLeading(DatabasePrefix, database);
    RemoveAllAbsent(database, DatabasePrefix);
  }

  /** A connection string written with its `DB_CONNECTION_PROPERTIES` and
      `DATABASE` entries first and only three tokens in all fails on the
      token index: the source looks for them at positions 3 and 4 only. */
  lemma {:induction false} ShortEnterpriseTextFails(instance: string, database: string, tail: string)
    requires ';' !in instance && ';' !in database && ';' !in tail
    ensures Classify(Join([PropertiesPrefix + instance, DatabasePrefix + database, tail], ';'))
            == TokenIndexError
  {
    var ts := [PropertiesPrefix + instance, DatabasePrefix + database, tail];
    assert ';' !in PropertiesPrefix + instance;
    assert ';' !in DatabasePrefix + database;
    SplitJoin(ts, ';');
    assert ';' in Join(ts, ';');
  }
}
