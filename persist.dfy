/** The write guards of the harvesting script: whether a schema or a record
    list is saved, and under which file name. The write itself is left to the
    filesystem; the model records the decision as an Output value. */
module Persist {

  /** A JavaScript value that may be absent: None stands for null, undefined
      and the other falsy values. */
  datatype Option<T> = None | Some(value: T)

  /** A file the script writes into its output directory. */
  datatype Output<S, R> =
    | SchemaFile(name: string, schema: S)
    | DataFile(name: string, records: seq<R>)

  const SCHEMA_SUFFIX: string := "_schema.json"
  const DATA_SUFFIX: string := "_data.json"

  /** The file name a category's schema is saved under. */
  function SchemaFileName(dataType: string): (name: string)
    ensures |name| == |dataType| + |SCHEMA_SUFFIX|
    ensures name[..|dataType|] == dataType && name[|dataType|..] == SCHEMA_SUFFIX
  {
    dataType + SCHEMA_SUFFIX
  }

  /** The file name a category's records are saved under. */
  function DataFileName(dataType: string): (name: string)
    ensures |name| == |dataType| + |DATA_SUFFIX|
    ensures name[..|dataType|] == dataType && name[|dataType|..] == DATA_SUFFIX
  {
    dataType + DATA_SUFFIX
  }

  /** Record data is written only when it is present and holds at least one
      record; otherwise the write is skipped. */
  function SaveDataToFile<S, R>(data: Option<seq<R>>, fileName: string): (w: Option<Output<S, R>>)
    ensures w.Some? <==> data.Some? && |data.value| > 0
    ensures w.Some? ==> w.value.DataFile? && w.value.name == fileName && w.value.records == data.value
  {
    if data.Some? && |data.value| > 0 then Some(DataFile(fileName, data.value)) else None
  }

  /** A schema is written only when one is present (truthy), under
      `<category>_schema.json`. */
  function SaveSchemaToFile<S, R>(schema: Option<S>, dataType: string): (w: Option<Output<S, R>>)
    ensures w.Some? <==> schema.Some?
    ensures w.Some? ==> w.value.SchemaFile? && w.value.name == SchemaFileName(dataType)
                        && w.value.schema == schema.value
  {
    if schema.Some? then Some(SchemaFile(SchemaFileName(dataType), schema.value)) else None
  }

  /** Different categories never share a schema file name. */
  lemma SchemaFileNameInjective(a: string, b: string)
    requires SchemaFileName(a) == SchemaFileName(b)
    ensures a == b
  {
    assert |a| == |b|;
    assert a == SchemaFileName(a)[..|a|];
  }

  /** Different categories never share a data file name. */
  lemma DataFileNameInjective(a: string, b: string)
    requires DataFileName(a) == DataFileName(b)
    ensures a == b
  {
    assert |a| == |b|;
    assert a == DataFileName(a)[..|a|];
  }

  /** A schema file name is never a data file name, whatever the categories:
      seven characters from the end one has 'm' and the other 't'. */
  lemma SchemaAndDataNamesDiffer(a: string, b: string)
    ensures SchemaFileName(a) != DataFileName(b)
  {
    var s, d := SchemaFileName(a), DataFileName(b);
    if |s| == |d| {
      assert s[|s| - 7] == SCHEMA_SUFFIX[5] == 'm';
      assert d[|d| - 7] == DATA_SUFFIX[3] == 't';
    }
  }
}
