/** The driver of the harvesting script: for each of the ten categories, in
    order, fetch and save the schema, then fetch and save the records.

    A run is described by the sequence of events it produces: the remote
    requests it makes and the files it decides to write. */
module Driver {
  import opened Fetch
  import opened Persist

  /** The categories harvested, in the order they are processed. */
  const DATA_TYPES: seq<string> := [
    "genome",
    "genome_amr",
    "pathway",
    "genome_feature",
    "sp_gene",
    "genome_sequence",
    "subsystem",
    "antibiotics",
    "taxonomy",
    "protein_family_ref"
  ]

  /** What the schema service gives back: a value (possibly falsy) or an error. */
  datatype SchemaReply<S> = Answered(doc: Option<S>) | Raised

  /** One observable step of a run. */
  datatype Event<S, R> =
    | SchemaRequested(dataType: string)
    | RecordsRequested(dataType: string, start: nat)
    | Saved(output: Output<S, R>)

  /** The schema fetch: a failed call is caught and yields no schema. */
  function FetchSchema<S>(reply: SchemaReply<S>): (schema: Option<S>)
    ensures reply.Raised? ==> schema == None
    ensures reply.Answered? ==> schema == reply.doc
  {
    match reply
    case Answered(doc) => doc
    case Raised => None
  }

  function AsEvents<S, R>(w: Option<Output<S, R>>): seq<Event<S, R>> {
    if w.Some? then [Saved(w.value)] else []
  }

  /** The record requests made at the given start offsets. */
  function Requested<S, R>(dataType: string, starts: seq<nat>): (es: seq<Event<S, R>>)
    ensures |es| == |starts|
    ensures forall i :: 0 <= i < |es| ==> es[i] == RecordsRequested(dataType, starts[i])
  {
    if starts == [] then []
    else [RecordsRequested(dataType, starts[0])] + Requested(dataType, starts[1..])
  }

  /** The events of one category: schema request, schema write (if any),
      record requests, data write (if any). */
  ghost function CategoryEvents<S, R>(getSchema: string -> SchemaReply<S>, query: QueryService<R>, dataType: string)
    : seq<Event<S, R>>
    requires EventuallyShort(query, dataType)
  {
    [SchemaRequested(dataType)]
    + AsEvents(SaveSchemaToFile(FetchSchema(getSchema(dataType)), dataType))
    + Requested(dataType, Offsets(RequestCount(query, dataType)))
    + AsEvents(SaveDataToFile(Some(Harvest(query, dataType)), DataFileName(dataType)))
  }

  /** The events of processing the given categories one after another, each
      contributing its block. */
  ghost function Blocks<S, R>(block: string -> seq<Event<S, R>>, types: seq<string>): seq<Event<S, R>>
    decreases |types|
  {
    if types == [] then []
    else Blocks(block, types[..|types| - 1]) + block(types[|types| - 1])
  }

  /** Each category's block. The `else []` branch is never reached under
      `Trace`'s precondition; it does not mean "skip the category" (the
      source would hang in that category's fetch instead). */
  ghost function CategoryBlock<S, R>(getSchema: string -> SchemaReply<S>, query: QueryService<R>)
    : string -> seq<Event<S, R>>
  {
    t => if EventuallyShort(query, t) then CategoryEvents(getSchema, query, t) else []
  }

  /** The events of processing the given categories in order. */
  ghost function Trace<S, R>(getSchema: string -> SchemaReply<S>, query: QueryService<R>, types: seq<string>)
    : seq<Event<S, R>>
    requires forall t :: t in types ==> EventuallyShort(query, t)
  {
    Blocks(CategoryBlock(getSchema, query), types)
  }

  /** The script's main function: every category in turn. A failure in one
      category ends nothing but that category's fetch. */
  method RunHarvest<S, R>(getSchema: string -> SchemaReply<S>, query: QueryService<R>)
    returns (events: seq<Event<S, R>>)
    requires forall t :: t in DATA_TYPES ==> EventuallyShort(query, t)
    ensures events == Trace(getSchema, query, DATA_TYPES)
  {
    events := [];
    for i := 0 to |DATA_TYPES|
      invariant events == Blocks(CategoryBlock(getSchema, query), DATA_TYPES[..i])
    {
      var step := ProcessCategory(getSchema, query, DATA_TYPES[i]);
      events := events + step;
      assert DATA_TYPES[..i + 1][..i] == DATA_TYPES[..i];
    }
    assert DATA_TYPES[..|DATA_TYPES|] == DATA_TYPES;
  }

  /** One pass of the driver's loop: fetch and save the schema, then fetch
      and save the records. */
  method ProcessCategory<S, R>(getSchema: string -> SchemaReply<S>, query: QueryService<R>, dataType: string)
    returns (events: seq<Event<S, R>>)
    requires EventuallyShort(query, dataType)
    ensures events == CategoryEvents(getSchema, query, dataType)
  {
    events := [SchemaRequested(dataType)];
    var schema := FetchSchema(getSchema(dataType));
    events := events + AsEvents(SaveSchemaToFile(schema, dataType));
    var data, starts := FetchAllRecords(query, dataType);
    events := events + Requested(dataType, starts);
    var fileName := DataFileName(dataType);
    events := events + AsEvents(SaveDataToFile(Some(data), fileName));
    CategoryStep(getSchema, query, dataType, data, starts);
  }

  /** One category's events, as the loop produces them, are its block. */
  lemma CategoryStep<S, R>(getSchema: string -> SchemaReply<S>, query: QueryService<R>, dataType: string,
                           data: seq<R>, starts: seq<nat>)
    requires EventuallyShort(query, dataType) && IsRun(query, dataType, |starts|)
    requires forall j :: 0 <= j < |starts| ==> starts[j] == Offset(j)
    requires data == Gathered(query, dataType, |starts|)
    ensures [SchemaRequested(dataType)]
            + AsEvents(SaveSchemaToFile(FetchSchema(getSchema(dataType)), dataType))
            + Requested(dataType, starts)
            + AsEvents(SaveDataToFile(Some(data), DataFileName(dataType)))
         == CategoryEvents(getSchema, query, dataType)
  {
    RunIsHarvest(query, dataType, |starts|);
    assert starts == Offsets(|starts|);
  }

  /** The categories whose schema is requested, in request order. */
  function SchemaRequests<S, R>(es: seq<Event<S, R>>): seq<string> {
    if es == [] then []
    else (if es[0].SchemaRequested? then [es[0].dataType] else []) + SchemaRequests(es[1..])
  }

  lemma {:induction false} SchemaRequestsAppend<S, R>(a: seq<Event<S, R>>, b: seq<Event<S, R>>)
    ensures SchemaRequests(a + b) == SchemaRequests(a) + SchemaRequests(b)
    decreases |a|
  {
    if a == [] {
      assert a + b == b;
    } else {
      assert (a + b)[1..] == a[1..] + b;
      SchemaRequestsAppend(a[1..], b);
    }
  }

  lemma {:induction false} NoSchemaRequests<S, R>(es: seq<Event<S, R>>)
    requires forall i :: 0 <= i < |es| ==> !es[i].SchemaRequested?
    ensures SchemaRequests(es) == []
    decreases |es|
  {
    if es != [] {
      NoSchemaRequests(es[1..]);
    }
  }

  lemma CategorySchemaRequests<S, R>(getSchema: string -> SchemaReply<S>, query: QueryService<R>, dataType: string)
    requires EventuallyShort(query, dataType)
    ensures SchemaRequests(CategoryEvents(getSchema, query, dataType)) == [dataType]
  {
    var head: seq<Event<S, R>> := [SchemaRequested(dataType)];
    var s := AsEvents(SaveSchemaToFile(FetchSchema(getSchema(dataType)), dataType));
    var r := Requested(dataType, Offsets(RequestCount(query, dataType)));
    var d := AsEvents(SaveDataToFile(Some(Harvest(query, dataType)), DataFileName(dataType)));
    NoSchemaRequests(s);
    NoSchemaRequests(r);
    NoSchemaRequests(d);
    SchemaRequestsAppend(head, s);
    SchemaRequestsAppend(head + s, r);
    SchemaRequestsAppend(head + s + r, d);
  }

  lemma {:induction false} BlocksSchemaRequests<S, R>(block: string -> seq<Event<S, R>>, types: seq<string>)
    requires forall t :: t in types ==> SchemaRequests(block(t)) == [t]
    ensures SchemaRequests(Blocks(block, types)) == types
    decreases |types|
  {
    if types != [] {
      var init, last := types[..|types| - 1], types[|types| - 1];
      BlocksSchemaRequests(block, init);
      SchemaRequestsAppend(Blocks(block, init), block(last));
      assert types == init + [last];
    }
  }

  /** Every category is visited, in the listed order, whatever the services
      reply (failures included): the schema requests of a run are exactly the
      categories. */
  lemma SchemaRequestsInOrder<S, R>(getSchema: string -> SchemaReply<S>, query: QueryService<R>, types: seq<string>)
    requires forall t :: t in types ==> EventuallyShort(query, t)
    ensures SchemaRequests(Trace(getSchema, query, types)) == types
  {
    var block := CategoryBlock(getSchema, query);
    forall t | t in types
      ensures SchemaRequests(block(t)) == [t]
    {
      CategorySchemaRequests(getSchema, query, t);
    }
    BlocksSchemaRequests(block, types);
  }

  /** Each record request is preceded by the schema request of its category. */
  ghost predicate SchemaFirst<S, R>(es: seq<Event<S, R>>) {
    forall i :: 0 <= i < |es| && es[i].RecordsRequested? ==>
      exists k :: 0 <= k < i && es[k] == SchemaRequested(es[i].dataType)
  }

  lemma SchemaFirstAppend<S, R>(a: seq<Event<S, R>>, b: seq<Event<S, R>>)
    requires SchemaFirst(a) && SchemaFirst(b)
    ensures SchemaFirst(a + b)
  {
    var ab := a + b;
    forall i | 0 <= i < |ab| && ab[i].RecordsRequested?
      ensures exists k :: 0 <= k < i && ab[k] == SchemaRequested(ab[i].dataType)
    {
      if i < |a| {
        assert ab[i] == a[i];
        var k :| 0 <= k < i && a[k] == SchemaRequested(a[i].dataType);
        assert ab[k] == a[k];
      } else {
        assert ab[i] == b[i - |a|];
        var k :| 0 <= k < i - |a| && b[k] == SchemaRequested(b[i - |a|].dataType);
        assert ab[k + |a|] == b[k];
      }
    }
  }

  lemma CategorySchemaFirst<S, R>(getSchema: string -> SchemaReply<S>, query: QueryService<R>, dataType: string)
    requires EventuallyShort(query, dataType)
    ensures SchemaFirst(CategoryEvents(getSchema, query, dataType))
  {
    var es := CategoryEvents(getSchema, query, dataType);
    var s := AsEvents(SaveSchemaToFile(FetchSchema(getSchema(dataType)), dataType));
    var r := Requested(dataType, Offsets(RequestCount(query, dataType)));
    var d := AsEvents(SaveDataToFile(Some(Harvest(query, dataType)), DataFileName(dataType)));
    assert es == [SchemaRequested(dataType)] + s + r + d;
    forall i | 0 <= i < |es| && es[i].RecordsRequested?
      ensures exists k :: 0 <= k < i && es[k] == SchemaRequested(es[i].dataType)
    {
      assert 1 + |s| <= i < 1 + |s| + |r|;
      assert es[i] == r[i - 1 - |s|];
      assert es[0] == SchemaRequested(dataType);
    }
  }

  lemma {:induction false} BlocksSchemaFirst<S, R>(block: string -> seq<Event<S, R>>, types: seq<string>)
    requires forall t :: t in types ==> SchemaFirst(block(t))
    ensures SchemaFirst(Blocks(block, types))
    decreases |types|
  {
    if types != [] {
      var init, last := types[..|types| - 1], types[|types| - 1];
      BlocksSchemaFirst(block, init);
      SchemaFirstAppend(Blocks(block, init), block(last));
    }
  }

  /** The schema of a category is requested before any of its records, in
      every run. */
  lemma SchemaBeforeRecords<S, R>(getSchema: string -> SchemaReply<S>, query: QueryService<R>, types: seq<string>)
    requires forall t :: t in types ==> EventuallyShort(query, t)
    ensures SchemaFirst(Trace(getSchema, query, types))
  {
    var block := CategoryBlock(getSchema, query);
    forall t | t in types
      ensures SchemaFirst(block(t))
    {
      CategorySchemaFirst(getSchema, query, t);
    }
    BlocksSchemaFirst(block, types);
  }

  /** The names of the files written, in write order. */
  function SavedNames<S, R>(es: seq<Event<S, R>>): seq<string> {
    if es == [] then []
    else (if es[0].Saved? then [es[0].output.name] else []) + SavedNames(es[1..])
  }

  lemma {:induction false} SavedNamesAppend<S, R>(a: seq<Event<S, R>>, b: seq<Event<S, R>>)
    ensures SavedNames(a + b) == SavedNames(a) + SavedNames(b)
    decreases |a|
  {
    if a == [] {
      assert a + b == b;
    } else {
      assert (a + b)[1..] == a[1..] + b;
      SavedNamesAppend(a[1..], b);
    }
  }

  lemma {:induction false} NoSavedNames<S, R>(es: seq<Event<S, R>>)
    requires forall i :: 0 <= i < |es| ==> !es[i].Saved?
    ensures SavedNames(es) == []
    decreases |es|
  {
    if es != [] {
      NoSavedNames(es[1..]);
    }
  }

  ghost predicate Distinct<T>(s: seq<T>) {
    forall i, j :: 0 <= i < j < |s| ==> s[i] != s[j]
  }

  /** A category writes at most its schema file and its data file. */
  ghost predicate OwnNames<S, R>(es: seq<Event<S, R>>, dataType: string) {
    && Distinct(SavedNames(es))
    && forall n :: n in SavedNames(es) ==> n == SchemaFileName(dataType) || n == DataFileName(dataType)
  }

  lemma CategorySavedNames<S, R>(getSchema: string -> SchemaReply<S>, query: QueryService<R>, dataType: string)
    requires EventuallyShort(query, dataType)
    ensures OwnNames(CategoryEvents(getSchema, query, dataType), dataType)
  {
    var head: seq<Event<S, R>> := [SchemaRequested(dataType)];
    var s := AsEvents(SaveSchemaToFile(FetchSchema(getSchema(dataType)), dataType));
    var r := Requested(dataType, Offsets(RequestCount(query, dataType)));
    var d := AsEvents(SaveDataToFile(Some(Harvest(query, dataType)), DataFileName(dataType)));
    NoSavedNames(head);
    NoSavedNames(r);
    SavedNamesAppend(head, s);
    SavedNamesAppend(head + s, r);
    SavedNamesAppend(head + s + r, d);
    assert SavedNames(s) == if s == [] then [] else [SchemaFileName(dataType)];
    assert SavedNames(d) == if d == [] then [] else [DataFileName(dataType)];
    SchemaAndDataNamesDiffer(dataType, dataType);
  }

  lemma {:induction false} BlocksSavedNames<S, R>(block: string -> seq<Event<S, R>>, types: seq<string>)
    requires Distinct(types)
    requires forall t :: t in types ==> OwnNames(block(t), t)
    ensures Distinct(SavedNames(Blocks(block, types)))
    ensures forall n :: n in SavedNames(Blocks(block, types)) ==>
              exists t :: t in types && (n == SchemaFileName(t) || n == DataFileName(t))
    decreases |types|
  {
    if types != [] {
      var init, last := types[..|types| - 1], types[|types| - 1];
      BlocksSavedNames(block, init);
      var a := SavedNames(Blocks(block, init));
      var b := SavedNames(block(last));
      SavedNamesAppend(Blocks(block, init), block(last));
      assert OwnNames(block(last), last);
      forall x, y | x in a && y in b
        ensures x != y
      {
        var t :| t in init && (x == SchemaFileName(t) || x == DataFileName(t));
        assert t != last;
        if x == y {
          if x == SchemaFileName(t) && y == SchemaFileName(last) {
            SchemaFileNameInjective(t, last);
          } else if x == DataFileName(t) && y == DataFileName(last) {
            DataFileNameInjective(t, last);
          } else if x == SchemaFileName(t) {
            SchemaAndDataNamesDiffer(t, last);
          } else {
            SchemaAndDataNamesDiffer(last, t);
          }
        }
      }
      var ab := a + b;
      forall i, j | 0 <= i < j < |ab|
        ensures ab[i] != ab[j]
      {
        if j < |a| {
          assert ab[i] == a[i] && ab[j] == a[j];
        } else if i >= |a| {
          assert ab[i] == b[i - |a|] && ab[j] == b[j - |a|];
        } else {
          assert ab[i] in a && ab[j] in b;
        }
      }
    }
  }

  /** No two files written in a run share a name, as long as the categories
      are distinct: a run never overwrites its own output. */
  lemma SavedNamesDistinct<S, R>(getSchema: string -> SchemaReply<S>, query: QueryService<R>, types: seq<string>)
    requires forall t :: t in types ==> EventuallyShort(query, t)
    requires Distinct(types)
    ensures Distinct(SavedNames(Trace(getSchema, query, types)))
  {
    var block := CategoryBlock(getSchema, query);
    forall t | t in types
      ensures OwnNames(block(t), t)
    {
      CategorySavedNames(getSchema, query, t);
    }
    BlocksSavedNames(block, types);
  }

  /** The ten categories are distinct. */
  lemma DataTypesDistinct()
    ensures Distinct(DATA_TYPES)
  {
  }

  /** A run of the driver writes every file name at most once. */
  lemma RunWritesEachFileOnce<S, R>(getSchema: string -> SchemaReply<S>, query: QueryService<R>)
    requires forall t :: t in DATA_TYPES ==> EventuallyShort(query, t)
    ensures Distinct(SavedNames(Trace(getSchema, query, DATA_TYPES)))
  {
    DataTypesDistinct();
    SavedNamesDistinct(getSchema, query, DATA_TYPES);
  }

  /** What happens for one category depends only on the services' replies for
      that category: a failure in another category changes nothing here. */
  lemma CategoryIsolated<S, R>(getSchema: string -> SchemaReply<S>, query: QueryService<R>,
                               getSchema': string -> SchemaReply<S>, query': QueryService<R>, dataType: string)
    requires EventuallyShort(query, dataType)
    requires getSchema(dataType) == getSchema'(dataType)
    requires forall f: string, l: nat, s: nat :: query(dataType, f, l, s) == query'(dataType, f, l, s)
    ensures EventuallyShort(query', dataType)
    ensures CategoryEvents(getSchema, query, dataType) == CategoryEvents(getSchema', query', dataType)
  {
    HarvestIsolated(query, query', dataType);
  }

  /** Against a snapshot of every category, a category's records are saved,
      all of them and in order, exactly when it has at least one. */
  lemma SnapshotCategory<S, R>(getSchema: string -> SchemaReply<S>, db: string -> seq<R>, dataType: string)
    ensures EventuallyShort(Snapshot(db), dataType)
    ensures CategoryEvents(getSchema, Snapshot(db), dataType)
         == [SchemaRequested(dataType)]
            + AsEvents(SaveSchemaToFile(FetchSchema(getSchema(dataType)), dataType))
            + Requested(dataType, Offsets(|db(dataType)| / LIMIT + 1))
            + (if db(dataType) == [] then [] else [Saved(DataFile(DataFileName(dataType), db(dataType)))])
  {
    SnapshotRun(db, dataType);
  }
}
