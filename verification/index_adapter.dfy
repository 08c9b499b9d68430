/** The parts of `ElasticSearchAdapter` that compose the pure components with
    client calls: the descriptor `create_index_from_df` sends, the actions
    `insert_bulk` hands to `bulk`, and the `index` calls `put_dataframe` makes.
    The client is not modelled: its replies, the index-existence answer, the
    row serialiser and SHA-256 are parameters. */
module IndexAdapter {
  import opened Wrappers
  import opened Values
  import opened SchemaMapper
  import opened RecordSanitizer
  import opened IdGenerator
  import opened Bytes
  import Utf8

  /** Every document and mapping is written under this document type. */
  const DocType: string := "data"

  /** An HTTP status the client raises for: a client or server error. */
  type ErrorStatus = s: int | 400 <= s < 600 witness 400

  /** What the client's `indices.create` call did. */
  datatype Reply = Acknowledged | HttpError(status: ErrorStatus) | TransportFailure

  /** `ignore=400`: a 400 reply is returned as a value instead of raised. */
  predicate Tolerated(reply: Reply) {
    reply.Acknowledged? || reply == HttpError(400)
  }

  datatype CreateRequest = CreateRequest(index: string, body: Descriptor)

  /** The descriptor returned, and the `indices.create` call made, if any. */
  datatype Created = Created(descriptor: Descriptor, request: Option<CreateRequest>)

  /** Every failure inside `create_index_from_df` is re-raised as this one error. */
  datatype CreateError = IndexCreationError

  /** `create_index_from_df(index, dataframe, aggregators, persist_index, shards, replicas)`. */
  function CreateIndexFromDf(index: string, frame: Frame, aggregators: seq<string>, persist: bool,
                             shards: int, replicas: int, reply: Reply): (r: Result<Created, CreateError>)
    ensures r.Ok? <==> |frame.columns| > 0 && (persist ==> Tolerated(reply))
    ensures r.Ok? ==> r.value.descriptor.settings == Settings(shards, 0)
    ensures r.Ok? ==> r.value.descriptor.docType == DocType
    ensures r.Ok? ==> r.value.descriptor.properties.Keys == ColumnNames(frame.columns)
    ensures r.Ok? ==> forall k :: k in r.value.descriptor.properties ==>
                        r.value.descriptor.properties[k] == Classify(DtypeOf(frame, k), k in aggregators)
    ensures r.Ok? ==> (r.value.request.Some? <==> persist)
    ensures r.Ok? && persist ==> r.value.request == Some(CreateRequest(index, r.value.descriptor))
  {
    match GenerateSettingsMapping(frame, DocType, aggregators, shards, 0)
    case Err(_) => Err(IndexCreationError)
    case Ok(descriptor) =>
      if !persist then Ok(Created(descriptor, None))
      else if Tolerated(reply) then Ok(Created(descriptor, Some(CreateRequest(index, descriptor))))
      else Err(IndexCreationError)
  }

  /** The caller's replica count never reaches the descriptor. */
  lemma ReplicasIgnored(index: string, frame: Frame, aggregators: seq<string>, persist: bool,
                        shards: int, replicas1: int, replicas2: int, reply: Reply)
    ensures CreateIndexFromDf(index, frame, aggregators, persist, shards, replicas1, reply)
         == CreateIndexFromDf(index, frame, aggregators, persist, shards, replicas2, reply)
    ensures replicas1 != 0 && |frame.columns| > 0 && !persist ==>
      CreateIndexFromDf(index, frame, aggregators, persist, shards, replicas1, reply).value.descriptor.settings
      != Settings(shards, replicas1)
  {
  }

  /** A dry run returns the very descriptor a persisting call sends, without the call. */
  lemma DryRunSameDescriptor(index: string, frame: Frame, aggregators: seq<string>, shards: int,
                             replicas: int, reply: Reply)
    requires |frame.columns| > 0 && Tolerated(reply)
    ensures
      var dry := CreateIndexFromDf(index, frame, aggregators, false, shards, replicas, reply);
      var wet := CreateIndexFromDf(index, frame, aggregators, true, shards, replicas, reply);
      dry.Ok? && wet.Ok? && dry.value.request == None
      && wet.value.request == Some(CreateRequest(index, dry.value.descriptor))
  {
  }

  /** `create_index_from_df` with the caller's `replicas` passed through;
      nothing else differs from `CreateIndexFromDf`. */
  function CreateIndexFromDfFixed(index: string, frame: Frame, aggregators: seq<string>, persist: bool,
                                  shards: int, replicas: int, reply: Reply): (r: Result<Created, CreateError>)
    ensures r.Ok? <==> |frame.columns| > 0 && (persist ==> Tolerated(reply))
    ensures r.Ok? ==> r.value.descriptor.settings == Settings(shards, replicas)
    ensures r.Ok? ==> r.value.descriptor.docType == DocType
    ensures r.Ok? ==> r.value.descriptor.properties.Keys == ColumnNames(frame.columns)
    ensures r.Ok? ==> forall k :: k in r.value.descriptor.properties ==>
                        r.value.descriptor.properties[k] == Classify(DtypeOf(frame, k), k in aggregators)
    ensures r.Ok? ==> (r.value.request.Some? <==> persist)
    ensures r.Ok? && persist ==> r.value.request == Some(CreateRequest(index, r.value.descriptor))
  {
    match GenerateSettingsMapping(frame, DocType, aggregators, shards, replicas)
    case Err(_) => Err(IndexCreationError)
    case Ok(descriptor) =>
      if !persist then Ok(Created(descriptor, None))
      else if Tolerated(reply) then Ok(Created(descriptor, Some(CreateRequest(index, descriptor))))
      else Err(IndexCreationError)
  }

  /** With a zero replica count both versions agree on every input. */
  lemma FixedCreateAgrees(index: string, frame: Frame, aggregators: seq<string>, persist: bool,
                          shards: int, reply: Reply)
    ensures CreateIndexFromDfFixed(index, frame, aggregators, persist, shards, 0, reply)
         == CreateIndexFromDf(index, frame, aggregators, persist, shards, 0, reply)
  {
  }

  /** The two versions differ exactly in the replica count of a created descriptor. */
  lemma FixedCreateDiffersInReplicas(index: string, frame: Frame, aggregators: seq<string>, persist: bool,
                                     shards: int, replicas: int, reply: Reply)
    ensures
      var fixed := CreateIndexFromDfFixed(index, frame, aggregators, persist, shards, replicas, reply);
      var orig := CreateIndexFromDf(index, frame, aggregators, persist, shards, replicas, reply);
      && (fixed.Ok? <==> orig.Ok?)
      && (fixed.Ok? ==>
            && fixed.value.descriptor == orig.value.descriptor.(settings := Settings(shards, replicas))
            && (fixed.value.request.Some? <==> orig.value.request.Some?))
  {
  }

  /** `to_json(date_format='iso')` followed by `json.loads`: a library step the
      model takes as given. */
  type Serializer = Record -> Record

  /** One action of the generator in `insert_bulk`. */
  datatype Action = Action(index: string, docType: string, id: Option<string>, source: Record)

  function BulkAction(index: string, row: Record, createId: bool, idFields: seq<string>,
                      serialize: Serializer, sha256: Hash): (r: Result<Action, IdError>)
    ensures r.Ok? <==> !createId || forall i :: 0 <= i < |idFields| ==> HasKey(row, idFields[i])
    ensures r.Err? ==> PreImage(row, idFields) == Err(r.error)
    ensures r.Ok? ==> r.value.index == index && r.value.docType == DocType
    ensures r.Ok? ==> IsSubsequence(r.value.source, serialize(row)) && NoNullLike(r.value.source)
    ensures r.Ok? ==> (r.value.id.Some? <==> createId)
    ensures r.Ok? && createId ==> |r.value.id.value| == 64
    ensures r.Ok? && createId ==>
              ParseHex(r.value.id.value) == Some(sha256(Utf8.Encode(PreImage(row, idFields).value)))
  {
    var source := Prune(serialize(row));
    if !createId then Ok(Action(index, DocType, None, source))
    else match GenerateId(row, idFields, sha256)
      case Err(e) => Err(e)
      case Ok(id) => Ok(Action(index, DocType, Some(id), source))
  }

  /** Every action `insert_bulk` yields, in row order; the first `KeyError`
      ends the stream, reported with the row's position. */
  function BulkActions(index: string, rows: seq<Record>, createId: bool, idFields: seq<string>,
                       serialize: Serializer, sha256: Hash): (r: Result<seq<Action>, Failed<IdError>>)
    ensures r.Ok? <==> !createId || forall i :: 0 <= i < |rows| ==> GenerateId(rows[i], idFields, sha256).Ok?
    ensures r.Ok? ==> |r.value| == |rows|
    ensures r.Ok? ==> forall i :: 0 <= i < |rows| ==>
              && r.value[i].index == index
              && r.value[i].docType == DocType
              && r.value[i].source == Prune(serialize(rows[i]))
              && (r.value[i].id.Some? <==> createId)
              && (createId ==> Ok(r.value[i].id.value) == GenerateId(rows[i], idFields, sha256))
    ensures r.Err? ==>
              && createId && r.error.index < |rows|
              && GenerateId(rows[r.error.index], idFields, sha256) == Err(r.error.error)
              && forall j :: 0 <= j < r.error.index ==> GenerateId(rows[j], idFields, sha256).Ok?
  {
    TraverseSpec(row => BulkAction(index, row, createId, idFields, serialize, sha256), rows);
    Traverse(row => BulkAction(index, row, createId, idFields, serialize, sha256), rows)
  }

  /** Streaming: the actions for two batches of rows are the two streams one after the other. */
  lemma BulkActionsAppend(index: string, rows1: seq<Record>, rows2: seq<Record>,
                          createId: bool, idFields: seq<string>, serialize: Serializer, sha256: Hash)
    requires BulkActions(index, rows1, createId, idFields, serialize, sha256).Ok?
    requires BulkActions(index, rows2, createId, idFields, serialize, sha256).Ok?
    ensures BulkActions(index, rows1 + rows2, createId, idFields, serialize, sha256)
         == Ok(BulkActions(index, rows1, createId, idFields, serialize, sha256).value
               + BulkActions(index, rows2, createId, idFields, serialize, sha256).value)
  {
    TraverseAppend(row => BulkAction(index, row, createId, idFields, serialize, sha256), rows1, rows2);
  }

  /** One `es.index(index=..., doc_type='data', id=..., body=...)` call. */
  datatype IndexRequest = IndexRequest(index: string, docType: string, id: Option<string>, body: Record)

  /** The `es.index` calls `put_dataframe` makes, as written: the id is
      computed from an empty field list, whatever `idFields` says. */
  function PutDataframe(index: string, indexExists: bool, rows: seq<Record>, createId: bool,
                        idFields: seq<string>, serialize: Serializer, sha256: Hash): (calls: seq<IndexRequest>)
    ensures !indexExists ==> calls == []
    ensures indexExists ==> |calls| == |rows|
    ensures indexExists ==> forall i :: 0 <= i < |rows| ==>
              && calls[i].index == index && calls[i].docType == DocType
              && calls[i].body == Prune(serialize(rows[i]))
              && calls[i].id == (if createId then Some(HexDigest(sha256([]))) else None)
  {
    if !indexExists then []
    else seq(|rows|, i requires 0 <= i < |rows| => PutRequest(index, rows[i], createId, serialize, sha256))
  }

  /** The request for one row; its id comes from `__generate_id__(row)`,
      called without the id fields. */
  function PutRequest(index: string, row: Record, createId: bool, serialize: Serializer, sha256: Hash)
    : (call: IndexRequest)
    ensures call.id == (if createId then Some(HexDigest(sha256([]))) else None)
  {
    EmptyFieldsHashEmptyString(row, sha256);
    var id := if createId then Some(GenerateId(row, [], sha256).value) else None;
    IndexRequest(index, DocType, id, Prune(serialize(row)))
  }

  /** With ids requested, every row of a `put_dataframe` call gets the same id,
      so each document replaces the one before. */
  lemma PutDataframeIdsCollide(index: string, rows: seq<Record>, idFields: seq<string>,
                               serialize: Serializer, sha256: Hash, i: nat, j: nat)
    requires i < |rows| && j < |rows|
    ensures
      var calls := PutDataframe(index, true, rows, true, idFields, serialize, sha256);
      calls[i].id.Some? && calls[i].id == calls[j].id
  {
  }

  /** `put_dataframe` with `id_fields` passed on, as `insert_bulk` does. */
  function PutDataframeFixed(index: string, indexExists: bool, rows: seq<Record>, createId: bool,
                             idFields: seq<string>, serialize: Serializer, sha256: Hash)
    : (r: Result<seq<IndexRequest>, Failed<IdError>>)
    ensures !indexExists ==> r == Ok([])
    ensures indexExists ==> (r.Ok? <==> !createId || forall i :: 0 <= i < |rows| ==> GenerateId(rows[i], idFields, sha256).Ok?)
    ensures r.Ok? && indexExists ==> |r.value| == |rows|
    ensures r.Ok? && indexExists ==> forall i :: 0 <= i < |rows| ==>
              && r.value[i].index == index && r.value[i].docType == DocType
              && r.value[i].body == Prune(serialize(rows[i]))
              && (r.value[i].id.Some? <==> createId)
              && (createId ==> Ok(r.value[i].id.value) == GenerateId(rows[i], idFields, sha256))
  {
    if !indexExists then Ok([])
    else match BulkActions(index, rows, createId, idFields, serialize, sha256)
      case Err(e) => Err(e)
      case Ok(actions) =>
        Ok(seq(|actions|, i requires 0 <= i < |actions| =>
          IndexRequest(actions[i].index, actions[i].docType, actions[i].id, actions[i].source)))
  }

  /** After the fix, `put_dataframe` sends each row with the id and body that
      `insert_bulk` gives it, and fails on the same rows. */
  lemma PutFixedMatchesBulk(index: string, rows: seq<Record>, createId: bool, idFields: seq<string>,
                            serialize: Serializer, sha256: Hash)
    ensures
      var put := PutDataframeFixed(index, true, rows, createId, idFields, serialize, sha256);
      var bulk := BulkActions(index, rows, createId, idFields, serialize, sha256);
      && (put.Ok? <==> bulk.Ok?)
      && (put.Ok? ==> |put.value| == |bulk.value| && forall i :: 0 <= i < |put.value| ==>
            put.value[i].id == bulk.value[i].id && put.value[i].body == bulk.value[i].source)
  {
  }

  /** After the fix, on rows that all carry the id fields, two rows whose
      id-field renderings differ and contain no `+` get different ids unless
      SHA-256 collides on their two hash inputs, which are distinct byte strings. */
  lemma FixedPutSeparatesRows(index: string, rows: seq<Record>, idFields: seq<string>,
                              serialize: Serializer, sha256: Hash, i: nat, j: nat)
    requires i < |rows| && j < |rows| && |idFields| >= 1
    requires forall k, f :: 0 <= k < |rows| && 0 <= f < |idFields| ==> HasKey(rows[k], idFields[f])
    requires forall f :: 0 <= f < |idFields| ==> Separator !in Render(Get(rows[i], idFields[f]).value)
    requires forall f :: 0 <= f < |idFields| ==> Separator !in Render(Get(rows[j], idFields[f]).value)
    requires exists f :: 0 <= f < |idFields| && Render(Get(rows[i], idFields[f]).value) != Render(Get(rows[j], idFields[f]).value)
    ensures PutDataframeFixed(index, true, rows, true, idFields, serialize, sha256).Ok?
    ensures
      var calls := PutDataframeFixed(index, true, rows, true, idFields, serialize, sha256).value;
      var input_i := Utf8.Encode(PreImage(rows[i], idFields).value);
      var input_j := Utf8.Encode(PreImage(rows[j], idFields).value);
      && input_i != input_j
      && (calls[i].id != calls[j].id <==> sha256(input_i) != sha256(input_j))
  {
    var calls := PutDataframeFixed(index, true, rows, true, idFields, serialize, sha256).value;
    var input_i := Utf8.Encode(PreImage(rows[i], idFields).value);
    var input_j := Utf8.Encode(PreImage(rows[j], idFields).value);
    var f :| 0 <= f < |idFields| && Render(Get(rows[i], idFields[f]).value) != Render(Get(rows[j], idFields[f]).value);
    assert Renderings(rows[i], idFields).value[f] != Renderings(rows[j], idFields).value[f];
    if PreImage(rows[i], idFields) == PreImage(rows[j], idFields) {
      PreImageDeterminesRenderings(rows[i], rows[j], idFields);
    }
    Utf8.EncodeInjective(PreImage(rows[i], idFields).value, PreImage(rows[j], idFields).value);
    assert calls[i].id == Some(HexDigest(sha256(input_i)));
    assert calls[j].id == Some(HexDigest(sha256(input_j)));
    if HexDigest(sha256(input_i)) == HexDigest(sha256(input_j)) {
      HexDigestInjective(sha256(input_i), sha256(input_j));
    }
  }
}
