# pandas2elastic adapter core, modelled in Dafny

`ElasticSearchAdapter` moves a pandas dataframe into an Elasticsearch index.
Most of the class forwards calls to the Elasticsearch client. This project
models the four pure computations inside it, and the requests it hands to the
client:

- **Schema mapping** (`generate_settings_mapping`, module `SchemaMapper`).
  Each column's dtype string becomes an Elasticsearch field type through a
  first-match-wins if/elif chain. The shard and replica counts become the
  `settings` block. Both are wrapped into the
  `{settings, mappings: {doc_type: {properties}}}` index descriptor.
- **Record pruning** (`prune_records`, module `RecordSanitizer`). A parsed
  row loses the fields whose value is None, a float NaN, NaT, or a list with
  at least one null element. Every other field is kept unchanged.
- **Document ids** (`__generate_id__`, module `IdGenerator`). The id is the
  SHA-256 hex digest of the UTF-8 bytes of `'+'.join(str(row[f]) for f in id_fields)`.
- **Adapter requests** (module `IndexAdapter`). This covers the descriptor and
  the optional `indices.create` call of `create_index_from_df`, the actions
  `insert_bulk` gives to `bulk`, and the `es.index` calls of `put_dataframe`.

Supporting modules:

- `Wrappers`: `Option`, `Result`, and `Traverse`, a map that stops at the
  first failure, the way a Python loop stops when its body raises.
- `Values`: the closed value type of a row, and dictionary lookup.
- `Strings`: Python's `str` of an integer and `'+'.join`, each with an inverse.
- `Bytes`: `hexdigest()` rendering and its inverse.
- `Utf8`: `str.encode()` and a decoder.

Parts the model cannot see are parameters:

- the SHA-256 function (`IdGenerator.Hash`, any map from bytes to 32-byte digests);
- the row serialiser `to_json` followed by `json.loads` (`IndexAdapter.Serializer`);
- whether the index exists (a boolean);
- the client's reply to `indices.create` (`IndexAdapter.Reply`): acknowledged, an HTTP error status of 400 to 599, or a transport failure.

Two behaviours of the code are easy to misread, and the model states both:

- **Aggregator columns.** An aggregator column whose dtype is recognised
  keeps that dtype's tag, because the dtype tests come first
  (ElasticAdapter.py:117-126). An `int64` aggregator column stays `integer`
  (`SchemaMapper.DtypeBeforeAggregator`); only columns of other dtypes become
  `keyword`.
- **What the id depends on.** Only the `str` rendering of each id field is
  hashed, so the integer 5 and the text "5" give the same id
  (`IdGenerator.RenderingForgetsKind`). The `+` separator is not escaped, so
  `("1+2", "3")` and `("1", "2+3")` hash the same text
  (`IdGenerator.SeparatorCollision`). Renderings that contain no `+` are
  recovered from the hashed text (`IdGenerator.PreImageDeterminesRenderings`).
  Changing a single rendering always changes the hashed bytes
  (`IdGenerator.ChangeOneFieldChangesHashInput`).

## Model

| member | source | states |
|---|---|---|
| Values.Get | ElasticAdapter.py:53 | `row[field]` is absent exactly when no field has that key; otherwise it is the value stored under that key, and the only one when keys are distinct |
| Strings.IntToStringRoundTrip | ElasticAdapter.py:53 | `str` of an integer reads back as the same integer, so distinct integers render differently |
| Strings.SplitJoin | ElasticAdapter.py:52-54 | splitting `'+'.join(parts)` at `+` gives `parts` back when no part contains `+` |
| Strings.JoinChangeOne | ElasticAdapter.py:52-54 | replacing one part by a different one changes the joined text, whatever the parts contain |
| Bytes.HexDigest | ElasticAdapter.py:55 | `hexdigest()` writes two lowercase hex digits per byte, so a 32-byte digest gives 64 characters |
| Bytes.ParseHexDigest | ElasticAdapter.py:55 | the hex text reads back as the digest bytes |
| Utf8.DecodeEncode | ElasticAdapter.py:54 | `encode()` loses nothing: decoding its UTF-8 bytes gives the string back |
| Utf8.EncodeInjective | ElasticAdapter.py:54 | distinct pre-image strings are hashed as distinct byte strings |
| Wrappers.TraverseSpec | ElasticAdapter.py:80-94 | consuming a generator row by row yields one result per row in order, or stops at the first row that raises, after rows that all succeeded |
| Wrappers.TraverseAppend | ElasticAdapter.py:80-94 | the results for two batches of rows are the two result lists one after the other |
| RecordSanitizer.IsNullLike | ElasticAdapter.py:170-172 | the drop condition never holds for a boolean, number or string, so falsy values such as `0`, `False` and `""` are kept; an empty list and a list of lists are kept too |
| RecordSanitizer.Prune | ElasticAdapter.py:166-172 | the pruned record is the input with fields left out, order and values unchanged; a field survives exactly when its value is not None, NaN, NaT or a list holding a null |
| RecordSanitizer.PruneIdempotent | ElasticAdapter.py:170 | pruning a pruned record changes nothing |
| RecordSanitizer.PruneFixedPoint | ElasticAdapter.py:170-172 | a record is left as it is exactly when none of its values is null-like |
| RecordSanitizer.PruneConcat | ElasticAdapter.py:170 | fields are judged one at a time: a record split in two prunes as its two halves |
| RecordSanitizer.PruneGet | ElasticAdapter.py:170-172 | for distinct keys, the pruned dictionary keeps distinct keys, maps a key to its input value when that value is not null-like, and lacks the key otherwise |
| RecordSanitizer.PruneExample | ElasticAdapter.py:170-172 | `{"a": 1, "b": None, "c": NaN}` prunes to `{"a": 1}` |
| RecordSanitizer.PruneListExample | ElasticAdapter.py:170 | a list with one null element is dropped; an empty list is kept |
| IdGenerator.Render | ElasticAdapter.py:53 | Python's `str`: an integer's text reads back as that integer, a string renders as itself, and a list renders inside square brackets |
| IdGenerator.PreImage | ElasticAdapter.py:51-54 | the hashed text exists exactly when every id field is present, is empty for no id fields, and splits at `+` back into the renderings when none of them contains `+`; a missing field gives the renderings' `KeyError` |
| IdGenerator.Renderings | ElasticAdapter.py:52-54 | the rendered values come in field order, one per field, each the `str` of that field's value; a missing field is a `KeyError` naming the first missing field |
| IdGenerator.GenerateId | ElasticAdapter.py:51-55 | the id exists exactly when every id field is present; it is 64 lowercase hex characters that read back as the hash of the UTF-8 pre-image |
| IdGenerator.EmptyFieldsHashEmptyString | ElasticAdapter.py:51-55 | with no id fields the id is the digest of the empty byte string, whatever the row |
| IdGenerator.IdDependsOnlyOnFields | ElasticAdapter.py:51-55 | rows that agree on the id fields get the same id (or the same `KeyError`) |
| IdGenerator.PreImageDeterminesRenderings | ElasticAdapter.py:52-54 | when no rendering contains `+`, equal pre-images mean equal renderings |
| IdGenerator.ChangeOneFieldChangesHashInput | ElasticAdapter.py:52-54 | changing the rendering of one id field, all else equal, changes the hashed bytes |
| IdGenerator.FieldOrderMatters | ElasticAdapter.py:52-54 | for `{"x": "foo", "y": 5}` the pre-image is `foo+5` for `["x", "y"]` and `5+foo` for `["y", "x"]` |
| IdGenerator.SeparatorCollision | ElasticAdapter.py:52 | two rows with different values can share a pre-image because `+` is not escaped |
| IdGenerator.RenderingForgetsKind | ElasticAdapter.py:53 | the integer 5 and the text "5" give the same id |
| SchemaMapper.DtypeOf | ElasticAdapter.py:116 | `str(dataframe.dtypes[col])` is a dtype exactly when one column carries the label, and then it is that column's dtype; a repeated label gives a Series, whose text matches no dtype |
| SchemaMapper.Classify | ElasticAdapter.py:116-130 | `int64`/`int8` give integer, `float32`/`float64` float, `bool` boolean, the two date dtypes date; only for other dtypes does the aggregator list decide between keyword and text |
| SchemaMapper.BuildProperties | ElasticAdapter.py:115-130 | after the loop the mapping has exactly the visited column labels as keys, each with the tag of its column |
| SchemaMapper.GenerateSettingsMapping | ElasticAdapter.py:108-140 | a dataframe without columns raises; otherwise the descriptor carries the given shards, replicas and doc type, and one tag per column label |
| SchemaMapper.ColumnTag | ElasticAdapter.py:115-130 | with distinct labels every column is tagged from its own dtype and aggregator membership |
| SchemaMapper.DtypeBeforeAggregator | ElasticAdapter.py:117-126 | a recognised dtype keeps its tag whether or not the column is an aggregator, and is never keyword |
| SchemaMapper.AggregatorOnlyForUntyped | ElasticAdapter.py:117-130 | aggregator membership changes the tag exactly when the dtype is not one of the recognised ones |
| SchemaMapper.UnlistedDtypes | ElasticAdapter.py:117-130 | `int32`, `object` and `category` fall through to text, and `int32` to keyword for an aggregator |
| SchemaMapper.MappingExample | ElasticAdapter.py:108-140 | `age: int64`, `name: object`, `joined: datetime64[ns]` with aggregators `name` and `age` map to integer, keyword and date |
| SchemaMapper.GenerateSettingsMappingFixed | ElasticAdapter.py:131-136 | with the descriptor built after the loop, every dataframe gets a descriptor; it carries one tag per column label |
| SchemaMapper.FixedAgreesWithOriginal | ElasticAdapter.py:115-140 | the corrected mapping equals the original on every dataframe with columns, and is empty where the original raises |
| IndexAdapter.CreateIndexFromDf | ElasticAdapter.py:142-156 | creation fails exactly for a dataframe without columns or a rejected create that is not a 400; the descriptor has doc type `data` and zero replicas; the create call is made exactly when persisting, with that descriptor |
| IndexAdapter.ReplicasIgnored | ElasticAdapter.py:147-149 | the caller's replica count has no effect on the result |
| IndexAdapter.DryRunSameDescriptor | ElasticAdapter.py:150-154 | a dry run returns the descriptor a persisting call would send, and makes no call |
| IndexAdapter.CreateIndexFromDfFixed | ElasticAdapter.py:142-156 | with `replicas` passed through, the descriptor carries the caller's replica count; failures, doc type, per-column tags and the create call are as in the original |
| IndexAdapter.FixedCreateAgrees | ElasticAdapter.py:142-156 | for zero replicas the corrected and original creation agree on every input |
| IndexAdapter.FixedCreateDiffersInReplicas | ElasticAdapter.py:147-149 | the corrected and original creation fail on the same inputs and otherwise differ only in the descriptor's replica count |
| IndexAdapter.BulkAction | ElasticAdapter.py:81-92 | one action dict: it exists unless an id is requested and an id field is missing; its source is the serialised row with null-like fields left out; `_id` is present exactly when ids are requested, and is then 64 hex characters that read back as the hash of the row's pre-image |
| IndexAdapter.BulkActions | ElasticAdapter.py:80-92 | one action per row in row order, each with index, type `data` and the pruned serialised row; `_id` present exactly when ids are requested, and then the row's id; a missing id field stops the stream at the first such row |
| IndexAdapter.BulkActionsAppend | ElasticAdapter.py:80-94 | the actions for two batches of rows are the two action lists one after the other |
| IndexAdapter.PutDataframe | ElasticAdapter.py:57-73 | no call for a missing index; otherwise one `index` call per row with the pruned serialised row, and an id only when requested, always the digest of the empty string |
| IndexAdapter.PutRequest | ElasticAdapter.py:68-72 | the id of a single call ignores the row: it is the digest of the empty string, or absent |
| IndexAdapter.PutDataframeIdsCollide | ElasticAdapter.py:68-72 | with ids requested, all rows of one call get the same id |
| IndexAdapter.PutDataframeFixed | ElasticAdapter.py:57-73 | with `id_fields` passed on, each row's id is its own `GenerateId` over the id fields, as in `insert_bulk` |
| IndexAdapter.PutFixedMatchesBulk | ElasticAdapter.py:57-73 | after the correction, `put_dataframe` fails on the same rows as `insert_bulk`, and otherwise sends each row with the same id and body |
| IndexAdapter.FixedPutSeparatesRows | ElasticAdapter.py:68-72 | after the correction, a dataframe whose rows all carry the id fields is sent without error; two rows whose id-field renderings differ and contain no `+` are hashed from distinct UTF-8 byte strings, and their `es.index` ids differ exactly when the two SHA-256 digests differ |

## Findings

| source | as written | input that shows it | evidently intended | confidence | as-written member | corrected member |
|---|---|---|---|---|---|---|
| ElasticAdapter.py:68-70 | `put_dataframe` calls `__generate_id__(dataframe.iloc[i])` without `id_fields`, so the id is the digest of the empty string | any dataframe with two rows, `create_id=True`, `id_fields=["a"]`: both rows get the same id, so the second document replaces the first | `__generate_id__(row, id_fields=id_fields)`, as `insert_bulk` does at line 84 | high, not executed | IndexAdapter.PutDataframeIdsCollide | IndexAdapter.PutDataframeFixed |
| ElasticAdapter.py:147-149 | `create_index_from_df` passes `replicas=0` to the mapping, discarding the caller's `replicas` | `replicas=2`, any dataframe with columns: the descriptor has `number_of_replicas: 0` | `replicas=replicas` | medium, not executed | IndexAdapter.ReplicasIgnored | IndexAdapter.CreateIndexFromDfFixed |
| ElasticAdapter.py:131-136 | `final_map` is assigned inside the column loop | a dataframe with no columns: `final_map` is never bound, `return final_map` raises, and `create_index_from_df` reports that the index could not be created | build `final_map` after the loop, giving empty properties | medium, not executed | SchemaMapper.GenerateSettingsMapping | SchemaMapper.GenerateSettingsMappingFixed |

## Left out

- Connection and TLS setup (`__init__`, ElasticAdapter.py:23-49): this is client construction, a foreign library call.
- Client calls (`es.index`, `bulk`, `indices.exists`, `indices.create`, `indices.delete`): the model states which requests are made and with what arguments. Only the reply to `indices.create` is a parameter (`Reply`), and existence is a boolean. The replies of `es.index`, `bulk` and `indices.delete`, and the summary `bulk` returns, are not modelled.
- IndexAdapter.PutDataframe: every `es.index` call is assumed to return. In the source, an exception from the call for row k ends the loop after k+1 calls; the model always lists one call per row.
- `__index_exist__` (ElasticAdapter.py:97-106): existence is a boolean parameter. The malformed `raise("...")` on a `ValueError` is a Python `TypeError`, not designed behaviour.
- `delete_index` (ElasticAdapter.py:158-164): it is an existence check followed by a client call, with no computation of its own.
- `print` and `tqdm` output: these are diagnostics only.
- `to_json(date_format='iso')` and `json.loads`: these are library serialisation, taken as the `Serializer` parameter. `prune_records` is modelled on the already parsed record.
- SHA-256 internals: the hash is a parameter.
- Floating point: a float other than NaN, infinities included, is carried as its `str` text (`Num`), and NaN is its own variant.
- Building a row from the dataframe (`iloc`, `iterrows`, including dtype upcasting of mixed rows): rows are given as records.
- `pd.tslib.NaTType` is missing from pandas releases after 0.25. There the NaT test raises `AttributeError` for every field that reaches it. The model follows the pandas of the code's time, where the test is a plain type check.
- IdGenerator.Render: `str` of a list writes each string element as `'text'`, without Python's quote selection or escaping.
- RecordSanitizer.IsNullLike: a list element that is itself a list counts as non-null. pandas would build a two-dimensional array, whose truth value raises for more than one element.
- Values.Get: for a row with a repeated label it returns the first value. pandas would return a Series and hash its multi-line text.
- Utf8.Encode: a Dafny `char` is a Unicode scalar value, so the `UnicodeEncodeError` Python raises for a lone surrogate has no counterpart.
- SchemaMapper.GenerateSettingsMapping: `shards` and `replicas` are integers. `int()` conversion of other Python types is not modelled, and neither is the `index` argument, which is only printed.
- IndexAdapter.BulkActions: a missing id field is reported as an error for the whole stream. The actions `bulk` may already have sent in earlier chunks are not modelled. The same holds for the `index` calls `PutDataframeFixed` would already have made.
- The broad `except:` in `create_index_from_df` (ElasticAdapter.py:155-156) is modelled as the single `IndexCreationError`, without the underlying cause.
