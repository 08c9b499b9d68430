/** `generate_settings_mapping`: one Elasticsearch field type per dataframe
    column, chosen from the column's dtype string and the aggregator list,
    wrapped with the shard and replica settings into an index descriptor. */
module SchemaMapper {
  import opened Wrappers

  datatype FieldType = Integer | Float | Boolean | Date | Keyword | Text {
    /** The tag written into the mapping's `{"type": ...}` entry. */
    function Name(): string {
      match this
      case Integer => "integer"
      case Float => "float"
      case Boolean => "boolean"
      case Date => "date"
      case Keyword => "keyword"
      case Text => "text"
    }
  }

  /** A dataframe column: its label and the `str` of its dtype. */
  datatype Column = Column(name: string, dtype: string)

  /** The part of a dataframe the mapping reads: its columns in order. */
  datatype Frame = Frame(columns: seq<Column>)

  datatype Settings = Settings(numberOfShards: int, numberOfReplicas: int)

  /** `{"settings": settings, "mappings": {docType: {"properties": properties}}}`. */
  datatype Descriptor = Descriptor(settings: Settings, docType: string, properties: map<string, FieldType>)

  /** The zero-column case, where `final_map` is never bound and Python raises. */
  datatype MappingError = NoColumns

  const IntegerDtypes: seq<string> := ["int64", "int8"]
  const FloatDtypes: seq<string> := ["float32", "float64"]
  const DateDtypes: seq<string> := ["datetime64[ns]", "timedate64[ns]"]

  /** Dtypes decided before the aggregator list is consulted. */
  predicate IsTypedDtype(d: string) {
    d in IntegerDtypes || d in FloatDtypes || d == "bool" || d in DateDtypes
  }

  /** The if/elif chain for one column. `None` stands for a label shared by
      several columns: `dataframe.dtypes[col]` is then a Series whose text
      equals no dtype name. */
  function Classify(dtype: Option<string>, isAggregator: bool): (t: FieldType)
    ensures dtype.Some? && dtype.value in IntegerDtypes ==> t == Integer
    ensures dtype.Some? && dtype.value in FloatDtypes ==> t == Float
    ensures dtype == Some("bool") ==> t == Boolean
    ensures dtype.Some? && dtype.value in DateDtypes ==> t == Date
    ensures !(dtype.Some? && IsTypedDtype(dtype.value)) ==> (t == Keyword <==> isAggregator)
    ensures !(dtype.Some? && IsTypedDtype(dtype.value)) ==> (t == Text <==> !isAggregator)
  {
    match dtype
    case None => if isAggregator then Keyword else Text
    case Some(d) =>
      if d in IntegerDtypes then Integer
      else if d in FloatDtypes then Float
      else if d == "bool" then Boolean
      else if d in DateDtypes then Date
      else if isAggregator then Keyword
      else if d == "object" then Text
      else Text
  }

  function ColumnNames(cols: seq<Column>): set<string> {
    set i | 0 <= i < |cols| :: cols[i].name
  }

  /** How many columns carry the label `name`. */
  function Occurrences(cols: seq<Column>, name: string): nat {
    if |cols| == 0 then 0
    else (if cols[0].name == name then 1 else 0) + Occurrences(cols[1..], name)
  }

  /** The dtype of the first column labelled `name`. */
  function FirstDtype(cols: seq<Column>, name: string): Option<string> {
    if |cols| == 0 then None
    else if cols[0].name == name then Some(cols[0].dtype)
    else FirstDtype(cols[1..], name)
  }

  /** Exactly one column carries the label `name`. */
  predicate UniqueLabel(cols: seq<Column>, name: string) {
    exists i :: 0 <= i < |cols| && cols[i].name == name
                && forall j :: 0 <= j < |cols| && j != i ==> cols[j].name != name
  }

  /** `str(dataframe.dtypes[name])`: the dtype of the one column labelled
      `name`, and no recognisable dtype when the label is repeated. */
  function DtypeOf(frame: Frame, name: string): (d: Option<string>)
    ensures d.Some? <==> UniqueLabel(frame.columns, name)
    ensures d.Some? ==> exists i :: 0 <= i < |frame.columns| && frame.columns[i] == Column(name, d.value)
  {
    OccurrencesOne(frame.columns, name);
    FirstDtypeFound(frame.columns, name);
    if Occurrences(frame.columns, name) == 1 then FirstDtype(frame.columns, name) else None
  }

  lemma {:induction false} OccurrencesZero(cols: seq<Column>, name: string)
    ensures Occurrences(cols, name) == 0 <==> forall i :: 0 <= i < |cols| ==> cols[i].name != name
    decreases |cols|
  {
    if |cols| > 0 {
      OccurrencesZero(cols[1..], name);
      assert forall i :: 1 <= i < |cols| ==> cols[i] == cols[1..][i - 1];
    }
  }

  lemma {:induction false} OccurrencesOne(cols: seq<Column>, name: string)
    ensures Occurrences(cols, name) == 1 <==> UniqueLabel(cols, name)
    decreases |cols|
  {
    if |cols| > 0 {
      var tail := cols[1..];
      assert forall i :: 1 <= i < |cols| ==> cols[i] == tail[i - 1];
      OccurrencesZero(tail, name);
      OccurrencesOne(tail, name);
      if cols[0].name == name {
        if Occurrences(cols, name) == 1 {
          assert forall j :: 0 <= j < |cols| && j != 0 ==> cols[j].name != name;
        }
        if UniqueLabel(cols, name) {
          var i :| 0 <= i < |cols| && cols[i].name == name
                   && forall j :: 0 <= j < |cols| && j != i ==> cols[j].name != name;
          assert i == 0;
          assert forall k :: 0 <= k < |tail| ==> tail[k].name != name by {
            forall k | 0 <= k < |tail| ensures tail[k].name != name {
              assert tail[k] == cols[k + 1];
            }
          }
        }
      } else {
        if UniqueLabel(tail, name) {
          var i :| 0 <= i < |tail| && tail[i].name == name
                   && forall j :: 0 <= j < |tail| && j != i ==> tail[j].name != name;
          assert cols[i + 1] == tail[i];
          assert forall j :: 0 <= j < |cols| && j != i + 1 ==> cols[j].name != name;
        }
        if UniqueLabel(cols, name) {
          var i :| 0 <= i < |cols| && cols[i].name == name
                   && forall j :: 0 <= j < |cols| && j != i ==> cols[j].name != name;
          assert i >= 1 && tail[i - 1] == cols[i];
          assert forall j :: 0 <= j < |tail| && j != i - 1 ==> tail[j].name != name by {
            forall j | 0 <= j < |tail| && j != i - 1 ensures tail[j].name != name {
              assert tail[j] == cols[j + 1];
            }
          }
        }
      }
    }
  }

  lemma {:induction false} FirstDtypeFound(cols: seq<Column>, name: string)
    ensures FirstDtype(cols, name).Some? ==>
              exists i :: 0 <= i < |cols| && cols[i] == Column(name, FirstDtype(cols, name).value)
    ensures Occurrences(cols, name) > 0 ==> FirstDtype(cols, name).Some?
    decreases |cols|
  {
    if |cols| > 0 {
      FirstDtypeFound(cols[1..], name);
      if cols[0].name != name && FirstDtype(cols, name).Some? {
        var i :| 0 <= i < |cols[1..]| && cols[1..][i] == Column(name, FirstDtype(cols, name).value);
        assert cols[i + 1] == cols[1..][i];
      }
    }
  }

  predicate DistinctLabels(cols: seq<Column>) {
    forall i, j :: 0 <= i < j < |cols| ==> cols[i].name != cols[j].name
  }

  /** With distinct labels, the lookup finds each column's own dtype. */
  lemma {:induction false} DtypeOfDistinct(cols: seq<Column>, k: nat)
    requires DistinctLabels(cols) && k < |cols|
    ensures Occurrences(cols, cols[k].name) == 1
    ensures FirstDtype(cols, cols[k].name) == Some(cols[k].dtype)
    decreases |cols|
  {
    var name := cols[k].name;
    if k == 0 {
      NotPresent(cols[1..], name);
    } else {
      assert cols[1..][k - 1] == cols[k];
      DtypeOfDistinct(cols[1..], k - 1);
    }
  }

  lemma {:induction false} NotPresent(cols: seq<Column>, name: string)
    requires forall i :: 0 <= i < |cols| ==> cols[i].name != name
    ensures Occurrences(cols, name) == 0 && FirstDtype(cols, name) == None
    decreases |cols|
  {
    if |cols| > 0 {
      NotPresent(cols[1..], name);
    }
  }

  /** With distinct labels every column is tagged from its own dtype. */
  lemma ColumnTag(frame: Frame, docType: string, aggregators: seq<string>, shards: int, replicas: int, k: nat)
    requires DistinctLabels(frame.columns) && k < |frame.columns|
    ensures
      var c := frame.columns[k];
      var r := GenerateSettingsMapping(frame, docType, aggregators, shards, replicas);
      r.Ok? && c.name in r.value.properties
      && r.value.properties[c.name] == Classify(Some(c.dtype), c.name in aggregators)
  {
    DtypeOfDistinct(frame.columns, k);
  }

  function TagOf(frame: Frame, aggregators: seq<string>, name: string): FieldType {
    Classify(DtypeOf(frame, name), name in aggregators)
  }

  /** The `mapping` dictionary after the loop has visited `cols`, a prefix of the columns. */
  function BuildProperties(frame: Frame, aggregators: seq<string>, cols: seq<Column>): (m: map<string, FieldType>)
    ensures m.Keys == ColumnNames(cols)
    ensures forall k :: k in m ==> m[k] == TagOf(frame, aggregators, k)
    decreases |cols|
  {
    if |cols| == 0 then map[]
    else
      var last := cols[|cols| - 1];
      var before := BuildProperties(frame, aggregators, cols[..|cols| - 1]);
      assert ColumnNames(cols) == ColumnNames(cols[..|cols| - 1]) + {last.name} by {
        assert forall i :: 0 <= i < |cols| - 1 ==> cols[..|cols| - 1][i] == cols[i];
      }
      before[last.name := TagOf(frame, aggregators, last.name)]
  }

  /** `generate_settings_mapping(dataframe, index, doc_type, aggregators, shards, replicas)`. */
  function GenerateSettingsMapping(frame: Frame, docType: string, aggregators: seq<string>,
                                   shards: int, replicas: int): (r: Result<Descriptor, MappingError>)
    ensures r.Err? <==> |frame.columns| == 0
    ensures r.Ok? ==> r.value.settings == Settings(shards, replicas) && r.value.docType == docType
    ensures r.Ok? ==> r.value.properties.Keys == ColumnNames(frame.columns)
    ensures r.Ok? ==> forall k :: k in r.value.properties ==>
                        r.value.properties[k] == Classify(DtypeOf(frame, k), k in aggregators)
  {
    if |frame.columns| == 0 then Err(NoColumns)
    else Ok(Descriptor(Settings(shards, replicas), docType, BuildProperties(frame, aggregators, frame.columns)))
  }

  /** The same function with `final_map` built after the loop, so that a
      zero-column dataframe yields empty properties instead of an error. */
  function GenerateSettingsMappingFixed(frame: Frame, docType: string, aggregators: seq<string>,
                                        shards: int, replicas: int): (d: Descriptor)
    ensures d.settings == Settings(shards, replicas) && d.docType == docType
    ensures d.properties.Keys == ColumnNames(frame.columns)
    ensures forall k :: k in d.properties ==> d.properties[k] == Classify(DtypeOf(frame, k), k in aggregators)
  {
    Descriptor(Settings(shards, replicas), docType, BuildProperties(frame, aggregators, frame.columns))
  }

  /** The two versions differ only on the zero-column dataframe. */
  lemma FixedAgreesWithOriginal(frame: Frame, docType: string, aggregators: seq<string>, shards: int, replicas: int)
    ensures |frame.columns| > 0 ==>
      GenerateSettingsMapping(frame, docType, aggregators, shards, replicas)
      == Ok(GenerateSettingsMappingFixed(frame, docType, aggregators, shards, replicas))
    ensures GenerateSettingsMapping(Frame([]), docType, aggregators, shards, replicas) == Err(NoColumns)
    ensures GenerateSettingsMappingFixed(Frame([]), docType, aggregators, shards, replicas).properties == map[]
  {
  }

  /** A dtype decided before the aggregator test keeps its tag in the aggregator list. */
  lemma DtypeBeforeAggregator(d: string)
    requires IsTypedDtype(d)
    ensures Classify(Some(d), true) == Classify(Some(d), false) != Keyword
  {
  }

  /** Classification only looks at the aggregator list for dtypes it does not recognise. */
  lemma AggregatorOnlyForUntyped(dtype: Option<string>)
    ensures Classify(dtype, true) != Classify(dtype, false) <==> !(dtype.Some? && IsTypedDtype(dtype.value))
  {
  }

  /** Neither `int32` nor `object` nor `category` is in any typed list. */
  lemma UnlistedDtypes()
    ensures Classify(Some("int32"), false) == Text && Classify(Some("int32"), true) == Keyword
    ensures Classify(Some("object"), false) == Text
    ensures Classify(Some("category"), false) == Text
  {
  }

  const ExampleColumns: seq<Column> :=
    [Column("age", "int64"), Column("name", "object"), Column("joined", "datetime64[ns]")]

  lemma ExampleDtypes()
    ensures DtypeOf(Frame(ExampleColumns), "age") == Some("int64")
    ensures DtypeOf(Frame(ExampleColumns), "name") == Some("object")
    ensures DtypeOf(Frame(ExampleColumns), "joined") == Some("datetime64[ns]")
    ensures ColumnNames(ExampleColumns) == {"age", "name", "joined"}
  {
    var cols := ExampleColumns;
    assert DistinctLabels(cols);
    DtypeOfDistinct(cols, 0);
    DtypeOfDistinct(cols, 1);
    DtypeOfDistinct(cols, 2);
  }

  lemma ThreeEntries(m: map<string, FieldType>, a: string, x: FieldType, b: string, y: FieldType,
                     c: string, z: FieldType)
    requires m.Keys == {a, b, c} && a != b && b != c && a != c
    requires m[a] == x && m[b] == y && m[c] == z
    ensures m == map[a := x, b := y, c := z]
  {
  }

  lemma ExampleTags()
    ensures TagOf(Frame(ExampleColumns), ["name", "age"], "age") == Integer
    ensures TagOf(Frame(ExampleColumns), ["name", "age"], "name") == Keyword
    ensures TagOf(Frame(ExampleColumns), ["name", "age"], "joined") == Date
  {
    ExampleDtypes();
    assert "age" in ["name", "age"] && "name" in ["name", "age"];
    assert "int64" in IntegerDtypes && "datetime64[ns]" in DateDtypes;
    assert !IsTypedDtype("object");
  }

  /** Columns `age: int64`, `name: object`, `joined: datetime64[ns]` with
      aggregators `["name", "age"]` map to integer, keyword and date. */
  lemma MappingExample()
    ensures GenerateSettingsMapping(Frame(ExampleColumns), "data", ["name", "age"], 1, 0)
         == Ok(Descriptor(Settings(1, 0), "data", map["age" := Integer, "name" := Keyword, "joined" := Date]))
  {
    ExampleDtypes();
    ExampleTags();
    var r := GenerateSettingsMapping(Frame(ExampleColumns), "data", ["name", "age"], 1, 0);
    var built := r.value.properties;
    assert built.Keys == {"age", "name", "joined"};
    ThreeEntries(built, "age", Integer, "name", Keyword, "joined", Date);
  }
}
