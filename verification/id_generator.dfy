/** `__generate_id__`: the SHA-256 hex digest of the row's selected values,
    each rendered with Python's `str`, joined with `+` in field order and
    encoded as UTF-8. SHA-256 itself is a parameter of the model. */
module IdGenerator {
  import opened Wrappers
  import opened Values
  import Strings
  import opened Bytes
  import Utf8

  type Digest = d: seq<Byte> | |d| == 32 witness seq(32, _ => 0)

  /** The hash function: any map from byte strings to 32-byte digests. */
  type Hash = seq<Byte> -> Digest

  const Separator: char := '+'

  datatype IdError = KeyNotFound(field: string)

  /** Python's `str(v)`. */
  function Render(v: Value): (s: string)
    ensures v.Int? ==> Strings.ParseInt(s) == Some(v.i)
    ensures v.Str? ==> s == v.s
    ensures v.List? ==> |s| >= 2 && s[0] == '[' && s[|s| - 1] == ']'
    decreases v, 1
  {
    match v
    case Null => "None"
    case Bool(b) => if b then "True" else "False"
    case Int(i) => Strings.IntToStringRoundTrip(i); Strings.IntToString(i)
    case Num(repr) => repr
    case Str(s) => s
    case NaN => "nan"
    case NaT => "NaT"
    case List(items) => "[" + RenderItems(items, v) + "]"
  }

  /** The elements of a list, each as Python's `repr`, separated by ", ". */
  function RenderItems(items: seq<Value>, parent: Value): string
    requires forall i :: 0 <= i < |items| ==> items[i] < parent
    decreases parent, 0, |items|
  {
    if |items| == 0 then ""
    else
      var first := if items[0].Str? then "'" + items[0].s + "'" else Render(items[0]);
      if |items| == 1 then first else first + ", " + RenderItems(items[1..], parent)
  }

  /** `[str(row[f]) for f in fields]`, stopping at the first missing field. */
  function Renderings(row: Record, fields: seq<string>): (r: Result<seq<string>, IdError>)
    ensures r.Ok? <==> forall i :: 0 <= i < |fields| ==> HasKey(row, fields[i])
    ensures r.Ok? ==> |r.value| == |fields|
    ensures r.Ok? ==> forall i :: 0 <= i < |fields| ==> r.value[i] == Render(Get(row, fields[i]).value)
    ensures r.Err? ==> exists i :: 0 <= i < |fields| && r.error == KeyNotFound(fields[i])
                                   && !HasKey(row, fields[i])
                                   && forall j :: 0 <= j < i ==> HasKey(row, fields[j])
    decreases |fields|
  {
    if |fields| == 0 then Ok([])
    else match Get(row, fields[0])
      case None => Err(KeyNotFound(fields[0]))
      case Some(v) =>
        match Renderings(row, fields[1..])
        case Err(e) =>
          assert forall i :: 1 <= i < |fields| ==> fields[i] == fields[1..][i - 1];
          Err(e)
        case Ok(rest) =>
          assert forall i :: 1 <= i < |fields| ==> fields[i] == fields[1..][i - 1];
          Ok([Render(v)] + rest)
  }

  /** The string that is hashed: `'+'.join(str(row[f]) for f in fields)`. */
  function PreImage(row: Record, fields: seq<string>): (r: Result<string, IdError>)
    ensures r.Ok? <==> forall i :: 0 <= i < |fields| ==> HasKey(row, fields[i])
    ensures r.Err? ==> Renderings(row, fields) == Err(r.error)
    ensures |fields| == 0 ==> r == Ok("")
    ensures r.Ok? && |fields| >= 1 && (forall i :: 0 <= i < |fields| ==> Separator !in Renderings(row, fields).value[i]) ==>
              Strings.Split(r.value, Separator) == Renderings(row, fields).value
  {
    match Renderings(row, fields)
    case Err(e) => Err(e)
    case Ok(parts) =>
      SplitRecoversParts(parts);
      Ok(Strings.Join(parts, Separator))
  }

  /** Splitting the joined text at `+` gives back parts that contain no `+`. */
  lemma SplitRecoversParts(parts: seq<string>)
    ensures |parts| >= 1 && (forall i :: 0 <= i < |parts| ==> Separator !in parts[i])
            ==> Strings.Split(Strings.Join(parts, Separator), Separator) == parts
  {
    if |parts| >= 1 && (forall i :: 0 <= i < |parts| ==> Separator !in parts[i]) {
      Strings.SplitJoin(parts, Separator);
    }
  }

  /** `sha256(pre_image.encode()).hexdigest()`, or the `KeyError` the lookup raises. */
  function GenerateId(row: Record, fields: seq<string>, sha256: Hash): (r: Result<string, IdError>)
    ensures r.Ok? <==> forall i :: 0 <= i < |fields| ==> HasKey(row, fields[i])
    ensures r.Err? ==> PreImage(row, fields) == Err(r.error)
    ensures r.Ok? ==> |r.value| == 64
    ensures r.Ok? ==> forall i :: 0 <= i < |r.value| ==> IsLowerHex(r.value[i])
    ensures r.Ok? ==> ParseHex(r.value) == Some(sha256(Utf8.Encode(PreImage(row, fields).value)))
  {
    match PreImage(row, fields)
    case Err(e) => Err(e)
    case Ok(s) =>
      var digest := sha256(Utf8.Encode(s));
      ParseHexDigest(digest);
      Ok(HexDigest(digest))
  }

  /** The id of an empty field list is the digest of the empty string, whatever the row. */
  lemma EmptyFieldsHashEmptyString(row: Record, sha256: Hash)
    ensures GenerateId(row, [], sha256) == Ok(HexDigest(sha256([])))
  {
    assert Utf8.Encode("") == [];
  }

  /** Only the selected fields matter: rows that agree on them get the same id. */
  lemma {:induction false} IdDependsOnlyOnFields(row1: Record, row2: Record, fields: seq<string>, sha256: Hash)
    requires forall i :: 0 <= i < |fields| ==> Get(row1, fields[i]) == Get(row2, fields[i])
    ensures GenerateId(row1, fields, sha256) == GenerateId(row2, fields, sha256)
  {
    RenderingsDependOnlyOnFields(row1, row2, fields);
  }

  lemma {:induction false} RenderingsDependOnlyOnFields(row1: Record, row2: Record, fields: seq<string>)
    requires forall i :: 0 <= i < |fields| ==> Get(row1, fields[i]) == Get(row2, fields[i])
    ensures Renderings(row1, fields) == Renderings(row2, fields)
    decreases |fields|
  {
    if |fields| > 0 {
      assert Get(row1, fields[0]) == Get(row2, fields[0]);
      RenderingsDependOnlyOnFields(row1, row2, fields[1..]);
    }
  }

  /** Renderings free of `+` are recovered from the pre-image, so such rows
      hash distinct strings whenever their renderings differ. */
  lemma PreImageDeterminesRenderings(row1: Record, row2: Record, fields: seq<string>)
    requires |fields| >= 1
    requires Renderings(row1, fields).Ok? && Renderings(row2, fields).Ok?
    requires forall i :: 0 <= i < |fields| ==> Separator !in Renderings(row1, fields).value[i]
    requires forall i :: 0 <= i < |fields| ==> Separator !in Renderings(row2, fields).value[i]
    requires PreImage(row1, fields) == PreImage(row2, fields)
    ensures Renderings(row1, fields) == Renderings(row2, fields)
  {
    Strings.JoinInjective(Renderings(row1, fields).value, Renderings(row2, fields).value, Separator);
  }

  /** Changing the rendering of one selected field, all else equal, changes the hashed bytes. */
  lemma ChangeOneFieldChangesHashInput(row1: Record, row2: Record, fields: seq<string>, k: nat)
    requires k < |fields|
    requires Renderings(row1, fields).Ok? && Renderings(row2, fields).Ok?
    requires forall i :: 0 <= i < |fields| && i != k ==>
               Renderings(row1, fields).value[i] == Renderings(row2, fields).value[i]
    requires Renderings(row1, fields).value[k] != Renderings(row2, fields).value[k]
    ensures Utf8.Encode(PreImage(row1, fields).value) != Utf8.Encode(PreImage(row2, fields).value)
  {
    Strings.JoinChangeOne(Renderings(row1, fields).value, Renderings(row2, fields).value, Separator, k);
    Utf8.EncodeInjective(PreImage(row1, fields).value, PreImage(row2, fields).value);
  }

  lemma RenderingsStep(row: Record, fields: seq<string>, v: Value, rest: seq<string>)
    requires |fields| >= 1 && Get(row, fields[0]) == Some(v)
    requires Renderings(row, fields[1..]) == Ok(rest)
    ensures Renderings(row, fields) == Ok([Render(v)] + rest)
  {
  }

  const ExampleRow: Record := [Field("x", Str("foo")), Field("y", Int(5))]

  lemma ExampleRenderings()
    ensures Renderings(ExampleRow, ["x", "y"]) == Ok(["foo", "5"])
    ensures Renderings(ExampleRow, ["y", "x"]) == Ok(["5", "foo"])
  {
    var row := ExampleRow;
    assert Get(row, "x") == Some(Str("foo"));
    assert Get(row, "y") == Some(Int(5));
    assert Strings.DigitChar(5) == '5';
    assert Render(Int(5)) == "5";
    assert ["y"][1..] == [] && ["x"][1..] == [];
    assert ["x", "y"][1..] == ["y"] && ["y", "x"][1..] == ["x"];
    RenderingsStep(row, ["y"], Int(5), []);
    assert [Render(Int(5))] + [] == ["5"];
    RenderingsStep(row, ["x"], Str("foo"), []);
    assert [Render(Str("foo"))] + [] == ["foo"];
    RenderingsStep(row, ["x", "y"], Str("foo"), ["5"]);
    assert [Render(Str("foo"))] + ["5"] == ["foo", "5"];
    RenderingsStep(row, ["y", "x"], Int(5), ["foo"]);
    assert [Render(Int(5))] + ["foo"] == ["5", "foo"];
  }

  /** For the row `{"x": "foo", "y": 5}` the field order is part of the hashed text. */
  lemma FieldOrderMatters()
    ensures PreImage(ExampleRow, ["x", "y"]) == Ok("foo+5")
    ensures PreImage(ExampleRow, ["y", "x"]) == Ok("5+foo")
  {
    ExampleRenderings();
    assert ["foo", "5"][1..] == ["5"] && ["5", "foo"][1..] == ["foo"];
    assert Strings.Join(["foo", "5"], '+') == "foo" + ['+'] + "5" == "foo+5";
    assert Strings.Join(["5", "foo"], '+') == "5" + ['+'] + "foo" == "5+foo";
  }

  /** The `+` separator is not escaped: different values can hash the same text. */
  lemma SeparatorCollision()
    ensures PreImage([Field("a", Str("1+2")), Field("b", Str("3"))], ["a", "b"])
         == PreImage([Field("a", Str("1")), Field("b", Str("2+3"))], ["a", "b"])
  {
    assert ["a", "b"][1..] == ["b"];
    var row1 := [Field("a", Str("1+2")), Field("b", Str("3"))];
    var row2 := [Field("a", Str("1")), Field("b", Str("2+3"))];
    assert Get(row1, "b") == Some(Str("3"));
    assert Get(row2, "b") == Some(Str("2+3"));
    assert "1+2" + "+" + "3" == "1" + "+" + "2+3";
  }

  /** `str` forgets the kind of a value: the integer 5 and the text "5" give the same id. */
  lemma RenderingForgetsKind(sha256: Hash)
    ensures GenerateId([Field("y", Int(5))], ["y"], sha256) == GenerateId([Field("y", Str("5"))], ["y"], sha256)
  {
    assert Strings.DigitChar(5) == '5';
    assert Render(Int(5)) == "5";
  }
}
