/** Factory: one-call builders of a configured wrapper for each pdftk
    operation, from inputs given loosely as a path or as an array of
    named parts. */
module Factory {
  import opened Results
  import opened Text
  import opened OrderedMaps
  import opened InputFiles
  import opened PageRanges
  import opened Forms
  import opened Operations
  import opened Slurpy

  /** An input as the builders take it: a path, or an array whose
      `filepath`, `password`, `start_page`, `end_page`, `qualifier` and
      `rotation` entries may each be missing (None). */
  datatype LooseInput =
    | Path(path: string)
    | Spec(filepath: Option<string>, password: Option<string>, startPage: Option<string>,
           endPage: Option<string>, qualifier: Option<string>, rotation: Option<string>)

  /** PHP `!empty()` on an array entry holding a string: present, and
      neither "" nor "0". */
  predicate NonEmpty(v: Option<string>) {
    v.Some? && v.value != "" && v.value != "0"
  }

  /** The entry when it is not empty, null otherwise. */
  function IfGiven(v: Option<string>): (r: Option<string>)
    ensures r.Some? <==> NonEmpty(v)
    ensures r.Some? ==> r == v
  {
    if NonEmpty(v) then v else None
  }

  /** An array input without a usable `filepath` is refused. */
  predicate MissingPath(input: LooseInput) {
    input.Spec? && !NonEmpty(input.filepath)
  }

  /** Two capital letters per index, so 26 * 26 distinct handles. */
  const HandleCount: nat := 676

  /** `generateFileHandle`: AA, AB, …, AZ, BA, …, ZZ, then AA again. */
  function GenerateFileHandle(index: nat): (h: string)
    ensures |h| == 2 && IsHandle(h)
  {
    [(65 + (index / 26) % 26) as char, (65 + index % 26) as char]
  }

  /** The position a handle names: the inverse of `GenerateFileHandle`. */
  function HandleIndex(h: string): (n: nat)
    requires |h| == 2 && IsHandle(h)
    ensures n < HandleCount
  {
    26 * (h[0] as int - 65) + (h[1] as int - 65)
  }

  /** The handle of an index names that index, up to the 676 handles
      there are. */
  lemma HandleRoundTrip(index: nat)
    ensures HandleIndex(GenerateFileHandle(index)) == index % HandleCount
  {
    var d := index / 26;
    var q, r := d % 26, index % 26;
    var h := GenerateFileHandle(index);
    assert h[0] as int - 65 == q && h[1] as int - 65 == r;
    assert HandleIndex(h) == 26 * q + r;
    assert index == 26 * d + r;
    assert d == 26 * (d / 26) + q;
    assert index == HandleCount * (d / 26) + (26 * q + r);
    ModOfDecomposition(index, d / 26, 26 * q + r);
  }

  lemma ModOfDecomposition(n: nat, a: nat, b: nat)
    requires n == HandleCount * a + b && b < HandleCount
    ensures n % HandleCount == b
  {
  }

  lemma HandleFromIndex(h: string)
    requires |h| == 2 && IsHandle(h)
    ensures GenerateFileHandle(HandleIndex(h)) == h
  {
    var n := HandleIndex(h);
    var a, b := h[0] as int - 65, h[1] as int - 65;
    assert n / 26 == a && n % 26 == b;
  }

  /** Inputs at different positions get different handles as long as
      there are at most 676 of them; after that the handles repeat. */
  lemma HandlesDistinct(i: nat, j: nat)
    ensures GenerateFileHandle(i) == GenerateFileHandle(j) <==> i % HandleCount == j % HandleCount
  {
    HandleRoundTrip(i);
    HandleRoundTrip(j);
    if i % HandleCount == j % HandleCount {
      HandleFromIndex(GenerateFileHandle(i));
      HandleFromIndex(GenerateFileHandle(j));
    }
  }

  lemma HandleExamples()
    ensures GenerateFileHandle(0) == "AA" && GenerateFileHandle(1) == "AB"
    ensures GenerateFileHandle(26) == "BA" && GenerateFileHandle(675) == "ZZ"
    ensures GenerateFileHandle(676) == "AA"
  {
  }

  /** `getSlurpy`: a configured wrapper writing to `output`. */
  function GetSlurpy(binary: string, output: string): (w: Wrapper)
    ensures Keys(w.options) == OptionNames
    ensures forall k :: k in OptionNames ==> Get(w.options, k) == Some(Unset)
    ensures w.binary == binary && w.output == Some(output) && w.inputs == [] && w.operation == None
  {
    SetOutput(Configured(binary), Some(output))
  }

  /** `getInputFile`: the path as given or from `filepath` (missing means
      null, printed as ""), the handle of the position, and the password
      only when it is not empty. */
  function GetInputFile(input: LooseInput, index: nat): (f: InputFile)
    ensures f.handle == GenerateFileHandle(index) && IsHandle(f.handle)
    ensures input.Path? ==> f.filePath == input.path && f.password == None
    ensures input.Spec? && !MissingPath(input) ==> Some(f.filePath) == input.filepath
    ensures input.Spec? ==> (f.password.Some? <==> NonEmpty(input.password))
    ensures f.password.Some? ==> input.Spec? && f.password == input.password
  {
    var handle := GenerateFileHandle(index);
    var path := match input
      case Path(p) => p
      case Spec(fp, _, _, _, _, _) => fp.GetOr("");
    var password := if input.Spec? then IfGiven(input.password) else None;
    var f := SetHandle(Blank, handle).value;
    SetPassword(SetFilePath(f, path), password)
  }

  /** `getPageRange`: the parts that are given, stored unchecked. */
  function GetPageRange(handle: string, input: LooseInput): (r: Result<PageRange>)
    ensures r.Ok? <==> IsHandle(handle)
    ensures r.Ok? ==> r.value.fileHandle == handle
    ensures r.Ok? && input.Path? ==> ToString(r.value) == handle
    ensures r.Ok? && input.Spec? ==> (r.value.startPage == IfGiven(input.startPage)
      && r.value.endPage == IfGiven(input.endPage) && r.value.qualifier == IfGiven(input.qualifier)
      && r.value.rotation == IfGiven(input.rotation))
  {
    if input.Path? then PageRanges.New(handle, None, None, None, None)
    else PageRanges.New(handle, IfGiven(input.startPage), IfGiven(input.endPage),
                        IfGiven(input.qualifier), IfGiven(input.rotation))
  }

  /** The input file each position of the list becomes. */
  function Files(inputs: seq<LooseInput>, index: nat): (fs: seq<InputFile>)
    ensures |fs| == |inputs|
  {
    seq(|inputs|, i requires 0 <= i < |inputs| => GetInputFile(inputs[i], index + i))
  }

  /** The page range each position of the list becomes. */
  function Ranges(inputs: seq<LooseInput>, index: nat): (rs: seq<PageRange>)
    ensures |rs| == |inputs|
  {
    seq(|inputs|, i requires 0 <= i < |inputs| => GetPageRange(GenerateFileHandle(index + i), inputs[i]).value)
  }

  predicate Collects(w: Wrapper) {
    w.operation.Some? && (w.operation.value.Cat? || w.operation.value.Shuffle?)
  }

  /** The loop of `cat` and `shuffle`: each input adds its file and its
      page range; an input without a path stops everything. */
  function AddOperands(w: Wrapper, inputs: seq<LooseInput>, index: nat): (r: Result<Wrapper>)
    requires Collects(w)
    ensures r.Ok? ==> Collects(r.value) && SameKind(r.value.operation.value, w.operation.value)
    decreases |inputs|
  {
    if |inputs| == 0 then Ok(w)
    else if MissingPath(inputs[0]) then Err(MissingFilePath)
    else
      var f := GetInputFile(inputs[0], index);
      var pr :- GetPageRange(f.handle, inputs[0]);
      var op := AddPageRange(w.operation.value, pr);
      AddOperands(SetOperation(AddInput(w, f), op), inputs[1..], index + 1)
  }

  /** The loop succeeds exactly when every input has a path. */
  lemma {:induction false} AddOperandsFails(w: Wrapper, inputs: seq<LooseInput>, index: nat)
    requires Collects(w)
    ensures AddOperands(w, inputs, index).Ok? <==> forall i :: 0 <= i < |inputs| ==> !MissingPath(inputs[i])
    ensures AddOperands(w, inputs, index).Err? ==> AddOperands(w, inputs, index).error == MissingFilePath
    decreases |inputs|
  {
    if |inputs| > 0 && !MissingPath(inputs[0]) {
      var f := GetInputFile(inputs[0], index);
      var pr := GetPageRange(f.handle, inputs[0]).value;
      var next := SetOperation(AddInput(w, f), AddPageRange(w.operation.value, pr));
      AddOperandsFails(next, inputs[1..], index + 1);
      assert AddOperands(w, inputs, index) == AddOperands(next, inputs[1..], index + 1);
      if forall i :: 0 <= i < |inputs[1..]| ==> !MissingPath(inputs[1..][i]) {
        forall i | 0 <= i < |inputs|
          ensures !MissingPath(inputs[i])
        {
          if i > 0 {
            assert inputs[i] == inputs[1..][i - 1];
          }
        }
      } else {
        var i :| 0 <= i < |inputs[1..]| && MissingPath(inputs[1..][i]);
        assert inputs[i + 1] == inputs[1..][i];
      }
    }
  }

  lemma FilesCons(inputs: seq<LooseInput>, index: nat)
    requires |inputs| > 0
    ensures Files(inputs, index) == [GetInputFile(inputs[0], index)] + Files(inputs[1..], index + 1)
  {
    var a, b := Files(inputs, index), Files(inputs[1..], index + 1);
    forall i | 1 <= i < |inputs|
      ensures a[i] == b[i - 1]
    {
      assert inputs[i] == inputs[1..][i - 1];
    }
  }

  lemma RangesCons(inputs: seq<LooseInput>, index: nat)
    requires |inputs| > 0
    ensures Ranges(inputs, index) == [GetPageRange(GenerateFileHandle(index), inputs[0]).value] + Ranges(inputs[1..], index + 1)
  {
    var a, b := Ranges(inputs, index), Ranges(inputs[1..], index + 1);
    forall i | 1 <= i < |inputs|
      ensures a[i] == b[i - 1]
    {
      assert inputs[i] == inputs[1..][i - 1];
    }
  }

  lemma ConsAppend<T>(xs: seq<T>, x: T, ys: seq<T>)
    ensures xs + [x] + ys == xs + ([x] + ys)
  {
  }

  /** The loop against the reference lists: it appends the files and the
      page ranges in order, and leaves everything else alone. */
  lemma {:induction false} AddOperandsAppends(w: Wrapper, inputs: seq<LooseInput>, index: nat)
    requires Collects(w) && AddOperands(w, inputs, index).Ok?
    ensures var r := AddOperands(w, inputs, index).value;
      && r.inputs == w.inputs + Files(inputs, index)
      && r.operation.value.ranges == w.operation.value.ranges + Ranges(inputs, index)
      && r.binary == w.binary && r.options == w.options && r.output == w.output
    decreases |inputs|
  {
    if |inputs| > 0 {
      var f := GetInputFile(inputs[0], index);
      var pr := GetPageRange(f.handle, inputs[0]).value;
      var op := AddPageRange(w.operation.value, pr);
      var next := SetOperation(AddInput(w, f), op);
      assert AddOperands(w, inputs, index) == AddOperands(next, inputs[1..], index + 1);
      AddOperandsAppends(next, inputs[1..], index + 1);
      FilesCons(inputs, index);
      RangesCons(inputs, index);
      ConsAppend(w.inputs, f, Files(inputs[1..], index + 1));
      ConsAppend(w.operation.value.ranges, pr, Ranges(inputs[1..], index + 1));
    } else {
      assert Files(inputs, index) == [] && Ranges(inputs, index) == [];
    }
  }

  /** `cat`: every input is concatenated whole or by the page range its
      array gives, in order. */
  function Cat(binary: string, inputs: seq<LooseInput>, output: string): (r: Result<Wrapper>)
    ensures r.Ok? <==> forall i :: 0 <= i < |inputs| ==> !MissingPath(inputs[i])
    ensures r.Err? ==> r.error == MissingFilePath
    ensures r.Ok? ==> r.value.operation == Some(Operations.Cat(Ranges(inputs, 0)))
    ensures r.Ok? ==> (r.value.inputs == Files(inputs, 0) && r.value.output == Some(output)
      && r.value.binary == binary && r.value.options == GetSlurpy(binary, output).options)
  {
    var w := SetOperation(GetSlurpy(binary, output), NewCat);
    AddOperandsFails(w, inputs, 0);
    var r := AddOperands(w, inputs, 0);
    if r.Ok? then
      AddOperandsAppends(w, inputs, 0);
      assert [] + Ranges(inputs, 0) == Ranges(inputs, 0);
      assert [] + Files(inputs, 0) == Files(inputs, 0);
      r
    else r
  }

  /** `shuffle`: as `cat`, with the pages of the ranges interleaved. */
  function Shuffle(binary: string, inputs: seq<LooseInput>, output: string): (r: Result<Wrapper>)
    ensures r.Ok? <==> forall i :: 0 <= i < |inputs| ==> !MissingPath(inputs[i])
    ensures r.Err? ==> r.error == MissingFilePath
    ensures r.Ok? ==> r.value.operation == Some(Operations.Shuffle(Ranges(inputs, 0)))
    ensures r.Ok? ==> (r.value.inputs == Files(inputs, 0) && r.value.output == Some(output)
      && r.value.binary == binary && r.value.options == GetSlurpy(binary, output).options)
  {
    var w := SetOperation(GetSlurpy(binary, output), NewShuffle);
    AddOperandsFails(w, inputs, 0);
    var r := AddOperands(w, inputs, 0);
    if r.Ok? then
      AddOperandsAppends(w, inputs, 0);
      assert [] + Ranges(inputs, 0) == Ranges(inputs, 0);
      assert [] + Files(inputs, 0) == Files(inputs, 0);
      r
    else r
  }

  /** The shape every single-input builder shares: the input must have a
      path; it becomes the only input, under handle AA. */
  function Single(binary: string, input: LooseInput, output: string, op: Operation): (r: Result<Wrapper>)
    ensures r.Ok? <==> !MissingPath(input)
    ensures r.Err? ==> r.error == MissingFilePath
    ensures r.Ok? ==> r.value.operation == Some(op)
    ensures r.Ok? ==> (r.value.inputs == [GetInputFile(input, 0)] && r.value.inputs[0].handle == "AA")
    ensures r.Ok? ==> (r.value.output == Some(output) && r.value.binary == binary
      && r.value.options == GetSlurpy(binary, output).options)
  {
    if MissingPath(input) then Err(MissingFilePath)
    else Ok(SetOperation(AddInput(GetSlurpy(binary, output), GetInputFile(input, 0)), op))
  }

  function Background(binary: string, input: LooseInput, background: string, output: string, multi: bool): (r: Result<Wrapper>)
    ensures r.Ok? <==> !MissingPath(input)
    ensures r.Ok? ==> r.value.operation == Some(Operations.Background(background, multi))
  {
    Single(binary, input, output, SetFile(SetMulti(NewBackground, multi), background))
  }

  function MultiBackground(binary: string, input: LooseInput, background: string, output: string): (r: Result<Wrapper>)
    ensures r.Ok? <==> !MissingPath(input)
    ensures r.Ok? ==> r.value.operation == Some(Operations.Background(background, true))
    ensures r.Ok? ==> Name(r.value.operation.value) == Some("multibackground")
  {
    Background(binary, input, background, output, true)
  }

  function Burst(binary: string, input: LooseInput, output: string): (r: Result<Wrapper>)
    ensures r.Ok? <==> !MissingPath(input)
    ensures r.Ok? ==> r.value.operation == Some(Operations.Burst)
  {
    Single(binary, input, output, Operations.Burst)
  }

  function GenerateFdf(binary: string, input: LooseInput, output: string): (r: Result<Wrapper>)
    ensures r.Ok? <==> !MissingPath(input)
    ensures r.Ok? ==> r.value.operation == Some(Operations.GenerateFdf)
  {
    Single(binary, input, output, Operations.GenerateFdf)
  }

  /** The data of `fillForm`: a data file, the fields themselves as an
      array, or a form already built, which is passed on as it is. */
  datatype FillData = DataFile(path: string) | DataFields(fields: Updates) | ReadyForm(form: FormData)

  lemma FlattenRegistered(binary: string, output: string)
    ensures HasKey(GetSlurpy(binary, output).options, "flatten")
  {
    var options := GetSlurpy(binary, output).options;
    assert Keys(options)[5] == "flatten";
    HasKeyInKeys(options, "flatten");
  }

  /** A path stays a path, an array of fields becomes a form holding
      exactly those fields in order, and a built form is used as it is. */
  function Source(data: FillData): (d: DataSource)
    requires data.DataFields? ==> DistinctNames(data.fields)
    ensures d.DataPath? <==> data.DataFile?
    ensures data.DataFile? ==> d.path == data.path
    ensures data.ReadyForm? ==> d.form == data.form
    ensures data.DataFields? ==> Keys(d.form.fields) == Names(data.fields)
    ensures data.DataFields? ==>
      forall i :: 0 <= i < |data.fields| ==> Get(d.form.fields, data.fields[i].0) == Some(data.fields[i].1)
  {
    match data
    case DataFile(p) => DataPath(p)
    case DataFields(fs) => DataForm(Forms.New(fs))
    case ReadyForm(form) => DataForm(form)
  }

  /** `fillForm`: fields given as an array become form data sent as XFDF
      on the standard input; the `flatten` option is set either way. */
  function FillForm(binary: string, input: LooseInput, data: FillData, output: string, flatten: bool): (r: Result<Wrapper>)
    requires data.DataFields? ==> DistinctNames(data.fields)
    ensures r.Ok? <==> !MissingPath(input)
    ensures r.Err? ==> r.error == MissingFilePath
    ensures r.Ok? ==> r.value.operation == Some(Operations.FillForm(Source(data)))
    ensures r.Ok? ==> r.value.inputs == [GetInputFile(input, 0)]
    ensures r.Ok? ==> Keys(r.value.options) == OptionNames
    ensures r.Ok? ==> Get(r.value.options, "flatten") == Some(Flag(flatten))
    ensures r.Ok? ==> forall k :: k in OptionNames && k != "flatten" ==> Get(r.value.options, k) == Some(Unset)
  {
    var w :- Single(binary, input, output, SetFormData(NewFillForm, Source(data)));
    FlattenRegistered(binary, output);
    SetOption(w, "flatten", Flag(flatten))
  }

  function Stamp(binary: string, input: LooseInput, stampFile: string, output: string, multi: bool): (r: Result<Wrapper>)
    ensures r.Ok? <==> !MissingPath(input)
    ensures r.Ok? ==> r.value.operation == Some(Operations.Stamp(stampFile, multi))
  {
    Single(binary, input, output, SetFile(SetMulti(NewStamp, multi), stampFile))
  }

  function Multistamp(binary: string, input: LooseInput, stampFile: string, output: string): (r: Result<Wrapper>)
    ensures r.Ok? <==> !MissingPath(input)
    ensures r.Ok? ==> r.value.operation == Some(Operations.Stamp(stampFile, true))
    ensures r.Ok? ==> Name(r.value.operation.value) == Some("multistamp")
  {
    Stamp(binary, input, stampFile, output, true)
  }

  function DumpData(binary: string, input: LooseInput, output: string, fields: bool, utf8: bool): (r: Result<Wrapper>)
    ensures r.Ok? <==> !MissingPath(input)
    ensures r.Ok? ==> r.value.operation == Some(Operations.DumpData(fields, utf8))
  {
    Single(binary, input, output, SetUtf8(SetDumpFields(NewDumpData, fields), utf8))
  }

  /** The three shorthands select the name of each variant. */
  function DumpDataFields(binary: string, input: LooseInput, output: string): (r: Result<Wrapper>)
    ensures r.Ok? <==> !MissingPath(input)
    ensures r.Ok? ==> r.value.operation == Some(Operations.DumpData(true, false))
    ensures r.Ok? ==> Name(r.value.operation.value) == Some("dump_data_fields")
  {
    assert Name(Operations.DumpData(true, false)) == Some("dump_data_fields");
    DumpData(binary, input, output, true, false)
  }

  function DumpDataUtf8(binary: string, input: LooseInput, output: string): (r: Result<Wrapper>)
    ensures r.Ok? <==> !MissingPath(input)
    ensures r.Ok? ==> r.value.operation == Some(Operations.DumpData(false, true))
    ensures r.Ok? ==> Name(r.value.operation.value) == Some("dump_data_utf8")
  {
    assert Name(Operations.DumpData(false, true)) == Some("dump_data_utf8");
    DumpData(binary, input, output, false, true)
  }

  function DumpDataFieldsUtf8(binary: string, input: LooseInput, output: string): (r: Result<Wrapper>)
    ensures r.Ok? <==> !MissingPath(input)
    ensures r.Ok? ==> r.value.operation == Some(Operations.DumpData(true, true))
    ensures r.Ok? ==> Name(r.value.operation.value) == Some("dump_data_fields_utf8")
  {
    assert Name(Operations.DumpData(true, true)) == Some("dump_data_fields_utf8");
    DumpData(binary, input, output, true, true)
  }

  function UnpackFiles(binary: string, input: LooseInput, output: string): (r: Result<Wrapper>)
    ensures r.Ok? <==> !MissingPath(input)
    ensures r.Ok? ==> r.value.operation == Some(Operations.UnpackFiles)
  {
    Single(binary, input, output, Operations.UnpackFiles)
  }

  function UpdateInfo(binary: string, input: LooseInput, dataFile: string, output: string, utf8: bool): (r: Result<Wrapper>)
    ensures r.Ok? <==> !MissingPath(input)
    ensures r.Ok? ==> r.value.operation == Some(Operations.UpdateInfo(dataFile, utf8))
  {
    Single(binary, input, output, SetUtf8(SetInfoFile(NewUpdateInfo, dataFile), utf8))
  }

  function AttachFiles(binary: string, input: LooseInput, files: seq<string>, output: string, toPage: Option<int>): (r: Result<Wrapper>)
    ensures r.Ok? <==> !MissingPath(input)
    ensures r.Ok? ==> r.value.operation == Some(Operations.AttachFiles(files, toPage))
  {
    Single(binary, input, output, SetToPage(SetFiles(NewAttachFiles, files), toPage))
  }

  /** The inputs of the test's `cat`: a path, and an array with a
      password. */
  const CatInputs: seq<LooseInput> :=
    [Path("path/to/file"), Spec(Some("path/to/file2"), Some("passw0rd"), None, None, None, None)]

  lemma CatFiles()
    ensures Files(CatInputs, 0) == [InputFile("path/to/file", "AA", None), InputFile("path/to/file2", "AB", Some("passw0rd"))]
  {
    assert GenerateFileHandle(0) == "AA" && GenerateFileHandle(1) == "AB";
    var fs := Files(CatInputs, 0);
    assert fs[0] == GetInputFile(CatInputs[0], 0) == InputFile("path/to/file", "AA", None);
    assert fs[1] == GetInputFile(CatInputs[1], 1) == InputFile("path/to/file2", "AB", Some("passw0rd"));
  }

  /** Both files of the test's `cat` are added in order, under AA and AB,
      the password only on the second. */
  lemma CatExample()
    ensures var r := Cat("path/to/binary", CatInputs, "outputfile");
      && r.Ok? && r.value.output == Some("outputfile")
      && r.value.inputs == [InputFile("path/to/file", "AA", None), InputFile("path/to/file2", "AB", Some("passw0rd"))]
  {
    assert !MissingPath(CatInputs[0]) && !MissingPath(CatInputs[1]);
    CatFiles();
  }

  /** An array input without `filepath` is refused. */
  lemma CatMissingPath()
    ensures Cat("path/to/binary", [Spec(None, None, None, None, None, None)], "output") == Err(MissingFilePath)
  {
    assert MissingPath([Spec(None, None, None, None, None, None)][0]);
  }
}
