/** The pdftk operations: each has a name, which the command line carries
    as it is, a list of arguments, which it quotes one by one, and possibly
    a text for pdftk's standard input. A null file argument prints as the
    empty text, so file arguments are plain strings here. */
module Operations {
  import opened Results
  import opened Host
  import opened Text
  import opened Shell
  import opened PageRanges
  import opened PageRangeSyntax
  import opened Forms

  /** The data of a form fill: a data file, or fields sent on the standard
      input as XFDF. */
  datatype DataSource = DataPath(path: string) | DataForm(form: FormData)

  datatype Operation =
    | Cat(ranges: seq<PageRange>)
    | Shuffle(ranges: seq<PageRange>)
    | Background(backgroundFile: string, multi: bool)
    | Stamp(stampFile: string, multi: bool)
    | FillForm(data: DataSource)
    | GenerateFdf
    | Burst
    | DumpData(fields: bool, utf8: bool)
    | UnpackFiles
    | UpdateInfo(dataFile: string, utf8: bool)
    | AttachFiles(files: seq<string>, toPage: Option<int>)
    | Noop

  /** What each operation is before its setters run. */
  const NewCat: Operation := Cat([])
  const NewShuffle: Operation := Shuffle([])
  const NewBackground: Operation := Background("", false)
  const NewStamp: Operation := Stamp("", false)
  const NewFillForm: Operation := FillForm(DataPath(""))
  const NewDumpData: Operation := DumpData(false, false)
  const NewUpdateInfo: Operation := UpdateInfo("", false)
  const NewAttachFiles: Operation := AttachFiles([], None)

  function Name(op: Operation): Option<string> {
    match op
    case Cat(_) => Some("cat")
    case Shuffle(_) => Some("shuffle")
    case Background(_, multi) => Some(if multi then "multibackground" else "background")
    case Stamp(_, multi) => Some(if multi then "multistamp" else "stamp")
    case FillForm(_) => Some("fill_form")
    case GenerateFdf => Some("generate_fdf")
    case Burst => Some("burst")
    case DumpData(fields, utf8) =>
      Some(if fields then (if utf8 then "dump_data_fields_utf8" else "dump_data_fields")
           else if utf8 then "dump_data_utf8" else "dump_data")
    case UnpackFiles => Some("unpack_files")
    case UpdateInfo(_, utf8) => Some(if utf8 then "update_info_utf8" else "update_info")
    case AttachFiles(_, _) => Some("attach_files")
    case Noop => None
  }

  function ToPageArguments(toPage: Option<int>): seq<string> {
    match toPage
    case None => []
    case Some(p) => ["to_page", IntToDecimal(p)]
  }

  function Arguments(op: Operation): seq<string> {
    match op
    case Cat(ranges) => seq(|ranges|, i requires 0 <= i < |ranges| => ToString(ranges[i]))
    case Shuffle(ranges) => seq(|ranges|, i requires 0 <= i < |ranges| => ToString(ranges[i]))
    case Background(file, _) => [file]
    case Stamp(file, _) => [file]
    case FillForm(DataForm(_)) => ["-"]
    case FillForm(DataPath(path)) => [path]
    case DumpData(_, _) => []
    case UpdateInfo(file, _) => [file]
    case AttachFiles(files, toPage) => files + ToPageArguments(toPage)
    case _ => []
  }

  /** The file name the fill-form operation gives the XFDF document. */
  const XfdfFile: string := "bla"

  /** Only a form fill with form fields writes to the standard input: the
      XFDF of the fields, stamped with the current time. */
  function Stdin(op: Operation, env: Env): Option<string> {
    match op
    case FillForm(DataForm(form)) => Some(GetXfdf(form, XfdfFile, None, "UTF-8", env))
    case _ => None
  }

  predicate EndsWith(s: string, t: string) {
    |t| <= |s| && s[|s| - |t|..] == t
  }

  /** What the command builder asks of an operation, as PHP's
      `OperationInterface` shows it: the name, the arguments and the
      standard input. */
  datatype Invocation = Invocation(name: Option<string>, arguments: seq<string>, stdin: Option<string>)

  function Interface(op: Operation, env: Env): Invocation {
    Invocation(Name(op), Arguments(op), Stdin(op, env))
  }

  /** The shape of an operation that its name shows: which operation, and
      its flags. */
  predicate SameKind(a: Operation, b: Operation) {
    match (a, b)
    case (Cat(_), Cat(_)) => true
    case (Shuffle(_), Shuffle(_)) => true
    case (Background(_, m), Background(_, n)) => m == n
    case (Stamp(_, m), Stamp(_, n)) => m == n
    case (FillForm(_), FillForm(_)) => true
    case (GenerateFdf, GenerateFdf) => true
    case (Burst, Burst) => true
    case (DumpData(f, u), DumpData(g, v)) => f == g && u == v
    case (UnpackFiles, UnpackFiles) => true
    case (UpdateInfo(_, u), UpdateInfo(_, v)) => u == v
    case (AttachFiles(_, _), AttachFiles(_, _)) => true
    case (Noop, Noop) => true
    case _ => false
  }

  lemma PlainNamesA()
    ensures IsPlainWord("cat") && IsPlainWord("shuffle") && IsPlainWord("background")
    ensures IsPlainWord("multibackground") && IsPlainWord("stamp")
  {
    KeywordIsPlain("cat");
    KeywordIsPlain("shuffle");
    KeywordIsPlain("background");
    KeywordIsPlain("multibackground");
    KeywordIsPlain("stamp");
  }

  lemma PlainNamesB()
    ensures IsPlainWord("multistamp") && IsPlainWord("fill_form") && IsPlainWord("generate_fdf")
    ensures IsPlainWord("burst") && IsPlainWord("unpack_files") && IsPlainWord("attach_files")
  {
    KeywordIsPlain("multistamp");
    KeywordIsPlain("fill_form");
    KeywordIsPlain("generate_fdf");
    KeywordIsPlain("burst");
    KeywordIsPlain("unpack_files");
    KeywordIsPlain("attach_files");
  }

  lemma PlainNamesC()
    ensures IsPlainWord("dump_data") && IsPlainWord("dump_data_fields") && IsPlainWord("dump_data_utf8")
  {
    KeywordIsPlain("dump_data");
    KeywordIsPlain("dump_data_fields");
    KeywordIsPlain("dump_data_utf8");
  }

  lemma PlainNamesD()
    ensures IsPlainWord("dump_data_fields_utf8") && IsPlainWord("update_info") && IsPlainWord("update_info_utf8")
  {
    KeywordIsPlain("dump_data_fields_utf8");
    KeywordIsPlain("update_info");
    KeywordIsPlain("update_info_utf8");
  }

  /** Every name is a single plain word, so the command line can carry it
      unquoted, and only the no-op has no name. */
  lemma NamesArePlainWords(op: Operation)
    ensures Name(op).None? <==> op.Noop?
    ensures Name(op).Some? ==> IsPlainWord(Name(op).value)
  {
    PlainNamesA();
    PlainNamesB();
    PlainNamesC();
    PlainNamesD();
  }

  /** Two operations have the same name exactly when they are the same
      operation with the same flags: pdftk is told which operation to run
      unambiguously. */
  lemma NameDeterminesKind(a: Operation, b: Operation)
    ensures Name(a) == Name(b) <==> SameKind(a, b)
  {

  }

  /** `cat` and `shuffle` pass one argument per page range, in order, and
      each argument reads back as the parts of its range. */
  lemma RangeArguments(op: Operation)
    requires op.Cat? || op.Shuffle?
    requires forall i :: 0 <= i < |op.ranges| ==> WellFormed(op.ranges[i])
    ensures |Arguments(op)| == |op.ranges|
    ensures forall i :: 0 <= i < |op.ranges| ==> Parse(Arguments(op)[i]) == Some(View(op.ranges[i]))
  {
    forall i | 0 <= i < |op.ranges|
      ensures Parse(Arguments(op)[i]) == Some(View(op.ranges[i]))
    {
      ParseToString(op.ranges[i]);
    }
  }

  /** The attached files come first, as given, followed by `to_page` and
      the page number when one is set; a negative page prints with a
      leading minus sign. */
  lemma AttachArguments(files: seq<string>, toPage: Option<int>)
    ensures var args := Arguments(AttachFiles(files, toPage));
      && files <= args
      && (toPage.None? ==> args == files)
      && (toPage.Some? ==>
            && |args| == |files| + 2 && args[|files|] == "to_page"
            && (toPage.value >= 0 ==> DecimalValue(args[|files| + 1]) == toPage.value)
            && (toPage.value < 0 ==>
                  && args[|files| + 1][0] == '-'
                  && DecimalValue(args[|files| + 1][1..]) == -toPage.value))
  {
    var args := Arguments(AttachFiles(files, toPage));
    if toPage.Some? {
      if toPage.value >= 0 {
        DecimalRoundTrip(toPage.value);
      } else {
        DecimalRoundTrip(-toPage.value);
      }
    }
  }

  /** The standard input is used exactly by a form fill with form fields;
      its XFDF shows the fields, the digest of the stand-in file name, the
      current time and that name. */
  lemma StdinShowsForm(op: Operation, env: Env)
    requires HexDigests(env)
    ensures Stdin(op, env).Some? <==> op.FillForm? && op.data.DataForm?
    ensures Stdin(op, env).Some? ==>
      ReadXfdf(Stdin(op, env).value) == Some(Xfdf("UTF-8", Pairs(op.data.form), env.md5(XfdfFile), NatToDecimal(env.now), XfdfFile))
  {
    if op.FillForm? && op.data.DataForm? {
      XfdfShowsForm(op.data.form, XfdfFile, None, "UTF-8", env);
    }
  }

  /** `addPageRange`: the new range's text becomes the last argument. */
  function AddPageRange(op: Operation, pr: PageRange): (r: Operation)
    requires op.Cat? || op.Shuffle?
    ensures Name(r) == Name(op)
    ensures Arguments(r) == Arguments(op) + [ToString(pr)]
  {
    var r := op.(ranges := op.ranges + [pr]);
    assert Arguments(r)[..|op.ranges|] == Arguments(op);
    r
  }

  /** `setPageRanges`: the arguments are the texts of the given ranges. */
  function SetPageRanges(op: Operation, ranges: seq<PageRange>): (r: Operation)
    requires op.Cat? || op.Shuffle?
    ensures Name(r) == Name(op)
    ensures |Arguments(r)| == |ranges| && forall i :: 0 <= i < |ranges| ==> Arguments(r)[i] == ToString(ranges[i])
  {
    op.(ranges := ranges)
  }

  /** `setMulti` of the background and stamp operations: selects the
      `multi` variant of the name and keeps the argument. */
  function SetMulti(op: Operation, multi: bool): (r: Operation)
    requires op.Background? || op.Stamp?
    ensures Arguments(r) == Arguments(op)
    ensures SameKind(r, op) <==> op.multi == multi
    ensures Name(r).Some? && (multi <==> StartsWith(Name(r).value, "multi"))
  {
    var r := op.(multi := multi);
    assert !multi ==> Name(r).value[0] != 'm';
    assert multi ==> Name(r).value[..5] == "multi";
    r
  }

  /** `setBackgroundFile` / `setStampFile`: the file is the one argument. */
  function SetFile(op: Operation, file: string): (r: Operation)
    requires op.Background? || op.Stamp?
    ensures Name(r) == Name(op)
    ensures Arguments(r) == [file]
  {
    if op.Background? then op.(backgroundFile := file) else op.(stampFile := file)
  }

  /** `setDataFile` of the fill-form operation: a form is sent on the
      standard input and named `-`, a data file is the argument. */
  function SetFormData(op: Operation, data: DataSource): (r: Operation)
    requires op.FillForm?
    ensures Name(r) == Name(op)
    ensures data.DataPath? ==> Arguments(r) == [data.path] && forall env :: Stdin(r, env).None?
    ensures data.DataForm? ==> Arguments(r) == ["-"] && forall env :: Stdin(r, env).Some?
  {
    op.(data := data)
  }

  /** `setDataFile` of the update-info operation. */
  function SetInfoFile(op: Operation, file: string): (r: Operation)
    requires op.UpdateInfo?
    ensures Name(r) == Name(op)
    ensures Arguments(r) == [file]
  {
    op.(dataFile := file)
  }

  /** `setFields` of the dump-data operation. */
  function SetDumpFields(op: Operation, fields: bool): (r: Operation)
    requires op.DumpData?
    ensures Arguments(r) == []
    ensures SameKind(r, op) <==> op.fields == fields
  {
    op.(fields := fields)
  }

  /** `setUtf8` of the dump-data and update-info operations: selects the
      `_utf8` variant of the name. */
  function SetUtf8(op: Operation, utf8: bool): (r: Operation)
    requires op.DumpData? || op.UpdateInfo?
    ensures Arguments(r) == Arguments(op)
    ensures SameKind(r, op) <==> op.utf8 == utf8
    ensures Name(r).Some? && (utf8 <==> EndsWith(Name(r).value, "_utf8"))
  {
    var r := op.(utf8 := utf8);
    var n := Name(r).value;
    assert utf8 ==> n[|n| - 5..] == "_utf8";
    assert !utf8 ==> n[|n| - 1] != '8';
    r
  }

  /** `setFiles` of the attach-files operation. */
  function SetFiles(op: Operation, files: seq<string>): (r: Operation)
    requires op.AttachFiles?
    ensures Name(r) == Name(op)
    ensures Arguments(r) == files + ToPageArguments(op.toPage)
  {
    op.(files := files)
  }

  /** `addFile`: the file is attached after the others, before `to_page`. */
  function AddFile(op: Operation, file: string): (r: Operation)
    requires op.AttachFiles?
    ensures Name(r) == Name(op)
    ensures Arguments(r) == op.files + [file] + ToPageArguments(op.toPage)
    ensures |Arguments(r)| == |Arguments(op)| + 1
  {
    op.(files := op.files + [file])
  }

  /** `setToPage`: the page number, if any, follows the files. */
  function SetToPage(op: Operation, toPage: Option<int>): (r: Operation)
    requires op.AttachFiles?
    ensures Name(r) == Name(op)
    ensures op.files <= Arguments(r)
    ensures toPage.None? <==> Arguments(r) == op.files
  {
    op.(toPage := toPage)
  }

  /** The dump-data name is `dump_data`, then `_fields` when the fields
      flag is set, then `_utf8` when the utf8 flag is set, whichever
      setter ran first. */
  lemma DumpDataName(fields: bool, utf8: bool)
    ensures Name(SetUtf8(SetDumpFields(NewDumpData, fields), utf8))
      == Some("dump_data" + (if fields then "_fields" else "") + (if utf8 then "_utf8" else ""))
    ensures Name(SetDumpFields(SetUtf8(NewDumpData, utf8), fields))
      == Name(SetUtf8(SetDumpFields(NewDumpData, fields), utf8))
  {
    assert "dump_data" + "_fields" + "_utf8" == "dump_data_fields_utf8";
    assert "dump_data" + "_fields" + "" == "dump_data_fields";
    assert "dump_data" + "" + "_utf8" == "dump_data_utf8";
    assert "dump_data" + "" + "" == "dump_data";
  }

  /** What the operations are before their setters run: the plain names,
      no page ranges or attached files, and one empty file argument where
      the operation takes a file. */
  lemma Defaults()
    ensures Name(NewBackground) == Some("background") && Arguments(NewBackground) == [""]
    ensures Name(NewStamp) == Some("stamp") && Arguments(NewStamp) == [""]
    ensures Name(NewDumpData) == Some("dump_data") && Arguments(NewDumpData) == []
    ensures Name(NewUpdateInfo) == Some("update_info") && Arguments(NewUpdateInfo) == [""]
    ensures Arguments(NewCat) == [] && Arguments(NewShuffle) == [] && Arguments(NewAttachFiles) == []
    ensures forall env :: Stdin(NewFillForm, env) == None
  {
  }
}
