/** The commands the test suite expects `buildCommand` to assemble. Each
    piece of a command is worked out by its own lemma; the spellings of the
    pieces as single literals are kept apart from the evaluation. */
module CommandExamples {
  import opened Results
  import opened Text
  import opened Shell
  import opened OrderedMaps
  import opened InputFiles
  import opened Operations
  import opened Slurpy
  import opened CommandWords

  const PlainFile: InputFile := InputFile("/path", "HANDLE", None)
  const LockedFile: InputFile := InputFile("/path", "HANDLE", Some("pa$$w0rd"))
  const TestCall: Invocation := Invocation(Some("operation"), ["arg1", "arg2"], Some("foobar"))
  const TestOutput: Option<string> := Some("/the/output/path")
  const ListOption: Options := [Entry("allow", Values(["foo", "bar"]))]
  const FlagOn: Options := [Entry("flatten", Flag(true))]
  const FlagOff: Options := [Entry("flatten", Flag(false))]
  const FlagUnset: Options := [Entry("flatten", Unset)]
  const ValueOption: Options := [Entry("user_pw", Value("foo"))]

  lemma EscapeKeyword(w: string)
    requires IsKeyword(w)
    ensures Escape(w) == "'" + w + "'"
  {
    KeywordIsPlain(w);
    EscapePlain(w);
  }

  lemma JoinTwoEscaped(a: string, b: string)
    requires IsKeyword(a) && IsKeyword(b)
    ensures Join(" ", EscapeAll([a, b])) == "'" + a + "'" + " " + ("'" + b + "'")
  {
    EscapeKeyword(a);
    EscapeKeyword(b);
    var xs := [a, b];
    var es := EscapeAll(xs);
    assert es[0] == Escape(xs[0]) && xs[0] == a;
    assert es[1] == Escape(xs[1]) && xs[1] == b;
    assert es[1..] == [es[1]];
    assert Join(" ", es) == es[0] + " " + Join(" ", es[1..]);
  }

  /** How the pieces below spell out as single literals. */
  lemma QuotedSpellings()
    ensures "'" + "arg1" + "'" + " " + ("'" + "arg2" + "'") == "'arg1' 'arg2'"
    ensures "'" + "foo" + "'" + " " + ("'" + "bar" + "'") == "'foo' 'bar'"
  {
  }

  lemma OperationSpellings()
    ensures " " + "operation" + (" " + "'arg1' 'arg2'") == " operation 'arg1' 'arg2'"
    ensures "echo " + ("'" + "foobar" + "'") + " | " == "echo 'foobar' | "
  {
  }

  lemma OptionSpellings()
    ensures " " + "allow" + " " + "'foo' 'bar'" + "" == " allow 'foo' 'bar'"
    ensures " " + "flatten" + "" == " flatten"
    ensures " " + "user_pw" + " " + ("'" + "foo" + "'") + "" == " user_pw 'foo'"
  {
  }

  lemma InputSpellings()
    ensures " " + "HANDLE" + "=" + "/path" + "" == " HANDLE=/path"
    ensures " input_pw " + ("HANDLE" + "=" + "pa$$w0rd") == " input_pw HANDLE=pa$$w0rd"
  {
  }

  lemma InputExamples()
    ensures InputsText([PlainFile]) == " HANDLE=/path"
    ensures InputsText([LockedFile]) == " HANDLE=/path"
  {
    InputSpellings();
    assert InputsText([PlainFile]) == " " + "HANDLE" + "=" + "/path" + InputsText([]);
    assert InputsText([LockedFile]) == " " + "HANDLE" + "=" + "/path" + InputsText([]);
  }

  lemma PasswordExamples()
    ensures PasswordText([PlainFile]) == ""
    ensures PasswordText([LockedFile]) == " input_pw HANDLE=pa$$w0rd"
  {
    InputSpellings();
    assert Passwords([PlainFile]) == [] + Passwords([]);
    var pw := "HANDLE" + "=" + "pa$$w0rd";
    assert Passwords([LockedFile]) == [pw] + Passwords([]);
    assert Join(" ", [pw]) == pw;
  }

  lemma ArgumentsExample()
    ensures Join(" ", EscapeAll(["arg1", "arg2"])) == "'arg1' 'arg2'"
  {
    JoinTwoEscaped("arg1", "arg2");
    QuotedSpellings();
  }

  lemma OperationExample()
    ensures OperationText("operation", ["arg1", "arg2"]) == " operation 'arg1' 'arg2'"
  {
    ArgumentsExample();
    OperationSpellings();
  }

  lemma PipeExample()
    ensures Pipe(Some("foobar")) == "echo 'foobar' | "
  {
    EscapeKeyword("foobar");
    OperationSpellings();
  }

  lemma ListOptionExample()
    ensures OptionsText(ListOption) == " allow 'foo' 'bar'"
  {
    JoinTwoEscaped("foo", "bar");
    QuotedSpellings();
    OptionSpellings();
    assert OptionsText(ListOption) == OptionText("allow", Values(["foo", "bar"])) + OptionsText([]);
  }

  lemma FlagOptionExamples()
    ensures OptionsText(FlagOn) == " flatten"
    ensures OptionsText(FlagOff) == "" && OptionsText(FlagUnset) == ""
  {
    OptionSpellings();
    assert OptionsText(FlagOn) == OptionText("flatten", Flag(true)) + OptionsText([]);
    assert OptionsText(FlagOff) == OptionText("flatten", Flag(false)) + OptionsText([]);
    assert OptionsText(FlagUnset) == OptionText("flatten", Unset) + OptionsText([]);
  }

  lemma ValueOptionExample()
    ensures OptionsText(ValueOption) == " user_pw 'foo'"
  {
    EscapeKeyword("foo");
    OptionSpellings();
    assert OptionsText(ValueOption) == OptionText("user_pw", Value("foo")) + OptionsText([]);
  }

  lemma OutputExample()
    ensures OutputText(TestOutput) == " output /the/output/path"
  {
  }

  /** No operation, no password, no option: the binary, the input and the
      output. */
  lemma PlainCommandExample()
    ensures Assemble("thebinary", [PlainFile], TestOutput, None, [])
      == "thebinary" + " HANDLE=/path" + "" + " output /the/output/path" + ""
  {
    InputExamples();
    PasswordExamples();
    OutputExample();
    AssembleUnnamed("thebinary", [PlainFile], TestOutput, None, []);
  }

  /** A password adds `input_pw`; a flag that is on adds its name. */
  lemma FlagCommandExample()
    ensures Assemble("thebinary", [LockedFile], TestOutput, None, FlagOn)
      == "thebinary" + " HANDLE=/path" + " input_pw HANDLE=pa$$w0rd" + " output /the/output/path" + " flatten"
  {
    InputExamples();
    PasswordExamples();
    OutputExample();
    FlagOptionExamples();
    AssembleUnnamed("thebinary", [LockedFile], TestOutput, None, FlagOn);
  }

  /** An operation that reads its standard input puts the command at the
      receiving end of an `echo`; a list option quotes each of its values. */
  lemma PipedCommandExample()
    ensures Assemble("thebinary", [LockedFile], TestOutput, Some(TestCall), ListOption)
      == "echo 'foobar' | " + ("thebinary" + " HANDLE=/path" + " input_pw HANDLE=pa$$w0rd")
         + " operation 'arg1' 'arg2'" + " output /the/output/path" + " allow 'foo' 'bar'"
  {
    InputExamples();
    PasswordExamples();
    OperationExample();
    PipeExample();
    OutputExample();
    ListOptionExample();
    AssembleNamed("thebinary", [LockedFile], TestOutput, TestCall, ListOption);
  }

  /** A password alone adds `input_pw` and nothing else. */
  lemma PasswordCommandExample()
    ensures Assemble("thebinary", [LockedFile], TestOutput, None, [])
      == "thebinary" + " HANDLE=/path" + " input_pw HANDLE=pa$$w0rd" + " output /the/output/path" + ""
  {
    InputExamples();
    PasswordExamples();
    OutputExample();
    AssembleUnnamed("thebinary", [LockedFile], TestOutput, None, []);
  }

  /** An option that is null or false adds nothing, piped or not. */
  lemma PipedQuietExamples()
    ensures Assemble("thebinary", [LockedFile], TestOutput, Some(TestCall), FlagUnset)
      == "echo 'foobar' | " + ("thebinary" + " HANDLE=/path" + " input_pw HANDLE=pa$$w0rd")
         + " operation 'arg1' 'arg2'" + " output /the/output/path" + ""
    ensures Assemble("thebinary", [LockedFile], TestOutput, Some(TestCall), FlagOff)
      == "echo 'foobar' | " + ("thebinary" + " HANDLE=/path" + " input_pw HANDLE=pa$$w0rd")
         + " operation 'arg1' 'arg2'" + " output /the/output/path" + ""
  {
    InputExamples();
    PasswordExamples();
    OperationExample();
    PipeExample();
    OutputExample();
    FlagOptionExamples();
    AssembleNamed("thebinary", [LockedFile], TestOutput, TestCall, FlagUnset);
    AssembleNamed("thebinary", [LockedFile], TestOutput, TestCall, FlagOff);
  }

  /** A single value is quoted. */
  lemma PipedValueExample()
    ensures Assemble("thebinary", [LockedFile], TestOutput, Some(TestCall), ValueOption)
      == "echo 'foobar' | " + ("thebinary" + " HANDLE=/path" + " input_pw HANDLE=pa$$w0rd")
         + " operation 'arg1' 'arg2'" + " output /the/output/path" + " user_pw 'foo'"
  {
    InputExamples();
    PasswordExamples();
    OperationExample();
    PipeExample();
    OutputExample();
    ValueOptionExample();
    AssembleNamed("thebinary", [LockedFile], TestOutput, TestCall, ValueOption);
  }
}
