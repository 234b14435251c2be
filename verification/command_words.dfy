/** The words a POSIX shell reads from the command `buildCommand`
    assembles: the argument vector pdftk receives.

    Handles, file paths, passwords, the output path and option names go
    into the command unquoted; operation arguments and option values go
    through `escapeshellarg`. So the vector is the intended one exactly
    when the unquoted parts hold only characters the shell takes
    literally; `UnquotedPathSplits` shows what happens otherwise. */
module CommandWords {
  import opened Results
  import opened Host
  import opened Text
  import opened Shell
  import opened OrderedMaps
  import opened InputFiles
  import opened Operations
  import opened Slurpy

  predicate PlainChars(s: string) {
    forall i :: 0 <= i < |s| ==> IsPlainChar(s[i])
  }

  /** An input file whose unquoted parts survive the shell unchanged. */
  predicate SafeInput(f: InputFile) {
    PlainChars(f.handle) && PlainChars(f.filePath)
    && (f.password.Some? ==> PlainChars(f.password.value))
  }

  predicate PlainKeys(options: Options) {
    forall i :: 0 <= i < |options| ==> IsPlainWord(options[i].key)
  }

  /** `HANDLE=path`, one word per input file. */
  function InputWords(inputs: seq<InputFile>): (ws: seq<string>)
    ensures |ws| == |inputs|
  {
    seq(|inputs|, i requires 0 <= i < |inputs| => inputs[i].handle + "=" + inputs[i].filePath)
  }

  function PasswordWords(inputs: seq<InputFile>): seq<string> {
    var passwords := Passwords(inputs);
    if |passwords| == 0 then [] else ["input_pw"] + passwords
  }

  function OperationWords(call: Option<Invocation>): seq<string> {
    if call.Some? && call.value.name.Some? then [call.value.name.value] + call.value.arguments else []
  }

  /** The standard input piped into the command, if the operation runs and
      has one. */
  function PipedInput(call: Option<Invocation>): Option<string> {
    if call.Some? && call.value.name.Some? then call.value.stdin else None
  }

  /** One global option: nothing when unset or false, its name when true,
      the name then its value or values otherwise. */
  function OptionWords(key: string, v: OptionValue): seq<string> {
    match v
    case Unset => []
    case Flag(on) => if on then [key] else []
    case Value(t) => [key, t]
    case Values(ts) => [key] + ts
  }

  function OptionsArgv(options: Options): seq<string>
    decreases |options|
  {
    if |options| == 0 then [] else OptionWords(options[0].key, options[0].value) + OptionsArgv(options[1..])
  }

  /** The argument vector the command is meant to hand to pdftk, the
      binary first. */
  function Argv(binary: string, inputs: seq<InputFile>, output: string,
                call: Option<Invocation>, options: Options): seq<string>
  {
    [binary] + (InputWords(inputs) + (PasswordWords(inputs) + (OperationWords(call)
      + (["output", output] + OptionsArgv(options)))))
  }

  /** The command after the optional `echo … |`. */
  function Unpiped(binary: string, inputs: seq<InputFile>, output: Option<string>,
                   call: Option<Invocation>, options: Options): string
  {
    binary + (InputsText(inputs) + (PasswordText(inputs) + (OperationPart(call)
      + (OutputText(output) + OptionsText(options)))))
  }

  function OperationPart(call: Option<Invocation>): string {
    if call.Some? && call.value.name.Some?
    then OperationText(call.value.name.value, call.value.arguments) else ""
  }

  lemma AssembleNamed(binary: string, inputs: seq<InputFile>, output: Option<string>,
                      c: Invocation, options: Options)
    requires c.name.Some?
    ensures var head := binary + InputsText(inputs) + PasswordText(inputs);
      Assemble(binary, inputs, output, Some(c), options) ==
      Pipe(c.stdin) + head + OperationText(c.name.value, c.arguments) + OutputText(output) + OptionsText(options)
  {
  }

  lemma AssembleUnnamed(binary: string, inputs: seq<InputFile>, output: Option<string>,
                        call: Option<Invocation>, options: Options)
    requires call.None? || call.value.name.None?
    ensures var head := binary + InputsText(inputs) + PasswordText(inputs);
      Assemble(binary, inputs, output, call, options) == head + OutputText(output) + OptionsText(options)
  {
  }

  lemma Regroup(p: string, b: string, i: string, w: string, op: string, out: string, opts: string)
    ensures p + (b + i + w) + op + out + opts == p + (b + (i + (w + (op + (out + opts)))))
  {
  }

  /** The command is the pipe from `echo`, if any, then the rest. */
  lemma PipeSplit(binary: string, inputs: seq<InputFile>, output: Option<string>,
                  call: Option<Invocation>, options: Options)
    ensures Assemble(binary, inputs, output, call, options)
      == Pipe(PipedInput(call)) + Unpiped(binary, inputs, output, call, options)
  {
    var i, w := InputsText(inputs), PasswordText(inputs);
    var out, opts := OutputText(output), OptionsText(options);
    var p, op := Pipe(PipedInput(call)), OperationPart(call);
    Regroup(p, binary, i, w, op, out, opts);
    if call.Some? && call.value.name.Some? {
      AssembleNamed(binary, inputs, output, call.value, options);
    } else {
      AssembleUnnamed(binary, inputs, output, call, options);
      assert p == "" && op == "";
      assert p + (binary + i + w) + op == binary + i + w;
    }
  }

  /** The left side of the pipe echoes exactly the standard input. */
  lemma EchoWords(x: string)
    ensures Pipe(Some(x)) == "echo " + Escape(x) + " | "
    ensures Words("echo " + Escape(x)) == Some(["echo", x])
  {
    OutputPlain();
    var e := Escape(x);
    var rest := " " + e;
    EscapeIsOneWord(x);
    WordsAfterBlank(e);
    assert rest[0] == ' ' && Words(rest) == Some([x]);
    WordsOfPlainThen("echo", rest, [x]);
    assert "echo " + e == "echo" + rest;
    assert ["echo"] + [x] == ["echo", x];
  }

  function InputPieces(inputs: seq<InputFile>): (ps: seq<Piece>)
    ensures |ps| == |inputs|
    ensures forall i :: 0 <= i < |inputs| ==> ps[i] == Plain(inputs[i].handle + "=" + inputs[i].filePath)
  {
    seq(|inputs|, i requires 0 <= i < |inputs| => Plain(inputs[i].handle + "=" + inputs[i].filePath))
  }

  lemma {:induction false} InputsLine(inputs: seq<InputFile>)
    ensures InputsText(inputs) == Line(InputPieces(inputs))
    decreases |inputs|
  {
    if |inputs| > 0 {
      InputsLine(inputs[1..]);
      assert InputPieces(inputs)[1..] == InputPieces(inputs[1..]);
    }
  }

  lemma SafeInputPlain(f: InputFile)
    requires SafeInput(f)
    ensures IsPlainWord(f.handle + "=" + f.filePath)
    ensures f.password.Some? ==> IsPlainWord(f.handle + "=" + f.password.value)
  {
    var w := f.handle + "=" + f.filePath;
    forall i | 0 <= i < |w|
      ensures IsPlainChar(w[i])
    {
      if i > |f.handle| {
        assert w[i] == f.filePath[i - |f.handle| - 1];
      }
    }
    if f.password.Some? {
      var v := f.handle + "=" + f.password.value;
      forall i | 0 <= i < |v|
        ensures IsPlainChar(v[i])
      {
        if i > |f.handle| {
          assert v[i] == f.password.value[i - |f.handle| - 1];
        }
      }
    }
  }

  lemma {:induction false} PasswordsPlain(inputs: seq<InputFile>)
    requires forall i :: 0 <= i < |inputs| ==> SafeInput(inputs[i])
    ensures forall j :: 0 <= j < |Passwords(inputs)| ==> IsPlainWord(Passwords(inputs)[j])
    decreases |inputs|
  {
    if |inputs| > 0 {
      SafeInputPlain(inputs[0]);
      PasswordsPlain(inputs[1..]);
    }
  }

  function PasswordPieces(inputs: seq<InputFile>): seq<Piece> {
    var passwords := Passwords(inputs);
    if |passwords| == 0 then [] else [Plain("input_pw")] + PlainAll(passwords)
  }

  lemma LineCons(p: Piece, ps: seq<Piece>)
    ensures Line([p] + ps) == " " + Render(p) + Line(ps)
  {
    assert ([p] + ps)[1..] == ps;
  }

  lemma PasswordsLine(inputs: seq<InputFile>)
    ensures PasswordText(inputs) == Line(PasswordPieces(inputs))
    ensures Texts(PasswordPieces(inputs)) == PasswordWords(inputs)
  {
    var passwords := Passwords(inputs);
    if |passwords| > 0 {
      KeywordLine("input_pw", passwords);
    }
  }

  /** A plain keyword followed by blank-separated plain words. */
  lemma KeywordLine(keyword: string, xs: seq<string>)
    requires |xs| > 0
    ensures " " + keyword + " " + Join(" ", xs) == Line([Plain(keyword)] + PlainAll(xs))
    ensures Texts([Plain(keyword)] + PlainAll(xs)) == [keyword] + xs
  {
    var ps := PlainAll(xs);
    var j := Join(" ", xs);
    calc {
      Line([Plain(keyword)] + ps);
      == { LineCons(Plain(keyword), ps); }
      " " + Render(Plain(keyword)) + Line(ps);
      == { JoinPlainIsLine(xs); }
      " " + keyword + (" " + j);
      == { AppendAssoc(" " + keyword, " ", j); }
      " " + keyword + " " + j;
    }
    KeywordTexts(keyword, xs);
  }


  lemma KeywordTexts(keyword: string, xs: seq<string>)
    ensures Texts([Plain(keyword)] + PlainAll(xs)) == [keyword] + xs
  {
    var ps := [Plain(keyword)] + PlainAll(xs);
    var ts := Texts(ps);
    forall i | 0 <= i < |ps|
      ensures ts[i] == ([keyword] + xs)[i]
    {
      if i > 0 {
        assert ps[i] == PlainAll(xs)[i - 1];
      }
    }
  }

  lemma OperationLine(name: string, arguments: seq<string>)
    ensures OperationText(name, arguments) == Line([Plain(name)] + QuotedAll(arguments))
  {
    var q := QuotedAll(arguments);
    LineCons(Plain(name), q);
    var l := Line(q);
    assert Line([Plain(name)] + q) == " " + name + l;
    if |arguments| > 0 {
      JoinEscapedIsLine(arguments);
      assert OperationText(name, arguments) == " " + name + (" " + Join(" ", EscapeAll(arguments)));
    } else {
      assert l == "";
      assert OperationText(name, arguments) == " " + name + "";
    }
  }

  lemma OperationTexts(name: string, arguments: seq<string>)
    ensures Texts([Plain(name)] + QuotedAll(arguments)) == [name] + arguments
  {
    var ps := [Plain(name)] + QuotedAll(arguments);
    forall i | 0 <= i < |ps|
      ensures Texts(ps)[i] == ([name] + arguments)[i]
    {
      if i > 0 {
        assert ps[i] == QuotedAll(arguments)[i - 1];
      }
    }
  }

  lemma LinePair(a: Piece, b: Piece)
    ensures Line([a, b]) == " " + Render(a) + " " + Render(b)
    ensures Texts([a, b]) == [a.text, b.text]
  {
    var ra, rb := Render(a), Render(b);
    assert [a, b][1..] == [b] && [b][1..] == [];
    assert Line([b]) == " " + rb by {
      assert Line([b]) == " " + rb + Line([]);
    }
    assert Line([a, b]) == " " + ra + Line([b]);
    assert Texts([a, b])[0] == a.text && Texts([a, b])[1] == b.text;
  }

  /** A line of valid pieces in front of a boundary, in one step. */
  lemma LineWords(ps: seq<Piece>, text: string, rest: string, ws: seq<string>)
    requires text == Line(ps) && AllValidPieces(ps) && Boundary(rest) && Words(rest) == Some(ws)
    ensures Boundary(text + rest) && Words(text + rest) == Some(Texts(ps) + ws)
  {
    WordsOfLineThen(ps, rest, ws);
    LineBoundary(ps, rest);
  }

  lemma FlagWords(key: string, rest: string, ws: seq<string>)
    requires IsPlainWord(key) && Boundary(rest) && Words(rest) == Some(ws)
    ensures Boundary(" " + key + rest) && Words(" " + key + rest) == Some([key] + ws)
  {
    var k := Plain(key);
    LineCons(k, []);
    assert [k] + [] == [k];
    assert Texts([k]) == [key];
    LineWords([k], " " + key, rest, ws);
  }

  lemma ValueWords(key: string, t: string, rest: string, ws: seq<string>)
    requires IsPlainWord(key) && Boundary(rest) && Words(rest) == Some(ws)
    ensures var text := " " + key + " " + Escape(t);
      Boundary(text + rest) && Words(text + rest) == Some([key, t] + ws)
  {
    LinePair(Plain(key), Quoted(t));
    LineWords([Plain(key), Quoted(t)], " " + key + " " + Escape(t), rest, ws);
  }

  lemma ValuesWords(key: string, ts: seq<string>, rest: string, ws: seq<string>)
    requires IsPlainWord(key) && Boundary(rest) && Words(rest) == Some(ws)
    ensures var text := " " + key + " " + Join(" ", EscapeAll(ts));
      Boundary(text + rest) && Words(text + rest) == Some([key] + ts + ws)
  {
    var k := Plain(key);
    var j := Join(" ", EscapeAll(ts));
    if |ts| == 0 {
      assert j == "";
      assert " " + key + " " + j + rest == " " + key + (" " + rest);
      WordsAfterBlank(rest);
      FlagWords(key, " " + rest, ws);
      assert [key] + ts + ws == [key] + ws;
    } else {
      var q := QuotedAll(ts);
      JoinEscapedIsLine(ts);
      LineCons(k, q);
      assert " " + key + " " + j == " " + key + (" " + j);
      OperationTexts(key, ts);
      LineWords([k] + q, " " + key + " " + j, rest, ws);
    }
  }

  lemma OptionTextWords(key: string, v: OptionValue, rest: string, ws: seq<string>)
    requires IsPlainWord(key) && Boundary(rest) && Words(rest) == Some(ws)
    ensures Boundary(OptionText(key, v) + rest)
    ensures Words(OptionText(key, v) + rest) == Some(OptionWords(key, v) + ws)
  {
    match v
    case Unset =>
      assert OptionText(key, v) + rest == rest;
      assert OptionWords(key, v) + ws == ws;
    case Flag(on) =>
      if on {
        FlagWords(key, rest, ws);
      } else {
        assert OptionText(key, v) + rest == rest;
        assert OptionWords(key, v) + ws == ws;
      }
    case Value(t) =>
      ValueWords(key, t, rest, ws);
      assert [key, t] + ws == OptionWords(key, v) + ws;
    case Values(ts) =>
      ValuesWords(key, ts, rest, ws);
  }

  /** With plain option names, the options contribute exactly their words,
      in registry order. */
  lemma {:induction false} OptionsWords(options: Options)
    requires PlainKeys(options)
    ensures Boundary(OptionsText(options))
    ensures Words(OptionsText(options)) == Some(OptionsArgv(options))
    decreases |options|
  {
    if |options| > 0 {
      OptionsWords(options[1..]);
      var rest := OptionsText(options[1..]);
      var w0 := OptionWords(options[0].key, options[0].value);
      OptionTextWords(options[0].key, options[0].value, rest, OptionsArgv(options[1..]));
    }
  }

  /** The operation part, as pieces (none when there is no operation). */
  function OperationPieces(call: Option<Invocation>): seq<Piece> {
    if call.Some? && call.value.name.Some?
    then [Plain(call.value.name.value)] + QuotedAll(call.value.arguments) else []
  }

  lemma OutputPlain()
    ensures IsPlainWord("output") && IsPlainWord("input_pw") && IsPlainWord("echo")
  {
    KeywordIsPlain("output");
    KeywordIsPlain("input_pw");
    KeywordIsPlain("echo");
  }

  lemma TailWords(output: string, opts: string, ows: seq<string>)
    requires IsPlainWord(output) && Boundary(opts) && Words(opts) == Some(ows)
    ensures Boundary(OutputText(Some(output)) + opts)
    ensures Words(OutputText(Some(output)) + opts) == Some(["output", output] + ows)
  {
    var ps := [Plain("output"), Plain(output)];
    OutputPlain();
    assert AllValidPieces(ps);
    LinePair(Plain("output"), Plain(output));
    assert OutputText(Some(output)) == " output " + output;
    LineWords(ps, OutputText(Some(output)), opts, ows);
  }

  lemma InputsWords(inputs: seq<InputFile>, rest: string, ws: seq<string>)
    requires forall i :: 0 <= i < |inputs| ==> SafeInput(inputs[i])
    requires Boundary(rest) && Words(rest) == Some(ws)
    ensures Boundary(InputsText(inputs) + rest)
    ensures Words(InputsText(inputs) + rest) == Some(InputWords(inputs) + ws)
  {
    var ps := InputPieces(inputs);
    InputsLine(inputs);
    forall i | 0 <= i < |ps|
      ensures ValidPiece(ps[i])
    {
      SafeInputPlain(inputs[i]);
    }
    assert Texts(ps) == InputWords(inputs);
    LineWords(ps, InputsText(inputs), rest, ws);
  }

  lemma PasswordsWords(inputs: seq<InputFile>, rest: string, ws: seq<string>)
    requires forall i :: 0 <= i < |inputs| ==> SafeInput(inputs[i])
    requires Boundary(rest) && Words(rest) == Some(ws)
    ensures Boundary(PasswordText(inputs) + rest)
    ensures Words(PasswordText(inputs) + rest) == Some(PasswordWords(inputs) + ws)
  {
    var ps := PasswordPieces(inputs);
    PasswordsLine(inputs);
    PasswordsPlain(inputs);
    OutputPlain();
    assert AllValidPieces(ps);
    LineWords(ps, PasswordText(inputs), rest, ws);
  }

  lemma OperationWordsThen(call: Option<Invocation>, rest: string, ws: seq<string>)
    requires call.Some? && call.value.name.Some? ==> IsPlainWord(call.value.name.value)
    requires Boundary(rest) && Words(rest) == Some(ws)
    ensures Boundary(OperationPart(call) + rest)
    ensures Words(OperationPart(call) + rest) == Some(OperationWords(call) + ws)
  {
    if call.Some? && call.value.name.Some? {
      var name, arguments := call.value.name.value, call.value.arguments;
      var ps := [Plain(name)] + QuotedAll(arguments);
      OperationLine(name, arguments);
      OperationTexts(name, arguments);
      assert AllValidPieces(ps);
      LineWords(ps, OperationText(name, arguments), rest, ws);
    } else {
      assert "" + rest == rest;
      assert OperationWords(call) + ws == ws;
    }
  }

  /** With a plain binary, safe inputs, a plain output path and plain
      option names, the shell reads the command after the pipe as exactly
      the intended argument vector. */
  lemma UnpipedWords(binary: string, inputs: seq<InputFile>, output: string,
                     call: Option<Invocation>, options: Options)
    requires IsPlainWord(binary) && IsPlainWord(output) && PlainKeys(options)
    requires forall i :: 0 <= i < |inputs| ==> SafeInput(inputs[i])
    requires call.Some? && call.value.name.Some? ==> IsPlainWord(call.value.name.value)
    ensures Words(Unpiped(binary, inputs, Some(output), call, options))
      == Some(Argv(binary, inputs, output, call, options))
  {
    var opts, ows := OptionsText(options), OptionsArgv(options);
    OptionsWords(options);
    var t := OutputText(Some(output)) + opts;
    var tw := ["output", output] + ows;
    TailWords(output, opts, ows);
    var t2, tw2 := OperationPart(call) + t, OperationWords(call) + tw;
    OperationWordsThen(call, t, tw);
    var t3, tw3 := PasswordText(inputs) + t2, PasswordWords(inputs) + tw2;
    PasswordsWords(inputs, t2, tw2);
    var t4, tw4 := InputsText(inputs) + t3, InputWords(inputs) + tw3;
    InputsWords(inputs, t3, tw3);
    WordsOfPlainThen(binary, t4, tw4);
  }

  /** What the wrapper's operation shows of itself, if there is one. */
  function Call(w: Wrapper, env: Env): Option<Invocation> {
    match w.operation
    case Some(op) => Some(Interface(op, env))
    case None => None
  }

  /** Words the shell reads as syntax, not as a command, when they come
      first: the reserved words of section 2.4 of the POSIX shell standard
      and those common shells add to them. */
  predicate IsReservedWord(s: string) {
    s in ["!", "{", "}", "case", "do", "done", "elif", "else", "esac", "fi", "for", "if", "in",
          "then", "until", "while", "[[", "]]", "function", "select", "time", "coproc"]
  }

  /** A wrapper whose unquoted parts survive the shell unchanged, and whose
      binary the shell runs as a command: it holds no `=`, which would make
      it a `NAME=value` variable assignment, and is no reserved word. */
  predicate SafeWrapper(w: Wrapper) {
    IsPlainWord(w.binary) && '=' !in w.binary && !IsReservedWord(w.binary)
    && w.output.Some? && IsPlainWord(w.output.value)
    && forall i :: 0 <= i < |w.inputs| ==> SafeInput(w.inputs[i])
  }

  /** The command `buildCommand` assembles for a safe wrapper: an `echo`
      of the operation's standard input piped into pdftk when there is
      one, and the shell hands pdftk exactly the binary, `HANDLE=path` per
      input, the passwords, the operation's name and arguments, the output
      and the options' words. */
  lemma BuildCommandWords(w: Wrapper, options: Options, env: Env)
    requires SafeWrapper(w) && PlainKeys(options)
    ensures BuildCommand(w, options, env)
      == Pipe(PipedInput(Call(w, env))) + Unpiped(w.binary, w.inputs, w.output, Call(w, env), options)
    ensures Words(Unpiped(w.binary, w.inputs, w.output, Call(w, env), options))
      == Some(Argv(w.binary, w.inputs, w.output.value, Call(w, env), options))
    ensures w.operation.Some? && !w.operation.value.Noop? ==>
      && PipedInput(Call(w, env)) == Stdin(w.operation.value, env)
      && OperationWords(Call(w, env)) == [Name(w.operation.value).value] + Arguments(w.operation.value)
    ensures (w.operation.None? || w.operation.value.Noop?) ==>
      PipedInput(Call(w, env)) == None && OperationWords(Call(w, env)) == []
  {
    var call := Call(w, env);
    assert BuildCommand(w, options, env) == Assemble(w.binary, w.inputs, w.output, call, options);
    PipeSplit(w.binary, w.inputs, w.output, call, options);
    if w.operation.Some? {
      NamesArePlainWords(w.operation.value);
    }
    UnpipedWords(w.binary, w.inputs, w.output.value, call, options);
  }

  lemma SameKeysPlain(a: Options, b: Options)
    requires Keys(a) == Keys(b) && PlainKeys(a)
    ensures PlainKeys(b)
  {
    forall i | 0 <= i < |b|
      ensures IsPlainWord(b[i].key)
    {
      assert b[i].key == Keys(b)[i] == Keys(a)[i] == a[i].key;
    }
  }

  /** What `generate` runs for a safe wrapper is that command over the
      merged options. */
  lemma GeneratedWords(w: Wrapper, xs: Assignments, env: Env)
    requires SafeWrapper(w) && PlainKeys(w.options) && Generate(w, xs, env).Ok?
    ensures MergeOptions(w, xs).Ok?
    ensures var merged := MergeOptions(w, xs).value;
      && Generate(w, xs, env).value
        == Pipe(PipedInput(Call(w, env))) + Unpiped(w.binary, w.inputs, w.output, Call(w, env), merged)
      && Words(Unpiped(w.binary, w.inputs, w.output, Call(w, env), merged))
        == Some(Argv(w.binary, w.inputs, w.output.value, Call(w, env), merged))
  {
    var merged := MergeOptions(w, xs).value;
    SameKeysPlain(w.options, merged);
    BuildCommandWords(w, merged, env);
  }

  lemma OptionNamesPlainA()
    ensures IsPlainWord("encrypt_40bit") && IsPlainWord("encrypt_128bit") && IsPlainWord("allow")
    ensures IsPlainWord("owner_pw")
  {
    KeywordIsPlain("encrypt_40bit");
    KeywordIsPlain("encrypt_128bit");
    KeywordIsPlain("allow");
    KeywordIsPlain("owner_pw");
  }

  lemma OptionNamesPlainB()
    ensures IsPlainWord("user_pw") && IsPlainWord("flatten") && IsPlainWord("compress")
    ensures IsPlainWord("uncompress")
  {
    KeywordIsPlain("user_pw");
    KeywordIsPlain("flatten");
    KeywordIsPlain("compress");
    KeywordIsPlain("uncompress");
  }

  lemma OptionNamesPlainC()
    ensures IsPlainWord("keep_first_id") && IsPlainWord("keep_final_id") && IsPlainWord("drop_xfa")
  {
    KeywordIsPlain("keep_first_id");
    KeywordIsPlain("keep_final_id");
    KeywordIsPlain("drop_xfa");
  }

  /** The options `configure` registers can all go into the command
      unquoted. */
  lemma ConfiguredKeysPlain(binary: string)
    ensures PlainKeys(Configured(binary).options)
  {
    OptionNamesPlainA();
    OptionNamesPlainB();
    OptionNamesPlainC();
    var options := Configured(binary).options;
    forall i | 0 <= i < |options|
      ensures IsPlainWord(options[i].key)
    {
      assert options[i].key == Keys(options)[i] == OptionNames[i];
    }
  }

  /** An input path with a blank, inserted unquoted, reaches pdftk as two
      words: the handle with the part before the blank, then the rest. */
  lemma UnquotedPathSplits(handle: string, before: string, after: string)
    requires PlainChars(handle) && PlainChars(before) && IsPlainWord(after)
    ensures InputsText([InputFile(before + " " + after, handle, None)])
      == " " + (handle + "=" + before) + (" " + after)
    ensures Words(InputsText([InputFile(before + " " + after, handle, None)]))
      == Some([handle + "=" + before, after])
  {
    var first := handle + "=" + before;
    var f := InputFile(before + " " + after, handle, None);
    assert InputsText([f]) == " " + handle + "=" + (before + " " + after) + InputsText([]);
    SafeInputPlain(InputFile(before, handle, None));
    assert Words("") == Some([]);
    WordsOfPlainThen(after, "", []);
    assert after + "" == after;
    assert [after] + [] == [after];
    WordsAfterBlank(after);
    WordsOfPlainThen(first, " " + after, [after]);
    assert [first] + [after] == [first, after];
    assert " " + (first + (" " + after)) == " " + first + (" " + after);
    WordsAfterBlank(first + (" " + after));
  }
}
