/** Slurpy: the wrapper that assembles a pdftk command line from a binary,
    input files, an operation, an output and global options, and runs it.

    The option registry is an ordered PHP array from option name to value.
    A value is null (unset), a boolean flag, a text, or a list of texts;
    only the registered options can be set. */
module Slurpy {
  import opened Results
  import opened Host
  import opened Text
  import opened Shell
  import opened OrderedMaps
  import opened InputFiles
  import opened Operations

  datatype OptionValue = Unset | Flag(on: bool) | Value(text: string) | Values(items: seq<string>)

  type Options = OrderedMap<OptionValue>

  /** A list of (name, value) pairs, as PHP's `foreach` walks an array. */
  type Assignments = seq<(string, OptionValue)>

  datatype Wrapper = Wrapper(
    binary: string,
    options: Options,
    inputs: seq<InputFile>,
    output: Option<string>,
    operation: Option<Operation>)

  /** The options `configure` registers, in order. */
  const OptionNames: seq<string> := [
    "encrypt_40bit", "encrypt_128bit", "allow", "owner_pw", "user_pw", "flatten",
    "compress", "uncompress", "keep_first_id", "keep_final_id", "drop_xfa"]

  predicate DistinctAssigned(xs: Assignments) {
    forall i, j :: 0 <= i < j < |xs| ==> xs[i].0 != xs[j].0
  }

  /** `addOption`: registers a new option with its default value. */
  function AddOption(w: Wrapper, name: string, default: OptionValue): (r: Result<Wrapper>)
    ensures r.Ok? <==> !HasKey(w.options, name)
    ensures r.Err? ==> r.error == DuplicateOption(name)
    ensures r.Ok? ==> Keys(r.value.options) == Keys(w.options) + [name]
    ensures r.Ok? ==> Get(r.value.options, name) == Some(default)
    ensures r.Ok? ==> forall k :: k != name ==> Get(r.value.options, k) == Get(w.options, k)
    ensures r.Ok? ==> r.value.(options := w.options) == w
  {
    if HasKey(w.options, name) then Err(DuplicateOption(name))
    else Ok(w.(options := Put(w.options, name, default)))
  }

  /** `addOptions`: registers the options one by one, stopping at the first
      that already exists. */
  function AddOptions(w: Wrapper, xs: Assignments): (r: Applied<Wrapper>)
    ensures r.failedAt.Some? ==> r.failedAt.value < |xs|
    decreases |xs|
  {
    if |xs| == 0 then Applied(w, None)
    else match AddOption(w, xs[0].0, xs[0].1)
      case Err(_) => Applied(w, Some(0))
      case Ok(next) => AddOptions(next, xs[1..]).Shifted()
  }

  lemma DistinctAssignedTail(xs: Assignments)
    requires |xs| > 0 && DistinctAssigned(xs)
    ensures DistinctAssigned(xs[1..])
    ensures xs[0].0 !in Names(xs[1..])
    ensures Names(xs) == [xs[0].0] + Names(xs[1..])
  {
    forall i, j | 0 <= i < j < |xs[1..]|
      ensures xs[1..][i].0 != xs[1..][j].0
    {
      assert xs[1..][i] == xs[i + 1] && xs[1..][j] == xs[j + 1];
    }
  }

  /** The first of a batch of fresh names is registered, and the rest
      are still fresh afterwards. */
  lemma AddFreshStep(w: Wrapper, xs: Assignments)
    requires |xs| > 0 && DistinctAssigned(xs)
    requires forall i :: 0 <= i < |xs| ==> !HasKey(w.options, xs[i].0)
    ensures AddOption(w, xs[0].0, xs[0].1).Ok?
    ensures var next := AddOption(w, xs[0].0, xs[0].1).value;
      && DistinctAssigned(xs[1..])
      && (forall i :: 0 <= i < |xs[1..]| ==> !HasKey(next.options, xs[1..][i].0))
  {
    assert !HasKey(w.options, xs[0].0);
    var next := AddOption(w, xs[0].0, xs[0].1).value;
    DistinctAssignedTail(xs);
    forall i | 0 <= i < |xs[1..]|
      ensures !HasKey(next.options, xs[1..][i].0)
    {
      HasKeyInKeys(w.options, xs[i + 1].0);
      HasKeyInKeys(next.options, xs[i + 1].0);
      assert xs[1..][i].0 == xs[i + 1].0 != xs[0].0;
    }
  }

  lemma {:induction false} AddOptionsFreshKeys(w: Wrapper, xs: Assignments)
    requires DistinctAssigned(xs)
    requires forall i :: 0 <= i < |xs| ==> !HasKey(w.options, xs[i].0)
    ensures AddOptions(w, xs).failedAt == None
    ensures Keys(AddOptions(w, xs).state.options) == Keys(w.options) + Names(xs)
    ensures AddOptions(w, xs).state.(options := w.options) == w
    decreases |xs|
  {
    if |xs| == 0 {
      assert Keys(w.options) + Names(xs) == Keys(w.options);
    } else {
      var n0 := xs[0].0;
      AddFreshStep(w, xs);
      var next := AddOption(w, n0, xs[0].1).value;
      AddOptionsFreshKeys(next, xs[1..]);
      var rest := AddOptions(next, xs[1..]);
      assert AddOptions(w, xs) == rest.Shifted();
      DistinctAssignedTail(xs);
      var kw, nt := Keys(w.options), Names(xs[1..]);
      NamesAssoc(kw, [n0], nt);
    }
  }

  lemma NamesAssoc(a: seq<string>, b: seq<string>, c: seq<string>)
    ensures a + b + c == a + (b + c)
  {
  }

  lemma {:induction false} AddOptionsFreshValues(w: Wrapper, xs: Assignments)
    requires DistinctAssigned(xs)
    requires forall i :: 0 <= i < |xs| ==> !HasKey(w.options, xs[i].0)
    ensures forall i :: 0 <= i < |xs| ==> Get(AddOptions(w, xs).state.options, xs[i].0) == Some(xs[i].1)
    decreases |xs|
  {
    if |xs| > 0 {
      var n0 := xs[0].0;
      AddFreshStep(w, xs);
      var next := AddOption(w, n0, xs[0].1).value;
      AddOptionsFreshValues(next, xs[1..]);
      DistinctAssignedTail(xs);
      var final := AddOptions(w, xs).state;
      assert final == AddOptions(next, xs[1..]).state;
      forall i | 0 <= i < |xs|
        ensures Get(final.options, xs[i].0) == Some(xs[i].1)
      {
        if i == 0 {
          OthersKept(next, xs[1..], n0);
        } else {
          assert xs[i] == xs[1..][i - 1];
        }
      }
    }
  }

  /** Registering distinct new names never fails: they are appended in
      order with their defaults, and nothing else changes. */
  lemma AddOptionsFresh(w: Wrapper, xs: Assignments)
    requires DistinctAssigned(xs)
    requires forall i :: 0 <= i < |xs| ==> !HasKey(w.options, xs[i].0)
    ensures AddOptions(w, xs).failedAt == None
    ensures Keys(AddOptions(w, xs).state.options) == Keys(w.options) + Names(xs)
    ensures forall i :: 0 <= i < |xs| ==> Get(AddOptions(w, xs).state.options, xs[i].0) == Some(xs[i].1)
    ensures AddOptions(w, xs).state.(options := w.options) == w
  {
    AddOptionsFreshKeys(w, xs);
    AddOptionsFreshValues(w, xs);
  }

  /** Registering names leaves the value of any other name as it was. */
  lemma {:induction false} OthersKept(w: Wrapper, xs: Assignments, k: string)
    requires k !in Names(xs)
    ensures Get(AddOptions(w, xs).state.options, k) == Get(w.options, k)
    decreases |xs|
  {
    if |xs| > 0 && AddOption(w, xs[0].0, xs[0].1).Ok? {
      assert k != Names(xs)[0];
      assert Names(xs[1..]) == Names(xs)[1..];
      OthersKept(AddOption(w, xs[0].0, xs[0].1).value, xs[1..], k);
    }
  }

  function Defaults(names: seq<string>): (xs: Assignments)
    ensures |xs| == |names| && forall i :: 0 <= i < |names| ==> xs[i] == (names[i], Unset)
  {
    seq(|names|, i requires 0 <= i < |names| => (names[i], Unset))
  }

  /** The eleven names are distinct. */
  lemma OptionNamesDistinct()
    ensures forall i, j :: 0 <= i < j < |OptionNames| ==> OptionNames[i] != OptionNames[j]
  {
    forall i, j | 0 <= i < j < |OptionNames|
      ensures OptionNames[i] != OptionNames[j]
    {
      var a, b := OptionNames[i], OptionNames[j];
      if |a| == |b| {
        assert a[0] != b[0] || a[5] != b[5] || a[8] != b[8];
      }
    }
  }

  lemma DefaultsDistinct(names: seq<string>)
    requires forall i, j :: 0 <= i < j < |names| ==> names[i] != names[j]
    ensures DistinctAssigned(Defaults(names)) && Names(Defaults(names)) == names
  {
    var xs := Defaults(names);
    forall i, j | 0 <= i < j < |xs|
      ensures xs[i].0 != xs[j].0
    {
      assert xs[i].0 == names[i] && xs[j].0 == names[j];
    }
  }

  /** Registering distinct names, all unset, on an empty registry. */
  lemma RegisteredDefaults(binary: string, names: seq<string>)
    requires forall i, j :: 0 <= i < j < |names| ==> names[i] != names[j]
    ensures var w := AddOptions(Wrapper(binary, [], [], None, None), Defaults(names)).state;
      && Keys(w.options) == names && UniqueKeys(w.options)
      && (forall k :: k in names ==> Get(w.options, k) == Some(Unset))
      && w.binary == binary && w.inputs == [] && w.output == None && w.operation == None
  {
    var empty := Wrapper(binary, [], [], None, None);
    var xs := Defaults(names);
    DefaultsDistinct(names);
    AddOptionsFresh(empty, xs);
    var w := AddOptions(empty, xs).state;
    assert Keys(w.options) == [] + names;
    KeysUnique(w.options);
    forall k | k in names
      ensures Get(w.options, k) == Some(Unset)
    {
      var i :| 0 <= i < |names| && names[i] == k;
      assert xs[i].0 == k;
    }
  }

  /** `configure`: a wrapper with exactly the eleven options of pdftk
      registered, in order, all unset. */
  function Configured(binary: string): (w: Wrapper)
    ensures Keys(w.options) == OptionNames && UniqueKeys(w.options)
    ensures forall k :: k in OptionNames ==> Get(w.options, k) == Some(Unset)
    ensures w.binary == binary && w.inputs == [] && w.output == None && w.operation == None
  {
    OptionNamesDistinct();
    RegisteredDefaults(binary, OptionNames);
    AddOptions(Wrapper(binary, [], [], None, None), Defaults(OptionNames)).state
  }

  /** `setOption`: only a registered option can be set; its position is
      kept. */
  function SetOption(w: Wrapper, name: string, value: OptionValue): (r: Result<Wrapper>)
    ensures r.Ok? <==> HasKey(w.options, name)
    ensures r.Err? ==> r.error == UnknownOption(name)
    ensures r.Ok? ==> Keys(r.value.options) == Keys(w.options)
    ensures r.Ok? ==> Get(r.value.options, name) == Some(value)
    ensures r.Ok? ==> forall k :: k != name ==> Get(r.value.options, k) == Get(w.options, k)
    ensures r.Ok? ==> r.value.(options := w.options) == w
  {
    var m :- Assign(w.options, name, value);
    Ok(w.(options := m))
  }

  /** The assignment `setOption` and `mergeOptions` share. */
  function Assign(m: Options, name: string, value: OptionValue): (r: Result<Options>)
    ensures r.Ok? <==> HasKey(m, name)
    ensures r.Err? ==> r.error == UnknownOption(name)
    ensures r.Ok? ==> Keys(r.value) == Keys(m)
    ensures r.Ok? ==> Get(r.value, name) == Some(value)
    ensures r.Ok? ==> forall k :: k != name ==> Get(r.value, k) == Get(m, k)
    ensures r.Ok? && UniqueKeys(m) ==> UniqueKeys(r.value)
  {
    if !HasKey(m, name) then Err(UnknownOption(name)) else Ok(Put(m, name, value))
  }

  /** The assignment loop: stops at the first unregistered name. */
  function AssignAll(m: Options, xs: Assignments): (r: Applied<Options>)
    ensures r.failedAt.Some? ==> r.failedAt.value < |xs|
    decreases |xs|
  {
    if |xs| == 0 then Applied(m, None)
    else match Assign(m, xs[0].0, xs[0].1)
      case Err(_) => Applied(m, Some(0))
      case Ok(next) => AssignAll(next, xs[1..]).Shifted()
  }

  /** The value the last assignment to `k` gives it, if any: later
      assignments override earlier ones. */
  function LastAssigned(xs: Assignments, k: string): Option<OptionValue>
    decreases |xs|
  {
    if |xs| == 0 then None
    else match LastAssigned(xs[1..], k)
      case Some(v) => Some(v)
      case None => if xs[0].0 == k then Some(xs[0].1) else None
  }

  lemma SameKeys(m: Options, name: string, value: OptionValue)
    requires HasKey(m, name)
    ensures forall k :: HasKey(Assign(m, name, value).value, k) <==> HasKey(m, k)
  {
    forall k
      ensures HasKey(Assign(m, name, value).value, k) <==> HasKey(m, k)
    {
      HasKeyInKeys(m, k);
      HasKeyInKeys(Assign(m, name, value).value, k);
    }
  }

  /** The assignment loop succeeds exactly when every name is registered;
      on failure, the index is that of the first unregistered name. */
  lemma {:induction false} AssignAllFails(m: Options, xs: Assignments)
    ensures AssignAll(m, xs).failedAt.None? <==> forall i :: 0 <= i < |xs| ==> HasKey(m, xs[i].0)
    ensures AssignAll(m, xs).failedAt.Some? ==>
      var f := AssignAll(m, xs).failedAt.value;
      !HasKey(m, xs[f].0) && forall i :: 0 <= i < f ==> HasKey(m, xs[i].0)
    decreases |xs|
  {
    if |xs| > 0 && HasKey(m, xs[0].0) {
      var next := Assign(m, xs[0].0, xs[0].1).value;
      AssignAllFails(next, xs[1..]);
      SameKeys(m, xs[0].0, xs[0].1);
      forall i | 1 <= i < |xs|
        ensures xs[i] == xs[1..][i - 1]
      {
      }
    }
  }

  /** The assignment loop against its reference: when it succeeds, each
      option holds its last assigned value, or its old one when it is not
      assigned, and the keys and their order do not change. */
  lemma {:induction false} AssignAllOverrides(m: Options, xs: Assignments)
    requires forall i :: 0 <= i < |xs| ==> HasKey(m, xs[i].0)
    ensures Keys(AssignAll(m, xs).state) == Keys(m)
    ensures forall k :: (Get(AssignAll(m, xs).state, k) ==
      (if LastAssigned(xs, k).Some? then LastAssigned(xs, k) else Get(m, k)))
    decreases |xs|
  {
    if |xs| > 0 {
      var next := Assign(m, xs[0].0, xs[0].1).value;
      SameKeys(m, xs[0].0, xs[0].1);
      forall i | 0 <= i < |xs[1..]|
        ensures HasKey(next, xs[1..][i].0)
      {
        assert xs[1..][i] == xs[i + 1];
      }
      AssignAllOverrides(next, xs[1..]);
      var final := AssignAll(m, xs).state;
      assert final == AssignAll(next, xs[1..]).state;
      forall k
        ensures Get(final, k) == (if LastAssigned(xs, k).Some? then LastAssigned(xs, k) else Get(m, k))
      {
        if LastAssigned(xs[1..], k).None? && xs[0].0 != k {
          assert Get(next, k) == Get(m, k);
        }
      }
    }
  }

  /** When the assignment loop stops at update `f`, its state is that of
      the first `f` updates alone, which all go through. */
  lemma {:induction false} AssignAllStops(m: Options, xs: Assignments)
    ensures var r := AssignAll(m, xs);
      r.failedAt.Some? ==> AssignAll(m, xs[..r.failedAt.value]) == Applied(r.state, None)
    decreases |xs|
  {
    if |xs| > 0 {
      if Assign(m, xs[0].0, xs[0].1).Ok? {
        var next := Assign(m, xs[0].0, xs[0].1).value;
        AssignAllStops(next, xs[1..]);
        var rest := AssignAll(next, xs[1..]);
        if rest.failedAt.Some? {
          var k := rest.failedAt.value;
          var prefix := xs[..k + 1];
          assert prefix[0] == xs[0] && prefix[1..] == xs[1..][..k];
          assert AssignAll(m, prefix) == AssignAll(next, xs[1..][..k]).Shifted();
        }
      } else {
        assert xs[..0] == [];
      }
    }
  }

  /** `setOptions`: assigns in order and touches nothing but the options.
      It goes through iff every name is registered, and otherwise stops at
      the first unregistered one; the assignments before that stay in
      effect, each option holding its last value among them. */
  function SetOptions(w: Wrapper, xs: Assignments): (r: Applied<Wrapper>)
    ensures r.state.(options := w.options) == w
    ensures r.failedAt.None? <==> forall i :: 0 <= i < |xs| ==> HasKey(w.options, xs[i].0)
    ensures r.failedAt.Some? ==>
      var f := r.failedAt.value;
      f < |xs| && !HasKey(w.options, xs[f].0) && forall i :: 0 <= i < f ==> HasKey(w.options, xs[i].0)
    ensures r.Count(|xs|) <= |xs|
    ensures Keys(r.state.options) == Keys(w.options)
    ensures var applied := xs[..r.Count(|xs|)];
      forall k :: Get(r.state.options, k) ==
        (if LastAssigned(applied, k).Some? then LastAssigned(applied, k) else Get(w.options, k))
  {
    var a := AssignAll(w.options, xs);
    AssignAllFails(w.options, xs);
    AssignAllStops(w.options, xs);
    var n := a.Count(|xs|);
    assert n == |xs| ==> xs[..n] == xs;
    assert AssignAll(w.options, xs[..n]).state == a.state;
    assert forall i :: 0 <= i < n ==> xs[..n][i] == xs[i];
    AssignAllOverrides(w.options, xs[..n]);
    Applied(w.(options := a.state), a.failedAt)
  }

  /** `mergeOptions`: the registry with the given assignments applied, or
      the first unregistered name; the wrapper itself is not changed. */
  function MergeOptions(w: Wrapper, xs: Assignments): (r: Result<Options>)
    ensures r.Ok? <==> forall i :: 0 <= i < |xs| ==> HasKey(w.options, xs[i].0)
    ensures r.Ok? ==> Keys(r.value) == Keys(w.options)
    ensures r.Ok? ==> forall k :: (Get(r.value, k) ==
      (if LastAssigned(xs, k).Some? then LastAssigned(xs, k) else Get(w.options, k)))
    ensures r.Err? ==> exists f :: (0 <= f < |xs| && r.error == UnknownOption(xs[f].0) && !HasKey(w.options, xs[f].0)
      && forall i :: 0 <= i < f ==> HasKey(w.options, xs[i].0))
  {
    AssignAllFails(w.options, xs);
    var a := AssignAll(w.options, xs);
    if a.failedAt.Some? then Err(UnknownOption(xs[a.failedAt.value].0))
    else
      AssignAllOverrides(w.options, xs);
      Ok(a.state)
  }

  /** The constructor: registers the options, assigns the given ones, and
      stores the rest. An unregistered option name makes it fail. */
  function New(binary: string, xs: Assignments, inputs: seq<InputFile>, output: Option<string>,
               operation: Option<Operation>): (r: Result<Wrapper>)
    ensures r.Ok? <==> forall i :: 0 <= i < |xs| ==> xs[i].0 in OptionNames
    ensures r.Err? ==> exists i :: (0 <= i < |xs| && r.error == UnknownOption(xs[i].0) && xs[i].0 !in OptionNames
      && forall j :: 0 <= j < i ==> xs[j].0 in OptionNames)
    ensures r.Ok? ==> Keys(r.value.options) == OptionNames
    ensures r.Ok? ==> forall k :: k in OptionNames ==> (Get(r.value.options, k) ==
      (if LastAssigned(xs, k).Some? then LastAssigned(xs, k) else Some(Unset)))
    ensures r.Ok? ==> (r.value.binary == binary && r.value.inputs == inputs
      && r.value.output == output && r.value.operation == operation)
  {
    var configured := Configured(binary);
    forall k
      ensures HasKey(configured.options, k) <==> k in OptionNames
    {
      HasKeyInKeys(configured.options, k);
    }
    var options :- MergeOptions(configured, xs);
    Ok(Wrapper(binary, options, inputs, output, operation))
  }

  function SetBinary(w: Wrapper, binary: string): (r: Wrapper)
    ensures r.binary == binary && r.(binary := w.binary) == w
  {
    w.(binary := binary)
  }

  /** `addInput`: the file goes after the others. */
  function AddInput(w: Wrapper, f: InputFile): (r: Wrapper)
    ensures r.inputs == w.inputs + [f] && r.(inputs := w.inputs) == w
  {
    w.(inputs := w.inputs + [f])
  }

  /** `setInputs` adds each file with `addInput`: the files are appended to
      the ones already there, not put in their place. */
  function SetInputs(w: Wrapper, fs: seq<InputFile>): (r: Wrapper)
    ensures r.inputs == w.inputs + fs && r.(inputs := w.inputs) == w
    decreases |fs|
  {
    if |fs| == 0 then w
    else
      var r := SetInputs(AddInput(w, fs[0]), fs[1..]);
      assert w.inputs + [fs[0]] + fs[1..] == w.inputs + fs;
      r
  }

  function SetOperation(w: Wrapper, op: Operation): (r: Wrapper)
    ensures r.operation == Some(op) && r.(operation := w.operation) == w
  {
    w.(operation := Some(op))
  }

  function SetOutput(w: Wrapper, output: Option<string>): (r: Wrapper)
    ensures r.output == output && r.(output := w.output) == w
  {
    w.(output := output)
  }

  /** ` HANDLE=path` for each input file, in order, unquoted. */
  function InputsText(inputs: seq<InputFile>): string
    decreases |inputs|
  {
    if |inputs| == 0 then ""
    else " " + inputs[0].handle + "=" + inputs[0].filePath + InputsText(inputs[1..])
  }

  /** `HANDLE=password` for each input file that has a password. */
  function Passwords(inputs: seq<InputFile>): seq<string>
    decreases |inputs|
  {
    if |inputs| == 0 then []
    else
      (if inputs[0].password.Some? then [inputs[0].handle + "=" + inputs[0].password.value] else [])
      + Passwords(inputs[1..])
  }

  /** `input_pw` appears in the command exactly when some input file has
      a password. */
  lemma {:induction false} PasswordsIffSome(inputs: seq<InputFile>)
    ensures |Passwords(inputs)| > 0 <==> exists i :: 0 <= i < |inputs| && inputs[i].password.Some?
    ensures PasswordText(inputs) != "" <==> exists i :: 0 <= i < |inputs| && inputs[i].password.Some?
    decreases |inputs|
  {
    if |inputs| > 0 {
      PasswordsIffSome(inputs[1..]);
      if exists i :: 0 <= i < |inputs| && inputs[i].password.Some? {
        var i :| 0 <= i < |inputs| && inputs[i].password.Some?;
        if i > 0 {
          assert inputs[1..][i - 1] == inputs[i];
        }
      }
      if exists i :: 0 <= i < |inputs[1..]| && inputs[1..][i].password.Some? {
        var i :| 0 <= i < |inputs[1..]| && inputs[1..][i].password.Some?;
        assert inputs[i + 1] == inputs[1..][i];
      }
    }
  }

  /** One global option: nothing when unset or false, the bare name when
      true, otherwise the name and the quoted value or values. */
  function OptionText(key: string, v: OptionValue): string {
    match v
    case Unset => ""
    case Flag(on) => if on then " " + key else ""
    case Value(t) => " " + key + " " + Escape(t)
    case Values(ts) => " " + key + " " + Join(" ", EscapeAll(ts))
  }

  function OptionsText(options: Options): string
    decreases |options|
  {
    if |options| == 0 then ""
    else OptionText(options[0].key, options[0].value) + OptionsText(options[1..])
  }

  /** ` input_pw` and the passwords, when at least one file has one. */
  function PasswordText(inputs: seq<InputFile>): string {
    var passwords := Passwords(inputs);
    if |passwords| == 0 then "" else " input_pw " + Join(" ", passwords)
  }

  /** The operation's name, then its arguments, each quoted. */
  function OperationText(name: string, arguments: seq<string>): string {
    " " + name + (if |arguments| == 0 then "" else " " + Join(" ", EscapeAll(arguments)))
  }

  /** With a standard input, the command so far becomes the receiving end
      of an `echo` of that input. */
  function Pipe(stdin: Option<string>): string {
    match stdin
    case Some(input) => "echo " + Escape(input) + " | "
    case None => ""
  }

  /** `buildCommand` over what the operation shows of itself. */
  function Assemble(binary: string, inputs: seq<InputFile>, output: Option<string>,
                    call: Option<Invocation>, options: Options): string
  {
    var command := binary + InputsText(inputs) + PasswordText(inputs);
    var command := match call
      case Some(c) =>
        if c.name.Some? then Pipe(c.stdin) + command + OperationText(c.name.value, c.arguments)
        else command
      case None => command;
    command + OutputText(output) + OptionsText(options)
  }

  /** ` output` and the output path, unquoted; an unset path leaves the
      keyword alone. */
  function OutputText(output: Option<string>): string {
    " output " + output.GetOr("")
  }

  function BuildCommand(w: Wrapper, options: Options, env: Env): string {
    var call := match w.operation
      case Some(op) => Some(Interface(op, env))
      case None => None;
    Assemble(w.binary, w.inputs, w.output, call, options)
  }

  /** `getCommand`: the command with the given options merged in. */
  function GetCommand(w: Wrapper, xs: Assignments, env: Env): (r: Result<string>)
    ensures r.Ok? <==> MergeOptions(w, xs).Ok?
    ensures r.Err? ==> r.error == MergeOptions(w, xs).error
  {
    var options :- MergeOptions(w, xs);
    Ok(BuildCommand(w, options, env))
  }

  /** `generate` up to the command it runs: an input and an output must
      be set, in that order of checking, and the options must merge. */
  function Generate(w: Wrapper, xs: Assignments, env: Env): (r: Result<string>)
    ensures r.Ok? <==> |w.inputs| > 0 && w.output.Some? && MergeOptions(w, xs).Ok?
    ensures |w.inputs| == 0 ==> r == Err(MissingInput)
    ensures |w.inputs| > 0 && w.output.None? ==> r == Err(MissingOutput)
    ensures |w.inputs| > 0 && w.output.Some? ==> r == GetCommand(w, xs, env)
    ensures |w.inputs| > 0 && w.output.Some? && r.Err? ==>
      exists f :: (0 <= f < |xs| && r.error == UnknownOption(xs[f].0) && !HasKey(w.options, xs[f].0)
        && forall i :: 0 <= i < f ==> HasKey(w.options, xs[i].0))
  {
    if |w.inputs| == 0 then Err(MissingInput)
    else if w.output.None? then Err(MissingOutput)
    else GetCommand(w, xs, env)
  }

  /** `checkProcessStatus`: a run fails only when the exit status is not
      zero and something was written to the error output. */
  function CheckProcessStatus(status: int, stdout: string, stderr: string, command: string): (r: Outcome)
    ensures r.Fail? <==> status != 0 && |stderr| > 0
    ensures r.Fail? ==> r.error == ProcessFailed(status, stdout, stderr, command)
  {
    if status != 0 && stderr != "" then Fail(ProcessFailed(status, stdout, stderr, command)) else Pass
  }

  /** What running a command in the shell gives back. */
  datatype ProcessResult = ProcessResult(status: int, stdout: string, stderr: string)

  /** `generate`: builds the command, runs it with `execute`, and checks
      the status. Preparing the output file is not part of this model. */
  function Run(w: Wrapper, xs: Assignments, env: Env, execute: string -> ProcessResult): (r: Outcome)
    ensures Generate(w, xs, env).Err? ==> r == Fail(Generate(w, xs, env).error)
    ensures Generate(w, xs, env).Ok? ==>
      var p := execute(Generate(w, xs, env).value);
      (r.Fail? <==> p.status != 0 && |p.stderr| > 0)
  {
    match Generate(w, xs, env)
    case Err(e) => Fail(e)
    case Ok(command) =>
      var p := execute(command);
      CheckProcessStatus(p.status, p.stdout, p.stderr, command)
  }

  /** An operation with no name adds nothing to the command: the no-op
      is the same as no operation at all. */
  lemma NoopIsNoOperation(w: Wrapper, options: Options, env: Env)
    ensures BuildCommand(w.(operation := Some(Noop)), options, env) == BuildCommand(w.(operation := None), options, env)
  {
    assert Name(Noop) == None;
  }

  /** The test suite's status checks: success on status 0, and on a
      non-zero status with nothing on the error output. */
  lemma StatusExamples()
    ensures CheckProcessStatus(0, "", "", "the command") == Pass
    ensures CheckProcessStatus(1, "", "", "the command") == Pass
    ensures CheckProcessStatus(1, "", "Could not connect to X", "the command").Fail?
  {
  }
}
