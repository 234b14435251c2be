/** FormData: the named fields of a PDF form and their rendering as an
    XFDF document, which the fill-form operation sends to pdftk's standard
    input. A field whose value is null is declared but, for PHP's `isset`,
    not set: it can be added again and cannot be read or set. */
module Forms {
  import opened Results
  import opened Host
  import opened Text
  import opened OrderedMaps
  import opened Markup

  datatype FormData = FormData(fields: OrderedMap<Option<string>>)

  const Empty: FormData := FormData([])

  /** A list of (name, value) updates, as PHP's `foreach` walks an array. */
  type Updates = seq<(string, Option<string>)>

  /** The keys of a PHP array are distinct. */
  predicate DistinctNames(fs: Updates) {
    forall i, j :: 0 <= i < j < |fs| ==> fs[i].0 != fs[j].0
  }

  /** PHP `isset($fields[$name])`: present with a non-null value. */
  predicate HasField(fd: FormData, name: string) {
    Get(fd.fields, name).Some? && Get(fd.fields, name).value.Some?
  }

  function AddField(fd: FormData, name: string, value: Option<string>): (r: Result<FormData>)
    ensures r.Ok? <==> !HasField(fd, name)
    ensures r.Err? ==> r.error == DuplicateField(name)
    ensures r.Ok? ==> Get(r.value.fields, name) == Some(value)
    ensures r.Ok? ==> forall k :: k != name ==> Get(r.value.fields, k) == Get(fd.fields, k)
    ensures r.Ok? && UniqueKeys(fd.fields) ==> UniqueKeys(r.value.fields)
    ensures r.Ok? && !HasKey(fd.fields, name) ==> Keys(r.value.fields) == Keys(fd.fields) + [name]
  {
    if HasField(fd, name) then Err(DuplicateField(name))
    else Ok(FormData(Put(fd.fields, name, value)))
  }

  function SetField(fd: FormData, name: string, value: Option<string>): (r: Result<FormData>)
    ensures r.Ok? <==> HasField(fd, name)
    ensures r.Err? ==> r.error == UnknownField(name)
    ensures r.Ok? ==> Get(r.value.fields, name) == Some(value)
    ensures r.Ok? ==> forall k :: k != name ==> Get(r.value.fields, k) == Get(fd.fields, k)
    ensures r.Ok? ==> Keys(r.value.fields) == Keys(fd.fields)
    ensures r.Ok? && UniqueKeys(fd.fields) ==> UniqueKeys(r.value.fields)
  {
    if !HasField(fd, name) then Err(UnknownField(name))
    else Ok(FormData(Put(fd.fields, name, value)))
  }

  function GetField(fd: FormData, name: string): (r: Result<string>)
    ensures r.Ok? <==> HasField(fd, name)
    ensures r.Ok? ==> Get(fd.fields, name) == Some(Some(r.value))
    ensures r.Err? ==> r.error == UnknownField(name)
  {
    if !HasField(fd, name) then Err(UnknownField(name))
    else Ok(Get(fd.fields, name).value.value)
  }

  /** `addFields`: adds the fields one by one and stops at the first that
      is already set, keeping the ones added before it. */
  function AddFields(fd: FormData, fs: Updates): (r: Applied<FormData>)
    ensures r.failedAt.Some? ==> r.failedAt.value < |fs|
    decreases |fs|
  {
    if |fs| == 0 then Applied(fd, None)
    else match AddField(fd, fs[0].0, fs[0].1)
      case Err(_) => Applied(fd, Some(0))
      case Ok(next) => AddFields(next, fs[1..]).Shifted()
  }

  /** `setFields`: sets the fields one by one and stops at the first that is
      not set, keeping the ones set before it. */
  function SetFields(fd: FormData, fs: Updates): (r: Applied<FormData>)
    ensures r.failedAt.Some? ==> r.failedAt.value < |fs|
    decreases |fs|
  {
    if |fs| == 0 then Applied(fd, None)
    else match SetField(fd, fs[0].0, fs[0].1)
      case Err(_) => Applied(fd, Some(0))
      case Ok(next) => SetFields(next, fs[1..]).Shifted()
  }

  lemma PrefixHead(fs: Updates, k: nat)
    requires k < |fs|
    ensures |fs[..k + 1]| > 0 && fs[..k + 1][0] == fs[0] && fs[..k + 1][1..] == fs[1..][..k]
  {
  }

  /** A batch that fails at update `k` leaves exactly the state the first
      `k` updates reach without failing, and update `k` names a field that
      is already set. */
  lemma {:induction false} AddFieldsStops(fd: FormData, fs: Updates)
    ensures var r := AddFields(fd, fs);
      r.failedAt.Some? ==>
        var k := r.failedAt.value;
        AddFields(fd, fs[..k]) == Applied(r.state, None) && HasField(r.state, fs[k].0)
    decreases |fs|
  {
    if |fs| > 0 && AddField(fd, fs[0].0, fs[0].1).Ok? {
      var next := AddField(fd, fs[0].0, fs[0].1).value;
      AddFieldsStops(next, fs[1..]);
      var rest := AddFields(next, fs[1..]);
      if rest.failedAt.Some? {
        var k := rest.failedAt.value;
        var prefix := fs[..k + 1];
        PrefixHead(fs, k);
        assert AddFields(fd, prefix) == AddFields(next, fs[1..][..k]).Shifted();
      }
    }
  }

  /** The same for `setFields`: update `k` names a field that is not set. */
  lemma {:induction false} SetFieldsStops(fd: FormData, fs: Updates)
    ensures var r := SetFields(fd, fs);
      r.failedAt.Some? ==>
        var k := r.failedAt.value;
        SetFields(fd, fs[..k]) == Applied(r.state, None) && !HasField(r.state, fs[k].0)
    decreases |fs|
  {
    if |fs| > 0 && SetField(fd, fs[0].0, fs[0].1).Ok? {
      var next := SetField(fd, fs[0].0, fs[0].1).value;
      SetFieldsStops(next, fs[1..]);
      var rest := SetFields(next, fs[1..]);
      if rest.failedAt.Some? {
        var k := rest.failedAt.value;
        var prefix := fs[..k + 1];
        PrefixHead(fs, k);
        assert SetFields(fd, prefix) == SetFields(next, fs[1..][..k]).Shifted();
      }
    }
  }

  lemma DistinctTail(fs: Updates)
    requires |fs| > 0 && DistinctNames(fs)
    ensures DistinctNames(fs[1..])
    ensures fs[0].0 !in Names(fs[1..])
    ensures Names(fs) == [fs[0].0] + Names(fs[1..])
  {
    forall i, j | 0 <= i < j < |fs[1..]|
      ensures fs[1..][i].0 != fs[1..][j].0
    {
      assert fs[1..][i] == fs[i + 1] && fs[1..][j] == fs[j + 1];
    }
  }

  lemma FreshAfterAdd(fd: FormData, next: FormData, fs: Updates)
    requires |fs| > 0 && DistinctNames(fs)
    requires Keys(next.fields) == Keys(fd.fields) + [fs[0].0]
    requires forall i :: 0 <= i < |fs| ==> !HasKey(fd.fields, fs[i].0)
    ensures forall i :: 0 <= i < |fs[1..]| ==> !HasKey(next.fields, fs[1..][i].0)
  {
    forall i | 0 <= i < |fs[1..]|
      ensures !HasKey(next.fields, fs[1..][i].0)
    {
      HasKeyInKeys(fd.fields, fs[i + 1].0);
      HasKeyInKeys(next.fields, fs[i + 1].0);
      assert fs[1..][i].0 == fs[i + 1].0 != fs[0].0;
    }
  }

  /** The first of a batch of fresh names is added, and the rest are
      still fresh afterwards. */
  lemma AddFreshStep(fd: FormData, fs: Updates)
    requires |fs| > 0 && DistinctNames(fs)
    requires forall i :: 0 <= i < |fs| ==> !HasKey(fd.fields, fs[i].0)
    ensures AddField(fd, fs[0].0, fs[0].1).Ok?
    ensures var next := AddField(fd, fs[0].0, fs[0].1).value;
      && Keys(next.fields) == Keys(fd.fields) + [fs[0].0]
      && DistinctNames(fs[1..])
      && (forall i :: 0 <= i < |fs[1..]| ==> !HasKey(next.fields, fs[1..][i].0))
  {
    assert !HasKey(fd.fields, fs[0].0);
    var next := AddField(fd, fs[0].0, fs[0].1).value;
    DistinctTail(fs);
    FreshAfterAdd(fd, next, fs);
  }

  lemma {:induction false} AddFieldsFreshKeys(fd: FormData, fs: Updates)
    requires DistinctNames(fs)
    requires forall i :: 0 <= i < |fs| ==> !HasKey(fd.fields, fs[i].0)
    ensures AddFields(fd, fs).failedAt == None
    ensures Keys(AddFields(fd, fs).state.fields) == Keys(fd.fields) + Names(fs)
    decreases |fs|
  {
    if |fs| == 0 {
      assert Keys(fd.fields) + Names(fs) == Keys(fd.fields);
    } else {
      var n0 := fs[0].0;
      AddFreshStep(fd, fs);
      var next := AddField(fd, n0, fs[0].1).value;
      AddFieldsFreshKeys(next, fs[1..]);
      var rest := AddFields(next, fs[1..]);
      assert AddFields(fd, fs) == rest.Shifted();
      DistinctTail(fs);
      var kf, nt := Keys(fd.fields), Names(fs[1..]);
      AppendAssoc(kf, [n0], nt);
    }
  }

  lemma {:induction false} AddFieldsFreshOthers(fd: FormData, fs: Updates)
    requires DistinctNames(fs)
    requires forall i :: 0 <= i < |fs| ==> !HasKey(fd.fields, fs[i].0)
    ensures forall k :: k !in Names(fs) ==> Get(AddFields(fd, fs).state.fields, k) == Get(fd.fields, k)
    decreases |fs|
  {
    if |fs| > 0 {
      AddFreshStep(fd, fs);
      var next := AddField(fd, fs[0].0, fs[0].1).value;
      AddFieldsFreshOthers(next, fs[1..]);
      DistinctTail(fs);
      assert AddFields(fd, fs).state == AddFields(next, fs[1..]).state;
    }
  }

  lemma {:induction false} AddFieldsFreshValues(fd: FormData, fs: Updates)
    requires DistinctNames(fs)
    requires forall i :: 0 <= i < |fs| ==> !HasKey(fd.fields, fs[i].0)
    ensures forall i :: 0 <= i < |fs| ==> Get(AddFields(fd, fs).state.fields, fs[i].0) == Some(fs[i].1)
    decreases |fs|
  {
    if |fs| > 0 {
      AddFreshStep(fd, fs);
      var next := AddField(fd, fs[0].0, fs[0].1).value;
      AddFieldsFreshValues(next, fs[1..]);
      AddFieldsFreshOthers(next, fs[1..]);
      DistinctTail(fs);
      var final := AddFields(fd, fs).state;
      assert final == AddFields(next, fs[1..]).state;
      forall i | 0 <= i < |fs|
        ensures Get(final.fields, fs[i].0) == Some(fs[i].1)
      {
        if i > 0 {
          assert fs[i] == fs[1..][i - 1];
        }
      }
    }
  }

  lemma AppendAssoc(a: seq<string>, b: seq<string>, c: seq<string>)
    ensures a + b + c == a + (b + c)
  {
  }

  /** Adding distinct names that are not keys yet never fails: every name
      is appended in order with its value, and nothing else changes. */
  lemma AddFieldsFresh(fd: FormData, fs: Updates)
    requires DistinctNames(fs)
    requires forall i :: 0 <= i < |fs| ==> !HasKey(fd.fields, fs[i].0)
    ensures AddFields(fd, fs).failedAt == None
    ensures Keys(AddFields(fd, fs).state.fields) == Keys(fd.fields) + Names(fs)
    ensures forall i :: 0 <= i < |fs| ==> Get(AddFields(fd, fs).state.fields, fs[i].0) == Some(fs[i].1)
    ensures forall k :: k !in Names(fs) ==> Get(AddFields(fd, fs).state.fields, k) == Get(fd.fields, k)
  {
    AddFieldsFreshKeys(fd, fs);
    AddFieldsFreshValues(fd, fs);
    AddFieldsFreshOthers(fd, fs);
  }

  /** Setting distinct names that are all set never fails: each takes its
      new value in place, and nothing else changes. */
  lemma {:induction false} SetFieldsPresent(fd: FormData, fs: Updates)
    requires DistinctNames(fs)
    requires forall i :: 0 <= i < |fs| ==> HasField(fd, fs[i].0)
    ensures SetFields(fd, fs).failedAt == None
    ensures Keys(SetFields(fd, fs).state.fields) == Keys(fd.fields)
    ensures forall i :: 0 <= i < |fs| ==> Get(SetFields(fd, fs).state.fields, fs[i].0) == Some(fs[i].1)
    ensures forall k :: k !in Names(fs) ==> Get(SetFields(fd, fs).state.fields, k) == Get(fd.fields, k)
    decreases |fs|
  {
    if |fs| > 0 {
      var n0 := fs[0].0;
      var next := SetField(fd, n0, fs[0].1).value;
      DistinctTail(fs);
      forall i | 0 <= i < |fs[1..]|
        ensures HasField(next, fs[1..][i].0)
      {
        assert fs[1..][i].0 == fs[i + 1].0 != n0;
      }
      SetFieldsPresent(next, fs[1..]);
      var final := SetFields(fd, fs).state;
      assert final == SetFields(next, fs[1..]).state;
      forall i | 0 <= i < |fs|
        ensures Get(final.fields, fs[i].0) == Some(fs[i].1)
      {
        if i > 0 {
          assert fs[i] == fs[1..][i - 1];
        }
      }
    }
  }

  lemma DistinctNamesUnique(fields: OrderedMap<Option<string>>, fs: Updates)
    requires DistinctNames(fs) && Keys(fields) == Names(fs)
    ensures UniqueKeys(fields)
  {
    forall i, j | 0 <= i < j < |Keys(fields)|
      ensures Keys(fields)[i] != Keys(fields)[j]
    {
      assert Keys(fields)[i] == fs[i].0 && Keys(fields)[j] == fs[j].0;
    }
    KeysUnique(fields);
  }

  /** The constructor: the fields of a PHP array, added to an empty form.
      Their keys are distinct, so no addition fails. */
  function New(fs: Updates): (r: FormData)
    requires DistinctNames(fs)
    ensures Keys(r.fields) == Names(fs) && UniqueKeys(r.fields)
    ensures forall i :: 0 <= i < |fs| ==> Get(r.fields, fs[i].0) == Some(fs[i].1)
  {
    AddFieldsFresh(Empty, fs);
    assert Keys(Empty.fields) + Names(fs) == Names(fs);
    DistinctNamesUnique(AddFields(Empty, fs).state.fields, fs);
    AddFields(Empty, fs).state
  }

  /** The life of one field as the form's tests walk it: unknown fields
      can be neither read nor set; once added, a field reads back its
      value, cannot be added again, and can be set to a new value. */
  lemma FieldLifecycle(fd: FormData, name: string, v1: string, v2: string)
    requires !HasKey(fd.fields, name)
    ensures GetField(fd, name) == Err(UnknownField(name))
    ensures SetField(fd, name, Some(v1)) == Err(UnknownField(name))
    ensures AddField(fd, name, Some(v1)).Ok?
    ensures var added := AddField(fd, name, Some(v1)).value;
      && GetField(added, name) == Ok(v1)
      && AddField(added, name, Some(v1)) == Err(DuplicateField(name))
      && SetField(added, name, Some(v2)).Ok?
      && GetField(SetField(added, name, Some(v2)).value, name) == Ok(v2)
  {
  }

  /** A field added with a null value is not set: it cannot be read, and
      adding it again replaces the value in place instead of failing. */
  lemma NullFieldIsUnset(fd: FormData, name: string, v: string)
    requires !HasKey(fd.fields, name)
    ensures AddField(fd, name, None).Ok?
    ensures var declared := AddField(fd, name, None).value;
      && !HasField(declared, name)
      && GetField(declared, name) == Err(UnknownField(name))
      && SetField(declared, name, Some(v)) == Err(UnknownField(name))
      && AddField(declared, name, Some(v)).Ok?
      && Keys(AddField(declared, name, Some(v)).value.fields) == Keys(declared.fields)
  {
    var declared := AddField(fd, name, None).value;
    assert HasKey(declared.fields, name);
  }

  /** The (name, value) pairs the XFDF document shows, in insertion order;
      a null value prints as the empty text. */
  function Pairs(fd: FormData): (ps: seq<(string, string)>)
    ensures |ps| == |fd.fields|
    ensures forall i :: 0 <= i < |ps| ==> ps[i].0 == fd.fields[i].key
    ensures forall i :: 0 <= i < |ps| ==> ps[i].1 == fd.fields[i].value.GetOr("")
  {
    seq(|fd.fields|, i requires 0 <= i < |fd.fields| => (fd.fields[i].key, fd.fields[i].value.GetOr("")))
  }

  /** The fixed parts of the XFDF template, between the inserted values. */
  const XfdfOpen: string := "<?xml version=\"1.0\" encoding=\""
  const AfterEncoding: string :=
    " ?>\n<xfdf xmlns=\"http://ns.adobe.com/xfdf/\" xml:space=\"preserve\">\n    <fields>\n        "
  const IdsOpen: string := "\n    </fields>\n    <ids original=\""
  const AfterOriginal: string := " modified=\""
  const AfterModified: string := " />\n    <f href=\""
  const XfdfClose: string := " />\n</xfdf>"

  /** The XFDF template with its five values inserted; each quoted value
      is followed by its closing quote. */
  function XfdfText(encoding: string, fieldsXml: string, original: string, modified: string, href: string): string {
    XfdfOpen + (encoding + (['"'] + (AfterEncoding + (fieldsXml + (IdsOpen + (original + (['"'] +
      (AfterOriginal + (modified + (['"'] + (AfterModified + (href + (['"'] + XfdfClose)))))))))))))
  }

  /** `getXfdf`: the MD5 digest of the file names the original document;
      without an explicit modification stamp, the current time stands in. */
  function GetXfdf(fd: FormData, file: string, modified: Option<string>, encoding: string, env: Env): string {
    var stamp := match modified case Some(m) => m case None => NatToDecimal(env.now);
    XfdfText(encoding, FieldsXml(Pairs(fd)), env.md5(file), stamp, file)
  }

  /** What an XFDF document produced by `getXfdf` says. */
  datatype Xfdf = Xfdf(encoding: string, fields: seq<(string, string)>, original: string, modified: string, href: string)

  /** Reads an XFDF document of the shape `getXfdf` produces. */
  function ReadXfdf(doc: string): Option<Xfdf> {
    match Expect(doc, XfdfOpen)
    case None => None
    case Some(s1) =>
      match SplitAt(s1, '"')
      case None => None
      case Some(enc) =>
        match Expect(enc.1, AfterEncoding)
        case None => None
        case Some(s2) =>
          var fs := ReadFields(s2);
          match ReadIds(fs.1)
          case None => None
          case Some(ids) => Some(Xfdf(enc.0, fs.0, ids.0, ids.1, ids.2))
  }

  /** Reads the part after the fields: the original and modified ids, then
      the file reference, up to the end of the document. */
  function ReadIds(s: string): Option<(string, string, string)> {
    match Expect(s, IdsOpen)
    case None => None
    case Some(s3) =>
      match SplitAt(s3, '"')
      case None => None
      case Some(orig) =>
        match Expect(orig.1, AfterOriginal)
        case None => None
        case Some(s4) =>
          match SplitAt(s4, '"')
          case None => None
          case Some(mod) =>
            match Expect(mod.1, AfterModified)
            case None => None
            case Some(s5) =>
              match SplitAt(s5, '"')
              case None => None
              case Some(href) =>
                if href.1 == XfdfClose then Some((orig.0, mod.0, href.0)) else None
  }

  predicate NoQuote(s: string) {
    forall i :: 0 <= i < |s| ==> s[i] != '"'
  }

  lemma NotAField(s: string)
    requires |s| > 0 && s[0] == '\n'
    ensures ParseField(s) == None
  {
    assert !StartsWith(s, "<field name=\"") by {
      if |s| >= 13 {
        assert s[..13][0] == '\n';
      }
    }
  }

  lemma IdsRead(original: string, modified: string, href: string)
    requires NoQuote(original) && NoQuote(modified) && NoQuote(href)
    ensures ReadIds(IdsOpen + (original + (['"'] + (AfterOriginal + (modified + (['"'] +
      (AfterModified + (href + (['"'] + XfdfClose))))))))) == Some((original, modified, href))
  {
    var s8 := href + (['"'] + XfdfClose);
    var s7 := AfterModified + s8;
    var s6 := modified + (['"'] + s7);
    var s5 := AfterOriginal + s6;
    var s4 := original + (['"'] + s5);
    ExpectPrefix(IdsOpen, s4);
    SplitAtFirst(original, '"', s5);
    ExpectPrefix(AfterOriginal, s6);
    SplitAtFirst(modified, '"', s7);
    ExpectPrefix(AfterModified, s8);
    SplitAtFirst(href, '"', XfdfClose);
  }

  /** The template read back: when the four values written unescaped hold
      no double quote, every value, and every field pair, is recovered. */
  lemma XfdfTextRead(encoding: string, fields: seq<(string, string)>, original: string, modified: string, href: string)
    requires NoQuote(encoding) && NoQuote(original) && NoQuote(modified) && NoQuote(href)
    ensures ReadXfdf(XfdfText(encoding, FieldsXml(fields), original, modified, href))
      == Some(Xfdf(encoding, fields, original, modified, href))
  {
    var fx := FieldsXml(fields);
    var s4 := original + (['"'] + (AfterOriginal + (modified + (['"'] +
      (AfterModified + (href + (['"'] + XfdfClose)))))));
    var s3 := IdsOpen + s4;
    var s2 := AfterEncoding + (fx + s3);
    var s1 := encoding + (['"'] + s2);
    assert XfdfText(encoding, fx, original, modified, href) == XfdfOpen + s1;
    ExpectPrefix(XfdfOpen, s1);
    SplitAtFirst(encoding, '"', s2);
    ExpectPrefix(AfterEncoding, fx + s3);
    assert s3[0] == '\n';
    NotAField(s3);
    FieldsRoundTrip(fields, s3);
    IdsRead(original, modified, href);
  }

  /** The document `getXfdf` produces shows the form's fields in order,
      the file's digest, the stamp (the current time when none is given)
      and the file itself. */
  lemma XfdfShowsForm(fd: FormData, file: string, modified: Option<string>, encoding: string, env: Env)
    requires HexDigests(env)
    requires NoQuote(encoding) && NoQuote(file)
    requires modified.Some? ==> NoQuote(modified.value)
    ensures ReadXfdf(GetXfdf(fd, file, modified, encoding, env)) == Some(Xfdf(
      encoding, Pairs(fd), env.md5(file),
      if modified.Some? then modified.value else NatToDecimal(env.now),
      file))
  {
    var stamp := if modified.Some? then modified.value else NatToDecimal(env.now);
    assert NoQuote(stamp);
    assert IsHexDigest(env.md5(file));
    XfdfTextRead(encoding, Pairs(fd), env.md5(file), stamp, file);
  }
}
