/** The page-range syntax read back.

    Two facts tie the validation and the serialisation of PageRange to an
    independent description of pdftk's page-range language:
    - the page-token pattern accepts exactly the texts of the typed page
      tokens (a page number, `end`, and their `r`-prefixed reverse forms);
    - the serialisation of a well-formed page range can be parsed back, so
      two page ranges with the same text show the same parts. What is shown
      is `View`: the end page only when a start page is set, the qualifier
      only when an end page is set. */
module PageRangeSyntax {
  import opened Results
  import opened Text
  import opened PageRanges

  datatype PageToken = Page(n: nat) | End | ReversePage(n: nat) | ReverseEnd

  predicate ValidToken(t: PageToken) {
    (t.Page? || t.ReversePage?) ==> t.n > 0
  }

  function TokenText(t: PageToken): string {
    match t
    case Page(n) => NatToDecimal(n)
    case End => "end"
    case ReversePage(n) => "r" + NatToDecimal(n)
    case ReverseEnd => "rend"
  }

  predicate IsPositiveDecimal(s: string) {
    |s| > 0 && '1' <= s[0] <= '9' && AllDigits(s[1..])
  }

  lemma PositiveDecimalDigits(s: string)
    requires IsPositiveDecimal(s)
    ensures AllDigits(s) && s[0] != '0'
  {
    assert forall i :: 1 <= i < |s| ==> s[i] == s[1..][i - 1];
  }

  function ParseToken(s: string): PageToken
    requires IsStrictPageToken(s)
  {
    if s == "end" then End
    else if s == "rend" then ReverseEnd
    else if s[0] == 'r' then
      PositiveDecimalDigits(s[1..]);
      ReversePage(DecimalValue(s[1..]))
    else
      PositiveDecimalDigits(s);
      Page(DecimalValue(s))
  }

  lemma DecimalTokenPositive(s: string)
    requires IsPositiveDecimal(s)
    ensures AllDigits(s) && DecimalValue(s) > 0 && NatToDecimal(DecimalValue(s)) == s
  {
    PositiveDecimalDigits(s);
    DecimalCanonical(s);
  }

  /** Every typed page token is accepted by the page-token pattern. */
  lemma TokenTextAccepted(t: PageToken)
    requires ValidToken(t)
    ensures IsStrictPageToken(TokenText(t)) && IsPageToken(TokenText(t))
  {
    match t
    case Page(n) =>
      var d := NatToDecimal(n);
      assert forall i :: 0 <= i < |d[1..]| ==> d[1..][i] == d[i + 1];
    case ReversePage(n) =>
      var d := NatToDecimal(n);
      assert forall i :: 0 <= i < |d[1..]| ==> d[1..][i] == d[i + 1];
      assert ("r" + d)[1..] == d;
    case End =>
    case ReverseEnd =>
      assert "rend"[1..] == "end";
  }

  /** Every text the strict pattern accepts is the text of exactly the
      typed token it parses to. */
  lemma ParseTokenText(s: string)
    requires IsStrictPageToken(s)
    ensures ValidToken(ParseToken(s)) && TokenText(ParseToken(s)) == s
  {
    if s == "end" || s == "rend" {
    } else if s[0] == 'r' {
      assert s[1..] != "end";
      DecimalTokenPositive(s[1..]);
      assert "r" + s[1..] == s;
    } else {
      DecimalTokenPositive(s);
    }
  }

  /** The examples the tests pin: `1`, `end`, `rend`, `r1` are pages;
      `01`, `r01`, `start` are not; and, through PCRE's `$`, `1` followed by
      a newline is accepted too. */
  lemma PageTokenExamples()
    ensures IsPageToken("1") && IsPageToken("end") && IsPageToken("rend") && IsPageToken("r1")
    ensures !IsPageToken("01") && !IsPageToken("r01") && !IsPageToken("start")
    ensures IsPageToken("1\n") && !IsStrictPageToken("1\n")
  {
    assert "r1"[1..] == "1";
    assert "rend"[1..] == "end";
    assert "r01"[1..] == "01";
    assert "1\n"[..1] == "1";
    assert "01"[..1] == "0";
    assert "r01"[..2] == "r0";
    assert "start"[..4] == "star";
  }

  /** What the text of a page range shows. */
  datatype Shown = Shown(
    handle: string,
    startPage: Option<string>,
    endPage: Option<string>,
    qualifier: Option<string>,
    rotation: Option<string>)

  function View(pr: PageRange): Shown {
    Shown(
      pr.fileHandle,
      pr.startPage,
      if pr.startPage.Some? then pr.endPage else None,
      if pr.endPage.Some? then pr.qualifier else None,
      pr.rotation)
  }

  /** A page range whose every part would pass its setter, with strict
      page tokens. */
  predicate WellFormed(pr: PageRange) {
    && IsHandle(pr.fileHandle)
    && (pr.startPage.Some? ==> IsStrictPageToken(pr.startPage.value))
    && (pr.endPage.Some? ==> IsStrictPageToken(pr.endPage.value))
    && (pr.qualifier.Some? ==> pr.qualifier.value in Qualifiers)
    && (pr.rotation.Some? ==> pr.rotation.value in Rotations)
  }

  function UpperPrefix(s: string): (n: nat)
    ensures n <= |s|
    decreases |s|
  {
    if |s| > 0 && IsUpper(s[0]) then 1 + UpperPrefix(s[1..]) else 0
  }

  function DigitRun(s: string): (n: nat)
    ensures n <= |s|
    decreases |s|
  {
    if |s| > 0 && IsDigit(s[0]) then 1 + DigitRun(s[1..]) else 0
  }

  /** Reads one page token (longest match) at the start of `s`. */
  function ReadToken(s: string): Option<(string, string)> {
    var prefix := if |s| > 0 && s[0] == 'r' then "r" else "";
    var s1 := s[|prefix|..];
    if StartsWith(s1, "end") then Some((prefix + "end", s1[3..]))
    else if |s1| > 0 && '1' <= s1[0] <= '9' then
      var n := DigitRun(s1);
      Some((prefix + s1[..n], s1[n..]))
    else None
  }

  function ReadQualifier(s: string): (Option<string>, string) {
    if StartsWith(s, "even") then (Some("even"), s[4..])
    else if StartsWith(s, "odd") then (Some("odd"), s[3..])
    else (None, s)
  }

  function Finish(handle: string, startPage: Option<string>, endPage: Option<string>, s: string): Option<Shown> {
    var q := ReadQualifier(s);
    if |q.1| == 0 then Some(Shown(handle, startPage, endPage, q.0, None))
    else if q.1 in Rotations then Some(Shown(handle, startPage, endPage, q.0, Some(q.1)))
    else None
  }

  /** Reads a page-range text back into the parts it shows. */
  function Parse(s: string): Option<Shown> {
    var h := UpperPrefix(s);
    if h == 0 then None
    else
      var handle, s1 := s[..h], s[h..];
      var start := ReadToken(s1);
      var s2 := if start.Some? then start.value.1 else s1;
      if start.Some? && |s2| > 0 && s2[0] == '-' then
        match ReadToken(s2[1..])
        case None => None
        case Some(e) => Finish(handle, Some(start.value.0), Some(e.0), e.1)
      else Finish(handle, if start.Some? then Some(start.value.0) else None, None, s2)
  }

  lemma {:induction false} UpperPrefixOf(h: string, x: string)
    requires forall i :: 0 <= i < |h| ==> IsUpper(h[i])
    requires |x| == 0 || !IsUpper(x[0])
    ensures UpperPrefix(h + x) == |h|
    decreases |h|
  {
    if |h| > 0 {
      assert (h + x)[1..] == h[1..] + x;
      UpperPrefixOf(h[1..], x);
    } else {
      assert h + x == x;
    }
  }

  lemma {:induction false} DigitRunOf(d: string, x: string)
    requires AllDigits(d)
    requires |x| == 0 || !IsDigit(x[0])
    ensures DigitRun(d + x) == |d|
    decreases |d|
  {
    if |d| > 0 {
      assert (d + x)[1..] == d[1..] + x;
      DigitRunOf(d[1..], x);
    } else {
      assert d + x == x;
    }
  }

  lemma ReadForward(f: string, x: string, prefix: string)
    requires IsForwardPage(f)
    requires |x| == 0 || !IsDigit(x[0])
    ensures StartsWith(f + x, "end") ==> f == "end"
    ensures f == "end" ==> (f + x)[3..] == x
    ensures f != "end" ==>
      && |f + x| > 0 && '1' <= (f + x)[0] <= '9'
      && DigitRun(f + x) == |f| && prefix + (f + x)[..|f|] == prefix + f && (f + x)[|f|..] == x
  {
    var s := f + x;
    if f == "end" {
      assert s[..3] == "end";
    } else {
      PositiveDecimalDigits(f);
      DigitRunOf(f, x);
      assert s[..|f|] == f && s[|f|..] == x;
      assert !StartsWith(s, "end") by { assert s[0] != 'e'; }
    }
  }

  /** A page token followed by anything that does not continue a number is
      read back as that token. */
  lemma ReadTokenOf(t: string, x: string)
    requires IsStrictPageToken(t)
    requires |x| == 0 || !IsDigit(x[0])
    ensures ReadToken(t + x) == Some((t, x))
  {
    var s := t + x;
    if IsForwardPage(t) && t[0] != 'r' {
      ReadForward(t, x, "");
      assert "" + t == t;
      assert s[0] != 'r';
      assert s[0..] == s;
    } else {
      var f := t[1..];
      assert t == "r" + f;
      assert s == "r" + (f + x);
      assert s[1..] == f + x;
      ReadForward(f, x, "r");
    }
  }

  lemma NoToken(s: string)
    requires |s| >= 3
    requires s[0] != 'r' ==> s[..3] != "end" && !IsDigit(s[0])
    requires s[0] == 'r' ==> |s| >= 4 && s[1..4] != "end" && !IsDigit(s[1])
    ensures ReadToken(s) == None
  {
    if s[0] == 'r' {
      assert s[1..][..3] == s[1..4];
    } else {
      assert s[0..] == s;
    }
  }

  /** Qualifier and rotation words never start a page token, a qualifier is
      read back as itself, and a rotation is not taken for a qualifier. */
  lemma WordFacts(w: string, x: string)
    requires w in Qualifiers || w in Rotations
    ensures ReadToken(w + x) == None
    ensures |w + x| > 0 && !IsUpper((w + x)[0]) && !IsDigit((w + x)[0]) && (w + x)[0] != '-'
    ensures w in Qualifiers ==> ReadQualifier(w + x) == (Some(w), x)
    ensures w in Rotations ==> ReadQualifier(w + x) == (None, w + x)
  {
    var s := w + x;
    assert s[..|w|] == w && s[|w|..] == x;
    assert |w| >= 3 && s[..3] == w[..3];
    if w == "right" {
      assert s[1..4] == "igh";
    }
    assert s[1] == w[1] && s[..3][1] == s[1] && w[1] != 'n';
    NoToken(s);
    if w in Rotations {
      assert s[..3] != "odd";
      if |s| >= 4 {
        assert s[..4] != "even";
      }
    }
  }

  lemma FinishRotation(handle: string, startPage: Option<string>, endPage: Option<string>, q: Option<string>, r: Option<string>)
    requires r.Some? ==> r.value in Rotations
    requires q.Some? ==> q.value in Qualifiers
    ensures Finish(handle, startPage, endPage, q.GetOr("") + r.GetOr("")) == Some(Shown(handle, startPage, endPage, q, r))
  {
    var x := r.GetOr("");
    if q.Some? {
      WordFacts(q.value, x);
    } else {
      assert "" + x == x;
      if r.Some? {
        WordFacts(r.value, "");
        assert r.value + "" == r.value;
      }
    }
  }

  /** What may follow the page tokens of a page-range text: nothing, or a
      word that neither continues nor starts a page token. */
  predicate QuietTail(tail: string) {
    |tail| == 0 || (!IsUpper(tail[0]) && !IsDigit(tail[0]) && tail[0] != '-' && ReadToken(tail) == None)
  }

  lemma SplitHandle(h: string, rest: string)
    requires IsHandle(h)
    requires |rest| == 0 || !IsUpper(rest[0])
    ensures UpperPrefix(h + rest) == |h| > 0
    ensures (h + rest)[..|h|] == h && (h + rest)[|h|..] == rest
  {
    UpperPrefixOf(h, rest);
  }

  lemma ParseBoth(h: string, st: string, en: string, tail: string, v: Shown)
    requires IsHandle(h) && IsStrictPageToken(st) && IsStrictPageToken(en) && QuietTail(tail)
    requires Finish(h, Some(st), Some(en), tail) == Some(v)
    ensures Parse(h + (st + ("-" + en + tail))) == Some(v)
  {
    var afterStart := "-" + (en + tail);
    assert "-" + en + tail == afterStart;
    SplitHandle(h, st + afterStart);
    ReadTokenOf(st, afterStart);
    assert afterStart[1..] == en + tail;
    ReadTokenOf(en, tail);
  }

  lemma ParseStart(h: string, st: string, tail: string, v: Shown)
    requires IsHandle(h) && IsStrictPageToken(st) && QuietTail(tail)
    requires Finish(h, Some(st), None, tail) == Some(v)
    ensures Parse(h + (st + tail)) == Some(v)
  {
    SplitHandle(h, st + tail);
    ReadTokenOf(st, tail);
  }

  lemma ParseNoStart(h: string, tail: string, v: Shown)
    requires IsHandle(h) && QuietTail(tail)
    requires Finish(h, None, None, tail) == Some(v)
    ensures Parse(h + tail) == Some(v)
  {
    SplitHandle(h, tail);
    assert ReadToken(tail) == None by {
      if |tail| == 0 {
        assert !StartsWith(tail, "end");
      }
    }
  }

  lemma ToStringShape(pr: PageRange, tail: string)
    requires tail == (if pr.endPage.Some? then pr.qualifier else None).GetOr("") + pr.rotation.GetOr("")
    ensures pr.startPage.Some? && pr.endPage.Some? ==>
      ToString(pr) == pr.fileHandle + (pr.startPage.value + ("-" + pr.endPage.value + tail))
    ensures pr.startPage.Some? && pr.endPage.None? ==> ToString(pr) == pr.fileHandle + (pr.startPage.value + tail)
    ensures pr.startPage.None? ==> ToString(pr) == pr.fileHandle + tail
  {
    var q := if pr.endPage.Some? && pr.qualifier.Some? then pr.qualifier.value else "";
    var r := if pr.rotation.Some? then pr.rotation.value else "";
    assert tail == q + r;
    if pr.startPage.Some? {
      var st := pr.startPage.value;
      if pr.endPage.Some? {
        var en := "-" + pr.endPage.value;
        assert ToString(pr) == pr.fileHandle + (st + en) + q + r;
        assert "-" + pr.endPage.value + tail == en + (q + r);
      } else {
        assert ToString(pr) == pr.fileHandle + (st + "") + "" + r;
        assert q == "";
      }
    } else {
      assert ToString(pr) == pr.fileHandle + "" + q + r;
    }
  }

  /** The text of a well-formed page range parses back to what it shows:
      the serialisation is unambiguous on the shown parts. */
  lemma ParseToString(pr: PageRange)
    requires WellFormed(pr)
    ensures Parse(ToString(pr)) == Some(View(pr))
  {
    var h := pr.fileHandle;
    var q: Option<string> := if pr.endPage.Some? then pr.qualifier else None;
    var tail := q.GetOr("") + pr.rotation.GetOr("");
    var endShown := if pr.startPage.Some? then pr.endPage else None;
    FinishRotation(h, pr.startPage, endShown, q, pr.rotation);
    assert QuietTail(tail) by {
      if q.Some? {
        WordFacts(q.value, pr.rotation.GetOr(""));
      } else if pr.rotation.Some? {
        WordFacts(pr.rotation.value, "");
        assert tail == pr.rotation.value + "";
      }
    }
    ToStringShape(pr, tail);
    if pr.startPage.Some? && pr.endPage.Some? {
      ParseBoth(h, pr.startPage.value, pr.endPage.value, tail, View(pr));
    } else if pr.startPage.Some? {
      ParseStart(h, pr.startPage.value, tail, View(pr));
    } else {
      ParseNoStart(h, tail, View(pr));
    }
  }

  /** Two well-formed page ranges have the same text exactly when they
      show the same parts. */
  lemma ToStringInjective(a: PageRange, b: PageRange)
    requires WellFormed(a) && WellFormed(b)
    ensures ToString(a) == ToString(b) <==> View(a) == View(b)
  {
    if ToString(a) == ToString(b) {
      ParseToString(a);
      ParseToString(b);
    }
  }

  /** The page setters also take a token followed by one newline, and the
      text of a range holding one does not read back. */
  lemma NewlineTokenUnread()
    ensures var a := New("A", None, None, None, None).value;
      && SetStartPage(a, Some("1\n")).Ok?
      && ToString(SetStartPage(a, Some("1\n")).value) == "A1\n"
      && Parse(ToString(SetStartPage(a, Some("1\n")).value)) == None
  {
    var a := New("A", None, None, None, None).value;
    assert a == PageRange("A", None, None, None, None);
    assert IsPageToken("1\n") by {
      assert "1\n"[..1] == "1" && "1"[1..] == "";
    }
    assert ToString(SetStartPage(a, Some("1\n")).value) == "A1\n";
    NewlineTextUnread();
  }

  lemma NewlineTextUnread()
    ensures Parse("A1\n") == None
  {
    var text := "A1\n";
    UpperPrefixOf("A", "1\n");
    assert text[..1] == "A" && text[1..] == "1\n";
    assert ReadToken("1\n") == Some(("1", "\n")) by {
      assert IsStrictPageToken("1") by {
        assert "1"[1..] == "";
      }
      ReadTokenOf("1", "\n");
      assert "1" + "\n" == "1\n";
    }
    assert Finish("A", Some("1"), None, "\n") == None by {
      assert !StartsWith("\n", "even") && !StartsWith("\n", "odd");
      assert "\n" !in Rotations;
    }
  }
}
