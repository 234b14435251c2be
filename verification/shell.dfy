/** Shell quoting of command arguments, and the reading of a command line
    back into words.

    `Escape` is PHP's `escapeshellarg` under the POSIX rules of section 2.2.2
    ("Single-Quotes") of the Shell Command Language, IEEE Std 1003.1: the text
    is wrapped in single quotes and every single quote inside it becomes
    `'\''` (close the quote, an escaped quote, reopen).

    `Words` is the part of the shell's token recognition that the assembled
    command relies on: blanks separate words, single quotes preserve
    everything up to the next single quote, a backslash outside quotes
    preserves the next character. Plain words in the model are restricted
    to characters the shell treats literally, so reading them this way is
    what the shell does. */
module Shell {
  import opened Results
  import opened Text

  function QuoteBody(s: string): string
    decreases |s|
  {
    if |s| == 0 then ""
    else QuoteChar(s[0]) + QuoteBody(s[1..])
  }

  /** Inside single quotes every character stands for itself except the
      quote, which closes, escapes a quote and reopens. */
  function QuoteChar(c: char): string {
    if c == '\'' then "'\\''" else [c]
  }

  /** PHP `escapeshellarg`. */
  function Escape(s: string): (r: string)
    ensures |r| >= 2 && r[0] == '\'' && r[|r| - 1] == '\''
  {
    "'" + QuoteBody(s) + "'"
  }

  /** A character the shell takes literally when it is not quoted. */
  predicate IsPlainChar(c: char) {
    c !in " \t\n\r'\"\\$`|&;<>()*?[]{}#~!^"
  }

  /** A word the command builder inserts without quoting that still reaches
      the program unchanged: non-empty, and only literal characters. */
  predicate IsPlainWord(w: string) {
    |w| > 0 && forall i :: 0 <= i < |w| ==> IsPlainChar(w[i])
  }

  /** Lower-case letters, digits and underscores, as in pdftk's keywords. */
  predicate IsKeyword(w: string) {
    |w| > 0 && forall i :: 0 <= i < |w| ==> 'a' <= w[i] <= 'z' || '0' <= w[i] <= '9' || w[i] == '_'
  }

  lemma KeywordIsPlain(w: string)
    requires IsKeyword(w)
    ensures IsPlainWord(w)
  {
    forall i | 0 <= i < |w|
      ensures IsPlainChar(w[i])
    {
      assert 'a' <= w[i] <= 'z' || '0' <= w[i] <= '9' || w[i] == '_';
    }
  }

  /** A word without a single quote passes through quoting unchanged. */
  lemma {:induction false} QuoteBodyPlain(w: string)
    requires forall i :: 0 <= i < |w| ==> IsPlainChar(w[i])
    ensures QuoteBody(w) == w
    decreases |w|
  {
    if |w| > 0 {
      assert w[0] != '\'';
      QuoteBodyPlain(w[1..]);
      assert [w[0]] + w[1..] == w;
    }
  }

  /** A plain word is quoted by wrapping it in single quotes. */
  lemma EscapePlain(w: string)
    requires IsPlainWord(w)
    ensures Escape(w) == "'" + w + "'"
  {
    QuoteBodyPlain(w);
  }

  datatype Scan = Scan(word: string, rest: string)

  /** Reads the remainder of a word outside quotes, `acc` holding what has
      been read so far; stops before a blank or at the end of the line. */
  function ReadUnquoted(s: string, acc: string): (r: Option<Scan>)
    ensures r.Some? ==> |r.value.rest| <= |s|
    ensures r.Some? && |s| > 0 && s[0] != ' ' ==> |r.value.rest| < |s|
    decreases |s|
  {
    if |s| == 0 then Some(Scan(acc, ""))
    else if s[0] == ' ' then Some(Scan(acc, s))
    else if s[0] == '\'' then ReadQuoted(s[1..], acc)
    else if s[0] == '\\' then
      (if |s| == 1 then Some(Scan(acc + "\\", "")) else ReadUnquoted(s[2..], acc + [s[1]]))
    else ReadUnquoted(s[1..], acc + [s[0]])
  }

  /** Reads inside single quotes; an unterminated quote is a syntax error. */
  function ReadQuoted(s: string, acc: string): (r: Option<Scan>)
    ensures r.Some? ==> |r.value.rest| < |s|
    decreases |s|
  {
    if |s| == 0 then None
    else if s[0] == '\'' then ReadUnquoted(s[1..], acc)
    else ReadQuoted(s[1..], acc + [s[0]])
  }

  /** The words of a command line, or None on an unterminated quote. */
  function Words(s: string): Option<seq<string>>
    decreases |s|
  {
    if |s| == 0 then Some([])
    else if s[0] == ' ' then Words(s[1..])
    else
      match ReadUnquoted(s, "")
      case None => None
      case Some(sc) =>
        match Words(sc.rest)
        case None => None
        case Some(ws) => Some([sc.word] + ws)
  }

  /** What follows a word: nothing, or a separating blank. */
  predicate Boundary(rest: string) {
    |rest| == 0 || rest[0] == ' '
  }

  lemma {:induction false} ReadPlain(w: string, rest: string, acc: string)
    requires forall i :: 0 <= i < |w| ==> IsPlainChar(w[i])
    requires Boundary(rest)
    ensures ReadUnquoted(w + rest, acc) == Some(Scan(acc + w, rest))
    decreases |w|
  {
    if |w| > 0 {
      assert (w + rest)[0] == w[0];
      assert (w + rest)[1..] == w[1..] + rest;
      ReadPlain(w[1..], rest, acc + [w[0]]);
      assert acc + [w[0]] + w[1..] == acc + w;
    } else {
      assert w + rest == rest;
      assert acc + w == acc;
    }
  }

  /** The closing quote ends the quoted part; at a boundary, the word. */
  lemma ReadClosingQuote(rest: string, acc: string)
    requires Boundary(rest)
    ensures ReadQuoted("'" + rest, acc) == Some(Scan(acc, rest))
  {
    var s := "'" + rest;
    assert s[0] == '\'' && s[1..] == rest;
    if |rest| > 0 {
      assert ReadUnquoted(rest, acc) == Some(Scan(acc, rest));
    }
  }

  /** `'\''` inside quotes: close, escaped quote, reopen. */
  lemma ReadQuoteInQuotes(tail: string, acc: string)
    ensures ReadQuoted("'\\''" + tail, acc) == ReadQuoted(tail, acc + ['\''])
  {
    var s := "'\\''" + tail;
    var s1 := s[1..];
    assert s[0] == '\'';
    assert s1 == "\\''" + tail;
    assert s1[0] == '\\' && s1[1] == '\'' && |s1| > 1;
    assert s1[2..] == "'" + tail;
    assert ("'" + tail)[1..] == tail;
    assert ReadQuoted(s, acc) == ReadUnquoted(s1, acc);
    assert ReadUnquoted(s1, acc) == ReadUnquoted("'" + tail, acc + ['\'']);
  }

  lemma ReadCharInQuotes(c: char, tail: string, acc: string)
    requires c != '\''
    ensures ReadQuoted([c] + tail, acc) == ReadQuoted(tail, acc + [c])
  {
    assert ([c] + tail)[1..] == tail;
  }

  lemma QuoteBodyCons(x: string, rest: string)
    requires |x| > 0
    ensures QuoteBody(x) + "'" + rest == QuoteChar(x[0]) + (QuoteBody(x[1..]) + "'" + rest)
  {
    Regroup3(QuoteChar(x[0]), QuoteBody(x[1..]), "'", rest);
  }

  lemma Regroup3(a: string, b: string, c: string, d: string)
    ensures a + b + c + d == a + (b + c + d)
  {
  }

  lemma {:induction false} ReadQuoteBody(x: string, rest: string, acc: string)
    requires Boundary(rest)
    ensures ReadQuoted(QuoteBody(x) + "'" + rest, acc) == Some(Scan(acc + x, rest))
    decreases |x|
  {
    if |x| == 0 {
      assert QuoteBody(x) + "'" + rest == "'" + rest;
      ReadClosingQuote(rest, acc);
      assert acc + x == acc;
    } else {
      var tail := QuoteBody(x[1..]) + "'" + rest;
      ReadQuoteBody(x[1..], rest, acc + [x[0]]);
      assert acc + [x[0]] + x[1..] == acc + x;
      QuoteBodyCons(x, rest);
      if x[0] == '\'' {
        ReadQuoteInQuotes(tail, acc);
      } else {
        ReadCharInQuotes(x[0], tail, acc);
      }
    }
  }

  lemma ReadEscaped(x: string, rest: string, acc: string)
    requires Boundary(rest)
    ensures ReadUnquoted(Escape(x) + rest, acc) == Some(Scan(acc + x, rest))
  {
    var s := Escape(x) + rest;
    assert s[0] == '\'';
    assert s[1..] == QuoteBody(x) + "'" + rest;
    ReadQuoteBody(x, rest, acc);
  }

  /** `escapeshellarg` always yields exactly one word, and the shell reads
      that word back as the original text, whatever characters it holds. */
  lemma EscapeIsOneWord(x: string)
    ensures Words(Escape(x)) == Some([x])
  {
    var e := Escape(x);
    ReadEscaped(x, "", "");
    assert e + "" == e;
    assert "" + x == x;
    assert ReadUnquoted(e, "") == Some(Scan(x, ""));
    assert |e| > 0 && e[0] != ' ';
    assert Words("") == Some([]);
    assert [x] + [] == [x];
  }

  /** A word as the command builder emits it: inserted as is, or through
      `escapeshellarg`. */
  datatype Piece = Plain(text: string) | Quoted(text: string)

  function Render(p: Piece): string {
    match p
    case Plain(t) => t
    case Quoted(t) => Escape(t)
  }

  predicate ValidPiece(p: Piece) {
    p.Plain? ==> IsPlainWord(p.text)
  }

  predicate AllValidPieces(ps: seq<Piece>) {
    forall i :: 0 <= i < |ps| ==> ValidPiece(ps[i])
  }

  /** The pieces, each preceded by one blank: how the builder appends. */
  function Line(ps: seq<Piece>): string
    decreases |ps|
  {
    if |ps| == 0 then "" else " " + Render(ps[0]) + Line(ps[1..])
  }

  function Texts(ps: seq<Piece>): (ts: seq<string>)
    ensures |ts| == |ps| && forall i :: 0 <= i < |ps| ==> ts[i] == ps[i].text
  {
    seq(|ps|, i requires 0 <= i < |ps| => ps[i].text)
  }

  lemma WordsAfterBlank(s: string)
    ensures Words(" " + s) == Words(s)
  {
    assert (" " + s)[1..] == s;
  }

  /** One emitted piece in front of a boundary contributes exactly its
      text as one word. */
  lemma WordsOfPiece(p: Piece, rest: string)
    requires ValidPiece(p) && Boundary(rest)
    ensures Words(" " + Render(p) + rest) ==
      (match Words(rest) case None => None case Some(ws) => Some([p.text] + ws))
  {
    var s := Render(p) + rest;
    assert " " + Render(p) + rest == " " + s;
    WordsAfterBlank(s);
    if p.Plain? {
      ReadPlain(p.text, rest, "");
    } else {
      ReadEscaped(p.text, rest, "");
    }
    assert "" + p.text == p.text;
    assert |s| > 0 && s[0] != ' ';
  }

  lemma {:induction false} WordsOfLine(ps: seq<Piece>)
    requires AllValidPieces(ps)
    ensures Words(Line(ps)) == Some(Texts(ps))
    decreases |ps|
  {
    if |ps| > 0 {
      WordsOfLine(ps[1..]);
      WordsOfPiece(ps[0], Line(ps[1..]));
      assert Texts(ps) == [ps[0].text] + Texts(ps[1..]);
    }
  }

  lemma LineBoundary(ps: seq<Piece>, rest: string)
    requires Boundary(rest)
    ensures Boundary(Line(ps) + rest)
  {
    if |ps| > 0 {
      assert (Line(ps) + rest)[0] == ' ';
    } else {
      assert Line(ps) + rest == rest;
    }
  }

  /** One emitted piece in front of a boundary whose words are known. */
  lemma WordsOfPieceThen(p: Piece, rest: string, ws: seq<string>)
    requires ValidPiece(p) && Boundary(rest) && Words(rest) == Some(ws)
    ensures Words(" " + Render(p) + rest) == Some([p.text] + ws)
  {
    WordsOfPiece(p, rest);
  }

  lemma LineUnfold(ps: seq<Piece>, rest: string)
    requires |ps| > 0
    ensures Line(ps) + rest == " " + Render(ps[0]) + (Line(ps[1..]) + rest)
  {
    var head, line := Render(ps[0]), Line(ps[1..]);
    assert Line(ps) == " " + head + line;
    Regroup(" ", head, line, rest);
  }

  lemma Regroup(a: string, b: string, c: string, d: string)
    ensures a + b + c + d == a + b + (c + d)
  {
  }

  lemma TextsCons(ps: seq<Piece>, ws: seq<string>)
    requires |ps| > 0
    ensures [ps[0].text] + (Texts(ps[1..]) + ws) == Texts(ps) + ws
  {
    assert Texts(ps) == [ps[0].text] + Texts(ps[1..]);
  }

  /** A line of emitted pieces in front of a boundary contributes exactly
      the pieces' texts, in order, to the words read. */
  lemma {:induction false} WordsOfLineThen(ps: seq<Piece>, rest: string, ws: seq<string>)
    requires AllValidPieces(ps) && Boundary(rest) && Words(rest) == Some(ws)
    ensures Words(Line(ps) + rest) == Some(Texts(ps) + ws)
    decreases |ps|
  {
    if |ps| == 0 {
      assert Line(ps) + rest == rest;
      assert Texts(ps) + ws == ws;
    } else {
      var tail := Line(ps[1..]) + rest;
      var texts := Texts(ps[1..]);
      LineUnfold(ps, rest);
      LineBoundary(ps[1..], rest);
      WordsOfLineThen(ps[1..], rest, ws);
      WordsOfPieceThen(ps[0], tail, texts + ws);
      TextsCons(ps, ws);
    }
  }

  /** A plain word in front of a boundary is read as itself. */
  lemma WordsOfPlainThen(w: string, rest: string, ws: seq<string>)
    requires IsPlainWord(w) && Boundary(rest) && Words(rest) == Some(ws)
    ensures Words(w + rest) == Some([w] + ws)
  {
    ReadPlain(w, rest, "");
    assert "" + w == w;
    assert (w + rest)[0] == w[0];
  }

  lemma {:induction false} LineAppend(a: seq<Piece>, b: seq<Piece>)
    ensures Line(a + b) == Line(a) + Line(b)
    decreases |a|
  {
    if |a| == 0 {
      assert a + b == b;
    } else {
      assert (a + b)[1..] == a[1..] + b;
      LineAppend(a[1..], b);
    }
  }

  function QuotedAll(xs: seq<string>): (ps: seq<Piece>)
    ensures |ps| == |xs| && forall i :: 0 <= i < |xs| ==> ps[i] == Quoted(xs[i])
  {
    seq(|xs|, i requires 0 <= i < |xs| => Quoted(xs[i]))
  }

  function EscapeAll(xs: seq<string>): (es: seq<string>)
    ensures |es| == |xs| && forall i :: 0 <= i < |xs| ==> es[i] == Escape(xs[i])
  {
    seq(|xs|, i requires 0 <= i < |xs| => Escape(xs[i]))
  }

  /** `' ' . implode(' ', array_map('escapeshellarg', xs))` is the line of
      the quoted pieces. */
  lemma {:induction false} JoinEscapedIsLine(xs: seq<string>)
    requires |xs| > 0
    ensures " " + Join(" ", EscapeAll(xs)) == Line(QuotedAll(xs))
    decreases |xs|
  {
    if |xs| > 1 {
      JoinEscapedIsLine(xs[1..]);
      assert EscapeAll(xs)[1..] == EscapeAll(xs[1..]);
      assert QuotedAll(xs)[1..] == QuotedAll(xs[1..]);
    } else {
      assert QuotedAll(xs)[1..] == [];
    }
  }

  /** `implode(' ', words)` of plain words is the line of plain pieces. */
  function PlainAll(xs: seq<string>): (ps: seq<Piece>)
    ensures |ps| == |xs| && forall i :: 0 <= i < |xs| ==> ps[i] == Plain(xs[i])
  {
    seq(|xs|, i requires 0 <= i < |xs| => Plain(xs[i]))
  }

  lemma {:induction false} JoinPlainIsLine(xs: seq<string>)
    requires |xs| > 0
    ensures " " + Join(" ", xs) == Line(PlainAll(xs))
    decreases |xs|
  {
    if |xs| > 1 {
      JoinPlainIsLine(xs[1..]);
      assert PlainAll(xs)[1..] == PlainAll(xs[1..]);
    } else {
      assert PlainAll(xs)[1..] == [];
    }
  }
}
