/** Markup escaping for the XFDF document: PHP `htmlspecialchars` with its
    default flags replaces the four characters `& < > "` by the entity
    references of section 4.6 of XML 1.0 (`&amp; &lt; &gt; &quot;`), and the
    `<field>` elements of a form carry escaped names and values. */
module Markup {
  import opened Results
  import opened Text

  function EscapeChar(c: char): string {
    if c == '&' then "&amp;"
    else if c == '<' then "&lt;"
    else if c == '>' then "&gt;"
    else if c == '"' then "&quot;"
    else [c]
  }

  /** PHP `htmlspecialchars`: the result never contains a markup
      delimiter, so it cannot close the attribute or element it sits in. */
  function XmlEscape(s: string): (r: string)
    ensures forall i :: 0 <= i < |r| ==> r[i] != '<' && r[i] != '>' && r[i] != '"'
    decreases |s|
  {
    if |s| == 0 then "" else EscapeChar(s[0]) + XmlEscape(s[1..])
  }

  /** Replacement of the four entity references by their characters. */
  function XmlUnescape(s: string): string
    decreases |s|
  {
    if |s| == 0 then ""
    else if StartsWith(s, "&amp;") then "&" + XmlUnescape(s[5..])
    else if StartsWith(s, "&lt;") then "<" + XmlUnescape(s[4..])
    else if StartsWith(s, "&gt;") then ">" + XmlUnescape(s[4..])
    else if StartsWith(s, "&quot;") then "\"" + XmlUnescape(s[6..])
    else [s[0]] + XmlUnescape(s[1..])
  }

  lemma UnescapeAmp(t: string)
    ensures XmlUnescape("&amp;" + t) == "&" + XmlUnescape(t)
  {
    var s := "&amp;" + t;
    assert s[..5] == "&amp;" && s[5..] == t;
  }

  lemma UnescapeLt(t: string)
    ensures XmlUnescape("&lt;" + t) == "<" + XmlUnescape(t)
  {
    var s := "&lt;" + t;
    assert s[..4] == "&lt;" && s[4..] == t;
    assert !StartsWith(s, "&amp;") by { assert s[1] == 'l'; }
  }

  lemma UnescapeGt(t: string)
    ensures XmlUnescape("&gt;" + t) == ">" + XmlUnescape(t)
  {
    var s := "&gt;" + t;
    assert s[..4] == "&gt;" && s[4..] == t;
    assert s[1] == 'g';
    assert !StartsWith(s, "&amp;");
    assert !StartsWith(s, "&lt;");
  }

  lemma UnescapeQuot(t: string)
    ensures XmlUnescape("&quot;" + t) == "\"" + XmlUnescape(t)
  {
    var s := "&quot;" + t;
    assert s[..6] == "&quot;" && s[6..] == t;
    assert s[1] == 'q';
    assert !StartsWith(s, "&amp;");
    assert !StartsWith(s, "&lt;");
    assert !StartsWith(s, "&gt;");
  }

  lemma UnescapeChar(c: char, t: string)
    ensures XmlUnescape(EscapeChar(c) + t) == [c] + XmlUnescape(t)
  {
    if c == '&' {
      UnescapeAmp(t);
    } else if c == '<' {
      UnescapeLt(t);
    } else if c == '>' {
      UnescapeGt(t);
    } else if c == '"' {
      UnescapeQuot(t);
    } else {
      var s := [c] + t;
      assert s[0] == c && s[1..] == t;
    }
  }

  /** Escaping loses nothing: unescaping gives back the original text. */
  lemma {:induction false} XmlRoundTrip(s: string)
    ensures XmlUnescape(XmlEscape(s)) == s
    decreases |s|
  {
    if |s| > 0 {
      XmlRoundTrip(s[1..]);
      UnescapeChar(s[0], XmlEscape(s[1..]));
      assert [s[0]] + s[1..] == s;
    }
  }

  /** One `<field>` element, as FormData's `getXfdf` formats it. */
  function FieldXml(name: string, value: string): string {
    "<field name=\"" + (XmlEscape(name) + ("\"><value>" + (XmlEscape(value) + "</value></field>")))
  }

  /** The elements of all fields, in order, with nothing between them. */
  function FieldsXml(fields: seq<(string, string)>): string
    decreases |fields|
  {
    if |fields| == 0 then "" else FieldXml(fields[0].0, fields[0].1) + FieldsXml(fields[1..])
  }

  /** Consumes the literal `p` at the start of `s`. */
  function Expect(s: string, p: string): (r: Option<string>)
    ensures r.Some? ==> |r.value| == |s| - |p|
  {
    if StartsWith(s, p) then Some(s[|p|..]) else None
  }

  /** Splits `s` at the first `c`: the text before it and the text after it. */
  function SplitAt(s: string, c: char): (r: Option<(string, string)>)
    ensures r.Some? ==> |r.value.1| < |s|
    decreases |s|
  {
    if |s| == 0 then None
    else if s[0] == c then Some(("", s[1..]))
    else match SplitAt(s[1..], c)
      case None => None
      case Some(p) => Some(([s[0]] + p.0, p.1))
  }

  /** Reads one `<field>` element at the start of `s`. */
  function ParseField(s: string): (r: Option<((string, string), string)>)
    ensures r.Some? ==> |r.value.1| < |s|
  {
    match Expect(s, "<field name=\"")
    case None => None
    case Some(s1) =>
      match SplitAt(s1, '"')
      case None => None
      case Some(n) =>
        match Expect(n.1, "><value>")
        case None => None
        case Some(s3) =>
          match SplitAt(s3, '<')
          case None => None
          case Some(v) =>
            match Expect(v.1, "/value></field>")
            case None => None
            case Some(s5) => Some(((XmlUnescape(n.0), XmlUnescape(v.0)), s5))
  }

  /** Reads `<field>` elements for as long as there are any at the start
      of `s`: the pairs read, in order, and the text after them. */
  function ReadFields(s: string): (r: (seq<(string, string)>, string))
    ensures |r.1| <= |s|
    decreases |s|
  {
    match ParseField(s)
    case None => ([], s)
    case Some(f) =>
      var more := ReadFields(f.1);
      ([f.0] + more.0, more.1)
  }

  lemma ExpectPrefix(p: string, t: string)
    ensures Expect(p + t, p) == Some(t)
  {
    assert (p + t)[..|p|] == p;
    assert (p + t)[|p|..] == t;
  }

  lemma {:induction false} SplitAtFirst(x: string, c: char, rest: string)
    requires forall i :: 0 <= i < |x| ==> x[i] != c
    ensures SplitAt(x + ([c] + rest), c) == Some((x, rest))
    decreases |x|
  {
    var s := x + ([c] + rest);
    if |x| == 0 {
      assert s == [c] + rest;
      assert s[1..] == rest;
    } else {
      assert s[1..] == x[1..] + ([c] + rest);
      SplitAtFirst(x[1..], c, rest);
      assert [x[0]] + x[1..] == x;
    }
  }

  lemma FieldShape(en: string, ev: string, rest: string)
    ensures "<field name=\"" + (en + ("\"><value>" + (ev + "</value></field>"))) + rest ==
      "<field name=\"" + (en + (['"'] + ("><value>" + (ev + (['<'] + ("/value></field>" + rest))))))
  {
    var p3: string := "</value></field>";
    var p2: string := "\"><value>";
    assert p3 + rest == ['<'] + ("/value></field>" + rest);
    assert (ev + p3) + rest == ev + (p3 + rest);
    assert (p2 + (ev + p3)) + rest == p2 + ((ev + p3) + rest);
    assert p2 + (ev + (p3 + rest)) == ['"'] + ("><value>" + (ev + (p3 + rest)));
    assert (en + (p2 + (ev + p3))) + rest == en + ((p2 + (ev + p3)) + rest);
  }

  lemma ReadField(name: string, value: string, rest: string)
    ensures ParseField(FieldXml(name, value) + rest) == Some(((name, value), rest))
  {
    var en, ev := XmlEscape(name), XmlEscape(value);
    var s4 := "/value></field>" + rest;
    var s3 := ev + (['<'] + s4);
    var s2 := "><value>" + s3;
    var s1 := en + (['"'] + s2);
    FieldShape(en, ev, rest);
    ExpectPrefix("<field name=\"", s1);
    SplitAtFirst(en, '"', s2);
    ExpectPrefix("><value>", s3);
    SplitAtFirst(ev, '<', s4);
    ExpectPrefix("/value></field>", rest);
    XmlRoundTrip(name);
    XmlRoundTrip(value);
  }

  lemma ReadFieldsCons(s: string, f: (string, string), t: string)
    requires ParseField(s) == Some((f, t))
    ensures ReadFields(s) == ([f] + ReadFields(t).0, ReadFields(t).1)
  {
  }

  /** The field elements can be read back into exactly the pairs they were
      built from, in order, up to the first text that is not a field:
      escaping keeps every name and value intact and confined to its own
      element. */
  lemma {:induction false} FieldsRoundTrip(fields: seq<(string, string)>, rest: string)
    requires ParseField(rest) == None
    ensures ReadFields(FieldsXml(fields) + rest) == (fields, rest)
    decreases |fields|
  {
    if |fields| > 0 {
      var head, tail := FieldXml(fields[0].0, fields[0].1), FieldsXml(fields[1..]);
      var t := tail + rest;
      assert FieldsXml(fields) == head + tail;
      AppendAssoc(head, tail, rest);
      ReadField(fields[0].0, fields[0].1, t);
      FieldsRoundTrip(fields[1..], rest);
      ReadFieldsCons(head + t, fields[0], t);
      assert [fields[0]] + fields[1..] == fields;
    } else {
      assert FieldsXml(fields) + rest == rest;
    }
  }
}
