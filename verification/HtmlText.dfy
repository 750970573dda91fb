/**
 * What a page says: which text is a tag, how a value prints, when a section is kept, and how a browser
 * reads an escaped value back.
 */
module HtmlText {
  import opened Common
  import opened Numerals
  import opened Views

  /** The character reference at the front of a text, as a browser reads it, and its length. */
  function Reference(s: string): Option<(char, nat)>
  {
    if "&amp;" <= s then Some(('&', 5))
    else if "&lt;" <= s then Some(('<', 4))
    else if "&gt;" <= s then Some(('>', 4))
    else if "&quot;" <= s then Some(('"', 6))
    else if "&#39;" <= s then Some(('\'', 5))
    else if "&#96;" <= s then Some(('`', 5))
    else None
  }

  function Unescape(s: string): string
  {
    if s == "" then ""
    else if Reference(s).Some? then [Reference(s).value.0] + Unescape(s[Reference(s).value.1..])
    else [s[0]] + Unescape(s[1..])
  }

  lemma ReferenceOf(c: char, t: string)
    ensures Reference(EscapeChar(c) + t) == if c in "&<>\"'`" then Some((c, |EscapeChar(c)|)) else None
  {
    var s := EscapeChar(c) + t;
    assert s[0] == EscapeChar(c)[0];
    if c in "&<>\"'`" {
      assert s[1] == EscapeChar(c)[1] && s[2] == EscapeChar(c)[2] && s[3] == EscapeChar(c)[3];
      assert EscapeChar(c) <= s;
    }
  }

  lemma UnescapeOne(c: char, t: string)
    ensures Unescape(EscapeChar(c) + t) == [c] + Unescape(t)
  {
    ReferenceOf(c, t);
    assert (EscapeChar(c) + t)[|EscapeChar(c)|..] == t;
  }

  /** The page shows the value itself: read as HTML, an escaped text is the text. */
  lemma {:induction false} EscapeReadsBack(s: string)
    ensures Unescape(Escape(s)) == s
  {
    if s != "" {
      EscapeReadsBack(s[1..]);
      UnescapeOne(s[0], Escape(s[1..]));
      assert s == [s[0]] + s[1..];
    }
  }

  // ---- tags and values ---------------------------------------------------------------------------------

  /** A word: one or more ASCII letters, digits and underscores. */
  predicate IsKey(key: string)
  {
    key != "" && forall i :: 0 <= i < |key| ==>
      '0' <= key[i] <= '9' || 'a' <= key[i] <= 'z' || 'A' <= key[i] <= 'Z' || key[i] == '_'
  }

  /** A tag stands in front exactly when the text starts with its braces around a word. */
  lemma TagIff(t: string, open: string, close: string, key: string)
    requires close != "" && close[0] == '}'
    ensures Tag(t, open, close) == Some(key) <==> IsKey(key) && open + key + close <= t
  {
    if IsKey(key) && open + key + close <= t {
      var rest := t[|open + key + close|..];
      assert t == open + key + close + rest;
      assert t[|open|..] == key + (close + rest);
      RunIs(key, close + rest, false);
    }
  }

  lemma RawTagIff(t: string, key: string)
    ensures Raw(t) == Some(key) <==> IsKey(key) && "{{{" + key + "}}}" <= t
  {
    TagIff(t, "{{{", "}}}", key);
  }

  lemma EscapedTagIff(t: string, key: string)
    ensures Escaped(t) == Some(key) <==> IsKey(key) && "{{" + key + "}}" <= t
  {
    TagIff(t, "{{", "}}", key);
  }

  /** The marks of the last pass: NUL, digits, NUL. */
  lemma MarkIff(t: string, digits: string)
    ensures Mark(t) == Some(digits) <==>
      digits != "" && (forall i :: 0 <= i < |digits| ==> '0' <= digits[i] <= '9') && ['\0'] + digits + ['\0'] <= t
  {
    if digits != "" && (forall i :: 0 <= i < |digits| ==> '0' <= digits[i] <= '9') && ['\0'] + digits + ['\0'] <= t {
      var rest := t[|digits| + 2..];
      assert t == ['\0'] + digits + ['\0'] + rest;
      assert t[1..] == digits + (['\0'] + rest);
      RunIs(digits, ['\0'] + rest, true);
    }
  }

  /** The decimal numeral of a number. */
  predicate IsNumeral(text: string, n: nat)
  {
    && text != "" && (forall i :: 0 <= i < |text| ==> '0' <= text[i] <= '9')
    && (forall c | c in text :: IsDigit(c)) && Parse(text) == n
    && (|text| > 1 ==> text[0] != '0')
  }

  lemma DecimalIsNumeral(n: nat)
    ensures IsNumeral(Decimal(n), n)
  {
    DecimalParses(n);
    NoLeadingZero(n);
    forall i | 0 <= i < |Decimal(n)| ensures '0' <= Decimal(n)[i] <= '9' { assert IsDigit(Decimal(n)[i]); }
  }

  lemma NumberShows(n: int)
    ensures n >= 0 ==> IsNumeral(Number(n).Show(), n)
    ensures n < 0 ==> Number(n).Show() != "" && Number(n).Show()[0] == '-' && IsNumeral(Number(n).Show()[1..], -n)
  {
    DecimalIsNumeral(if n < 0 then -n else n);
    if n < 0 { assert ("-" + Decimal(-n))[1..] == Decimal(-n); }
  }

  /** What String(data[key] ?? '') gives: the text itself, a number in decimal, true or false, or nothing. */
  lemma ShowIs(data: Data, key: string)
    ensures key !in data || data[key].Nothing? ==> Get(data, key).Show() == ""
    ensures key in data && data[key].Text? ==> Get(data, key).Show() == data[key].s
    ensures key in data && data[key].Flag? ==> Get(data, key).Show() == (if data[key].b then "true" else "false")
    ensures key in data && data[key].Number? ==>
      var n, text := data[key].n, Get(data, key).Show();
      if n >= 0 then IsNumeral(text, n) else text != "" && text[0] == '-' && IsNumeral(text[1..], -n)
  {
    if key in data && data[key].Number? { NumberShows(data[key].n); }
  }

  lemma {:induction false} NoLeadingZero(n: nat)
    ensures Decimal(n) != "" && (n > 0 ==> Decimal(n)[0] != '0') && (n == 0 ==> Decimal(n) == "0")
  {
    if n >= 10 { NoLeadingZero(n / 10); }
  }

  // ---- pages -------------------------------------------------------------------------------------------

  /** `Boolean(data[key])`: set, and none of the empty text, zero and false. */
  predicate IsTrue(data: Data, key: string)
  {
    key in data && data[key] != Text("") && data[key] != Number(0) && data[key] != Flag(false) && data[key] != Nothing
  }

  /** {{#key}}body{{/key}} keeps its body exactly when the value is there and not empty, zero or false, {{^key}} otherwise. */
  lemma SectionKept(kind: char, key: string, body: string, rest: string, data: Data)
    requires kind in "#^" && IsKey(key)
    requires IndexOf(body + ("{{/" + key + "}}") + rest, "{{/" + key + "}}") == Some(|body|)
    ensures Sections(("{{" + [kind] + key + "}}") + (body + ("{{/" + key + "}}") + rest), data)
         == (if IsTrue(data, key) == (kind == '#') then body else "") + Sections(rest, data)
  {
    SectionMeaning(kind, key, body, rest, data);
  }

  lemma NoTagHere(s: string, data: Data)
    requires s != "" && s[0] != '{'
    ensures Raw(s).None? && Escaped(s).None? && SectionAt(s, data).None?
  {
  }

  lemma OneStays(s: string, data: Data)
    requires s != "" && s[0] != '{'
    ensures Sections(s, data) == [s[0]] + Sections(s[1..], data) && Interpret(s, data) == [s[0]] + Interpret(s[1..], data)
  {
    NoTagHere(s, data);
  }

  lemma Glue(c: char, p: string, out: string, rest: string)
    requires out == [c] + (p + rest)
    ensures out == ([c] + p) + rest
  {
  }

  lemma {:induction false} SectionsSkip(p: string, t: string, data: Data)
    requires '{' !in p
    ensures Sections(p + t, data) == p + Sections(t, data)
  {
    if p == "" {
      assert p + t == t;
    } else {
      var s := p + t;
      assert s[0] == p[0] && p[0] in p && s[1..] == p[1..] + t;
      OneStays(s, data);
      SectionsSkip(p[1..], t, data);
      Glue(p[0], p[1..], Sections(s, data), Sections(t, data));
      assert p == [p[0]] + p[1..];
    }
  }

  lemma {:induction false} InterpretSkip(p: string, t: string, data: Data)
    requires '{' !in p
    ensures Interpret(p + t, data) == p + Interpret(t, data)
  {
    if p == "" {
      assert p + t == t;
    } else {
      var s := p + t;
      assert s[0] == p[0] && p[0] in p && s[1..] == p[1..] + t;
      OneStays(s, data);
      InterpretSkip(p[1..], t, data);
      Glue(p[0], p[1..], Interpret(s, data), Interpret(t, data));
      assert p == [p[0]] + p[1..];
    }
  }

  /** Text without braces stays on the page. */
  lemma PlainStays(p: string, t: string, data: Data)
    requires '{' !in p
    ensures Sections(p + t, data) == p + Sections(t, data)
    ensures Interpret(p + t, data) == p + Interpret(t, data)
  {
    SectionsSkip(p, t, data);
    InterpretSkip(p, t, data);
  }

  /** {{{key}}} is replaced by the value, and {{key}} by the escaped value. */
  lemma TagsMean(key: string, t: string, data: Data)
    requires IsKey(key)
    ensures Interpret("{{{" + key + "}}}" + t, data) == Get(data, key).Show() + Interpret(t, data)
    ensures Interpret("{{" + key + "}}" + t, data) == Escape(Get(data, key).Show()) + Interpret(t, data)
  {
    var raw, escaped := "{{{" + key + "}}}" + t, "{{" + key + "}}" + t;
    RawTagIff(raw, key);
    EscapedTagIff(escaped, key);
    assert raw[6 + |key|..] == t && escaped[4 + |key|..] == t;
    assert escaped[2] == key[0] != '{';
    assert Raw(escaped).None?;
  }
}
