/**
 * The template renderer: four global replaces, one after the other, against a single left-to-right
 * interpretation of the template. JavaScript's replace(/.../g, f) scans from the left and never looks
 * at what f returned again, which is the recursion every pass below has.
 */
module Views {
  import opened Common
  import opened Numerals

  const NUL: char := '\0'

  datatype Value = Text(s: string) | Number(n: int) | Flag(b: bool) | Nothing {
    /** Boolean(value) */
    predicate Truthy()
    {
      match this
      case Text(s) => s != ""
      case Number(n) => n != 0
      case Flag(b) => b
      case Nothing => false
    }

    /** String(value ?? '') */
    function Show(): string
    {
      match this
      case Text(s) => s
      case Number(n) => if n < 0 then "-" + Decimal(-n) else Decimal(n)
      case Flag(b) => if b then "true" else "false"
      case Nothing => ""
    }
  }

  type Data = map<string, Value>

  function Get(data: Data, key: string): Value
  {
    if key in data then data[key] else Nothing
  }

  // ---- characters -----------------------------------------------------------------------

  predicate IsWord(c: char) { IsDigit(c) || 'a' <= c <= 'z' || 'A' <= c <= 'Z' || c == '_' }

  predicate NulFree(s: string) { NUL !in s }

  /** Length of the longest prefix of word characters (`digits`: of digits only). */
  function Run(t: string, digits: bool): (n: nat)
    ensures n <= |t|
    ensures forall i | 0 <= i < n :: if digits then IsDigit(t[i]) else IsWord(t[i])
    ensures n < |t| ==> !(if digits then IsDigit(t[n]) else IsWord(t[n]))
  {
    if t != "" && (if digits then IsDigit(t[0]) else IsWord(t[0])) then 1 + Run(t[1..], digits) else 0
  }

  lemma {:induction false} RunIs(p: string, t: string, digits: bool)
    requires forall c | c in p :: if digits then IsDigit(c) else IsWord(c)
    requires t != "" && !(if digits then IsDigit(t[0]) else IsWord(t[0]))
    ensures Run(p + t, digits) == |p|
  {
    if p == "" {
      assert p + t == t;
    } else {
      assert p[0] in p;
      assert (p + t)[1..] == p[1..] + t;
      RunIs(p[1..], t, digits);
    }
  }

  // ---- matching at the front of a text ---------------------------------------------------------------

  predicate Starts(t: string, p: string) { |p| <= |t| && t[..|p|] == p }

  /** open key close, with a key of one or more word characters; the key when it matches. */
  function Tag(t: string, open: string, close: string): (key: Option<string>)
    ensures key.Some? ==> key.value != "" && (forall c | c in key.value :: IsWord(c)) && Starts(t, open + key.value + close)
  {
    if !Starts(t, open) then None
    else
      var rest := t[|open|..];
      var n := Run(rest, false);
      if n > 0 && Starts(rest[n..], close) then
        assert rest == rest[..n] + rest[n..];
        assert t == open + rest[..n] + rest[n..];
        Some(rest[..n])
      else None
  }

  function Raw(t: string): Option<string> { Tag(t, "{{{", "}}}") }

  function Escaped(t: string): Option<string> { Tag(t, "{{", "}}") }

  /** NUL digits NUL; the digits when it matches. */
  function Mark(t: string): (digits: Option<string>)
    ensures digits.Some? ==> digits.value != "" && (forall c | c in digits.value :: IsDigit(c)) && |digits.value| + 2 <= |t|
  {
    if t == "" || t[0] != NUL then None
    else
      var n := Run(t[1..], true);
      if n > 0 && Starts(t[1 + n..], [NUL]) then Some(t[1..][..n]) else None
  }

  /** First position at which `p` occurs. */
  function IndexOf(t: string, p: string): (i: Option<nat>)
    ensures i.Some? ==> i.value + |p| <= |t|
  {
    if |t| < |p| then None
    else if Starts(t, p) then Some(0)
    else
      var i := IndexOf(t[1..], p);
      if i.None? then None else Some(i.value + 1)
  }

  lemma {:induction false} IndexOfIsFirst(t: string, p: string, j: nat)
    requires j <= |t|
    ensures IndexOf(t, p) == Some(j) ==> Starts(t[j..], p)
    ensures IndexOf(t, p).None? || j < IndexOf(t, p).value ==> !Starts(t[j..], p)
  {
    if j == 0 {
      assert t[0..] == t;
    } else if |p| <= |t| && !Starts(t, p) {
      assert t[j..] == t[1..][j - 1..];
      IndexOfIsFirst(t[1..], p, j - 1);
    }
  }

  // ---- the four passes ---------------------------------------------------------------------------------

  datatype Section = Section(keep: bool, body: string, length: nat)

  function Closing(key: string): string { "{{/" + key + "}}" }

  /** The section whose opening tag of `key` stands in front: it ends at the first closing tag after it. */
  function SectionOf(t: string, key: string, keep: bool): (s: Option<Section>)
    requires 5 + |key| <= |t|
    ensures s.Some? ==> 0 < s.value.length <= |t|
  {
    var end := IndexOf(t[5 + |key|..], Closing(key));
    if end.None? then None
    else Some(Section(keep, t[5 + |key|..5 + |key| + end.value], 5 + |key| + end.value + 5 + |key|))
  }

  function SectionAt(t: string, data: Data): (s: Option<Section>)
    ensures s.Some? ==> 0 < s.value.length <= |t|
  {
    var yes, no := Tag(t, "{{#", "}}"), Tag(t, "{{^", "}}");
    if yes.Some? then SectionOf(t, yes.value, Get(data, yes.value).Truthy())
    else if no.Some? then SectionOf(t, no.value, !Get(data, no.value).Truthy())
    else None
  }

  function Sections(t: string, data: Data): string
  {
    if t == "" then ""
    else
      var s := SectionAt(t, data);
      if s.Some? then (if s.value.keep then s.value.body else "") + Sections(t[s.value.length..], data)
      else [t[0]] + Sections(t[1..], data)
  }

  /** Raw tags become numbered marks, `n` being how many values were put aside before. */
  function RawPass(t: string, data: Data, n: nat): (string, seq<string>)
  {
    if t == "" then ("", [])
    else if Raw(t).Some? then
      var key := Raw(t).value;
      var rest := RawPass(t[6 + |key|..], data, n + 1);
      ([NUL] + Decimal(n) + [NUL] + rest.0, [Get(data, key).Show()] + rest.1)
    else
      var rest := RawPass(t[1..], data, n);
      ([t[0]] + rest.0, rest.1)
  }

  function EscapePass(t: string, data: Data): string
  {
    if t == "" then ""
    else if Escaped(t).Some? then
      Escape(Get(data, Escaped(t).value).Show()) + EscapePass(t[4 + |Escaped(t).value|..], data)
    else [t[0]] + EscapePass(t[1..], data)
  }

  /** Marks become the values put aside; a number out of range would print as `missing`. */
  function SwapPass(t: string, raw: seq<string>, missing: string): string
  {
    if t == "" then ""
    else if Mark(t).Some? then
      var i := Parse(Mark(t).value);
      (if i < |raw| then raw[i] else missing) + SwapPass(t[2 + |Mark(t).value|..], raw, missing)
    else [t[0]] + SwapPass(t[1..], raw, missing)
  }

  function FourPasses(t: string, data: Data): string
  {
    var raw := RawPass(Sections(t, data), data, 0);
    SwapPass(EscapePass(raw.0, data), raw.1, "undefined")
  }

  function Joined(a: (string, seq<string>), b: (string, seq<string>)): (string, seq<string>)
  {
    (a.0 + b.0, a.1 + b.1)
  }

  lemma RawStep(before: (string, seq<string>), t: string, data: Data)
    requires t != ""
    ensures Joined(before, RawPass(t, data, |before.1|)) ==
      if Raw(t).Some? then
        var key := Raw(t).value;
        Joined((before.0 + ([NUL] + Decimal(|before.1|) + [NUL]), before.1 + [Get(data, key).Show()]),
               RawPass(t[6 + |key|..], data, |before.1| + 1))
      else Joined((before.0 + [t[0]], before.1), RawPass(t[1..], data, |before.1|))
  {
    if Raw(t).Some? {
      var key := Raw(t).value;
      var rest := RawPass(t[6 + |key|..], data, |before.1| + 1);
      Assoc(before.0, [NUL] + Decimal(|before.1|) + [NUL], rest.0);
      Assoc(before.1, [Get(data, key).Show()], rest.1);
    } else {
      Assoc(before.0, [t[0]], RawPass(t[1..], data, |before.1|).0);
    }
  }

  lemma Assoc<T>(a: seq<T>, b: seq<T>, c: seq<T>)
    ensures a + (b + c) == a + b + c
  {
  }

  /** The second replace of `fill`, whose callback pushes to the `raw` array. */
  method ReplaceRaw(sections: string, data: Data) returns (out: string, raw: seq<string>)
    ensures (out, raw) == RawPass(sections, data, 0)
  {
    var rest := sections;
    out, raw := "", [];
    ghost var all := RawPass(sections, data, 0);
    assert "" + all.0 == all.0 && [] + all.1 == all.1;
    while rest != ""
      invariant Joined((out, raw), RawPass(rest, data, |raw|)) == all
      decreases |rest|
    {
      RawStep((out, raw), rest, data);
      if Raw(rest).Some? {
        var key := Raw(rest).value;
        out := out + ([NUL] + Decimal(|raw|) + [NUL]);
        raw := raw + [Get(data, key).Show()];
        rest := rest[6 + |key|..];
      } else {
        out := out + [rest[0]];
        rest := rest[1..];
      }
    }
    assert out + "" == out && raw + [] == raw;
  }

  method Fill(template: string, data: Data) returns (html: string)
    ensures html == FourPasses(template, data)
  {
    var out, raw := ReplaceRaw(Sections(template, data), data);
    html := SwapPass(EscapePass(out, data), raw, "undefined");
  }

  // ---- escaping ----------------------------------------------------------------------------------------

  function EscapeChar(c: char): string
  {
    match c
    case '&' => "&amp;"
    case '<' => "&lt;"
    case '>' => "&gt;"
    case '"' => "&quot;"
    case '\'' => "&#39;"
    case '`' => "&#96;"
    case _ => [c]
  }

  function Escape(s: string): string
  {
    if s == "" then "" else EscapeChar(s[0]) + Escape(s[1..])
  }

  /** Nothing that escapeHtml returns can open a tag, an attribute quote or a template literal. */
  lemma {:induction false} EscapedIsInert(s: string)
    ensures forall c | c in Escape(s) :: c !in "<>\"'`"
  {
    if s != "" {
      EscapedIsInert(s[1..]);
      assert forall c | c in EscapeChar(s[0]) :: c !in "<>\"'`";
    }
  }

  /** Different values never look alike on the page. */
  lemma {:induction false} EscapeInjective(a: string, b: string)
    requires Escape(a) == Escape(b)
    ensures a == b
  {
    if a == "" || b == "" {
      assert forall c :: EscapeChar(c) != "";
    } else {
      var x, y := EscapeChar(a[0]), EscapeChar(b[0]);
      assert x + Escape(a[1..]) == y + Escape(b[1..]);
      HeadsAgree(a[0], Escape(a[1..]), b[0], Escape(b[1..]));
      assert Escape(a[1..]) == (x + Escape(a[1..]))[|x|..];
      assert Escape(b[1..]) == (y + Escape(b[1..]))[|y|..];
      EscapeInjective(a[1..], b[1..]);
    }
  }

  lemma HeadsAgree(c: char, s: string, d: char, t: string)
    requires EscapeChar(c) + s == EscapeChar(d) + t
    ensures c == d
  {
    var whole := EscapeChar(c) + s;
    assert whole[0] == EscapeChar(c)[0] && whole[0] == EscapeChar(d)[0];
    if whole[0] == '&' {
      assert whole[1] == EscapeChar(c)[1] && whole[1] == EscapeChar(d)[1];
      assert whole[2] == EscapeChar(c)[2] && whole[2] == EscapeChar(d)[2];
    }
  }

  // ---- one pass ----------------------------------------------------------------------------------------

  /** What a section-resolved template means, read once from the left. */
  function Interpret(t: string, data: Data): string
  {
    if t == "" then ""
    else if Raw(t).Some? then Get(data, Raw(t).value).Show() + Interpret(t[6 + |Raw(t).value|..], data)
    else if Escaped(t).Some? then Escape(Get(data, Escaped(t).value).Show()) + Interpret(t[4 + |Escaped(t).value|..], data)
    else [t[0]] + Interpret(t[1..], data)
  }

  // ---- the text between raw tags -----------------------------------------------------------------------

  /** The template cut at its raw tags, with the escaped values put in: one stretch more than raw tags. */
  function Stretches(t: string, data: Data): (r: seq<string>)
    ensures |r| > 0
  {
    if t == "" then [""]
    else if Raw(t).Some? then [""] + Stretches(t[6 + |Raw(t).value|..], data)
    else if Escaped(t).Some? then
      Prefixed(Escape(Get(data, Escaped(t).value).Show()), Stretches(t[4 + |Escaped(t).value|..], data))
    else Prefixed([t[0]], Stretches(t[1..], data))
  }

  function Prefixed(p: string, es: seq<string>): (r: seq<string>)
    requires |es| > 0
    ensures |r| == |es|
  {
    [p + es[0]] + es[1..]
  }

  /** The stretches with the raw values between them. */
  function Interleave(es: seq<string>, raw: seq<string>): string
    requires |es| == |raw| + 1
  {
    if raw == [] then es[0] else es[0] + (raw[0] + Interleave(es[1..], raw[1..]))
  }

  /** The stretches with the marks of the second pass between them, numbered from `n`. */
  function Marked(es: seq<string>, n: nat): string
    requires |es| > 0
  {
    if |es| == 1 then es[0] else es[0] + (([NUL] + Decimal(n) + [NUL]) + Marked(es[1..], n + 1))
  }

  /** NUL, one or more digits, NUL: what the last pass takes for a mark. */
  predicate MarkSpan(s: string, i: nat, k: nat)
  {
    i + 2 <= k < |s| && s[i] == NUL && s[k] == NUL && forall j :: i < j < k ==> IsDigit(s[j])
  }

  ghost predicate HasMark(s: string)
  {
    exists i: nat, k: nat :: MarkSpan(s, i, k)
  }

  /** The text ends in NUL and one or more digits. */
  ghost predicate EndsOpen(s: string)
  {
    exists i :: 0 <= i < |s| - 1 && s[i] == NUL && forall j :: i < j < |s| ==> IsDigit(s[j])
  }

  /** The stretch imitates a mark, by itself or together with the NUL of the mark after it. */
  ghost predicate Stray(s: string, beforeRaw: bool)
  {
    HasMark(s) || (beforeRaw && EndsOpen(s))
  }

  /** No stretch contains NUL digits NUL, and none before a raw tag ends in NUL digits. */
  ghost predicate Clean(es: seq<string>)
  {
    forall i :: 0 <= i < |es| ==> !Stray(es[i], i < |es| - 1)
  }

  // ---- the passes against the interpreter --------------------------------------------------------------

  lemma {:induction false} RawSkips(p: string, t: string, data: Data, n: nat)
    requires '{' !in p
    ensures RawPass(p + t, data, n) == (p + RawPass(t, data, n).0, RawPass(t, data, n).1)
  {
    if p == "" {
      assert p + t == t;
      assert p + RawPass(t, data, n).0 == RawPass(t, data, n).0;
    } else {
      assert (p + t)[0] == p[0] && p[0] in p && (p + t)[1..] == p[1..] + t;
      assert Raw(p + t).None?;
      RawSkips(p[1..], t, data, n);
      Assoc([p[0]], p[1..], RawPass(t, data, n).0);
      assert [p[0]] + p[1..] == p;
    }
  }

  lemma {:induction false} EscapeSkips(p: string, t: string, data: Data)
    requires '{' !in p
    ensures EscapePass(p + t, data) == p + EscapePass(t, data)
  {
    if p == "" {
      assert p + t == t;
    } else {
      assert (p + t)[0] == p[0] && p[0] in p && (p + t)[1..] == p[1..] + t;
      assert Escaped(p + t).None?;
      EscapeSkips(p[1..], t, data);
      Assoc([p[0]], p[1..], EscapePass(t, data));
      assert [p[0]] + p[1..] == p;
    }
  }

  lemma {:induction false} SwapSkips(p: string, t: string, raw: seq<string>, missing: string)
    requires NulFree(p)
    ensures SwapPass(p + t, raw, missing) == p + SwapPass(t, raw, missing)
  {
    if p == "" {
      assert p + t == t;
    } else {
      assert (p + t)[0] == p[0] && p[0] in p && (p + t)[1..] == p[1..] + t;
      SwapSkips(p[1..], t, raw, missing);
      Assoc([p[0]], p[1..], SwapPass(t, raw, missing));
      assert [p[0]] + p[1..] == p;
    }
  }

  /** A tag is found exactly where its text stands. */
  lemma TagIs(key: string, open: string, close: string, t: string)
    requires key != "" && (forall c | c in key :: IsWord(c)) && close != "" && !IsWord(close[0])
    ensures Tag(open + key + close + t, open, close) == Some(key)
  {
    var whole := open + key + close + t;
    assert whole[..|open|] == open;
    assert whole[|open|..] == key + (close + t);
    RunIs(key, close + t, false);
    assert (key + (close + t))[|key|..] == close + t;
    assert (close + t)[..|close|] == close;
    assert (key + (close + t))[..|key|] == key;
  }

  lemma MarkIs(digits: string, t: string)
    requires digits != "" && forall c | c in digits :: IsDigit(c)
    ensures Mark([NUL] + digits + [NUL] + t) == Some(digits)
  {
    var whole := [NUL] + digits + [NUL] + t;
    assert whole[1..] == digits + ([NUL] + t);
    RunIs(digits, [NUL] + t, true);
    assert whole[1 + |digits|..] == [NUL] + t;
    assert ([NUL] + t)[..1] == [NUL];
    assert (digits + ([NUL] + t))[..|digits|] == digits;
  }

  /** The raw pass walks over an escaped tag without touching it. */
  lemma RawLeavesEscaped(t: string, key: string, rest: string, data: Data, n: nat)
    requires |t| >= 2 && t[0] == t[1] == '{' && Raw(t).None? && Raw(t[1..]).None?
    requires t[2..] == (key + "}}") + rest && forall c | c in key :: IsWord(c)
    ensures RawPass(t, data, n) == ("{{" + key + "}}" + RawPass(rest, data, n).0, RawPass(rest, data, n).1)
  {
    var inner, tail := key + "}}", RawPass(rest, data, n);
    assert '{' !in inner;
    RawSkips(inner, rest, data, n);
    TwoBraces(t, data, n, inner + tail.0, tail.1);
    Braces(key, tail.0);
  }

  lemma Braces(key: string, tail: string)
    ensures ['{'] + (['{'] + ((key + "}}") + tail)) == "{{" + key + "}}" + tail
  {
  }

  lemma TwoBraces(t: string, data: Data, n: nat, out: string, raw: seq<string>)
    requires |t| >= 2 && t[0] == t[1] == '{' && Raw(t).None? && Raw(t[1..]).None?
    requires RawPass(t[2..], data, n) == (out, raw)
    ensures RawPass(t, data, n) == (['{'] + (['{'] + out), raw)
  {
  }

  lemma FrontOfEscaped(t: string, key: string)
    requires Escaped(t) == Some(key)
    ensures t[..4 + |key|] == "{{" + key + "}}"
    ensures t[2..] == key + "}}" + t[4 + |key|..]
    ensures t[0] == t[1] == '{' && Raw(t[1..]).None?
  {
  }

  /** Up to its first mark, what the raw pass returns is the text itself. */
  lemma {:induction false} RawKeepsFront(t: string, data: Data, n: nat, p: string)
    requires Starts(RawPass(t, data, n).0, p) && NulFree(p)
    ensures Starts(t, p)
  {
    if p != "" {
      var out := RawPass(t, data, n).0;
      assert p[0] in p && out[0] == p[0] && out[1..][..|p| - 1] == p[1..];
      assert Raw(t).None?;
      assert out[1..] == RawPass(t[1..], data, n).0;
      RawKeepsFront(t[1..], data, n, p[1..]);
      assert t[..|p|] == [t[0]] + t[1..][..|p| - 1];
    }
  }

  /**
   * The heart of it: escaping what the raw pass made of `t` gives the stretches with marks between
   * them, and reading `t` once gives the same stretches with the values put aside.
   */
  lemma {:induction false} PassesMark(t: string, data: Data, n: nat)
    ensures EscapePass(RawPass(t, data, n).0, data) == Marked(Stretches(t, data), n)
    ensures |Stretches(t, data)| == |RawPass(t, data, n).1| + 1
    ensures Interpret(t, data) == Interleave(Stretches(t, data), RawPass(t, data, n).1)
    decreases |t|, 1
  {
    if t == "" {
    } else if Raw(t).Some? {
      RawCase(t, data, n);
    } else if Escaped(t).Some? {
      EscapedCase(t, data, n);
    } else {
      PlainCase(t, data, n);
    }
  }

  lemma {:induction false} RawCase(t: string, data: Data, n: nat)
    requires Raw(t).Some?
    ensures EscapePass(RawPass(t, data, n).0, data) == Marked(Stretches(t, data), n)
    ensures |Stretches(t, data)| == |RawPass(t, data, n).1| + 1
    ensures Interpret(t, data) == Interleave(Stretches(t, data), RawPass(t, data, n).1)
    decreases |t|, 0
  {
    var key := Raw(t).value;
    var rest := t[6 + |key|..];
    var mark := [NUL] + Decimal(n) + [NUL];
    var es := Stretches(rest, data);
    DecimalParses(n);
    assert '{' !in mark;
    EscapeSkips(mark, RawPass(rest, data, n + 1).0, data);
    PassesMark(rest, data, n + 1);
    assert ([""] + es)[1..] == es;
    var raw := RawPass(rest, data, n + 1).1;
    assert ([Get(data, key).Show()] + raw)[1..] == raw;
  }

  lemma {:induction false} EscapedUnfolds(t: string, data: Data)
    requires Raw(t).None? && Escaped(t).Some?
    ensures var shown, rest := Escape(Get(data, Escaped(t).value).Show()), t[4 + |Escaped(t).value|..];
            && Stretches(t, data) == Prefixed(shown, Stretches(rest, data))
            && Interpret(t, data) == shown + Interpret(rest, data)
  {
  }

  lemma {:induction false} EscapedPasses(t: string, data: Data, n: nat)
    requires Raw(t).None? && Escaped(t).Some?
    ensures var shown, rest := Escape(Get(data, Escaped(t).value).Show()), t[4 + |Escaped(t).value|..];
            && EscapePass(RawPass(t, data, n).0, data) == shown + EscapePass(RawPass(rest, data, n).0, data)
            && RawPass(t, data, n).1 == RawPass(rest, data, n).1
  {
    var key := Escaped(t).value;
    var rest := t[4 + |key|..];
    FrontOfEscaped(t, key);
    RawLeavesEscaped(t, key, rest, data, n);
    EscapesTag(key, RawPass(rest, data, n).0, data);
  }

  lemma {:induction false} EscapedCase(t: string, data: Data, n: nat)
    requires Raw(t).None? && Escaped(t).Some?
    ensures EscapePass(RawPass(t, data, n).0, data) == Marked(Stretches(t, data), n)
    ensures |Stretches(t, data)| == |RawPass(t, data, n).1| + 1
    ensures Interpret(t, data) == Interleave(Stretches(t, data), RawPass(t, data, n).1)
    decreases |t|, 0
  {
    var shown, rest := Escape(Get(data, Escaped(t).value).Show()), t[4 + |Escaped(t).value|..];
    EscapedUnfolds(t, data);
    EscapedPasses(t, data, n);
    PassesMark(rest, data, n);
    PrefixMoves(shown, Stretches(rest, data), n, RawPass(rest, data, n).1);
  }

  lemma {:induction false} PlainCase(t: string, data: Data, n: nat)
    requires t != "" && Raw(t).None? && Escaped(t).None?
    ensures EscapePass(RawPass(t, data, n).0, data) == Marked(Stretches(t, data), n)
    ensures |Stretches(t, data)| == |RawPass(t, data, n).1| + 1
    ensures Interpret(t, data) == Interleave(Stretches(t, data), RawPass(t, data, n).1)
    decreases |t|, 0
  {
    var out := RawPass(t, data, n).0;
    assert out[1..] == RawPass(t[1..], data, n).0;
    if Escaped(out).Some? { NotInvented(t, data, n); }
    PassesMark(t[1..], data, n);
    PrefixMoves([t[0]], Stretches(t[1..], data), n, RawPass(t[1..], data, n).1);
  }

  lemma {:induction false} PrefixMoves(p: string, es: seq<string>, n: nat, raw: seq<string>)
    requires |es| == |raw| + 1
    ensures Marked(Prefixed(p, es), n) == p + Marked(es, n)
    ensures Interleave(Prefixed(p, es), raw) == p + Interleave(es, raw)
  {
    var r := Prefixed(p, es);
    assert r[1..] == es[1..];
    if raw != [] {
      Assoc(p, es[0], ([NUL] + Decimal(n) + [NUL]) + Marked(es[1..], n + 1));
      Assoc(p, es[0], raw[0] + Interleave(es[1..], raw[1..]));
    }
  }

  // ---- the last pass -----------------------------------------------------------------------------------

  lemma {:induction false} MarkIff(t: string, i: nat)
    requires i <= |t|
    ensures Mark(t[i..]).Some? <==> exists k: nat :: MarkSpan(t, i, k)
  {
    var u := t[i..];
    if Mark(u).Some? {
      var n := Run(u[1..], true);
      assert u[1 + n] == u[1 + n..][..1][0] == NUL;
      forall j | i < j < i + 1 + n ensures IsDigit(t[j]) { assert t[j] == u[1..][j - i - 1]; }
      assert MarkSpan(t, i, i + 1 + n);
    }
    if k: nat :| MarkSpan(t, i, k) {
      var n := k - i - 1;
      forall j | 0 <= j < n ensures IsDigit(u[1..][j]) { assert u[1..][j] == t[i + 1 + j]; }
      assert u[1..][n] == t[k] == NUL;
      RunEnds(u[1..], n);
      assert u[1 + n..][..1] == [NUL];
    }
  }

  lemma {:induction false} RunEnds(t: string, n: nat)
    requires n < |t| && !IsDigit(t[n]) && forall j :: 0 <= j < n ==> IsDigit(t[j])
    ensures Run(t, true) == n
  {
  }

  /** In front of a mark or of the end, a mark is found inside `s` exactly when the stretch is stray. */
  lemma {:induction false} StrayIff(s: string, rest: string)
    requires rest == "" || rest[0] == NUL
    ensures (exists i :: 0 <= i < |s| && Mark((s + rest)[i..]).Some?) <==> Stray(s, rest != "")
  {
    var t := s + rest;
    if i :| 0 <= i < |s| && Mark(t[i..]).Some? {
      MarkIff(t, i);
      var k: nat :| MarkSpan(t, i, k);
      if k < |s| {
        SpanInside(s, rest, i, k);
      } else {
        OpenAtEnd(s, rest, i, k);
      }
    }
    if i: nat, k: nat :| MarkSpan(s, i, k) {
      SpanInside(s, rest, i, k);
      MarkIff(t, i);
    }
    if rest != "" && EndsOpen(s) {
      var i :| 0 <= i < |s| - 1 && s[i] == NUL && forall j :: i < j < |s| ==> IsDigit(s[j]);
      assert MarkSpan(t, i, |s|);
      MarkIff(t, i);
    }
  }

  lemma {:induction false} SpanInside(s: string, rest: string, i: nat, k: nat)
    requires k < |s|
    ensures MarkSpan(s + rest, i, k) <==> MarkSpan(s, i, k)
  {
    assert forall j :: 0 <= j < |s| ==> (s + rest)[j] == s[j];
  }

  lemma {:induction false} OpenAtEnd(s: string, rest: string, i: nat, k: nat)
    requires rest == "" || rest[0] == NUL
    requires MarkSpan(s + rest, i, k) && i < |s| <= k
    ensures rest != "" && EndsOpen(s)
  {
    var t := s + rest;
    assert t[|s|] == rest[0];
    forall j | i < j < |s| ensures IsDigit(s[j]) { assert s[j] == t[j]; }
  }

  /** Where no mark begins, the last pass copies. */
  lemma {:induction false} SwapOver(s: string, rest: string, raw: seq<string>, missing: string)
    requires forall i :: 0 <= i < |s| ==> Mark((s + rest)[i..]).None?
    ensures SwapPass(s + rest, raw, missing) == s + SwapPass(rest, raw, missing)
  {
    if s == "" {
      assert s + rest == rest;
    } else {
      assert (s + rest)[0..] == s + rest && (s + rest)[1..] == s[1..] + rest;
      forall i | 0 <= i < |s[1..]| ensures Mark((s[1..] + rest)[i..]).None? {
        assert (s[1..] + rest)[i..] == (s + rest)[i + 1..];
      }
      SwapOver(s[1..], rest, raw, missing);
      Assoc([s[0]], s[1..], SwapPass(rest, raw, missing));
      assert [s[0]] + s[1..] == s;
    }
  }

  /** A number's mark becomes its value. */
  lemma {:induction false} SwapMark(n: nat, rest: string, raw: seq<string>, missing: string)
    requires n < |raw|
    ensures SwapPass(([NUL] + Decimal(n) + [NUL]) + rest, raw, missing) == raw[n] + SwapPass(rest, raw, missing)
  {
    DecimalParses(n);
    MarkIs(Decimal(n), rest);
    var whole := ([NUL] + Decimal(n) + [NUL]) + rest;
    assert whole[2 + |Decimal(n)|..] == rest;
  }

  /** A stretch that is not stray is copied, with what follows it. */
  lemma {:induction false} FirstStretch(es: seq<string>, n: nat, raw: seq<string>, missing: string)
    requires |es| > 0 && n + |es| - 1 == |raw| && !Stray(es[0], |es| > 1)
    ensures SwapPass(Marked(es, n), raw, missing)
         == if |es| == 1 then es[0] else es[0] + (raw[n] + SwapPass(Marked(es[1..], n + 1), raw, missing))
  {
    if |es| == 1 {
      StrayIff(es[0], "");
      assert es[0] + "" == es[0];
      SwapOver(es[0], "", raw, missing);
    } else {
      var rest := ([NUL] + Decimal(n) + [NUL]) + Marked(es[1..], n + 1);
      StrayIff(es[0], rest);
      SwapOver(es[0], rest, raw, missing);
      SwapMark(n, Marked(es[1..], n + 1), raw, missing);
    }
  }

  lemma {:induction false} CleanTail(es: seq<string>)
    requires |es| > 0
    ensures Clean(es) <==> !Stray(es[0], |es| > 1) && (|es| > 1 ==> Clean(es[1..]))
  {
    if |es| > 1 {
      assert forall i :: 0 <= i < |es[1..]| ==> es[1..][i] == es[i + 1];
      if !Stray(es[0], true) && Clean(es[1..]) {
        forall i | 0 <= i < |es| ensures !Stray(es[i], i < |es| - 1) {
          if i > 0 { assert !Stray(es[1..][i - 1], i - 1 < |es[1..]| - 1); }
        }
      }
      if Clean(es) {
        forall i | 0 <= i < |es[1..]| ensures !Stray(es[1..][i], i < |es[1..]| - 1) {
          assert !Stray(es[i + 1], i + 1 < |es| - 1);
        }
      }
    }
  }

  /** Clean stretches: every mark becomes its value and nothing else is touched. */
  lemma {:induction false} CleanSwaps(es: seq<string>, n: nat, raw: seq<string>, missing: string)
    requires |es| > 0 && n + |es| - 1 == |raw| && Clean(es)
    ensures SwapPass(Marked(es, n), raw, missing) == Interleave(es, raw[n..])
    decreases |es|
  {
    CleanTail(es);
    FirstStretch(es, n, raw, missing);
    if |es| > 1 {
      assert raw[n..][0] == raw[n] && raw[n..][1..] == raw[n + 1..];
      CleanSwaps(es[1..], n + 1, raw, missing);
    }
  }

  /** A mark in front is replaced by a value without NUL. */
  lemma {:induction false} MarkGoes(t: string, raw: seq<string>)
    requires Mark(t).Some? && forall i :: 0 <= i < |raw| ==> raw[i] == "x"
    ensures SwapPass(t, raw, "undefined") != "" && SwapPass(t, raw, "undefined")[0] != NUL
  {
    var i := Parse(Mark(t).value);
    var value := if i < |raw| then raw[i] else "undefined";
    assert value != "" && value[0] != NUL;
    assert SwapPass(t, raw, "undefined") == value + SwapPass(t[2 + |Mark(t).value|..], raw, "undefined");
  }

  lemma {:induction false} OtherStays(t: string, raw: seq<string>)
    requires t != "" && Mark(t).None?
    ensures SwapPass(t, raw, "undefined") == [t[0]] + SwapPass(t[1..], raw, "undefined")
  {
  }

  ghost predicate MarkAt(t: string, i: nat)
    requires i <= |t|
  {
    Mark(t[i..]).Some?
  }

  lemma {:induction false} MarkInFront(t: string)
    ensures MarkAt(t, 0) <==> Mark(t).Some?
    ensures Mark(t).Some? ==> t != "" && t[0] == NUL
  {
    assert t[0..] == t;
  }

  lemma {:induction false} MarkMoves(s: string, rest: string, i: nat)
    requires 0 < i < |s| && MarkAt(s + rest, i)
    ensures (s + rest)[1..] == s[1..] + rest && MarkAt(s[1..] + rest, i - 1)
  {
    assert (s[1..] + rest)[i - 1..] == (s + rest)[i..];
  }

  /** The leftmost stray mark is replaced: where the stretch has a NUL the page has none. */
  lemma {:induction false} StrayBreaks(s: string, rest: string, raw: seq<string>, i: nat) returns (p: nat)
    requires forall k :: 0 <= k < |raw| ==> raw[k] == "x"
    requires i < |s| && MarkAt(s + rest, i)
    ensures p < |s| && s[p] == NUL
    ensures p < |SwapPass(s + rest, raw, "undefined")| && SwapPass(s + rest, raw, "undefined")[p] != NUL
  {
    var t := s + rest;
    MarkInFront(t);
    if Mark(t).Some? {
      p := 0;
      MarkGoes(t, raw);
    } else {
      MarkMoves(s, rest, i);
      p := StrayBreaks(s[1..], rest, raw, i - 1);
      StrayLater(s, rest, raw, p);
      p := p + 1;
    }
  }

  lemma {:induction false} StrayLater(s: string, rest: string, raw: seq<string>, p: nat)
    requires s != "" && Mark(s + rest).None? && (s + rest)[1..] == s[1..] + rest
    requires p < |SwapPass(s[1..] + rest, raw, "undefined")|
    ensures p + 1 < |SwapPass(s + rest, raw, "undefined")|
    ensures SwapPass(s + rest, raw, "undefined")[p + 1] == SwapPass(s[1..] + rest, raw, "undefined")[p]
  {
    OtherStays(s + rest, raw);
  }

  /** A stray stretch anywhere spoils the page for raw values that are all "x". */
  lemma {:induction false} StraySpoils(es: seq<string>, n: nat, raw: seq<string>)
    requires |es| > 0 && n + |es| - 1 == |raw| && !Clean(es)
    requires forall i :: 0 <= i < |raw| ==> raw[i] == "x"
    ensures SwapPass(Marked(es, n), raw, "undefined") != Interleave(es, raw[n..])
    decreases |es|
  {
    CleanTail(es);
    if Stray(es[0], |es| > 1) {
      var rest := if |es| == 1 then "" else ([NUL] + Decimal(n) + [NUL]) + Marked(es[1..], n + 1);
      assert Marked(es, n) == es[0] + rest;
      StrayIff(es[0], rest);
      var i :| 0 <= i < |es[0]| && Mark((es[0] + rest)[i..]).Some?;
      var p := StrayBreaks(es[0], rest, raw, i);
      assert Interleave(es, raw[n..])[p] == es[0][p];
    } else {
      FirstStretch(es, n, raw, "undefined");
      assert raw[n..][0] == raw[n] && raw[n..][1..] == raw[n + 1..];
      StraySpoils(es[1..], n + 1, raw);
      SameFront(es[0] + raw[n], SwapPass(Marked(es[1..], n + 1), raw, "undefined"), Interleave(es[1..], raw[n + 1..]));
      Assoc(es[0], raw[n], SwapPass(Marked(es[1..], n + 1), raw, "undefined"));
      Assoc(es[0], raw[n], Interleave(es[1..], raw[n + 1..]));
    }
  }

  lemma {:induction false} SameFront(p: string, a: string, b: string)
    requires a != b
    ensures p + a != p + b
  {
    assert a == (p + a)[|p|..] && b == (p + b)[|p|..];
  }

  // ---- one reading -------------------------------------------------------------------------------------

  /** What the last two passes make of the text that the raw pass left, for given raw values. */
  function LastPasses(t: string, data: Data, raw: seq<string>, missing: string): string
  {
    SwapPass(EscapePass(RawPass(t, data, 0).0, data), raw, missing)
  }

  /**
   * For every template and all data: whatever the raw values are, each is put in its place and nothing
   * that was put in is scanned again, if and only if the stretches are clean.
   */
  lemma {:induction false} NeverRescannedIff(t: string, data: Data)
    ensures (forall raw: seq<string> | |raw| == |Stretches(t, data)| - 1 ::
              LastPasses(t, data, raw, "undefined") == Interleave(Stretches(t, data), raw))
        <==> Clean(Stretches(t, data))
  {
    var es := Stretches(t, data);
    PassesMark(t, data, 0);
    if Clean(es) {
      forall raw: seq<string> | |raw| == |es| - 1
        ensures LastPasses(t, data, raw, "undefined") == Interleave(es, raw)
      {
        CleanFits(es, raw);
      }
    } else {
      var raw := StrayFails(es);
      assert LastPasses(t, data, raw, "undefined") != Interleave(es, raw);
    }
  }

  lemma {:induction false} CleanFits(es: seq<string>, raw: seq<string>)
    requires |es| == |raw| + 1 && Clean(es)
    ensures SwapPass(Marked(es, 0), raw, "undefined") == Interleave(es, raw)
  {
    CleanSwaps(es, 0, raw, "undefined");
    assert raw[0..] == raw;
  }

  lemma {:induction false} StrayFails(es: seq<string>) returns (raw: seq<string>)
    requires |es| > 0 && !Clean(es)
    ensures |es| == |raw| + 1 && SwapPass(Marked(es, 0), raw, "undefined") != Interleave(es, raw)
  {
    raw := seq(|es| - 1, i => "x");
    StraySpoils(es, 0, raw);
    assert raw[0..] == raw;
  }

  lemma EscapesTag(key: string, tail: string, data: Data)
    requires key != "" && forall c | c in key :: IsWord(c)
    ensures EscapePass("{{" + key + "}}" + tail, data) == Escape(Get(data, key).Show()) + EscapePass(tail, data)
  {
    TagIs(key, "{{", "}}", tail);
    var whole := "{{" + key + "}}" + tail;
    assert whole[4 + |key|..] == tail;
  }

  lemma NulFreeTail(t: string, i: nat)
    requires NulFree(t) && i <= |t|
    ensures NulFree(t[i..])
  {
  }

  /** The raw pass never makes an escaped tag that was not there. */
  lemma NotInvented(t: string, data: Data, n: nat)
    requires Escaped(RawPass(t, data, n).0).Some?
    ensures Escaped(t).Some?
  {
    var key := Escaped(RawPass(t, data, n).0).value;
    var p := "{{" + key + "}}";
    assert forall c | c in key :: IsWord(c);
    RawKeepsFront(t, data, n, p);
    assert t == p + t[|p|..];
    TagIs(key, "{{", "}}", t[|p|..]);
  }

  lemma {:induction false} EscapeNulFree(s: string)
    requires NulFree(s)
    ensures NulFree(Escape(s))
  {
    if s != "" {
      assert s[0] in s;
      assert NulFree(s[1..]) by { assert forall c | c in s[1..] :: c in s; }
      EscapeNulFree(s[1..]);
      assert NulFree(EscapeChar(s[0]));
    }
  }

  lemma {:induction false} SectionsNulFree(t: string, data: Data)
    requires NulFree(t)
    ensures NulFree(Sections(t, data))
  {
    if t != "" {
      var s := SectionAt(t, data);
      if s.Some? {
        SectionsNulFree(t[s.value.length..], data);
      } else {
        SectionsNulFree(t[1..], data);
      }
    }
  }

  /** The escaped tags of a section-resolved template. */
  function EscapedKeys(t: string): set<string>
  {
    if t == "" then {}
    else if Raw(t).Some? then EscapedKeys(t[6 + |Raw(t).value|..])
    else if Escaped(t).Some? then {Escaped(t).value} + EscapedKeys(t[4 + |Escaped(t).value|..])
    else EscapedKeys(t[1..])
  }

  lemma {:induction false} NulFreeStretches(t: string, data: Data)
    requires NulFree(t) && forall key | key in EscapedKeys(t) :: NulFree(Get(data, key).Show())
    ensures forall e | e in Stretches(t, data) :: NulFree(e)
  {
    if t == "" {
    } else if Raw(t).Some? {
      NulFreeTail(t, 6 + |Raw(t).value|);
      NulFreeStretches(t[6 + |Raw(t).value|..], data);
    } else if Escaped(t).Some? {
      var key := Escaped(t).value;
      EscapedUnfolds(t, data);
      NulFreeTail(t, 4 + |key|);
      NulFreeStretches(t[4 + |key|..], data);
      EscapeNulFree(Get(data, key).Show());
      PrefixedNulFree(Escape(Get(data, key).Show()), Stretches(t[4 + |key|..], data));
    } else {
      assert t[0] in t;
      NulFreeTail(t, 1);
      NulFreeStretches(t[1..], data);
      PrefixedNulFree([t[0]], Stretches(t[1..], data));
    }
  }

  lemma {:induction false} PrefixedNulFree(p: string, es: seq<string>)
    requires |es| > 0 && NulFree(p) && forall e | e in es :: NulFree(e)
    ensures forall e | e in Prefixed(p, es) :: NulFree(e)
  {
    assert es[0] in es;
  }

  /** A template free of NUL that shows only escaped values free of NUL is clean; raw values do not matter. */
  lemma {:induction false} NulFreeIsClean(t: string, data: Data)
    requires NulFree(t) && forall key | key in EscapedKeys(t) :: NulFree(Get(data, key).Show())
    ensures Clean(Stretches(t, data))
  {
    NulFreeStretches(t, data);
    NulFreeAreClean(Stretches(t, data));
  }

  lemma {:induction false} NulFreeAreClean(es: seq<string>)
    requires forall e | e in es :: NulFree(e)
    ensures Clean(es)
  {
    forall i | 0 <= i < |es| ensures !Stray(es[i], i < |es| - 1) {
      assert es[i] in es;
    }
  }

  /** Clean templates: the four replaces are one left-to-right reading of the section-resolved template. */
  lemma {:induction false} FourPassesAreOne(t: string, data: Data)
    requires Clean(Stretches(Sections(t, data), data))
    ensures FourPasses(t, data) == Interpret(Sections(t, data), data)
  {
    var resolved := Sections(t, data);
    var raw := RawPass(resolved, data, 0).1;
    PassesMark(resolved, data, 0);
    CleanSwaps(Stretches(resolved, data), 0, raw, "undefined");
    assert raw[0..] == raw;
  }

  /** No mark is out of range: what a missing value would print as never shows. */
  lemma {:induction false} NoIndexOutOfRange(t: string, data: Data, missing: string)
    requires Clean(Stretches(Sections(t, data), data))
    ensures LastPasses(Sections(t, data), data, RawPass(Sections(t, data), data, 0).1, missing) == FourPasses(t, data)
  {
    var resolved := Sections(t, data);
    var raw := RawPass(resolved, data, 0).1;
    PassesMark(resolved, data, 0);
    CleanSwaps(Stretches(resolved, data), 0, raw, missing);
    CleanSwaps(Stretches(resolved, data), 0, raw, "undefined");
  }

  /** Templates and escaped values free of NUL, the ordinary case: raw values may be any text. */
  lemma {:induction false} NulFreeIsOnePass(t: string, data: Data)
    requires NulFree(t) && forall key | key in EscapedKeys(Sections(t, data)) :: NulFree(Get(data, key).Show())
    ensures FourPasses(t, data) == Interpret(Sections(t, data), data)
  {
    SectionsNulFree(t, data);
    NulFreeIsClean(Sections(t, data), data);
    FourPassesAreOne(t, data);
  }

  /** A NUL in an escaped value is another matter: this one repeats the raw value put aside as number 0. */
  lemma NulValueIsRescanned(t: string, data: Data)
    requires t == "{{{a}}}{{b}}"
    requires data == map["a" := Text("X"), "b" := Text([NUL] + "0" + [NUL])]
    ensures FourPasses(t, data) == "XX"
    ensures Interpret(Sections(t, data), data) == "X" + ([NUL] + "0" + [NUL])
  {
    var mark := [NUL] + "0" + [NUL];
    NoSections(t, data);
    FirstTag(t, data);
    MarkThenTag(mark, data);
    FourPassesOf(t, data, mark + "{{b}}", ["X"]);
    SwapTwice();
  }

  lemma FourPassesOf(t: string, data: Data, out: string, raw: seq<string>)
    requires Sections(t, data) == t && RawPass(t, data, 0) == (out, raw)
    ensures FourPasses(t, data) == SwapPass(EscapePass(out, data), raw, "undefined")
  {
  }

  lemma MarkThenTag(mark: string, data: Data)
    requires mark == [NUL] + "0" + [NUL] && "b" in data && data["b"] == Text(mark)
    ensures EscapePass(mark + "{{b}}", data) == mark + mark
  {
    EscapeSkips(mark, "{{b}}", data);
    LastTag(data);
  }

  lemma FirstTag(t: string, data: Data)
    requires t == "{{{a}}}{{b}}"
    requires data == map["a" := Text("X"), "b" := Text([NUL] + "0" + [NUL])]
    ensures RawPass(t, data, 0) == (([NUL] + "0" + [NUL]) + "{{b}}", ["X"])
    ensures Interpret(t, data) == "X" + ([NUL] + "0" + [NUL])
  {
    TagIs("a", "{{{", "}}}", "{{b}}");
    assert t == "{{{" + "a" + "}}}" + "{{b}}";
    assert t[7..] == "{{b}}";
    LastTag(data);
    assert Decimal(0) == "0";
    assert ["X"] + [] == ["X"];
  }

  lemma EscapedMark()
    ensures Escape([NUL] + "0" + [NUL]) == [NUL] + "0" + [NUL]
  {
    var mark := [NUL] + "0" + [NUL];
    assert [NUL][1..] == "" && ['0', NUL][1..] == [NUL] && mark[1..] == ['0', NUL];
    assert Escape([NUL]) == [NUL];
    assert Escape(['0', NUL]) == ['0', NUL];
  }

  lemma LastTag(data: Data)
    requires "b" in data && data["b"] == Text([NUL] + "0" + [NUL])
    ensures RawPass("{{b}}", data, 1) == ("{{b}}", [])
    ensures EscapePass("{{b}}", data) == [NUL] + "0" + [NUL] == Interpret("{{b}}", data)
  {
    var t := "{{b}}";
    TagIs("b", "{{", "}}", "");
    assert t == "{{" + "b" + "}}" + "" && t[5..] == "";
    assert t[2..] == ("b" + "}}") + "";
    RawLeavesEscaped(t, "b", "", data, 1);
    EscapedMark();
    assert EscapePass("", data) == "" && Interpret("", data) == "";
  }

  lemma SwapTwice()
    ensures SwapPass(([NUL] + "0" + [NUL]) + ([NUL] + "0" + [NUL]), ["X"], "undefined") == "XX"
  {
    var mark := [NUL] + "0" + [NUL];
    MarkIs("0", mark);
    MarkIs("0", "");
    assert (mark + mark)[3..] == mark && mark + "" == mark && mark[3..] == "";
    DecimalParses(0);
    assert Decimal(0) == "0";
    assert SwapPass(mark, ["X"], "undefined") == "X";
  }

  lemma NoSections(t: string, data: Data)
    requires t == "{{{a}}}{{b}}"
    ensures Sections(t, data) == t
  {
    assert forall i | 0 <= i < |t| :: t[i] !in "#^";
    NoSectionsFrom(t, data);
  }

  lemma {:induction false} NoSectionsFrom(t: string, data: Data)
    requires forall c | c in t :: c !in "#^"
    ensures Sections(t, data) == t
  {
    if t != "" {
      assert Tag(t, "{{#", "}}").None? by { if |t| > 2 { assert t[2] in t && t[..3][2] == t[2]; } }
      assert Tag(t, "{{^", "}}").None? by { if |t| > 2 { assert t[2] in t && t[..3][2] == t[2]; } }
      NoSectionsFrom(t[1..], data);
      assert [t[0]] + t[1..] == t;
    }
  }

  lemma SectionHere(kind: char, key: string, body: string, rest: string, data: Data)
    requires kind in "#^" && key != "" && forall c | c in key :: IsWord(c)
    requires IndexOf(body + Closing(key) + rest, Closing(key)) == Some(|body|)
    ensures var t, n := ("{{" + [kind] + key + "}}") + (body + Closing(key) + rest), 5 + |key| + |body| + 5 + |key|;
            && SectionAt(t, data) == Some(Section(Get(data, key).Truthy() == (kind == '#'), body, n))
            && n <= |t| && t[n..] == rest
  {
    var open, close, keep := "{{" + [kind] + key + "}}", Closing(key), Get(data, key).Truthy() == (kind == '#');
    var t := open + (body + close + rest);
    SectionAtIs(kind, key, body + close + rest, data);
    CutOut(open, body, close, rest);
    SectionFound(t, key, keep, body, rest);
  }

  /** {{#key}}body{{/key}} keeps its body exactly when the value is truthy, {{^key}} when it is not. */
  lemma SectionMeaning(kind: char, key: string, body: string, rest: string, data: Data)
    requires kind in "#^" && key != "" && forall c | c in key :: IsWord(c)
    requires IndexOf(body + Closing(key) + rest, Closing(key)) == Some(|body|)
    ensures Sections(("{{" + [kind] + key + "}}") + (body + Closing(key) + rest), data)
         == (if Get(data, key).Truthy() == (kind == '#') then body else "") + Sections(rest, data)
  {
    SectionHere(kind, key, body, rest, data);
    SectionsUnfold(("{{" + [kind] + key + "}}") + (body + Closing(key) + rest), data,
                   Section(Get(data, key).Truthy() == (kind == '#'), body, 5 + |key| + |body| + 5 + |key|), rest);
  }

  lemma SectionAtIs(kind: char, key: string, after: string, data: Data)
    requires kind in "#^" && key != "" && forall c | c in key :: IsWord(c)
    ensures var t := ("{{" + [kind] + key + "}}") + after;
            SectionAt(t, data) == SectionOf(t, key, Get(data, key).Truthy() == (kind == '#'))
  {
    OpenTag(kind, key, after);
  }

  lemma SectionsUnfold(t: string, data: Data, s: Section, rest: string)
    requires t != "" && SectionAt(t, data) == Some(s) && t[s.length..] == rest
    ensures Sections(t, data) == (if s.keep then s.body else "") + Sections(rest, data)
  {
  }

  lemma SectionFound(t: string, key: string, keep: bool, body: string, rest: string)
    requires var i, j := 5 + |key|, 5 + |key| + |body|;
             j + 5 + |key| <= |t| && t[i..] == body + Closing(key) + rest && t[i..j] == body && t[j + 5 + |key|..] == rest
    requires IndexOf(body + Closing(key) + rest, Closing(key)) == Some(|body|)
    ensures SectionOf(t, key, keep) == Some(Section(keep, body, 5 + |key| + |body| + 5 + |key|))
  {
  }

  lemma OpenTag(kind: char, key: string, after: string)
    requires kind in "#^" && key != "" && forall c | c in key :: IsWord(c)
    ensures var t := ("{{" + [kind] + key + "}}") + after;
            && Tag(t, "{{#", "}}") == (if kind == '#' then Some(key) else None)
            && Tag(t, "{{^", "}}") == (if kind == '^' then Some(key) else None)
  {
    var open := "{{" + [kind];
    var t := open + key + "}}" + after;
    TagIs(key, open, "}}", after);
    assert t[..3] == open;
    if kind == '#' {
      assert open == "{{#" && open[2] != "{{^"[2];
    } else {
      assert open == "{{^" && open[2] != "{{#"[2];
    }
  }

  lemma CutOut(a: string, b: string, c: string, d: string)
    ensures var t := a + (b + c + d);
            && t[|a|..] == b + c + d && t[|a|..|a| + |b|] == b && t[|a| + |b| + |c|..] == d
  {
  }

  // ---- a page inside the layout --------------------------------------------------------------------------

  /** `render`: the page's HTML goes into the layout as the raw value `content`. */
  function Render(page: string, layout: string, base: Data): string
  {
    FourPasses(layout, base["content" := Text(FourPasses(page, base))])
  }

  /** A rendered page is the layout read once, with the page read once standing at {{{content}}}. */
  lemma {:induction false} RenderIsOnePass(page: string, layout: string, base: Data)
    requires Clean(Stretches(Sections(page, base), base))
    requires var inner := base["content" := Text(Interpret(Sections(page, base), base))];
             Clean(Stretches(Sections(layout, inner), inner))
    ensures var inner := base["content" := Text(Interpret(Sections(page, base), base))];
            Render(page, layout, base) == Interpret(Sections(layout, inner), inner)
  {
    FourPassesAreOne(page, base);
    FourPassesAreOne(layout, base["content" := Text(Interpret(Sections(page, base), base))]);
  }
}
