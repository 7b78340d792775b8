/** app/util.py: the string-aware nesting guard in front of the JSON decoder. */
module JsonDepth {

  // ------------------------------------------------------- JSON texts, as RFC 8259 writes them

  /** One character of a string as printed (RFC 8259, section 7). */
  datatype Unit =
    | Plain(c: char)
    | Escape(c: char)
    | Unicode(h: string)

  /** A value as printed, insignificant whitespace included. */
  datatype Json =
    | Word(text: string)
    | Str(units: seq<Unit>)
    | Arr(items: seq<Elem>, blank: string)
    | Obj(members: seq<Member>, blank: string)

  datatype Elem = Elem(pre: string, value: Json, post: string)

  datatype Member = Member(pre: string, key: seq<Unit>, mid: string, elem: Elem)

  predicate Blank(s: string) {
    forall i :: 0 <= i < |s| ==> s[i] in " \t\n\r"
  }

  predicate ValidUnit(u: Unit) {
    match u
    case Plain(c) => c != '"' && c != '\\' && c as int >= 0x20
    case Escape(c) => c in "\"\\/bfnrt"
    case Unicode(h) => |h| == 4 && forall i :: 0 <= i < 4 ==> h[i] in "0123456789abcdefABCDEF"
  }

  predicate ValidWord(t: string) {
    t == "true" || t == "false" || t == "null"
    || (t != "" && forall i :: 0 <= i < |t| ==> t[i] in "0123456789+-.eE")
  }

  predicate ValidUnits(us: seq<Unit>) {
    forall i :: 0 <= i < |us| ==> ValidUnit(us[i])
  }

  predicate Valid(j: Json) {
    match j
    case Word(t) => ValidWord(t)
    case Str(us) => ValidUnits(us)
    case Arr(items, blank) => Blank(blank) && ValidElems(items)
    case Obj(members, blank) => Blank(blank) && ValidMembers(members)
  }

  predicate ValidElem(e: Elem) {
    Blank(e.pre) && Valid(e.value) && Blank(e.post)
  }

  predicate ValidElems(es: seq<Elem>) {
    es == [] || (ValidElem(es[0]) && ValidElems(es[1..]))
  }

  predicate ValidMembers(ms: seq<Member>) {
    ms == [] || (Blank(ms[0].pre) && ValidUnits(ms[0].key) && Blank(ms[0].mid)
                 && ValidElem(ms[0].elem) && ValidMembers(ms[1..]))
  }

  function PrintUnit(u: Unit): string {
    match u
    case Plain(c) => [c]
    case Escape(c) => ['\\', c]
    case Unicode(h) => ['\\', 'u'] + h
  }

  function PrintUnits(us: seq<Unit>): string {
    if us == [] then "" else PrintUnit(us[0]) + PrintUnits(us[1..])
  }

  function Quote(us: seq<Unit>): string {
    "\"" + PrintUnits(us) + "\""
  }

  function Print(j: Json): string {
    match j
    case Word(t) => t
    case Str(us) => Quote(us)
    case Arr(items, blank) => "[" + blank + PrintElems(items) + "]"
    case Obj(members, blank) => "{" + blank + PrintMembers(members) + "}"
  }

  function PrintElem(e: Elem): string {
    e.pre + Print(e.value) + e.post
  }

  function PrintElems(es: seq<Elem>): string {
    if es == [] then ""
    else PrintElem(es[0]) + (if |es| == 1 then "" else ",") + PrintElems(es[1..])
  }

  function PrintMembers(ms: seq<Member>): string {
    if ms == [] then ""
    else
      (ms[0].pre + Quote(ms[0].key) + ms[0].mid) + ":" + PrintElem(ms[0].elem)
      + (if |ms| == 1 then "" else ",") + PrintMembers(ms[1..])
  }

  function Max(a: nat, b: nat): nat { if a < b then b else a }

  /** How deep containers nest in a value. */
  function Depth(j: Json): nat {
    match j
    case Word(_) => 0
    case Str(_) => 0
    case Arr(items, _) => 1 + DepthElems(items)
    case Obj(members, _) => 1 + DepthMembers(members)
  }

  function DepthElems(es: seq<Elem>): nat {
    if es == [] then 0 else Max(Depth(es[0].value), DepthElems(es[1..]))
  }

  function DepthMembers(ms: seq<Member>): nat {
    if ms == [] then 0 else Max(Depth(ms[0].elem.value), DepthMembers(ms[1..]))
  }

  // ------------------------------------------------------- the scanner

  /** The guard's variables, or `Over` once it has answered True. */
  datatype Scan = Over | At(depth: nat, inStr: bool, escaped: bool)

  function Step(limit: int, s: Scan, ch: char): Scan {
    if s.Over? then Over
    else if s.inStr then
      if s.escaped then s.(escaped := false)
      else if ch == '\\' then s.(escaped := true)
      else if ch == '"' then s.(inStr := false)
      else s
    else if ch == '"' then s.(inStr := true)
    else if ch == '{' || ch == '[' then
      if s.depth + 1 > limit then Over else s.(depth := s.depth + 1)
    else if (ch == '}' || ch == ']') && s.depth > 0 then s.(depth := s.depth - 1)
    else s
  }

  function Run(limit: int, s: Scan, text: string): Scan
    decreases |text|
  {
    if text == "" then s else Run(limit, Step(limit, s, text[0]), text[1..])
  }

  method ExceedsJsonDepth(text: string, limit: int) returns (exceeds: bool)
    ensures exceeds <==> Run(limit, At(0, false, false), text) == Over
  {
    var depth: nat, inStr, escaped := 0, false, false;
    ghost var end := Run(limit, At(0, false, false), text);
    assert text[0..] == text;
    for i := 0 to |text|
      invariant Run(limit, At(depth, inStr, escaped), text[i..]) == end
    {
      var ch := text[i];
      assert text[i..][0] == ch && text[i..][1..] == text[i + 1..];
      if inStr {
        if escaped {
          escaped := false;
        } else if ch == '\\' {
          escaped := true;
        } else if ch == '"' {
          inStr := false;
        }
      } else if ch == '"' {
        inStr := true;
      } else if ch == '{' || ch == '[' {
        depth := depth + 1;
        if depth > limit {
          OverStays(limit, text[i + 1..]);
          return true;
        }
      } else if (ch == '}' || ch == ']') && depth > 0 {
        depth := depth - 1;
      }
    }
    return false;
  }

  lemma {:induction false} OverStays(limit: int, text: string)
    ensures Run(limit, Over, text) == Over
    decreases |text|
  {
    if text != "" { OverStays(limit, text[1..]); }
  }

  lemma {:induction false} RunAppend(limit: int, s: Scan, a: string, b: string)
    ensures Run(limit, s, a + b) == Run(limit, Run(limit, s, a), b)
    decreases |a|
  {
    if a == "" {
      assert a + b == b;
    } else {
      RunAppend(limit, Step(limit, s, a[0]), a[1..], b);
      assert (a + b)[0] == a[0] && (a + b)[1..] == a[1..] + b;
    }
  }

  lemma RunOne(limit: int, s: Scan, c: char)
    ensures Run(limit, s, [c]) == Step(limit, s, c)
  {
    assert [c][1..] == "";
    assert Run(limit, Step(limit, s, c), "") == Step(limit, s, c);
  }

  // ------------------------------------------------------- one value

  /** Text without structure leaves the scanner where it is. */
  lemma {:induction false} Inert(limit: int, d: nat, t: string)
    requires forall i :: 0 <= i < |t| ==> t[i] !in "\"{}[]"
    ensures Run(limit, At(d, false, false), t) == At(d, false, false)
  {
    if t != "" { Inert(limit, d, t[1..]); }
  }

  /** A backslash and the character after it. */
  lemma InStringEscape(limit: int, d: nat, c: char)
    ensures Run(limit, At(d, true, false), ['\\', c]) == At(d, true, false)
  {
    RunAppend(limit, At(d, true, false), "\\", [c]);
    RunOne(limit, At(d, true, false), '\\');
    RunOne(limit, At(d, true, true), c);
    assert "\\" + [c] == ['\\', c];
  }

  lemma InStringHex(limit: int, d: nat, h: string)
    requires ValidUnit(Unicode(h))
    ensures Run(limit, At(d, true, false), h) == At(d, true, false)
  {
    forall i | 0 <= i < |h| ensures h[i] != '"' && h[i] != '\\' {
      assert h[i] in "0123456789abcdefABCDEF";
    }
    InStringPlain(limit, d, h);
  }

  /** Inside a string only an unescaped quote matters. */
  lemma InStringUnit(limit: int, d: nat, u: Unit)
    requires ValidUnit(u)
    ensures Run(limit, At(d, true, false), PrintUnit(u)) == At(d, true, false)
  {
    match u
    case Plain(c) =>
      RunOne(limit, At(d, true, false), c);
    case Escape(c) =>
      InStringEscape(limit, d, c);
    case Unicode(h) =>
      InStringEscape(limit, d, 'u');
      RunAppend(limit, At(d, true, false), ['\\', 'u'], h);
      InStringHex(limit, d, h);
  }

  lemma {:induction false} InStringPlain(limit: int, d: nat, t: string)
    requires forall i :: 0 <= i < |t| ==> t[i] != '"' && t[i] != '\\'
    ensures Run(limit, At(d, true, false), t) == At(d, true, false)
  {
    if t != "" { InStringPlain(limit, d, t[1..]); }
  }

  lemma {:induction false} InStringUnits(limit: int, d: nat, us: seq<Unit>)
    requires ValidUnits(us)
    ensures Run(limit, At(d, true, false), PrintUnits(us)) == At(d, true, false)
  {
    if us != [] {
      InStringUnit(limit, d, us[0]);
      InStringUnits(limit, d, us[1..]);
      RunAppend(limit, At(d, true, false), PrintUnit(us[0]), PrintUnits(us[1..]));
    }
  }

  /** A whole string, braces and all, is transparent. */
  lemma QuoteInert(limit: int, d: nat, us: seq<Unit>)
    requires ValidUnits(us)
    ensures Run(limit, At(d, false, false), Quote(us)) == At(d, false, false)
  {
    RunAppend(limit, At(d, false, false), "\"" + PrintUnits(us), "\"");
    RunAppend(limit, At(d, false, false), "\"", PrintUnits(us));
    RunOne(limit, At(d, false, false), '"');
    InStringUnits(limit, d, us);
    RunOne(limit, At(d, true, false), '"');
  }

  /** The scanner after a value of nesting `depth`, started at level `d`. */
  function After(limit: int, d: nat, depth: nat): Scan {
    if depth > 0 && d + depth > limit then Over else At(d, false, false)
  }

  /** Running on from what `After` describes. */
  lemma AfterThen(limit: int, d: nat, depth: nat, t: string, then': nat)
    requires Run(limit, At(d, false, false), t) == After(limit, d, then')
    ensures Run(limit, After(limit, d, depth), t) == After(limit, d, Max(depth, then'))
  {
    OverStays(limit, t);
  }

  lemma BlankInert(limit: int, d: nat, t: string)
    requires Blank(t)
    ensures Run(limit, At(d, false, false), t) == After(limit, d, 0)
  {
    forall i | 0 <= i < |t| ensures t[i] !in "\"{}[]" { assert t[i] in " \t\n\r"; }
    Inert(limit, d, t);
  }

  lemma WordInert(limit: int, d: nat, t: string)
    requires ValidWord(t)
    ensures Run(limit, At(d, false, false), t) == After(limit, d, 0)
  {
    forall i | 0 <= i < |t| ensures t[i] !in "\"{}[]" {
      if t != "true" && t != "false" && t != "null" { assert t[i] in "0123456789+-.eE"; }
    }
    Inert(limit, d, t);
  }

  /** Scanning two texts one after the other. */
  lemma Both(limit: int, d: nat, a: string, x: nat, b: string, y: nat)
    requires Run(limit, At(d, false, false), a) == After(limit, d, x)
    requires Run(limit, At(d, false, false), b) == After(limit, d, y)
    ensures Run(limit, At(d, false, false), a + b) == After(limit, d, Max(x, y))
  {
    RunAppend(limit, At(d, false, false), a, b);
    AfterThen(limit, d, x, b, y);
  }

  lemma ElemDepth(limit: int, d: nat, e: Elem)
    requires ValidElem(e)
    ensures Run(limit, At(d, false, false), PrintElem(e)) == After(limit, d, Depth(e.value))
    decreases e, 0
  {
    BlankInert(limit, d, e.pre);
    ValueDepth(limit, d, e.value);
    BlankInert(limit, d, e.post);
    Both(limit, d, e.pre, 0, Print(e.value), Depth(e.value));
    Both(limit, d, e.pre + Print(e.value), Depth(e.value), e.post, 0);
  }

  lemma SeparatorInert(limit: int, d: nat, t: string)
    requires t == "" || t == "," || t == ":"
    ensures Run(limit, At(d, false, false), t) == After(limit, d, 0)
  {
    Inert(limit, d, t);
  }

  lemma {:induction false} ElemsDepth(limit: int, d: nat, es: seq<Elem>)
    requires ValidElems(es)
    ensures Run(limit, At(d, false, false), PrintElems(es)) == After(limit, d, DepthElems(es))
    decreases es
  {
    if es != [] {
      var x := Depth(es[0].value);
      var sep := if |es| == 1 then "" else ",";
      ElemDepth(limit, d, es[0]);
      SeparatorInert(limit, d, sep);
      Both(limit, d, PrintElem(es[0]), x, sep, 0);
      ElemsDepth(limit, d, es[1..]);
      Both(limit, d, PrintElem(es[0]) + sep, x, PrintElems(es[1..]), DepthElems(es[1..]));
    }
  }

  lemma {:induction false} MembersDepth(limit: int, d: nat, ms: seq<Member>)
    requires ValidMembers(ms)
    ensures Run(limit, At(d, false, false), PrintMembers(ms)) == After(limit, d, DepthMembers(ms))
    decreases ms
  {
    if ms != [] {
      var m := ms[0];
      var x := Depth(m.elem.value);
      var sep := if |ms| == 1 then "" else ",";
      var head := m.pre + Quote(m.key) + m.mid;
      BlankInert(limit, d, m.pre);
      QuoteInert(limit, d, m.key);
      BlankInert(limit, d, m.mid);
      Both(limit, d, m.pre, 0, Quote(m.key), 0);
      Both(limit, d, m.pre + Quote(m.key), 0, m.mid, 0);
      SeparatorInert(limit, d, ":");
      Both(limit, d, head, 0, ":", 0);
      ElemDepth(limit, d, m.elem);
      Both(limit, d, head + ":", 0, PrintElem(m.elem), x);
      SeparatorInert(limit, d, sep);
      Both(limit, d, head + ":" + PrintElem(m.elem), x, sep, 0);
      MembersDepth(limit, d, ms[1..]);
      Both(limit, d, head + ":" + PrintElem(m.elem) + sep, x, PrintMembers(ms[1..]), DepthMembers(ms[1..]));
    }
  }

  /** An opening bracket, a body scanned one level down, a closing bracket. */
  lemma Bracketed(limit: int, d: nat, open: char, body: string, close: char, depth: nat)
    requires (open == '[' && close == ']') || (open == '{' && close == '}')
    requires Run(limit, At(d + 1, false, false), body) == After(limit, d + 1, depth)
    ensures Run(limit, At(d, false, false), [open] + body + [close]) == After(limit, d, 1 + depth)
  {
    var s := At(d, false, false);
    RunAppend(limit, s, [open] + body, [close]);
    RunAppend(limit, s, [open], body);
    RunOne(limit, s, open);
    RunOne(limit, Run(limit, s, [open] + body), close);
    OverStays(limit, body);
  }

  /** A container, given what its printed contents do one level down. */
  lemma ContainerDepth(limit: int, d: nat, open: char, blank: string, body: string, close: char, depth: nat)
    requires (open == '[' && close == ']') || (open == '{' && close == '}')
    requires Blank(blank)
    requires Run(limit, At(d + 1, false, false), body) == After(limit, d + 1, depth)
    ensures Run(limit, At(d, false, false), [open] + blank + body + [close]) == After(limit, d, 1 + depth)
  {
    BlankInert(limit, d + 1, blank);
    Both(limit, d + 1, blank, 0, body, depth);
    Bracketed(limit, d, open, blank + body, close, depth);
    assert [open] + blank + body + [close] == [open] + (blank + body) + [close];
  }

  /** One printed value moves the scanner exactly as its container depth says. */
  lemma {:induction false} ValueDepth(limit: int, d: nat, j: Json)
    requires Valid(j)
    ensures Run(limit, At(d, false, false), Print(j)) == After(limit, d, Depth(j))
    decreases j
  {
    match j
    case Word(t) =>
      WordInert(limit, d, t);
    case Str(us) =>
      QuoteInert(limit, d, us);
    case Arr(items, blank) =>
      ElemsDepth(limit, d + 1, items);
      ContainerDepth(limit, d, '[', blank, PrintElems(items), ']', DepthElems(items));
    case Obj(members, blank) =>
      MembersDepth(limit, d + 1, members);
      ContainerDepth(limit, d, '{', blank, PrintMembers(members), '}', DepthMembers(members));
  }

  // ------------------------------------------------------- whole payloads

  /** Documents one after the other, as in newline-delimited JSON. */
  function PrintStream(docs: seq<Elem>): string {
    if docs == [] then "" else PrintElem(docs[0]) + PrintStream(docs[1..])
  }

  lemma {:induction false} StreamDepth(limit: int, docs: seq<Elem>)
    requires ValidElems(docs)
    ensures Run(limit, At(0, false, false), PrintStream(docs)) == After(limit, 0, DepthElems(docs))
  {
    if docs != [] {
      ElemDepth(limit, 0, docs[0]);
      StreamDepth(limit, docs[1..]);
      Both(limit, 0, PrintElem(docs[0]), Depth(docs[0].value), PrintStream(docs[1..]), DepthElems(docs[1..]));
    }
  }

  lemma {:induction false} DepthElemsIsMax(es: seq<Elem>, n: int)
    requires n >= 0
    ensures DepthElems(es) > n <==> exists i :: 0 <= i < |es| && Depth(es[i].value) > n
  {
    if es != [] {
      DepthElemsIsMax(es[1..], n);
      if exists i :: 0 <= i < |es| && Depth(es[i].value) > n {
        var i :| 0 <= i < |es| && Depth(es[i].value) > n;
        if i > 0 { assert es[1..][i - 1] == es[i]; }
      }
    }
  }

  /**
   * The guard fires exactly when some document nests deeper than the limit, for every spelling
   * RFC 8259 allows. A limit below zero acts like zero.
   */
  lemma GuardIsNesting(limit: int, docs: seq<Elem>)
    requires ValidElems(docs)
    ensures Run(limit, At(0, false, false), PrintStream(docs)) == Over
       <==> exists i :: 0 <= i < |docs| && Depth(docs[i].value) > (if limit < 0 then 0 else limit)
  {
    StreamDepth(limit, docs);
    DepthElemsIsMax(docs, if limit < 0 then 0 else limit);
  }
}
