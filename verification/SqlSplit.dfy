/** app/db.py: cutting schema.sql into statements. */
module SqlSplit {
  import opened Prelude

  /** `str.isspace` on one character, which is also what `str.strip` removes. */
  predicate Space(c: char) {
    var n := c as int;
    || 0x9 <= n <= 0xD || 0x1C <= n <= 0x20 || n == 0x85 || n == 0xA0 || n == 0x1680
    || 0x2000 <= n <= 0x200A || n == 0x2028 || n == 0x2029 || n == 0x202F || n == 0x205F || n == 0x3000
  }

  /** `str.isspace` on one character, code point by code point. */
  lemma SpaceMeans(c: char)
    ensures Space(c) <==> c as int in {
              0x9, 0xA, 0xB, 0xC, 0xD, 0x1C, 0x1D, 0x1E, 0x1F, 0x20, 0x85, 0xA0, 0x1680,
              0x2000, 0x2001, 0x2002, 0x2003, 0x2004, 0x2005, 0x2006, 0x2007, 0x2008, 0x2009, 0x200A,
              0x2028, 0x2029, 0x202F, 0x205F, 0x3000}
  {}

  datatype Mode = Code | InStr | InComment

  /** What the scanner still returns, given its variables and the unread text. */
  function Scan(mode: Mode, buf: string, hasCode: bool, rest: string): seq<string>
    decreases |rest|
  {
    if rest == "" then (if hasCode then [Strip(Space, buf)] else [])
    else
      var ch := rest[0];
      match mode
      case InComment =>
        Scan(if ch != '\n' then InComment else Code, buf + [ch], hasCode, rest[1..])
      case InStr =>
        if ch == '\'' then
          if |rest| > 1 && rest[1] == '\'' then Scan(InStr, buf + [ch] + ['\''], hasCode, rest[2..])
          else Scan(Code, buf + [ch], hasCode, rest[1..])
        else Scan(InStr, buf + [ch], hasCode, rest[1..])
      case Code =>
        if "--" <= rest then Scan(InComment, buf + [ch], hasCode, rest[1..])
        else if ch == ';' then (if hasCode then [Strip(Space, buf)] else []) + Scan(Code, "", false, rest[1..])
        else Scan(if ch == '\'' then InStr else Code, buf + [ch], hasCode || !Space(ch), rest[1..])
  }

  function Split(script: string): seq<string> {
    Scan(Code, "", false, script)
  }

  method SplitStatements(script: string) returns (stmts: seq<string>)
    ensures stmts == Split(script)
  {
    stmts := [];
    var buf: string, hasCode, inStr, inComment := "", false, false, false;
    var i, n := 0, |script|;
    assert script[0..] == script;
    while i < n
      invariant 0 <= i <= n && !(inStr && inComment)
      invariant stmts + Scan(if inComment then InComment else if inStr then InStr else Code, buf, hasCode, script[i..])
             == Split(script)
    {
      var ch := script[i];
      ghost var rest := script[i..];
      assert rest[0] == ch && rest[1..] == script[i + 1..];
      assert i + 1 < n ==> rest[1] == script[i + 1] && rest[2..] == script[i + 2..];
      if inComment {
        inComment := ch != '\n';
        buf := buf + [ch];
      } else if inStr {
        buf := buf + [ch];
        if ch == '\'' {
          if i + 1 < n && script[i + 1] == '\'' {
            buf := buf + ['\''];
            i := i + 1;
          } else {
            inStr := false;
          }
        }
      } else if i + 1 < n && ch == '-' && script[i + 1] == '-' {
        assert "--" <= rest;
        inComment := true;
        buf := buf + [ch];
      } else if ch == ';' {
        if hasCode {
          stmts := stmts + [Strip(Space, buf)];
        }
        buf, hasCode := "", false;
      } else {
        if ch == '\'' {
          inStr := true;
        }
        hasCode := hasCode || !Space(ch);
        buf := buf + [ch];
      }
      i := i + 1;
    }
    if hasCode {
      stmts := stmts + [Strip(Space, buf)];
    }
  }

  // ------------------------------------------------------- reading one statement

  /** Mode and `hasCode` after reading `t`, or nothing if a `;` in code position is met. */
  datatype End = Cut | At(mode: Mode, hasCode: bool)

  function Lex(mode: Mode, hasCode: bool, t: string): End
    decreases |t|
  {
    if t == "" then At(mode, hasCode)
    else
      match mode
      case InComment => Lex(if t[0] != '\n' then InComment else Code, hasCode, t[1..])
      case InStr =>
        if t[0] == '\'' then
          if |t| > 1 && t[1] == '\'' then Lex(InStr, hasCode, t[2..]) else Lex(Code, hasCode, t[1..])
        else Lex(InStr, hasCode, t[1..])
      case Code =>
        if "--" <= t then Lex(InComment, hasCode, t[1..])
        else if t[0] == ';' then Cut
        else Lex(if t[0] == '\'' then InStr else Code, hasCode || !Space(t[0]), t[1..])
  }

  /** Text whose first character cannot change how the text before it is read. */
  predicate Neutral(tail: string) {
    tail == "" || (tail[0] != '-' && tail[0] != '\'')
  }

  /** Reading on after `t` when `t` has no `;` in code position. */
  lemma {:induction false} ScanAfter(mode: Mode, buf: string, hasCode: bool, t: string, tail: string)
    requires Lex(mode, hasCode, t).At? && Neutral(tail)
    ensures var e := Lex(mode, hasCode, t);
            Scan(mode, buf, hasCode, t + tail) == Scan(e.mode, buf + t, e.hasCode, tail)
    decreases |t|
  {
    if t == "" {
      assert t + tail == tail && buf + t == buf;
    } else {
      var ch := t[0];
      var all := t + tail;
      assert all[0] == ch && all[1..] == t[1..] + tail;
      assert buf + t == (buf + [ch]) + t[1..];
      if mode.InStr? && ch == '\'' && |t| > 1 && t[1] == '\'' {
        assert all[2..] == t[2..] + tail;
        assert buf + t == (buf + [ch] + ['\'']) + t[2..];
        ScanAfter(InStr, buf + [ch] + ['\''], hasCode, t[2..], tail);
      } else {
        assert "--" <= all <==> "--" <= t;
        assert |all| > 1 && |t| == 1 ==> all[1] == tail[0];
        var m := if mode.InComment? then (if ch != '\n' then InComment else Code)
                 else if mode.InStr? then (if ch == '\'' then Code else InStr)
                 else if "--" <= t then InComment
                 else if ch == '\'' then InStr else Code;
        var h := if mode.Code? && !("--" <= t) then hasCode || !Space(ch) else hasCode;
        ScanAfter(m, buf + [ch], h, t[1..], tail);
      }
    }
  }

  /** A script is one statement, or a statement, a `;` in code position, and a script. */
  lemma {:induction false} FirstCut(mode: Mode, hasCode: bool, t: string) returns (k: nat)
    requires Lex(mode, hasCode, t) == Cut
    ensures k < |t| && t[k] == ';' && Lex(mode, hasCode, t[..k]).At? && Lex(mode, hasCode, t[..k]).mode == Code
    decreases |t|
  {
    var ch := t[0];
    if mode.InStr? && ch == '\'' && |t| > 1 && t[1] == '\'' {
      var j := FirstCut(InStr, hasCode, t[2..]);
      k := j + 2;
      assert t[..k][2..] == t[2..][..j];
    } else if mode.Code? && ch == ';' {
      k := 0;
    } else {
      var m := if mode.InComment? then (if ch != '\n' then InComment else Code)
               else if mode.InStr? then (if ch == '\'' then Code else InStr)
               else if "--" <= t then InComment
               else if ch == '\'' then InStr else Code;
      var h := if mode.Code? && !("--" <= t) then hasCode || !Space(ch) else hasCode;
      var j := FirstCut(m, h, t[1..]);
      k := j + 1;
      assert t[..k][1..] == t[1..][..j];
      assert t[..k][0] == ch;
      assert k > 1 ==> t[..k][1] == t[1];
      assert k == 1 ==> t[1] == ';';
    }
  }

  lemma SplitOne(t: string)
    requires Lex(Code, false, t).At?
    ensures Split(t) == if Lex(Code, false, t).hasCode then [Strip(Space, t)] else []
  {
    ScanAfter(Code, "", false, t, "");
    assert t + "" == t && "" + t == t;
  }

  lemma SplitCons(t: string, rest: string)
    requires Lex(Code, false, t).At? && Lex(Code, false, t).mode == Code
    ensures Split(t + ";" + rest)
         == (if Lex(Code, false, t).hasCode then [Strip(Space, t)] else []) + Split(rest)
  {
    ScanAfter(Code, "", false, t, ";" + rest);
    assert t + ";" + rest == t + (";" + rest) && "" + t == t;
    assert (";" + rest)[1..] == rest;
  }

  // ------------------------------------------------------- every output is one statement

  lemma {:induction false} LexTrimLeft(s: string)
    ensures Lex(Code, false, TrimLeft(Space, s)) == Lex(Code, false, s)
  {
    if s != "" && Space(s[0]) { LexTrimLeft(s[1..]); }
  }

  /** A trailing space can be dropped: it is no code and ends nothing that matters. */
  lemma {:induction false} LexDropSpace(mode: Mode, hasCode: bool, t: string, c: char)
    requires Space(c) && Lex(mode, hasCode, t + [c]).At?
    ensures Lex(mode, hasCode, t).At? && Lex(mode, hasCode, t).hasCode == Lex(mode, hasCode, t + [c]).hasCode
    decreases |t|
  {
    var all := t + [c];
    if t == "" {
      assert all == [c] && all[1..] == "";
    } else {
      var ch := t[0];
      assert all[0] == ch && all[1..] == t[1..] + [c];
      if mode.InStr? && ch == '\'' && |t| > 1 && t[1] == '\'' {
        assert all[2..] == t[2..] + [c];
        LexDropSpace(InStr, hasCode, t[2..], c);
      } else {
        assert "--" <= all <==> "--" <= t;
        assert |t| == 1 ==> all[1] == c;
        var m := if mode.InComment? then (if ch != '\n' then InComment else Code)
                 else if mode.InStr? then (if ch == '\'' then Code else InStr)
                 else if "--" <= t then InComment
                 else if ch == '\'' then InStr else Code;
        var h := if mode.Code? && !("--" <= t) then hasCode || !Space(ch) else hasCode;
        LexDropSpace(m, h, t[1..], c);
      }
    }
  }

  lemma {:induction false} LexTrimRight(s: string)
    requires Lex(Code, false, s).At?
    ensures Lex(Code, false, TrimRight(Space, s)).At?
    ensures Lex(Code, false, TrimRight(Space, s)).hasCode == Lex(Code, false, s).hasCode
    decreases |s|
  {
    if s != "" && Space(s[|s| - 1]) {
      var t := s[..|s| - 1];
      assert t + [s[|s| - 1]] == s;
      LexDropSpace(Code, false, t, s[|s| - 1]);
      LexTrimRight(t);
    }
  }

  lemma {:induction false} TrimRightKeepsHead(s: string)
    ensures TrimRight(Space, s) <= s
    ensures TrimRight(Space, TrimRight(Space, s)) == TrimRight(Space, s)
    decreases |s|
  {
    if s != "" && Space(s[|s| - 1]) { TrimRightKeepsHead(s[..|s| - 1]); }
  }

  lemma {:induction false} TrimLeftDone(s: string)
    ensures TrimLeft(Space, s) == "" || !Space(TrimLeft(Space, s)[0])
  {
    if s != "" && Space(s[0]) { TrimLeftDone(s[1..]); }
  }

  lemma StripTwice(s: string)
    ensures Strip(Space, Strip(Space, s)) == Strip(Space, s)
  {
    TrimLeftDone(s);
    TrimRightKeepsHead(TrimLeft(Space, s));
  }

  lemma StripIsOneStatement(t: string)
    requires Lex(Code, false, t).At? && Lex(Code, false, t).hasCode
    ensures Split(Strip(Space, t)) == [Strip(Space, t)]
  {
    LexTrimLeft(t);
    LexTrimRight(TrimLeft(Space, t));
    SplitOne(Strip(Space, t));
    StripTwice(t);
  }

  /**
   * For any script at all: splitting a statement again gives back that statement alone, so no
   * output holds a `;` in code position, and none is blank or only a comment.
   */
  lemma {:induction false} OutputsAreStatements(script: string, k: nat)
    requires k < |Split(script)|
    ensures Split(Split(script)[k]) == [Split(script)[k]]
    decreases |script|
  {
    if Lex(Code, false, script).At? {
      SplitOne(script);
      StripIsOneStatement(script);
    } else {
      var cut := FirstCut(Code, false, script);
      var t, rest := script[..cut], script[cut + 1..];
      assert script == t + ";" + rest;
      SplitCons(t, rest);
      var h := Lex(Code, false, t).hasCode;
      if h { StripIsOneStatement(t); }
      if !h || k > 0 { OutputsAreStatements(rest, if h then k - 1 else k); }
    }
  }

  // ------------------------------------------------------- splitting inverts joining

  /** Pieces of a statement. A literal's body is given unescaped, a comment's without its newline. */
  datatype Piece = Char(c: char) | Literal(body: string) | Comment(body: string)

  function Escaped(body: string): string {
    if body == "" then "" else (if body[0] == '\'' then "\'\'" else [body[0]]) + Escaped(body[1..])
  }

  function Text(ps: seq<Piece>): string {
    if ps == [] then "" else PieceText(ps[0]) + Text(ps[1..])
  }

  function PieceText(p: Piece): string {
    match p
    case Char(c) => [c]
    case Literal(body) => "\'" + Escaped(body) + "\'"
    case Comment(body) => "--" + body + "\n"
  }

  /**
   * The pieces are the ones the text really has: no dash runs into another dash, no literal touches
   * the next, and a comment ends at its own newline. A dash may stand directly before a comment; it
   * is then read as part of that comment.
   */
  predicate WellFormed(ps: seq<Piece>) {
    ps == [] || (
      && (match ps[0]
          case Char(c) =>
            c != ';' && c != '\'' && (c == '-' && |ps| > 1 ==> ps[1] != Char('-'))
          case Literal(_) => |ps| > 1 ==> !ps[1].Literal?
          case Comment(body) => '\n' !in body)
      && WellFormed(ps[1..]))
  }

  /** A dash directly before a comment. */
  predicate AgainstComment(ps: seq<Piece>, i: nat)
    requires i < |ps|
  {
    ps[i] == Char('-') && i + 1 < |ps| && ps[i + 1].Comment?
  }

  predicate IsCode(ps: seq<Piece>, i: nat)
    requires i < |ps|
  {
    ps[i].Literal? || (ps[i].Char? && !Space(ps[i].c) && !AgainstComment(ps, i))
  }

  /** Some character that is not blank, outside comments and not read as part of one. */
  predicate HasCode(ps: seq<Piece>) {
    exists i :: 0 <= i < |ps| && IsCode(ps, i)
  }

  lemma {:induction false} LexComment(hasCode: bool, body: string, t: string)
    requires '\n' !in body
    ensures Lex(InComment, hasCode, body + "\n" + t) == Lex(Code, hasCode, t)
    decreases |body|
  {
    var all := body + "\n" + t;
    if body == "" {
      assert all[0] == '\n' && all[1..] == t;
    } else {
      assert all[0] == body[0] && all[1..] == body[1..] + "\n" + t;
      LexComment(hasCode, body[1..], t);
    }
  }

  lemma {:induction false} LexLiteral(hasCode: bool, body: string, t: string)
    requires t == "" || t[0] != '\''
    ensures Lex(InStr, hasCode, Escaped(body) + "\'" + t) == Lex(Code, hasCode, t)
    decreases |body|
  {
    var all := Escaped(body) + "\'" + t;
    if body == "" {
      assert all[0] == '\'' && all[1..] == t;
    } else {
      var rest := Escaped(body[1..]) + "\'" + t;
      if body[0] == '\'' {
        assert all == "\'\'" + rest;
        assert all[0] == '\'' && all[1] == '\'' && all[2..] == rest;
      } else {
        assert all == [body[0]] + rest;
        assert all[0] == body[0] && all[1..] == rest;
      }
      LexLiteral(hasCode, body[1..], t);
    }
  }

  lemma HasCodeCons(ps: seq<Piece>)
    requires ps != []
    ensures HasCode(ps) <==> IsCode(ps, 0) || HasCode(ps[1..])
  {
    forall i | 0 < i < |ps| ensures IsCode(ps, i) <==> IsCode(ps[1..], i - 1) {}
    if HasCode(ps[1..]) {
      var i :| 0 <= i < |ps[1..]| && IsCode(ps[1..], i);
      assert IsCode(ps, i + 1);
    }
    if HasCode(ps) {
      var i :| 0 <= i < |ps| && IsCode(ps, i);
      if i > 0 { assert IsCode(ps[1..], i - 1); }
    }
  }

  /** What the text of well-formed pieces can start with. */
  lemma TextHead(ps: seq<Piece>)
    requires WellFormed(ps) && ps != []
    ensures Text(ps) != ""
    ensures Text(ps)[0] == match ps[0] case Char(c) => c case Literal(_) => '\'' case Comment(_) => '-'
  {}

  lemma LexWholeLiteral(hasCode: bool, body: string, t: string)
    requires t == "" || t[0] != '\''
    ensures Lex(Code, hasCode, PieceText(Literal(body)) + t) == Lex(Code, true, t)
  {
    var all := PieceText(Literal(body)) + t;
    assert all[0] == '\'' && all[1..] == Escaped(body) + "\'" + t;
    LexLiteral(true, body, t);
    assert !Space('\'');
  }

  lemma LexWholeComment(hasCode: bool, body: string, t: string)
    requires '\n' !in body
    ensures Lex(Code, hasCode, PieceText(Comment(body)) + t) == Lex(Code, hasCode, t)
  {
    var all := PieceText(Comment(body)) + t;
    var rest := body + "\n" + t;
    assert all == ['-', '-'] + rest;
    assert "--" <= all && all[1..] == ['-'] + rest;
    assert (['-'] + rest)[1..] == rest;
    LexComment(hasCode, body, t);
  }

  /** A dash before a comment is swallowed by it. */
  lemma LexDash(hasCode: bool, body: string, t: string)
    requires '\n' !in body
    ensures Lex(Code, hasCode, "-" + (PieceText(Comment(body)) + t)) == Lex(Code, hasCode, t)
  {
    LexWholeComment(hasCode, "-" + body, t);
    assert "-" + (PieceText(Comment(body)) + t) == PieceText(Comment("-" + body)) + t;
  }

  lemma LexChar(hasCode: bool, c: char, t: string)
    requires c != ';' && c != '\'' && (c == '-' ==> t == "" || t[0] != '-')
    ensures Lex(Code, hasCode, PieceText(Char(c)) + t) == Lex(Code, hasCode || !Space(c), t)
  {
    var all := [c] + t;
    assert all[0] == c && all[1..] == t;
    assert |all| > 1 ==> all[1] == t[0];
  }

  lemma {:induction false} LexPieces(hasCode: bool, ps: seq<Piece>)
    requires WellFormed(ps)
    ensures Lex(Code, hasCode, Text(ps)) == At(Code, hasCode || HasCode(ps))
    decreases |ps|
  {
    if ps != [] {
      HasCodeCons(ps);
      if |ps| > 1 { TextHead(ps[1..]); }
      if AgainstComment(ps, 0) {
        HasCodeCons(ps[1..]);
        assert ps[1..][1..] == ps[2..] && Text(ps) == "-" + (PieceText(ps[1]) + Text(ps[2..]));
        LexDash(hasCode, ps[1].body, Text(ps[2..]));
        LexPieces(hasCode, ps[2..]);
      } else {
        match ps[0] {
          case Char(c) => LexChar(hasCode, c, Text(ps[1..]));
          case Literal(body) => LexWholeLiteral(hasCode, body, Text(ps[1..]));
          case Comment(body) => LexWholeComment(hasCode, body, Text(ps[1..]));
        }
        LexPieces(hasCode || IsCode(ps, 0), ps[1..]);
      }
    }
  }

  function Join(stmts: seq<seq<Piece>>): string {
    if stmts == [] then "" else if |stmts| == 1 then Text(stmts[0]) else Text(stmts[0]) + ";" + Join(stmts[1..])
  }

  /** The statements that survive: those with code, each stripped, in order. */
  function Kept(stmts: seq<seq<Piece>>): seq<string> {
    if stmts == [] then []
    else (if HasCode(stmts[0]) then [Strip(Space, Text(stmts[0]))] else []) + Kept(stmts[1..])
  }

  /** Splitting a `;`-join returns exactly the joined statements; those without code vanish. */
  lemma {:induction false} SplitInvertsJoin(stmts: seq<seq<Piece>>)
    requires forall i :: 0 <= i < |stmts| ==> WellFormed(stmts[i])
    ensures Split(Join(stmts)) == Kept(stmts)
    decreases |stmts|
  {
    if stmts != [] {
      LexPieces(false, stmts[0]);
      if |stmts| == 1 {
        SplitOne(Text(stmts[0]));
      } else {
        SplitCons(Text(stmts[0]), Join(stmts[1..]));
        SplitInvertsJoin(stmts[1..]);
      }
    }
  }

  /** With code in every statement nothing is lost. */
  lemma {:induction false} KeptAll(stmts: seq<seq<Piece>>)
    requires forall i :: 0 <= i < |stmts| ==> HasCode(stmts[i])
    ensures |Kept(stmts)| == |stmts|
    ensures forall i :: 0 <= i < |stmts| ==> Kept(stmts)[i] == Strip(Space, Text(stmts[i]))
  {
    if stmts != [] {
      KeptAll(stmts[1..]);
      assert HasCode(stmts[0]);
      forall i | 0 <= i < |stmts| ensures Kept(stmts)[i] == Strip(Space, Text(stmts[i])) {
        if i > 0 { assert stmts[i] == stmts[1..][i - 1]; }
      }
    }
  }

  /**
   * A statement vanishes exactly when all it has is blanks, comments, and dashes written directly
   * before a comment.
   */
  lemma DashAgainstComment(ps: seq<Piece>)
    requires WellFormed(ps)
    ensures Split(Text(ps)) == []
       <==> forall i :: 0 <= i < |ps| ==> ps[i].Comment? || (ps[i].Char? && Space(ps[i].c)) || AgainstComment(ps, i)
  {
    LexPieces(false, ps);
    SplitOne(Text(ps));
    if forall i :: 0 <= i < |ps| ==> ps[i].Comment? || (ps[i].Char? && Space(ps[i].c)) || AgainstComment(ps, i) {
      forall i | 0 <= i < |ps| ensures !IsCode(ps, i) {}
    }
    if !HasCode(ps) {
      forall i | 0 <= i < |ps| ensures ps[i].Comment? || (ps[i].Char? && Space(ps[i].c)) || AgainstComment(ps, i) {
        assert !IsCode(ps, i);
      }
    }
  }
}
