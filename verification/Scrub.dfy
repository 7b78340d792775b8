/** app/ingest_actions.py: `literal_scrubber`, and when a scrubbed value is really gone. */
module Scrubbing {
  import opened Prelude

  const MIN_SUBSTRING_LEN: nat := 8

  /** `o` stands at position `i` of `s`. */
  predicate At(o: string, s: string, i: nat) {
    i + |o| <= |s| && s[i..i + |o|] == o
  }

  /** `o in s`. */
  ghost predicate Occurs(o: string, s: string) {
    exists i: nat :: At(o, s, i)
  }

  /** `s.replace(o, r)` for a non-empty `o`: leftmost first, without overlaps. */
  function ReplaceAll(s: string, o: string, r: string): string
    requires o != ""
    decreases |s|
  {
    if o <= s then r + ReplaceAll(s[|o|..], o, r)
    else if s == "" then ""
    else [s[0]] + ReplaceAll(s[1..], o, r)
  }

  // ------------------------------------------------------- whole tokens

  /** The character class `[0-9A-Za-z_]` of the lookarounds. */
  predicate Word(c: char) {
    '0' <= c <= '9' || 'A' <= c <= 'Z' || 'a' <= c <= 'z' || c == '_'
  }

  /** `str.isalnum` on one character: ASCII as written, the rest by the Unicode table `uni`. */
  predicate Alnum(uni: char -> bool, c: char) {
    if c as int < 0x80 then Word(c) && c != '_' else uni(c)
  }

  /** The lookbehind or lookahead is there only when that end of the value is a word character. */
  predicate Guarded(uni: char -> bool, end: char) {
    Alnum(uni, end) || end == '_'
  }

  predicate Free(guarded: bool, neighbour: Option<char>) {
    !guarded || neighbour.None? || !Word(neighbour.value)
  }

  function Head(s: string): Option<char> {
    if s == "" then None else Some(s[0])
  }

  /** `o` matches at the start of `s`, the character before it being `prev`. */
  predicate TokenHere(uni: char -> bool, o: string, prev: Option<char>, s: string)
    requires o != ""
  {
    o <= s && Free(Guarded(uni, o[0]), prev) && Free(Guarded(uni, o[|o| - 1]), Head(s[|o|..]))
  }

  /** `token.sub(r, s)`; lookbehinds see the text as it was, not what replaced it. */
  function TokenSub(uni: char -> bool, o: string, r: string, prev: Option<char>, s: string): string
    requires o != ""
    decreases |s|
  {
    if TokenHere(uni, o, prev, s) then r + TokenSub(uni, o, r, Some(o[|o| - 1]), s[|o|..])
    else if s == "" then ""
    else [s[0]] + TokenSub(uni, o, r, Some(s[0]), s[1..])
  }

  /** The character before position `i`, `prev` standing before the whole text. */
  function Before(prev: Option<char>, s: string, i: nat): Option<char>
    requires i <= |s|
  {
    if i == 0 then prev else Some(s[i - 1])
  }

  /** `o` is a whole token somewhere in `s`. */
  ghost predicate HasToken(uni: char -> bool, o: string, prev: Option<char>, s: string)
    requires o != ""
  {
    exists i :: 0 <= i <= |s| && TokenHere(uni, o, Before(prev, s, i), s[i..])
  }

  // ------------------------------------------------------- the scrubber

  /** A value that was masked and what stands for it now. */
  datatype Pair = Pair(original: string, replacement: string)

  /** One pair's turn: exact equality, then substring or token by length; blank originals are skipped. */
  function ScrubOne(uni: char -> bool, p: Pair, s: string): string {
    if p.original == "" then s
    else if s == p.original then p.replacement
    else if |p.original| >= MIN_SUBSTRING_LEN then ReplaceAll(s, p.original, p.replacement)
    else TokenSub(uni, p.original, p.replacement, None, s)
  }

  function Scrub(uni: char -> bool, pairs: seq<Pair>, s: string): string {
    if pairs == [] then s else ScrubOne(uni, pairs[|pairs| - 1], Scrub(uni, pairs[..|pairs| - 1], s))
  }

  /** The loop inside the returned function. */
  method ScrubText(uni: char -> bool, pairs: seq<Pair>, text: string) returns (s: string)
    ensures s == Scrub(uni, pairs, text)
  {
    s := text;
    for i := 0 to |pairs|
      invariant s == Scrub(uni, pairs[..i], text)
    {
      assert pairs[..i + 1][..i] == pairs[..i] && pairs[..i + 1][i] == pairs[i];
      var o, r := pairs[i].original, pairs[i].replacement;
      if o != "" {
        if s == o {
          s := r;
        } else if |o| >= MIN_SUBSTRING_LEN {
          s := ReplaceAll(s, o, r);
        } else {
          s := TokenSub(uni, o, r, None, s);
        }
      }
    }
    assert pairs[..|pairs|] == pairs;
  }

  // ------------------------------------------------------- edges

  /** One of the two starts with the other. */
  predicate Compat(a: string, b: string) { a <= b || b <= a }

  /** The value follows its own first `k` characters there and nowhere earlier. */
  predicate Clear(o: string, k: nat)
    requires k <= |o|
  {
    forall i :: 0 <= i < k ==> !At(o, o[..k] + o, i)
  }

  /**
   * Replacing the value can leave it behind: it can be read from inside the replacement on, or from
   * characters of its own that stand, as they are, in front of one.
   */
  predicate Rebuilds(o: string, r: string) {
    || (exists i :: 0 <= i < |r| && Compat(o, r[i..]))
    || (exists k :: 0 < k < |o| && Clear(o, k) && Compat(o[k..], r))
  }

  /** The same without asking whether the value's own characters could stand there unreplaced. */
  predicate Apart(o: string, r: string) {
    && (forall i :: 0 <= i < |r| ==> !Compat(o, r[i..]))
    && (forall k :: 0 < k < |o| ==> !Compat(o[k..], r))
  }

  /** For a value that does not overlap itself the two say the same. */
  lemma WithoutOverlap(o: string, r: string)
    requires forall d :: 0 < d < |o| ==> o[d..] != o[..|o| - d]
    ensures Rebuilds(o, r) <==> !Apart(o, r)
  {
    forall k | 0 < k < |o| ensures Clear(o, k) { OverlapIfEarlier(o, k); }
  }

  lemma OverlapIfEarlier(o: string, k: nat)
    requires k < |o|
    requires forall d :: 0 < d < |o| ==> o[d..] != o[..|o| - d]
    ensures Clear(o, k)
  {
    forall i | 0 <= i < k ensures !At(o, o[..k] + o, i) {
      if At(o, o[..k] + o, i) { EarlierOverlaps(o, k, i); }
    }
  }

  lemma EarlierOverlaps(o: string, k: nat, i: nat)
    requires i < k < |o| && At(o, o[..k] + o, i)
    ensures o[k - i..] == o[..|o| - (k - i)]
  {
    var all := o[..k] + o;
    assert all[k..i + |o|] == o[..|o| - (k - i)];
    assert all[i..i + |o|][k - i..] == all[k..i + |o|];
  }

  /** Sharing no character keeps them apart. */
  lemma DisjointIsApart(o: string, r: string)
    requires o != "" && r != "" && forall c :: c in o ==> c !in r
    ensures Apart(o, r)
  {
    forall i | 0 <= i < |r| ensures !Compat(o, r[i..]) {
      assert o[0] in o && r[i..][0] == r[i] && r[i] in r;
    }
    forall k | 0 < k < |o| ensures !Compat(o[k..], r) {
      assert o[k..][0] == o[k] && o[k] in o && r[0] in r;
    }
  }

  lemma AtStart(o: string, s: string)
    ensures At(o, s, 0) <==> o <= s
  {}

  /** Occurrences past a prefix are occurrences in what follows it. */
  lemma AtPast(o: string, a: string, t: string, i: nat)
    requires i >= |a|
    ensures At(o, a + t, i) <==> At(o, t, i - |a|)
  {
    if i + |o| <= |a + t| {
      assert (a + t)[i..i + |o|] == t[i - |a|..i - |a| + |o|];
    }
  }

  /** An occurrence that starts inside a prefix is read from there on. */
  lemma AtInside(o: string, a: string, t: string, i: nat)
    requires i <= |a|
    ensures At(o, a + t, i) <==> o <= a[i..] + t
  {
    assert (a + t)[i..] == a[i..] + t;
    if i + |o| <= |a + t| { assert (a + t)[i..][..|o|] == (a + t)[i..i + |o|]; }
  }

  lemma PrefixCompat(q: string, a: string, t: string)
    requires q <= a + t
    ensures Compat(q, a)
    ensures a <= q ==> q[|a|..] <= t
  {
    if |q| <= |a| {
      assert (a + t)[..|q|] == a[..|q|];
    } else {
      assert (a + t)[..|a|] == a && (a + t)[|a|..] == t;
      assert q[..|a|] == (a + t)[..|q|][..|a|];
      assert q[|a|..] == (a + t)[..|q|][|a|..];
    }
  }

  /** No occurrence starts in the first `n` characters. */
  ghost predicate NoneStarts(o: string, s: string, n: nat) {
    forall i :: 0 <= i < n ==> !At(o, s, i)
  }

  lemma FreeTail(o: string, c: char, s: string, n: nat)
    requires NoneStarts(o, [c] + s, n + 1)
    ensures NoneStarts(o, s, n) && !(o <= [c] + s)
  {
    AtStart(o, [c] + s);
    forall i | 0 <= i < n ensures !At(o, s, i) { AtPast(o, [c], s, i + 1); }
  }

  lemma CopiesOne(c: char, s: string, o: string, r: string)
    requires o != "" && !(o <= [c] + s)
    ensures ReplaceAll([c] + s, o, r) == [c] + ReplaceAll(s, o, r)
  {
    assert ([c] + s)[1..] == s;
  }

  /** What does not hold the value, and could not hold any of it earlier, is copied. */
  lemma {:induction false} ReplaceSkips(a: string, t: string, o: string, r: string)
    requires o != "" && NoneStarts(o, a + t, |a|)
    ensures ReplaceAll(a + t, o, r) == a + ReplaceAll(t, o, r)
    decreases |a|
  {
    if a == "" {
      assert a + t == t;
    } else {
      assert a + t == [a[0]] + (a[1..] + t);
      FreeTail(o, a[0], a[1..] + t, |a[1..]|);
      ReplaceSkips(a[1..], t, o, r);
      CopiesOne(a[0], a[1..] + t, o, r);
      Assoc([a[0]], a[1..], ReplaceAll(t, o, r));
    }
  }

  /** Text shorter than the value is copied. */
  lemma ShortIsCopied(s: string, o: string, r: string)
    requires |s| < |o|
    ensures ReplaceAll(s, o, r) == s
  {
    ReplaceSkips(s, "", o, r);
    assert s + "" == s;
  }

  /** A match at the front is replaced. */
  lemma FrontIsReplaced(t: string, o: string, r: string)
    requires o != ""
    ensures ReplaceAll(o + t, o, r) == r + ReplaceAll(t, o, r)
  {
    assert (o + t)[..|o|] == o && (o + t)[|o|..] == t;
  }

  // ------------------------------------------------------- replacing a long value, exactly

  /** No occurrence starts in the first `j` characters of the value, `s` standing behind them. */
  predicate Unmatched(o: string, j: nat, s: string)
    requires j <= |o|
  {
    forall i :: 0 <= i < j ==> !At(o, o[..j] + s, i)
  }

  /** The value follows its own first characters, so its replacement begins with the rest of it. */
  lemma ContinuedBlock(s: string, o: string, r: string, j: nat)
    requires 0 < j < |o| && o <= s && o[j..] <= ReplaceAll(s, o, r) && Unmatched(o, j, s)
    ensures Rebuilds(o, r)
  {
    var rest := s[|o|..];
    assert s == o + rest;
    PrefixCompat(o[j..], r, ReplaceAll(rest, o, r));
    forall i | 0 <= i < j ensures !At(o, o[..j] + o, i) {
      assert !At(o, o[..j] + s, i);
      assert (o[..j] + s)[i..i + |o|] == (o[..j] + o)[i..i + |o|];
    }
    assert Clear(o, j);
  }

  /** Behind `j` copied characters of the value, the output goes on with the rest of it. */
  lemma {:induction false} ContinuedFrom(s: string, o: string, r: string, j: nat)
    requires 0 < j <= |o| && o[j..] <= ReplaceAll(s, o, r)
    requires Unmatched(o, j, s)
    ensures Rebuilds(o, r)
    decreases |s|
  {
    AtInside(o, o[..j], s, 0);
    assert o[..|o|] == o;
    if j < |o| && o <= s {
      ContinuedBlock(s, o, r, j);
    } else if j < |o| && s != "" {
      ContinuedOne(s, o, r, j);
      ContinuedFrom(s[1..], o, r, j + 1);
    }
  }

  lemma ContinuedOne(s: string, o: string, r: string, j: nat)
    requires 0 < j < |o| && s != "" && !(o <= s) && o[j..] <= ReplaceAll(s, o, r)
    requires Unmatched(o, j, s)
    ensures o[j + 1..] <= ReplaceAll(s[1..], o, r)
    ensures Unmatched(o, j + 1, s[1..])
  {
    var rest := ReplaceAll(s[1..], o, r);
    assert ([s[0]] + rest)[1..] == rest && o[j..][1..] == o[j + 1..];
    assert o[j..][0] == s[0];
    assert o[..j + 1] + s[1..] == o[..j] + s;
    AtInside(o, o[..j], s, j);
    assert o[..j][j..] + s == s;
  }

  /** Unless the replacement rebuilds it, the value is gone from every text. */
  lemma {:induction false} ReplacedIsGone(s: string, o: string, r: string)
    requires o != "" && !Rebuilds(o, r)
    ensures !Occurs(o, ReplaceAll(s, o, r))
    decreases |s|
  {
    var t := ReplaceAll(s, o, r);
    forall i: nat ensures !At(o, t, i) {
      if o <= s {
        var rest := ReplaceAll(s[|o|..], o, r);
        ReplacedIsGone(s[|o|..], o, r);
        NotFromBlock(o, r, rest, i);
      } else if s != "" {
        ReplacedIsGone(s[1..], o, r);
        NotFromCopy(s, o, r, i);
      }
    }
  }

  lemma NotFromBlock(o: string, r: string, rest: string, i: nat)
    requires forall k :: 0 <= k < |r| ==> !Compat(o, r[k..])
    requires !Occurs(o, rest)
    ensures !At(o, r + rest, i)
  {
    if i < |r| {
      AtInside(o, r, rest, i);
      if o <= r[i..] + rest { PrefixCompat(o, r[i..], rest); }
    } else {
      AtPast(o, r, rest, i);
      assert !At(o, rest, i - |r|);
    }
  }

  lemma NotFromCopy(s: string, o: string, r: string, i: nat)
    requires o != "" && !Rebuilds(o, r) && s != "" && !(o <= s)
    requires !Occurs(o, ReplaceAll(s[1..], o, r))
    ensures !At(o, ReplaceAll(s, o, r), i)
  {
    var rest := ReplaceAll(s[1..], o, r);
    var t := [s[0]] + rest;
    if i > 0 {
      AtPast(o, [s[0]], rest, i);
      assert !At(o, rest, i - 1);
    } else if o <= t {
      assert o[0] == s[0] && t[1..] == rest && o[1..] <= rest;
      assert o[..1] + s[1..] == s;
      AtStart(o, s);
      ContinuedFrom(s[1..], o, r, 1);
    }
  }

  /** The text in which a rebuilding replacement leaves the value. */
  lemma RebuiltText(o: string, r: string) returns (s: string)
    requires o != "" && Rebuilds(o, r)
    ensures Occurs(o, ReplaceAll(s, o, r))
  {
    if i :| 0 <= i < |r| && Compat(o, r[i..]) {
      s := RebuiltInside(o, r, i);
    } else {
      var k :| 0 < k < |o| && Clear(o, k) && Compat(o[k..], r);
      s := RebuiltBefore(o, r, k);
    }
  }

  /** What completes `q` behind `a`. */
  function RestBehind(q: string, a: string): (y: string)
    requires Compat(q, a)
    ensures q <= a + y && |y| == if q <= a then 0 else |q| - |a|
    ensures forall c :: c in y ==> c in q
  {
    if q <= a then "" else assert q == a + q[|a|..]; q[|a|..]
  }

  lemma RebuiltInside(o: string, r: string, i: nat) returns (s: string)
    requires o != "" && i < |r| && Compat(o, r[i..])
    ensures Occurs(o, ReplaceAll(s, o, r))
  {
    var y := RestBehind(o, r[i..]);
    s := o + y;
    FrontIsReplaced(y, o, r);
    ShortIsCopied(y, o, r);
    AtInside(o, r, y, i);
    assert At(o, r + y, i);
  }

  lemma RebuiltBefore(o: string, r: string, k: nat) returns (s: string)
    requires 0 < k < |o| && Clear(o, k) && Compat(o[k..], r)
    ensures Occurs(o, ReplaceAll(s, o, r))
  {
    var y := RestBehind(o[k..], r);
    s := o[..k] + (o + y);
    forall i | 0 <= i < k ensures !At(o, s, i) {
      assert !At(o, o[..k] + o, i);
      assert s[i..i + |o|] == (o[..k] + o)[i..i + |o|];
    }
    ReplaceSkips(o[..k], o + y, o, r);
    FrontIsReplaced(y, o, r);
    ShortIsCopied(y, o, r);
    var t := o[..k] + (r + y);
    assert o == o[..k] + o[k..];
    assert t[..|o|] == o[..k] + (r + y)[..|o| - k];
    AtStart(o, t);
  }

  /** The value is still in `s` once it has been replaced there. */
  ghost predicate Leaves(o: string, r: string, s: string)
    requires o != ""
  {
    Occurs(o, ReplaceAll(s, o, r))
  }

  /** Replacing a value leaves it nowhere, in no text at all, exactly when the replacement does not rebuild it. */
  lemma RebuildsExactly(o: string, r: string)
    requires o != ""
    ensures (forall s :: !Leaves(o, r, s)) <==> !Rebuilds(o, r)
  {
    if Rebuilds(o, r) {
      var s := RebuiltText(o, r);
      assert Leaves(o, r, s);
    } else {
      forall s ensures !Leaves(o, r, s) { ReplacedIsGone(s, o, r); }
    }
  }

  /** "deadbeef" does not start within its own first seven characters. */
  lemma DeadbeefIsClear(i: nat)
    requires i < 7
    ensures !At("deadbeef", "deadbee" + "deadbeef", i)
  {
    var o, a := "deadbeef", "deadbee";
    var piece := (a + o)[i..i + 8];
    if i == 0 {
      assert piece[7] == 'd' && o[7] == 'f';
    } else if i == 3 {
      assert piece[1] == 'b' && o[1] == 'e';
    } else {
      assert piece[0] == a[i] && o[0] == 'd' && a[i] != 'd';
    }
  }

  /** Of those replacements "f" is one: scrubbing "deadbeef" out of "deadbeedeadbeef" leaves "deadbeef". */
  lemma ReplacementCanRebuild()
    ensures ReplaceAll("deadbeedeadbeef", "deadbeef", "f") == "deadbeef"
    ensures Rebuilds("deadbeef", "f")
  {
    DeadbeefIsLeft();
    DeadbeefIsRebuilt();
  }

  lemma DeadbeefIsLeft()
    ensures ReplaceAll("deadbeedeadbeef", "deadbeef", "f") == "deadbeef"
  {
    forall i | 0 <= i < 7 ensures !At("deadbeef", "deadbee" + "deadbeef", i) { DeadbeefIsClear(i); }
    SkipsThenReplaces("deadbee", "deadbeef", "f");
    assert "deadbee" + "deadbeef" == "deadbeedeadbeef" && "deadbee" + "f" == "deadbeef";
  }

  lemma DeadbeefIsRebuilt()
    ensures Rebuilds("deadbeef", "f")
  {
    var o := "deadbeef";
    assert o[..7] == "deadbee" && o[7..] == "f";
    forall i | 0 <= i < 7 ensures !At(o, o[..7] + o, i) { DeadbeefIsClear(i); }
    assert Clear(o, 7);
  }

  lemma SkipsThenReplaces(a: string, o: string, r: string)
    requires o != "" && forall i :: 0 <= i < |a| ==> !At(o, a + o, i)
    ensures ReplaceAll(a + o, o, r) == a + r
  {
    ReplaceSkips(a, o, o, r);
    FrontIsReplaced("", o, r);
    assert o + "" == o && r + "" == r;
  }

  // ------------------------------------------------------- replacing something else

  lemma GoneFromTail(o: string, s: string, k: nat)
    requires k <= |s| && !Occurs(o, s)
    ensures !Occurs(o, s[k..])
  {
    forall i: nat ensures !At(o, s[k..], i) {
      assert s == s[..k] + s[k..];
      AtPast(o, s[..k], s[k..], i + k);
      assert !At(o, s, i + k);
    }
  }

  /** Where the output reads on with the rest of the value, so did the text. */
  lemma {:induction false} CopiedByReplace(s: string, p: string, r: string, o: string, j: nat)
    requires p != "" && Apart(o, r) && 0 < j <= |o| && o[j..] <= ReplaceAll(s, p, r)
    ensures o[j..] <= s
    decreases |s|
  {
    if j < |o| {
      if p <= s {
        PrefixCompat(o[j..], r, ReplaceAll(s[|p|..], p, r));
      } else {
        var rest := ReplaceAll(s[1..], p, r);
        CopyOne(s, rest, o, j);
        CopiedByReplace(s[1..], p, r, o, j + 1);
        assert s == [s[0]] + s[1..];
      }
    }
  }

  lemma CopyOne(s: string, rest: string, o: string, j: nat)
    requires j < |o| && s != "" && o[j..] <= [s[0]] + rest
    ensures o[j + 1..] <= rest && o[j] == s[0] && o[j..] == [s[0]] + o[j + 1..]
  {
    assert ([s[0]] + rest)[1..] == rest && o[j..][1..] == o[j + 1..] && o[j..][0] == s[0];
  }

  /** One step of the output, copied: the value starts here only if it started in the text. */
  lemma NotFromOther(o: string, s: string, rest: string, i: nat)
    requires o != "" && s != "" && !Occurs(o, s) && !Occurs(o, rest)
    requires o[1..] <= rest ==> o[1..] <= s[1..]
    ensures !At(o, [s[0]] + rest, i)
  {
    if i > 0 {
      AtPast(o, [s[0]], rest, i);
      assert !At(o, rest, i - 1);
    } else if o <= [s[0]] + rest {
      CopyOne(s, rest, o, 0);
      assert o[0..] == o && s == [s[0]] + s[1..];
      AtStart(o, s);
    }
  }

  /** A value that is gone is not rebuilt by replacing another. */
  lemma {:induction false} GoneStaysByReplace(o: string, s: string, p: string, r: string)
    requires p != "" && o != "" && Apart(o, r) && !Occurs(o, s)
    ensures !Occurs(o, ReplaceAll(s, p, r))
    decreases |s|
  {
    var t := ReplaceAll(s, p, r);
    forall i: nat ensures !At(o, t, i) {
      if p <= s {
        GoneFromTail(o, s, |p|);
        GoneStaysByReplace(o, s[|p|..], p, r);
        NotFromBlock(o, r, ReplaceAll(s[|p|..], p, r), i);
      } else if s != "" {
        GoneFromTail(o, s, 1);
        GoneStaysByReplace(o, s[1..], p, r);
        if o[1..] <= ReplaceAll(s[1..], p, r) { CopiedByReplace(s[1..], p, r, o, 1); }
        NotFromOther(o, s, ReplaceAll(s[1..], p, r), i);
      }
    }
  }

  /** Replacing `p` brings the value into a text that did not have it. */
  ghost predicate Makes(o: string, p: string, r: string, s: string) {
    p != "" && !Occurs(o, s) && Occurs(o, ReplaceAll(s, p, r))
  }

  /**
   * Being apart is exactly what it takes for no other value's replacement ever to make this one
   * appear. (`c` is any character the value does not have.)
   */
  lemma ApartExactly(o: string, r: string, c: char)
    requires o != "" && c !in o
    ensures (forall p, s :: !Makes(o, p, r, s)) <==> Apart(o, r)
  {
    if Apart(o, r) {
      forall p, s ensures !Makes(o, p, r, s) {
        if p != "" && !Occurs(o, s) { GoneStaysByReplace(o, s, p, r); }
      }
    } else {
      var s := MadeByAnother(o, r, c);
      assert Makes(o, [c], r, s);
    }
  }

  /** Text with the value's ends around a character that is replaced. */
  lemma MadeByAnother(o: string, r: string, c: char) returns (s: string)
    requires o != "" && c !in o && !Apart(o, r)
    ensures !Occurs(o, s) && Occurs(o, ReplaceAll(s, [c], r))
  {
    var x, y := "", "";
    ghost var at: nat := 0;
    if i :| 0 <= i < |r| && Compat(o, r[i..]) {
      y := RestBehind(o, r[i..]);
      at := i;
      AtInside(o, r, y, i);
      assert x + (r + y) == r + y;
    } else {
      var k :| 0 < k < |o| && Compat(o[k..], r);
      x, y := o[..k], RestBehind(o[k..], r);
      assert o == o[..k] + o[k..];
      assert (x + (r + y))[..|o|] == o[..k] + (r + y)[..|o| - k];
      AtStart(o, x + (r + y));
    }
    s := x + ([c] + y);
    OneReplaced(x, c, y, r);
    forall j: nat ensures !At(o, s, j) { NotAround(o, x, c, y, j); }
    assert At(o, x + (r + y), at);
  }

  lemma NotAround(o: string, x: string, c: char, y: string, j: nat)
    requires c !in o && |x| < |o| && |y| < |o|
    ensures !At(o, x + ([c] + y), j)
  {
    if At(o, x + ([c] + y), j) { SpansMiddle(o, x, c, y, j); }
  }

  lemma SpansMiddle(o: string, x: string, c: char, y: string, j: nat)
    requires |x| < |o| && |y| < |o| && At(o, x + ([c] + y), j)
    ensures c in o
  {
    var s := x + ([c] + y);
    assert s[|x|] == c && j <= |x|;
    assert s[j..j + |o|][|x| - j] == c;
    assert o[|x| - j] in o;
  }

  lemma OneReplaced(x: string, c: char, y: string, r: string)
    requires c !in x && c !in y
    ensures ReplaceAll(x + ([c] + y), [c], r) == x + (r + y)
  {
    var s := x + ([c] + y);
    forall i | 0 <= i < |x| ensures !At([c], s, i) {
      assert s[i..i + 1] == [x[i]] && x[i] in x;
    }
    ReplaceSkips(x, [c] + y, [c], r);
    FrontIsReplaced(y, [c], r);
    forall i | 0 <= i < |y| ensures !At([c], y + "", i) {
      assert (y + "")[i..i + 1] == [y[i]] && y[i] in y;
    }
    ReplaceSkips(y, "", [c], r);
    assert y + "" == y;
  }

  lemma {:induction false} CopiedByToken(
    uni: char -> bool, prev: Option<char>, s: string, p: string, r: string, o: string, j: nat)
    requires p != "" && Apart(o, r) && 0 < j <= |o| && o[j..] <= TokenSub(uni, p, r, prev, s)
    ensures o[j..] <= s
    decreases |s|
  {
    if j < |o| {
      if TokenHere(uni, p, prev, s) {
        PrefixCompat(o[j..], r, TokenSub(uni, p, r, Some(p[|p| - 1]), s[|p|..]));
      } else {
        var rest := TokenSub(uni, p, r, Some(s[0]), s[1..]);
        CopyOne(s, rest, o, j);
        CopiedByToken(uni, Some(s[0]), s[1..], p, r, o, j + 1);
        assert s == [s[0]] + s[1..];
      }
    }
  }

  lemma {:induction false} GoneStaysByToken(
    uni: char -> bool, o: string, prev: Option<char>, s: string, p: string, r: string)
    requires p != "" && o != "" && Apart(o, r) && !Occurs(o, s)
    ensures !Occurs(o, TokenSub(uni, p, r, prev, s))
    decreases |s|
  {
    var t := TokenSub(uni, p, r, prev, s);
    forall i: nat ensures !At(o, t, i) {
      if TokenHere(uni, p, prev, s) {
        var z := Some(p[|p| - 1]);
        GoneFromTail(o, s, |p|);
        GoneStaysByToken(uni, o, z, s[|p|..], p, r);
        NotFromBlock(o, r, TokenSub(uni, p, r, z, s[|p|..]), i);
      } else if s != "" {
        var rest := TokenSub(uni, p, r, Some(s[0]), s[1..]);
        GoneFromTail(o, s, 1);
        GoneStaysByToken(uni, o, Some(s[0]), s[1..], p, r);
        if o[1..] <= rest { CopiedByToken(uni, Some(s[0]), s[1..], p, r, o, 1); }
        NotFromOther(o, s, rest, i);
      }
    }
  }

  lemma {:induction false} AbsentIsLeft(o: string, s: string, r: string)
    requires o != "" && !Occurs(o, s)
    ensures ReplaceAll(s, o, r) == s
  {
    forall i | 0 <= i < |s| ensures !At(o, s + "", i) { assert s + "" == s && !At(o, s, i); }
    ReplaceSkips(s, "", o, r);
    assert s + "" == s;
  }

  /** Another pair's turn does not bring the value back; nor does the value's own pair, when it is listed twice. */
  lemma GoneStaysByOne(uni: char -> bool, o: string, p: Pair, s: string)
    requires |o| >= MIN_SUBSTRING_LEN && !Occurs(o, s)
    requires p.original != o ==> Apart(o, p.replacement)
    ensures !Occurs(o, ScrubOne(uni, p, s))
  {
    if p.original == o {
      AtStart(o, s);
      AbsentIsLeft(o, s, p.replacement);
    } else if p.original != "" {
      GoneStaysByReplace(o, s, p.original, p.replacement);
      GoneStaysByToken(uni, o, None, s, p.original, p.replacement);
      if s == p.original {
        FrontIsReplaced("", s, p.replacement);
        assert s + "" == s && p.replacement + "" == p.replacement;
      }
    }
  }

  /**
   * A long original is gone from any text after the whole scrubber has run, whatever the pairs
   * before it are, when its own replacement does not rebuild it and the later ones are apart from it.
   */
  lemma {:induction false} LongValueIsGone(uni: char -> bool, pairs: seq<Pair>, k: nat, s: string)
    requires k < |pairs| && |pairs[k].original| >= MIN_SUBSTRING_LEN
    requires !Rebuilds(pairs[k].original, pairs[k].replacement)
    requires forall j :: k < j < |pairs| && pairs[j].original != pairs[k].original
               ==> Apart(pairs[k].original, pairs[j].replacement)
    ensures !Occurs(pairs[k].original, Scrub(uni, pairs, s))
    decreases |pairs|
  {
    var n := |pairs| - 1;
    var o := pairs[k].original;
    var before := Scrub(uni, pairs[..n], s);
    if k == n {
      OwnTurn(uni, pairs[k], before);
    } else {
      assert pairs[..n][k] == pairs[k];
      LongValueIsGone(uni, pairs[..n], k, s);
      GoneStaysByOne(uni, o, pairs[n], before);
    }
  }

  /** One condition instead of two: its own replacement and all later ones are apart from the value. */
  lemma ApartIsEnough(uni: char -> bool, pairs: seq<Pair>, k: nat, s: string)
    requires k < |pairs| && |pairs[k].original| >= MIN_SUBSTRING_LEN
    requires forall j :: k <= j < |pairs| ==> Apart(pairs[k].original, pairs[j].replacement)
    ensures !Occurs(pairs[k].original, Scrub(uni, pairs, s))
  {
    assert Apart(pairs[k].original, pairs[k].replacement);
    LongValueIsGone(uni, pairs, k, s);
  }

  /** For a long value the shortcut for an equal text makes no difference. */
  lemma OwnTurn(uni: char -> bool, p: Pair, s: string)
    requires |p.original| >= MIN_SUBSTRING_LEN
    ensures ScrubOne(uni, p, s) == ReplaceAll(s, p.original, p.replacement)
    ensures !Rebuilds(p.original, p.replacement) ==> !Occurs(p.original, ScrubOne(uni, p, s))
  {
    FrontIsReplaced("", p.original, p.replacement);
    assert p.original + "" == p.original && p.replacement + "" == p.replacement;
    if !Rebuilds(p.original, p.replacement) { ReplacedIsGone(s, p.original, p.replacement); }
  }

  lemma ScrubSingle(uni: char -> bool, p: Pair, s: string)
    ensures Scrub(uni, [p], s) == ScrubOne(uni, p, s)
  {
    assert [p][..0] == [];
  }

  /** The text still holds the value once this one pair has been scrubbed out of it. */
  ghost predicate Survives(uni: char -> bool, p: Pair, s: string) {
    Occurs(p.original, Scrub(uni, [p], s))
  }

  /** For a single long pair: no text whatsoever keeps the value, exactly when the replacement does not rebuild it. */
  lemma OneLongPair(uni: char -> bool, p: Pair)
    requires |p.original| >= MIN_SUBSTRING_LEN
    ensures (forall s :: !Survives(uni, p, s)) <==> !Rebuilds(p.original, p.replacement)
  {
    if Rebuilds(p.original, p.replacement) {
      var s := RebuiltText(p.original, p.replacement);
      ScrubSingle(uni, p, s);
      OwnTurn(uni, p, s);
      assert Survives(uni, p, s);
    } else {
      forall s ensures !Survives(uni, p, s) {
        ScrubSingle(uni, p, s);
        OwnTurn(uni, p, s);
      }
    }
  }

  // ------------------------------------------------------- short values, exactly

  /** What may stand before, and after, the value as a token. */
  predicate FreeBefore(uni: char -> bool, o: string, c: Option<char>)
    requires o != ""
  {
    Free(Guarded(uni, o[0]), c)
  }

  predicate FreeAfter(uni: char -> bool, o: string, c: Option<char>)
    requires o != ""
  {
    Free(Guarded(uni, o[|o| - 1]), c)
  }

  /**
   * The pair can leave a whole token behind: one end of the value is a letter outside ASCII, which
   * gets a lookaround but is not in the lookaround's class, the other end is in the class, and the
   * replacement does not cover for it.
   */
  predicate Leaks(uni: char -> bool, o: string, r: string)
    requires o != ""
  {
    var a, z := o[0], o[|o| - 1];
    || (Guarded(uni, a) && !Word(a) && Word(z) && (r == "" || !Word(r[|r| - 1])))
    || (Guarded(uni, z) && !Word(z) && Word(a) && (r == "" || !Word(r[0])))
  }

  /** The first `n` characters of `t` can end a token. */
  predicate EndsFree(uni: char -> bool, o: string, t: string, n: nat)
    requires o != "" && n <= |t|
  {
    n == |t| || FreeAfter(uni, o, Some(t[n]))
  }

  /** Two tokens can stand side by side. */
  predicate Adjacent(uni: char -> bool, o: string)
    requires o != ""
  {
    FreeAfter(uni, o, Some(o[0])) && FreeBefore(uni, o, Some(o[|o| - 1]))
  }

  /** Some text behind a replaced token comes out as `q` and something a token may end before. */
  predicate Follows(uni: char -> bool, o: string, r: string, q: string)
    requires o != ""
    decreases |q|
  {
    || q == ""
    || FreeAfter(uni, o, Some(q[0]))
    || (r != "" && Adjacent(uni, o)
        && ((q <= r && EndsFree(uni, o, r, |q|)) || (r <= q && r != q && Follows(uni, o, r, q[|r|..]))))
  }

  /** The rest `t` of a replacement, with what may follow it, reads as `q` and ends as a token may. */
  predicate Reads(uni: char -> bool, o: string, r: string, t: string, q: string)
    requires o != ""
  {
    (q <= t && EndsFree(uni, o, t, |q|)) || (t <= q && t != q && Follows(uni, o, r, q[|t|..]))
  }

  /** The first `k` characters of the value can stand, unreplaced, in front of the value itself. */
  predicate TokenClear(uni: char -> bool, o: string, k: nat)
    requires 0 < k < |o|
  {
    && FreeBefore(uni, o, Some(o[k - 1]))
    && Untouched(uni, o, None, o[..k], o)
  }

  /** Replacing the value as a token can leave it standing as one. */
  predicate TokenRebuilds(uni: char -> bool, o: string, r: string)
    requires o != ""
  {
    || Leaks(uni, o, r)
    || (exists i :: 0 <= i < |r| && FromInside(uni, o, r, i))
    || (exists k :: 0 < k < |o| && TokenClear(uni, o, k) && Reads(uni, o, r, r, o[k..]))
  }

  predicate FromInside(uni: char -> bool, o: string, r: string, i: nat)
    requires o != "" && i < |r|
  {
    (i == 0 || FreeBefore(uni, o, Some(r[i - 1]))) && Reads(uni, o, r, r[i..], o)
  }

  /** With the replacement apart from the value leaking is the only way. */
  lemma ApartOnlyLeaks(uni: char -> bool, o: string, r: string)
    requires o != "" && Apart(o, r)
    ensures TokenRebuilds(uni, o, r) <==> Leaks(uni, o, r)
  {
    forall i | 0 <= i < |r| ensures !FromInside(uni, o, r, i) { assert !Compat(o, r[i..]); }
    forall k | 0 < k < |o| ensures !Reads(uni, o, r, r, o[k..]) { assert !Compat(o[k..], r); }
  }

  /** ASCII values never leak, whatever the replacement. */
  lemma AsciiNeverLeaks(uni: char -> bool, o: string, r: string)
    requires o != "" && o[0] as int < 0x80 && o[|o| - 1] as int < 0x80
    ensures !Leaks(uni, o, r)
  {}

  // ------------------------------------------------------- no other way

  /** What is read behind a replaced token is what `Follows` describes. */
  lemma {:induction false} FollowsFrom(uni: char -> bool, o: string, r: string, s: string, q: string)
    requires o != "" && FreeAfter(uni, o, Head(s))
    requires q <= TokenSub(uni, o, r, Some(o[|o| - 1]), s)
    requires FreeAfter(uni, o, Head(TokenSub(uni, o, r, Some(o[|o| - 1]), s)[|q|..]))
    ensures Follows(uni, o, r, q)
    decreases |s|, 0
  {
    var z := Some(o[|o| - 1]);
    if q != "" && TokenHere(uni, o, z, s) {
      var rest := TokenSub(uni, o, r, z, s[|o|..]);
      assert Adjacent(uni, o);
      if r == "" {
        assert r + rest == rest;
        FollowsFrom(uni, o, r, s[|o|..], q);
      } else {
        ReadsFrom(uni, o, r, r, s[|o|..], q);
      }
    }
  }

  /** So is what is read from inside a replacement on. */
  lemma {:induction false} ReadsFrom(uni: char -> bool, o: string, r: string, t: string, s: string, q: string)
    requires o != "" && FreeAfter(uni, o, Head(s))
    requires q <= t + TokenSub(uni, o, r, Some(o[|o| - 1]), s)
    requires FreeAfter(uni, o, Head((t + TokenSub(uni, o, r, Some(o[|o| - 1]), s))[|q|..]))
    ensures Reads(uni, o, r, t, q)
    decreases |s|, 1
  {
    var out := TokenSub(uni, o, r, Some(o[|o| - 1]), s);
    PrefixCompat(q, t, out);
    if |q| <= |t| {
      assert q <= t;
      assert |q| < |t| ==> (t + out)[|q|..][0] == t[|q|];
    } else {
      assert (t + out)[|q|..] == out[|q| - |t|..];
      FollowsFrom(uni, o, r, s, q[|t|..]);
    }
  }

  /** The scan has the character `prev` behind it, its output has `out`. */
  predicate Contexts(uni: char -> bool, o: string, r: string, prev: Option<char>, out: Option<char>, s: string)
    requires o != ""
  {
    || prev == out
    || (&& prev == Some(o[|o| - 1]) && FreeAfter(uni, o, Head(s))
        && if r == "" then FreeBefore(uni, o, out) else out == Some(r[|r| - 1]))
  }

  /** No token starts in `a`, `prev` standing before it and `t` behind. */
  predicate Untouched(uni: char -> bool, o: string, prev: Option<char>, a: string, t: string)
    requires o != ""
  {
    forall i :: 0 <= i < |a| ==> !TokenHere(uni, o, Before(prev, a + t, i), (a + t)[i..])
  }

  /** Behind `j` copied characters of the value the output goes on with the rest of it and ends the token. */
  lemma {:induction false} TokenContinued(
    uni: char -> bool, o: string, r: string, prev: Option<char>, s: string, j: nat)
    requires o != "" && 0 < j <= |o| && FreeBefore(uni, o, prev) && Untouched(uni, o, prev, o[..j], s)
    requires o[j..] <= TokenSub(uni, o, r, Some(o[j - 1]), s)
    requires FreeAfter(uni, o, Head(TokenSub(uni, o, r, Some(o[j - 1]), s)[|o| - j..]))
    ensures TokenRebuilds(uni, o, r)
    decreases |s|
  {
    if j == |o| {
      assert o[..|o|] == o;
      WholeCopied(uni, o, r, prev, s);
    } else if TokenHere(uni, o, Some(o[j - 1]), s) {
      var rest := s[|o|..];
      assert s == o + rest;
      ReadsFrom(uni, o, r, r, rest, o[j..]);
      ClearBefore(uni, o, prev, rest, j);
    } else if s != "" {
      var rest := TokenSub(uni, o, r, Some(s[0]), s[1..]);
      CopyOne(s, rest, o, j);
      assert ([s[0]] + rest)[|o| - j..] == rest[|o| - j - 1..];
      UnmatchedOne(uni, o, prev, s, j);
      TokenContinued(uni, o, r, prev, s[1..], j + 1);
    }
  }

  lemma UnmatchedOne(uni: char -> bool, o: string, prev: Option<char>, s: string, j: nat)
    requires 0 < j < |o| && Untouched(uni, o, prev, o[..j], s)
    requires s != "" && s[0] == o[j] && !TokenHere(uni, o, Some(o[j - 1]), s)
    ensures Untouched(uni, o, prev, o[..j + 1], s[1..])
  {
    assert o[..j + 1] + s[1..] == o[..j] + s;
    assert (o[..j] + s)[j..] == s;
  }

  lemma ClearBefore(uni: char -> bool, o: string, prev: Option<char>, rest: string, j: nat)
    requires 0 < j < |o| && FreeBefore(uni, o, prev) && Untouched(uni, o, prev, o[..j], o + rest)
    requires FreeBefore(uni, o, Some(o[j - 1]))
    ensures TokenClear(uni, o, j)
  {
    var small, all := o[..j] + o, o[..j] + (o + rest);
    forall i | 0 <= i < j ensures !TokenHere(uni, o, Before(None, small, i), small[i..]) {
      SameTokens(uni, o, Before(None, small, i), Before(prev, all, i), small, rest, i);
      assert small + rest == all;
    }
  }

  /** A token test that stays inside a text does not depend on what comes behind the text. */
  lemma SameTokens(uni: char -> bool, o: string, p: Option<char>, p': Option<char>, a: string, t: string, i: nat)
    requires o != "" && i + |o| < |a| && FreeBefore(uni, o, p) == FreeBefore(uni, o, p')
    ensures TokenHere(uni, o, p, a[i..]) <==> TokenHere(uni, o, p', (a + t)[i..])
  {
    assert (a + t)[i..] == a[i..] + t;
    assert a[i..][|o|..][0] == a[i + |o|] == (a + t)[i..][|o|..][0];
    assert (a[i..] + t)[..|o|] == a[i..][..|o|];
  }

  /** The value is in the text but blocked, and in the output it is not: the pair leaks. */
  lemma WholeCopied(uni: char -> bool, o: string, r: string, prev: Option<char>, s: string)
    requires o != "" && FreeBefore(uni, o, prev) && Untouched(uni, o, prev, o, s)
    requires FreeAfter(uni, o, Head(TokenSub(uni, o, r, Some(o[|o| - 1]), s)))
    ensures Leaks(uni, o, r)
  {
    var z := Some(o[|o| - 1]);
    assert (o + s)[0..] == o + s && (o + s)[|o|..] == s && o <= o + s;
    assert !TokenHere(uni, o, prev, o + s);
    assert !FreeAfter(uni, o, Head(s));
    if TokenHere(uni, o, z, s) {
      assert s[0] == o[0];
    }
  }

  /** A value the scan passes over stands as a token in the output at that place only if the pair rebuilds it. */
  lemma PassedOver(uni: char -> bool, o: string, r: string, prev: Option<char>, out: Option<char>, s: string)
    requires o != "" && s != "" && Contexts(uni, o, r, prev, out, s) && !TokenHere(uni, o, prev, s)
    requires TokenHere(uni, o, out, TokenSub(uni, o, r, prev, s))
    ensures TokenRebuilds(uni, o, r)
  {
    var rest := TokenSub(uni, o, r, Some(s[0]), s[1..]);
    assert o[0..] == o;
    CopyOne(s, rest, o, 0);
    if FreeBefore(uni, o, prev) {
      assert o[..1] + s[1..] == s && s[0..] == s;
      assert ([s[0]] + rest)[|o|..] == rest[|o| - 1..];
      TokenContinued(uni, o, r, prev, s[1..], 1);
    }
  }

  /** The token test of `a + t` past `a` is the token test of `t`. */
  lemma TokenPast(uni: char -> bool, o: string, out: Option<char>, a: string, t: string, i: nat)
    requires o != "" && |a| <= i <= |a + t|
    ensures TokenHere(uni, o, Before(out, a + t, i), (a + t)[i..])
       <==> TokenHere(uni, o, Before(if a == "" then out else Some(a[|a| - 1]), t, i - |a|), t[i - |a|..])
  {
    assert (a + t)[i..] == t[i - |a|..];
  }

  lemma {:induction false} TokenIsGoneFrom(
    uni: char -> bool, o: string, r: string, prev: Option<char>, out: Option<char>, s: string)
    requires o != "" && !TokenRebuilds(uni, o, r) && Contexts(uni, o, r, prev, out, s)
    ensures !HasToken(uni, o, out, TokenSub(uni, o, r, prev, s))
    decreases |s|
  {
    var t := TokenSub(uni, o, r, prev, s);
    if TokenHere(uni, o, prev, s) {
      var z := Some(o[|o| - 1]);
      var rest, next := TokenSub(uni, o, r, z, s[|o|..]), if r == "" then out else Some(r[|r| - 1]);
      TokenIsGoneFrom(uni, o, r, z, next, s[|o|..]);
      forall i | 0 <= i <= |t| ensures !TokenHere(uni, o, Before(out, t, i), t[i..]) {
        if i < |r| {
          NotInReplacement(uni, o, r, s[|o|..], out, i);
        } else {
          TokenPast(uni, o, out, r, rest, i);
        }
      }
    } else if s != "" {
      var rest := TokenSub(uni, o, r, Some(s[0]), s[1..]);
      TokenIsGoneFrom(uni, o, r, Some(s[0]), Some(s[0]), s[1..]);
      forall i | 0 <= i <= |t| ensures !TokenHere(uni, o, Before(out, t, i), t[i..]) {
        if i > 0 {
          TokenPast(uni, o, out, [s[0]], rest, i);
        } else if TokenHere(uni, o, out, t) {
          PassedOver(uni, o, r, prev, out, s);
        } else {
          assert t[0..] == t;
        }
      }
    } else {
      assert t == "";
    }
  }

  lemma NotInReplacement(uni: char -> bool, o: string, r: string, s: string, out: Option<char>, i: nat)
    requires o != "" && !TokenRebuilds(uni, o, r) && i < |r| && FreeAfter(uni, o, Head(s))
    ensures var t := r + TokenSub(uni, o, r, Some(o[|o| - 1]), s);
            !TokenHere(uni, o, Before(out, t, i), t[i..])
  {
    var t := r + TokenSub(uni, o, r, Some(o[|o| - 1]), s);
    if TokenHere(uni, o, Before(out, t, i), t[i..]) { TokenFromInside(uni, o, r, s, out, i); }
  }

  lemma TokenFromInside(uni: char -> bool, o: string, r: string, s: string, out: Option<char>, i: nat)
    requires o != "" && i < |r| && FreeAfter(uni, o, Head(s))
    requires var t := r + TokenSub(uni, o, r, Some(o[|o| - 1]), s);
             TokenHere(uni, o, Before(out, t, i), t[i..])
    ensures FromInside(uni, o, r, i)
  {
    var rest := TokenSub(uni, o, r, Some(o[|o| - 1]), s);
    InsideText(r, rest, i);
    ReadsFrom(uni, o, r, r[i..], s, o);
  }

  lemma InsideText(r: string, rest: string, i: nat)
    requires i < |r|
    ensures (r + rest)[i..] == r[i..] + rest
    ensures i > 0 ==> (r + rest)[i - 1] == r[i - 1]
  {}

  // ------------------------------------------------------- the texts that leave a token

  lemma UntouchedTail(uni: char -> bool, o: string, prev: Option<char>, a: string, t: string)
    requires o != "" && a != "" && Untouched(uni, o, prev, a, t)
    ensures !TokenHere(uni, o, prev, a + t)
    ensures Untouched(uni, o, Some(a[0]), a[1..], t)
  {
    var b, all := a[1..], a + t;
    assert all[0..] == all && all[1..] == b + t;
    assert !TokenHere(uni, o, Before(prev, all, 0), all[0..]);
    forall i | 0 <= i < |b| ensures !TokenHere(uni, o, Before(Some(a[0]), b + t, i), (b + t)[i..]) {
      assert !TokenHere(uni, o, Before(prev, all, i + 1), all[i + 1..]);
      assert all[i + 1..] == (b + t)[i..];
    }
  }

  lemma TokenSkipsOne(uni: char -> bool, o: string, r: string, prev: Option<char>, c: char, t: string)
    requires o != "" && !TokenHere(uni, o, prev, [c] + t)
    ensures TokenSub(uni, o, r, prev, [c] + t) == [c] + TokenSub(uni, o, r, Some(c), t)
  {
    assert ([c] + t)[1..] == t;
  }

  lemma {:induction false} TokenSkips(uni: char -> bool, o: string, r: string, prev: Option<char>, a: string, t: string)
    requires o != "" && Untouched(uni, o, prev, a, t)
    ensures TokenSub(uni, o, r, prev, a + t) == a + TokenSub(uni, o, r, Before(prev, a, |a|), t)
    decreases |a|
  {
    if a == "" {
      assert a + t == t;
    } else {
      var b := a[1..];
      UntouchedTail(uni, o, prev, a, t);
      assert a + t == [a[0]] + (b + t);
      TokenSkipsOne(uni, o, r, prev, a[0], b + t);
      TokenSkips(uni, o, r, Some(a[0]), b, t);
      assert Before(Some(a[0]), b, |b|) == Before(prev, a, |a|);
      Assoc([a[0]], b, TokenSub(uni, o, r, Before(prev, a, |a|), t));
    }
  }

  /** Text shorter than the value is copied. */
  lemma ShortTextIsKept(uni: char -> bool, o: string, r: string, prev: Option<char>, s: string)
    requires |s| < |o|
    ensures TokenSub(uni, o, r, prev, s) == s
  {
    TokenSkips(uni, o, r, prev, s, "");
    assert s + "" == s;
  }

  lemma TokenInFront(uni: char -> bool, o: string, r: string, prev: Option<char>, s: string)
    requires o != "" && FreeBefore(uni, o, prev) && FreeAfter(uni, o, Head(s))
    ensures TokenSub(uni, o, r, prev, o + s) == r + TokenSub(uni, o, r, Some(o[|o| - 1]), s)
  {
    assert (o + s)[|o|..] == s && o <= o + s;
  }

  /** Text that comes out, behind a replaced token, as `Follows` says. */
  lemma {:induction false} FollowingText(uni: char -> bool, o: string, r: string, q: string) returns (s: string)
    requires |q| < |o| && Follows(uni, o, r, q)
    ensures FreeAfter(uni, o, Head(s))
    ensures var t := TokenSub(uni, o, r, Some(o[|o| - 1]), s); q <= t && FreeAfter(uni, o, Head(t[|q|..]))
    decreases |q|, 1
  {
    var z := Some(o[|o| - 1]);
    if q == "" || FreeAfter(uni, o, Some(q[0])) {
      s := q;
      ShortTextIsKept(uni, o, r, z, s);
      assert q[|q|..] == "";
    } else {
      s := ReadingText(uni, o, r, r, q);
      TokenInFront(uni, o, r, z, s);
      s := o + s;
    }
  }

  /** Text that goes on behind the rest of a replacement as `Reads` says. */
  lemma {:induction false} ReadingText(
    uni: char -> bool, o: string, r: string, t: string, q: string)
    returns (s: string)
    requires o != "" && Reads(uni, o, r, t, q) && (|q| < |o| || t != "") && |q| <= |o|
    ensures FreeAfter(uni, o, Head(s))
    ensures var out := t + TokenSub(uni, o, r, Some(o[|o| - 1]), s); q <= out && FreeAfter(uni, o, Head(out[|q|..]))
    decreases |q|, if t == "" then 2 else 0
  {
    if q <= t && EndsFree(uni, o, t, |q|) {
      s := "";
      assert t + "" == t;
    } else {
      s := FollowingText(uni, o, r, q[|t|..]);
      var out := TokenSub(uni, o, r, Some(o[|o| - 1]), s);
      assert q == t + q[|t|..];
      assert (t + out)[|q|..] == out[|q| - |t|..];
    }
  }

  /** The text in which a rebuilding pair leaves the value as a token. */
  lemma LeftText(uni: char -> bool, o: string, r: string) returns (s: string)
    requires o != "" && TokenRebuilds(uni, o, r)
    ensures HasToken(uni, o, None, TokenSub(uni, o, r, None, s))
  {
    if Leaks(uni, o, r) {
      LeakWitness(uni, o, r);
      s := o + o;
    } else if i :| 0 <= i < |r| && FromInside(uni, o, r, i) {
      s := LeftInside(uni, o, r, i);
    } else {
      var k :| 0 < k < |o| && TokenClear(uni, o, k) && Reads(uni, o, r, r, o[k..]);
      s := LeftBefore(uni, o, r, k);
    }
  }

  lemma LeftInside(uni: char -> bool, o: string, r: string, i: nat) returns (s: string)
    requires o != "" && i < |r| && FromInside(uni, o, r, i)
    ensures HasToken(uni, o, None, TokenSub(uni, o, r, None, s))
  {
    var y := ReadingText(uni, o, r, r[i..], o);
    s := o + y;
    TokenInFront(uni, o, r, None, y);
    var rest := TokenSub(uni, o, r, Some(o[|o| - 1]), y);
    var t := r + rest;
    assert t[i..] == r[i..] + rest;
    assert i > 0 ==> t[i - 1] == r[i - 1];
    assert TokenHere(uni, o, Before(None, t, i), t[i..]);
  }

  lemma PrefixBehind(o: string, k: nat, rest: string)
    requires k <= |o| && o[k..] <= rest
    ensures o <= o[..k] + rest
  {
    assert o == o[..k] + o[k..];
    assert (o[..k] + rest)[..|o|] == o[..k] + rest[..|o| - k];
  }

  /** Nothing is replaced in front of the value where it follows its own first characters. */
  lemma FrontUntouched(uni: char -> bool, o: string, k: nat, y: string)
    requires 0 < k < |o| && TokenClear(uni, o, k)
    ensures Untouched(uni, o, None, o[..k], o + y)
  {
    var small, s := o[..k] + o, o[..k] + (o + y);
    assert small + y == s;
    forall i | 0 <= i < k ensures !TokenHere(uni, o, Before(None, s, i), s[i..]) {
      SameTokens(uni, o, Before(None, small, i), Before(None, s, i), small, y, i);
    }
  }

  lemma LeftBefore(uni: char -> bool, o: string, r: string, k: nat) returns (s: string)
    requires 0 < k < |o| && TokenClear(uni, o, k) && Reads(uni, o, r, r, o[k..])
    ensures HasToken(uni, o, None, TokenSub(uni, o, r, None, s))
  {
    var y := ReadingText(uni, o, r, r, o[k..]);
    s := o[..k] + (o + y);
    FrontUntouched(uni, o, k, y);
    TokenSkips(uni, o, r, None, o[..k], o + y);
    TokenInFront(uni, o, r, Some(o[k - 1]), y);
    var rest := r + TokenSub(uni, o, r, Some(o[|o| - 1]), y);
    var t := o[..k] + rest;
    PrefixBehind(o, k, rest);
    assert t[|o|..] == rest[|o| - k..] && t[0..] == t;
    assert TokenHere(uni, o, Before(None, t, 0), t[0..]);
  }

  /** A leaking pair leaves the token behind in the value written twice in a row. */
  lemma LeakWitness(uni: char -> bool, o: string, r: string)
    requires o != "" && Leaks(uni, o, r)
    ensures HasToken(uni, o, None, TokenSub(uni, o, r, None, o + o))
  {
    var a, z := o[0], o[|o| - 1];
    if Guarded(uni, a) && !Word(a) && Word(z) && (r == "" || !Word(r[|r| - 1])) {
      SecondIsKept(uni, o, r);
    } else {
      FirstIsKept(uni, o, r);
    }
  }

  /** Text too short or blocked at its start is copied. */
  lemma {:induction false} NoRoom(uni: char -> bool, o: string, r: string, prev: Option<char>, s: string)
    requires o != "" && |s| <= |o| && !TokenHere(uni, o, prev, s)
    ensures TokenSub(uni, o, r, prev, s) == s
    decreases |s|
  {
    if s != "" { NoRoom(uni, o, r, Some(s[0]), s[1..]); }
  }

  /** The first copy is replaced; the second follows a word character of the text and is not. */
  lemma SecondIsKept(uni: char -> bool, o: string, r: string)
    requires o != "" && Guarded(uni, o[0]) && !Word(o[0]) && Word(o[|o| - 1]) && (r == "" || !Word(r[|r| - 1]))
    ensures HasToken(uni, o, None, TokenSub(uni, o, r, None, o + o))
  {
    var z := Some(o[|o| - 1]);
    TokenInFront(uni, o, r, None, o);
    NoRoom(uni, o, r, z, o);
    EndsInToken(uni, o, r);
  }

  lemma EndsInToken(uni: char -> bool, o: string, r: string)
    requires o != "" && (r == "" || FreeBefore(uni, o, Some(r[|r| - 1])))
    ensures HasToken(uni, o, None, r + o)
  {
    var t := r + o;
    assert t[|r|..] == o && o[|o|..] == "";
    assert TokenHere(uni, o, Before(None, t, |r|), t[|r|..]);
  }

  /** The first copy is followed by a word character of the text and is not replaced; the second is. */
  lemma FirstIsKept(uni: char -> bool, o: string, r: string)
    requires o != "" && Guarded(uni, o[|o| - 1]) && !Word(o[|o| - 1]) && Word(o[0]) && (r == "" || !Word(r[0]))
    ensures HasToken(uni, o, None, TokenSub(uni, o, r, None, o + o))
  {
    forall k | 0 <= k < |o|
      ensures !TokenHere(uni, o, Before(None, o + o, k), (o + o)[k..]) { FirstIsBlocked(uni, o, k); }
    TokenSkips(uni, o, r, None, o, o);
    TokenInFront(uni, o, r, Some(o[|o| - 1]), "");
    assert o + "" == o && r + "" == r;
    var t := o + r;
    assert t[0..] == t && t[|o|..] == r;
    assert TokenHere(uni, o, Before(None, t, 0), t[0..]);
  }

  lemma FirstIsBlocked(uni: char -> bool, o: string, k: nat)
    requires k < |o| && Guarded(uni, o[|o| - 1]) && !Word(o[|o| - 1]) && Word(o[0])
    ensures !TokenHere(uni, o, Before(None, o + o, k), (o + o)[k..])
  {
    var all := o + o;
    var s := all[k..];
    assert s[0] == o[k];
    if o <= s {
      assert s[0] == o[0];
      assert Head(s[|o|..]) == Some(all[k + |o|]) == Some(o[k]);
    }
  }

  // ------------------------------------------------------- the result

  /** Scrubbing `s` with this one pair leaves its original standing as a whole token. */
  ghost predicate LeavesToken(uni: char -> bool, p: Pair, s: string) {
    p.original != "" && HasToken(uni, p.original, None, Scrub(uni, [p], s))
  }

  /**
   * For a single short original: no text whatsoever keeps it as a whole token after scrubbing,
   * exactly when the pair does not rebuild the token.
   */
  lemma ShortValueIsGone(uni: char -> bool, p: Pair)
    requires 0 < |p.original| < MIN_SUBSTRING_LEN
    ensures (forall s :: !LeavesToken(uni, p, s)) <==> !TokenRebuilds(uni, p.original, p.replacement)
  {
    if TokenRebuilds(uni, p.original, p.replacement) {
      var s := LeftText(uni, p.original, p.replacement);
      OwnToken(uni, p, s);
      assert LeavesToken(uni, p, s);
    } else {
      forall s ensures !LeavesToken(uni, p, s) { ScrubOneToken(uni, p, s); }
    }
  }

  /** For a short value, too, the shortcut for an equal text makes no difference. */
  lemma OwnToken(uni: char -> bool, p: Pair, s: string)
    requires 0 < |p.original| < MIN_SUBSTRING_LEN
    ensures Scrub(uni, [p], s) == TokenSub(uni, p.original, p.replacement, None, s)
  {
    ScrubSingle(uni, p, s);
    TokenInFront(uni, p.original, p.replacement, None, "");
    assert p.original + "" == p.original && p.replacement + "" == p.replacement;
  }

  lemma ScrubOneToken(uni: char -> bool, p: Pair, s: string)
    requires 0 < |p.original| < MIN_SUBSTRING_LEN && !TokenRebuilds(uni, p.original, p.replacement)
    ensures !HasToken(uni, p.original, None, Scrub(uni, [p], s))
  {
    OwnToken(uni, p, s);
    TokenIsGoneFrom(uni, p.original, p.replacement, None, None, s);
  }

  // ------------------------------------------------------- what scrubbing leaves alone

  /** The characters the lookarounds and `isalnum` speak of; outside ASCII only the second knows any. */
  lemma WordMeans(uni: char -> bool, c: char)
    ensures var n := c as int;
            Word(c) <==> 0x30 <= n <= 0x39 || 0x41 <= n <= 0x5A || n == 0x5F || 0x61 <= n <= 0x7A
    ensures Guarded(uni, c) <==> if c as int < 0x80 then Word(c) else uni(c)
  {
    assert '0' as int == 0x30 && '9' as int == 0x39 && 'A' as int == 0x41 && 'Z' as int == 0x5A;
    assert 'a' as int == 0x61 && 'z' as int == 0x7A && '_' as int == 0x5F;
  }

  /** A long value is replaced where it first occurs, what is before it is copied, and the rest goes on alike. */
  lemma LeftmostIsReplaced(a: string, t: string, o: string, r: string)
    requires o != "" && NoneStarts(o, a + (o + t), |a|)
    ensures ReplaceAll(a + (o + t), o, r) == a + (r + ReplaceAll(t, o, r))
  {
    ReplaceSkips(a, o + t, o, r);
    FrontIsReplaced(t, o, r);
  }

  /** A short value is replaced where it first stands as a whole token; the rest goes on behind its last character. */
  lemma FirstTokenIsReplaced(uni: char -> bool, a: string, t: string, o: string, r: string, prev: Option<char>)
    requires o != "" && Untouched(uni, o, prev, a, o + t)
    requires TokenHere(uni, o, Before(prev, a, |a|), o + t)
    ensures TokenSub(uni, o, r, prev, a + (o + t)) == a + (r + TokenSub(uni, o, r, Some(o[|o| - 1]), t))
  {
    TokenSkips(uni, o, r, prev, a, o + t);
    assert (o + t)[|o|..] == t;
    TokenInFront(uni, o, r, Before(prev, a, |a|), t);
  }

  /** A short value inside a longer word is no token, and a text without the token stays. */
  lemma NoTokenNoChange(uni: char -> bool, o: string, r: string, prev: Option<char>, s: string)
    requires o != "" && !HasToken(uni, o, prev, s)
    ensures TokenSub(uni, o, r, prev, s) == s
  {
    assert s + "" == s;
    TokenSkips(uni, o, r, prev, s, "");
  }

  lemma AbsentChangesNothing(uni: char -> bool, p: Pair, s: string)
    requires p.original == "" || !Occurs(p.original, s)
    ensures ScrubOne(uni, p, s) == s
  {
    var o := p.original;
    if o != "" {
      if s == o { assert At(o, s, 0); }
      AbsentIsLeft(o, s, p.replacement);
      forall i | 0 <= i <= |s| ensures !TokenHere(uni, o, Before(None, s, i), s[i..]) {
        AtInside(o, s, "", i);
        assert s + "" == s && s[i..] + "" == s[i..] && !At(o, s, i);
      }
      NoTokenNoChange(uni, o, p.replacement, None, s);
    }
  }

  /** A text that holds none of the originals comes out as it went in. */
  lemma {:induction false} ScrubLeavesOthers(uni: char -> bool, pairs: seq<Pair>, s: string)
    requires forall p :: p in pairs ==> p.original == "" || !Occurs(p.original, s)
    ensures Scrub(uni, pairs, s) == s
  {
    if pairs != [] {
      ScrubLeavesOthers(uni, pairs[..|pairs| - 1], s);
      AbsentChangesNothing(uni, pairs[|pairs| - 1], s);
    }
  }

  /** A text that is the value as a whole becomes its replacement, whatever its length. */
  lemma WholeValueIsReplaced(uni: char -> bool, p: Pair)
    requires p.original != ""
    ensures Scrub(uni, [p], p.original) == p.replacement
  {
    assert [p][..0] == [];
  }
}
