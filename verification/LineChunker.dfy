/** clients/logocean_import.py: grouping lines into size-bounded upload chunks. */
module LineChunker {
  import opened Prelude

  /** The length of `s.encode("utf-8")`. */
  function Utf8Len(s: string): nat {
    if s == "" then 0 else CharBytes(s[0]) + Utf8Len(s[1..])
  }

  function CharBytes(c: char): nat {
    var n := c as int;
    if n < 0x80 then 1 else if n < 0x800 then 2 else if n < 0x1_0000 then 3 else 4
  }

  /** The UTF-8 encoding of a character: the table of section 3 of RFC 3629. */
  function Encoding(c: char): seq<int> {
    var n := c as int;
    if n <= 0x7F then [n]
    else if n <= 0x7FF then [0xC0 + n / 0x40, 0x80 + n % 0x40]
    else if n <= 0xFFFF then [0xE0 + n / 0x1000, 0x80 + n / 0x40 % 0x40, 0x80 + n % 0x40]
    else [0xF0 + n / 0x4_0000, 0x80 + n / 0x1000 % 0x40, 0x80 + n / 0x40 % 0x40, 0x80 + n % 0x40]
  }

  /** What such bytes stand for: the payload bits, six for each byte behind the first. */
  function Decoded(bytes: seq<int>): int {
    match |bytes|
    case 1 => bytes[0]
    case 2 => (bytes[0] - 0xC0) * 0x40 + (bytes[1] - 0x80)
    case 3 => ((bytes[0] - 0xE0) * 0x40 + (bytes[1] - 0x80)) * 0x40 + (bytes[2] - 0x80)
    case 4 =>
      (((bytes[0] - 0xF0) * 0x40 + (bytes[1] - 0x80)) * 0x40 + (bytes[2] - 0x80)) * 0x40 + (bytes[3] - 0x80)
    case _ => 0
  }

  /** The bytes counted for a character are those of its encoding, which are bytes and stand for it. */
  lemma CharBytesAreUtf8(c: char)
    ensures |Encoding(c)| == CharBytes(c) && Decoded(Encoding(c)) == c as int
    ensures forall i :: 0 <= i < |Encoding(c)| ==> 0 <= Encoding(c)[i] < 0x100
    ensures forall i :: 0 < i < |Encoding(c)| ==> 0x80 <= Encoding(c)[i] < 0xC0
  {
    var n := c as int;
    assert n == n / 0x40 * 0x40 + n % 0x40;
    assert n / 0x40 == n / 0x1000 * 0x40 + n / 0x40 % 0x40;
    assert n / 0x1000 == n / 0x4_0000 * 0x40 + n / 0x1000 % 0x40;
  }

  function Utf8(s: string): seq<int> {
    if s == "" then [] else Encoding(s[0]) + Utf8(s[1..])
  }

  lemma {:induction false} Utf8LenCounts(s: string)
    ensures Utf8Len(s) == |Utf8(s)|
  {
    if s != "" {
      CharBytesAreUtf8(s[0]);
      Utf8LenCounts(s[1..]);
    }
  }

  /** A line with its newline put back if the file's last line lacked one. */
  function Completed(line: string): string {
    if line != "" && line[|line| - 1] == '\n' then line else line + "\n"
  }

  /** A completed line ends in a newline; nothing but one newline is ever added, and only when there was none. */
  lemma CompletedMeans(line: string)
    ensures var l := Completed(line);
            && l != "" && l[|l| - 1] == '\n' && line <= l
            && |l| == |line| + (if line != "" && line[|line| - 1] == '\n' then 0 else 1)
  {}

  function Bytes(lines: seq<string>): nat {
    if lines == [] then 0 else Utf8Len(lines[0]) + Bytes(lines[1..])
  }

  lemma {:induction false} BytesAppend(a: seq<string>, b: seq<string>)
    ensures Bytes(a + b) == Bytes(a) + Bytes(b)
  {
    if a == [] {
      assert a + b == b;
    } else {
      BytesAppend(a[1..], b);
      assert (a + b)[0] == a[0] && (a + b)[1..] == a[1..] + b;
    }
  }

  lemma {:induction false} Utf8LenAppend(a: string, b: string)
    ensures Utf8Len(a + b) == Utf8Len(a) + Utf8Len(b)
  {
    if a == "" {
      assert a + b == b;
    } else {
      Utf8LenAppend(a[1..], b);
      assert (a + b)[0] == a[0] && (a + b)[1..] == a[1..] + b;
    }
  }

  /** The bytes posted for a chunk are the bytes counted for its lines. */
  lemma {:induction false} ChunkBytes(lines: seq<string>)
    ensures Utf8Len(Flatten(lines)) == Bytes(lines)
  {
    if lines != [] {
      ChunkBytes(lines[1..]);
      Utf8LenAppend(lines[0], Flatten(lines[1..]));
    }
  }

  /** A group one request may carry: it fits, or it is a single line. */
  ghost predicate Allowed(max: int, g: seq<string>) {
    g != [] && (|g| == 1 || Bytes(g) <= max)
  }

  /** A way to cut `lines` into requests without reordering or splitting a line. */
  ghost predicate Partition(max: int, lines: seq<string>, groups: seq<seq<string>>) {
    Flatten(groups) == lines && forall i :: 0 <= i < |groups| ==> Allowed(max, groups[i])
  }

  /** How many of `lines` still fit on top of `size` bytes. */
  function Fit(max: int, size: int, lines: seq<string>): (n: nat)
    ensures n <= |lines|
    decreases |lines|
  {
    if lines == [] || size + Utf8Len(lines[0]) > max then 0
    else 1 + Fit(max, size + Utf8Len(lines[0]), lines[1..])
  }

  /** Cut off the longest prefix one request may carry, and go on. */
  function Greedy(max: int, lines: seq<string>): seq<seq<string>>
    decreases |lines|
  {
    if lines == [] then []
    else
      var n := 1 + Fit(max, Utf8Len(lines[0]), lines[1..]);
      [lines[..n]] + Greedy(max, lines[n..])
  }

  lemma {:induction false} FitBytes(max: int, size: int, lines: seq<string>)
    ensures Fit(max, size, lines) > 0 ==> size + Bytes(lines[..Fit(max, size, lines)]) <= max
    decreases |lines|
  {
    var n := Fit(max, size, lines);
    if n > 0 {
      FitBytes(max, size + Utf8Len(lines[0]), lines[1..]);
      assert lines[..n][1..] == lines[1..][..n - 1];
      assert lines[..n][0] == lines[0];
      if n == 1 { assert lines[1..][..0] == []; }
    }
  }

  lemma {:induction false} FitIsLongest(max: int, size: int, lines: seq<string>, k: nat)
    requires k <= |lines| && size + Bytes(lines[..k]) <= max
    ensures k <= Fit(max, size, lines)
    decreases k
  {
    if k > 0 {
      assert lines[..k][1..] == lines[1..][..k - 1];
      FitIsLongest(max, size + Utf8Len(lines[0]), lines[1..], k - 1);
    }
  }

  /** A greedy chunk is one a request may carry. */
  lemma GreedyChunkAllowed(max: int, lines: seq<string>, n: nat)
    requires lines != [] && n == 1 + Fit(max, Utf8Len(lines[0]), lines[1..])
    ensures Allowed(max, lines[..n])
  {
    FitBytes(max, Utf8Len(lines[0]), lines[1..]);
    assert lines[..n][1..] == lines[1..][..n - 1] && lines[..n][0] == lines[0];
  }

  lemma GreedyStep(max: int, lines: seq<string>, n: nat)
    requires lines != [] && n == 1 + Fit(max, Utf8Len(lines[0]), lines[1..])
    ensures Greedy(max, lines) == [lines[..n]] + Greedy(max, lines[n..])
  {}

  lemma PartitionCons(max: int, g: seq<string>, lines: seq<string>, p: seq<seq<string>>)
    requires Allowed(max, g) && Partition(max, lines, p)
    ensures Partition(max, g + lines, [g] + p)
  {
    var q := [g] + p;
    assert q[0] == g && q[1..] == p;
    forall i | 0 <= i < |q| ensures Allowed(max, q[i]) {
      if i > 0 { assert q[i] == p[i - 1]; }
    }
  }

  /** Lossless, in order, no line split, and every chunk within the bound or a single line. */
  lemma {:induction false} GreedyIsPartition(max: int, lines: seq<string>)
    ensures Partition(max, lines, Greedy(max, lines))
    decreases |lines|
  {
    if lines != [] {
      var n := 1 + Fit(max, Utf8Len(lines[0]), lines[1..]);
      GreedyIsPartition(max, lines[n..]);
      GreedyChunkAllowed(max, lines, n);
      var first, rest, p := lines[..n], lines[n..], Greedy(max, lines[n..]);
      assert lines == first + rest;
      GreedyStep(max, lines, n);
      PartitionCons(max, first, rest, p);
    }
  }

  /** A greedy chunk started inside an allowed group reaches at least the group's end. */
  lemma GreedyReaches(max: int, g: seq<string>, k: nat, s: seq<string>)
    requires Allowed(max, g) && k < |g| && g[k..] <= s
    ensures 1 + Fit(max, Utf8Len(s[0]), s[1..]) >= |g| - k
  {
    var t := g[k..];
    if |t| > 1 {
      assert g == g[..k] + t;
      BytesAppend(g[..k], t);
      assert t == s[..|t|];
      assert t[1..] == s[1..][..|t| - 1];
      FitIsLongest(max, Utf8Len(s[0]), s[1..], |t| - 1);
    }
  }

  lemma PartitionTail(max: int, lines: seq<string>, p: seq<seq<string>>)
    requires Partition(max, lines, p) && p != []
    ensures |p[0]| <= |lines| && p[0] == lines[..|p[0]|] && Allowed(max, p[0])
    ensures Partition(max, lines[|p[0]|..], p[1..])
  {
    assert lines == p[0] + Flatten(p[1..]);
    assert Flatten(p[1..]) == lines[|p[0]|..];
    forall i | 0 <= i < |p[1..]| ensures Allowed(max, p[1..][i]) { assert p[1..][i] == p[i + 1]; }
  }

  /** How many chunks the greedy grouping makes of the lines from `k` on. */
  ghost function ChunksFrom(max: int, lines: seq<string>, k: nat): nat
    requires k <= |lines|
  {
    |Greedy(max, lines[k..])|
  }

  lemma ChunksFromTail(max: int, lines: seq<string>, m: nat, k: nat)
    requires m <= k <= |lines|
    ensures ChunksFrom(max, lines[m..], k - m) == ChunksFrom(max, lines, k)
  {
    assert lines[m..][k - m..] == lines[k..];
  }

  lemma GreedyFrom(max: int, lines: seq<string>, k: nat) returns (n: nat)
    requires k < |lines|
    ensures 1 <= n <= |lines| - k
    ensures n == 1 + Fit(max, Utf8Len(lines[k]), lines[k..][1..])
    ensures ChunksFrom(max, lines, k) == 1 + ChunksFrom(max, lines, k + n)
  {
    n := 1 + Fit(max, Utf8Len(lines[k]), lines[k..][1..]);
    assert lines[k..][n..] == lines[k + n..];
  }

  /** Greedy started inside the first group of a partition is past that group after one chunk. */
  lemma GreedyClears(max: int, lines: seq<string>, k: nat, g: seq<string>) returns (j: nat)
    requires k < |g| <= |lines| && g == lines[..|g|] && Allowed(max, g)
    ensures |g| <= j <= |lines|
    ensures ChunksFrom(max, lines, k) == 1 + ChunksFrom(max, lines, j)
  {
    var n := GreedyFrom(max, lines, k);
    j := k + n;
    assert g[k..] <= lines[k..];
    GreedyReaches(max, g, k, lines[k..]);
  }

  lemma NothingLeft(max: int, lines: seq<string>)
    ensures ChunksFrom(max, lines, |lines|) == 0
  {}

  /** Greedy started anywhere inside `lines` needs no more chunks than any partition of them. */
  lemma {:induction false} GreedyStaysAhead(max: int, lines: seq<string>, k: nat, p: seq<seq<string>>)
    requires Partition(max, lines, p) && k <= |lines|
    ensures ChunksFrom(max, lines, k) <= |p|
    decreases |p|
  {
    if k == |lines| {
      NothingLeft(max, lines);
    } else {
      PartitionTail(max, lines, p);
      var m := |p[0]|;
      if k >= m {
        GreedyStaysAhead(max, lines[m..], k - m, p[1..]);
        ChunksFromTail(max, lines, m, k);
      } else {
        var j := GreedyClears(max, lines, k, p[0]);
        GreedyStaysAhead(max, lines[m..], j - m, p[1..]);
        ChunksFromTail(max, lines, m, j);
      }
    }
  }

  /** No partition under the same rules uses fewer chunks. */
  lemma GreedyIsOptimal(max: int, lines: seq<string>, p: seq<seq<string>>)
    requires Partition(max, lines, p)
    ensures |Greedy(max, lines)| <= |p|
  {
    GreedyStaysAhead(max, lines, 0, p);
    assert lines[0..] == lines;
  }

  /** What is still to be emitted once `buf` is held and `lines` are unread. */
  function Pending(max: int, buf: seq<string>, lines: seq<string>): seq<seq<string>> {
    if buf == [] then Greedy(max, lines)
    else
      var n := Fit(max, Bytes(buf), lines);
      [buf + lines[..n]] + Greedy(max, lines[n..])
  }

  /** The next line does not fit: what is buffered is a finished chunk. */
  lemma PendingFull(max: int, buf: seq<string>, lines: seq<string>)
    requires lines != [] && buf != [] && Bytes(buf) + Utf8Len(lines[0]) > max
    ensures Pending(max, buf, lines) == [buf] + Pending(max, [], lines)
  {
    assert buf + lines[..0] == buf && lines[0..] == lines;
  }

  lemma BytesSnoc(buf: seq<string>, line: string)
    ensures Bytes(buf + [line]) == Bytes(buf) + Utf8Len(line)
  {
    BytesAppend(buf, [line]);
    assert Bytes([line]) == Utf8Len(line) + Bytes([line][1..]);
  }

  /** Nothing is buffered yet: the next line starts the buffer, however long it is. */
  lemma PendingStarts(max: int, lines: seq<string>)
    requires lines != []
    ensures Pending(max, [], lines) == Pending(max, [lines[0]], lines[1..])
  {
    BytesSnoc([], lines[0]);
    assert [] + [lines[0]] == [lines[0]];
    var k := Fit(max, Utf8Len(lines[0]), lines[1..]);
    assert lines[..1 + k] == [lines[0]] + lines[1..][..k];
    assert lines[1 + k..] == lines[1..][k..];
  }

  lemma FitStep(max: int, size: int, lines: seq<string>)
    requires lines != [] && size + Utf8Len(lines[0]) <= max
    ensures Fit(max, size, lines) == 1 + Fit(max, size + Utf8Len(lines[0]), lines[1..])
  {}

  lemma SplitSteps(max: int, buf: seq<string>, lines: seq<string>, k: nat)
    requires k < |lines|
    ensures [buf + lines[..1 + k]] + Greedy(max, lines[1 + k..])
         == [buf + [lines[0]] + lines[1..][..k]] + Greedy(max, lines[1..][k..])
  {
    assert buf + lines[..1 + k] == buf + [lines[0]] + lines[1..][..k];
    assert lines[1 + k..] == lines[1..][k..];
  }

  /** The next line fits: it joins the buffer. */
  lemma PendingJoins(max: int, buf: seq<string>, lines: seq<string>)
    requires lines != [] && buf != [] && Bytes(buf) + Utf8Len(lines[0]) <= max
    ensures Pending(max, buf, lines) == Pending(max, buf + [lines[0]], lines[1..])
  {
    var k := FitAfterJoin(max, buf, lines);
    SplitSteps(max, buf, lines, k);
  }

  lemma FitAfterJoin(max: int, buf: seq<string>, lines: seq<string>) returns (k: nat)
    requires lines != [] && Bytes(buf) + Utf8Len(lines[0]) <= max
    ensures k == Fit(max, Bytes(buf + [lines[0]]), lines[1..]) && Fit(max, Bytes(buf), lines) == 1 + k
    ensures k < |lines|
  {
    BytesSnoc(buf, lines[0]);
    FitStep(max, Bytes(buf), lines);
    k := Fit(max, Bytes(buf + [lines[0]]), lines[1..]);
  }

  lemma GreedyChunks(max: int, lines: seq<string>)
    ensures Flatten(Map(Flatten, Greedy(max, lines))) == Flatten(lines)
    ensures forall p :: Partition(max, lines, p) ==> |Map(Flatten, Greedy(max, lines))| <= |p|
  {
    GreedyIsPartition(max, lines);
    FlattenTwice(Greedy(max, lines));
    forall p | Partition(max, lines, p) ensures |Greedy(max, lines)| <= |p| { GreedyIsOptimal(max, lines, p); }
  }

  /** The generator after `i` lines: `done` are the groups yielded, `buf` the one being filled. */
  ghost predicate Midway(
    max: int, all: seq<string>, i: nat, done: seq<seq<string>>, chunks: seq<string>, buf: seq<string>)
    requires i <= |all|
  {
    chunks == Map(Flatten, done) && done + Pending(max, buf, all[i..]) == Greedy(max, all)
  }

  lemma FlushStep(
    max: int, all: seq<string>, i: nat, done: seq<seq<string>>, chunks: seq<string>, buf: seq<string>)
    requires i < |all| && Midway(max, all, i, done, chunks, buf)
    requires buf != [] && Bytes(buf) + Utf8Len(all[i]) > max
    ensures Midway(max, all, i, done + [buf], chunks + [Flatten(buf)], [])
  {
    PendingFull(max, buf, all[i..]);
    Assoc(done, [buf], Pending(max, [], all[i..]));
    MapSnoc(done, buf);
  }

  lemma AppendStep(
    max: int, all: seq<string>, i: nat, done: seq<seq<string>>, chunks: seq<string>, buf: seq<string>)
    requires i < |all| && Midway(max, all, i, done, chunks, buf)
    requires buf == [] || Bytes(buf) + Utf8Len(all[i]) <= max
    ensures Midway(max, all, i + 1, done, chunks, buf + [all[i]])
  {
    assert all[i..][1..] == all[i + 1..];
    if buf == [] {
      PendingStarts(max, all[i..]);
      assert buf + [all[i]] == [all[i]];
    } else {
      PendingJoins(max, buf, all[i..]);
    }
  }

  lemma LastStep(max: int, all: seq<string>, done: seq<seq<string>>, chunks: seq<string>, buf: seq<string>)
    requires Midway(max, all, |all|, done, chunks, buf)
    ensures (if buf == [] then chunks else chunks + [Flatten(buf)]) == Map(Flatten, Greedy(max, all))
  {
    assert all[|all|..] == [];
    if buf != [] {
      assert buf + [][..0] == buf;
      MapSnoc(done, buf);
    }
  }

  /** The generator loop: its chunks are the greedy ones, joined. */
  method ChunkLines(lines: seq<string>, maxBytes: int) returns (chunks: seq<string>)
    ensures chunks == Map(Flatten, Greedy(maxBytes, Map(Completed, lines)))
    ensures Flatten(chunks) == Flatten(Map(Completed, lines))
    ensures forall p :: Partition(maxBytes, Map(Completed, lines), p) ==> |chunks| <= |p|
  {
    ghost var all := Map(Completed, lines);
    ghost var done: seq<seq<string>> := [];
    chunks := [];
    var buf: seq<string>, size := [], 0;
    assert all[0..] == all;
    for i := 0 to |lines|
      invariant size == Bytes(buf)
      invariant Midway(maxBytes, all, i, done, chunks, buf)
    {
      var line := lines[i];
      if line == "" || line[|line| - 1] != '\n' {
        line := line + "\n";
      }
      var b := Utf8Len(line);
      if buf != [] && size + b > maxBytes {
        FlushStep(maxBytes, all, i, done, chunks, buf);
        chunks := chunks + [Flatten(buf)];
        done := done + [buf];
        buf, size := [], 0;
      }
      AppendStep(maxBytes, all, i, done, chunks, buf);
      BytesSnoc(buf, line);
      buf := buf + [line];
      size := size + b;
    }
    LastStep(maxBytes, all, done, chunks, buf);
    if buf != [] {
      chunks := chunks + [Flatten(buf)];
    }
    GreedyChunks(maxBytes, all);
  }

  lemma {:induction false} MapSnoc(gs: seq<seq<string>>, g: seq<string>)
    ensures Map(Flatten, gs + [g]) == Map(Flatten, gs) + [Flatten(g)]
  {}

  lemma {:induction false} FlattenTwice(gs: seq<seq<string>>)
    ensures Flatten(Map(Flatten, gs)) == Flatten(Flatten(gs))
  {
    if gs != [] {
      FlattenTwice(gs[1..]);
      FlattenAppend(gs[0], Flatten(gs[1..]));
    }
  }
}
