/** The chunked stderr filter (src/java_codebase_rag/cli_progress.py, `_AsyncLineFilter`).

    The noise test is an arbitrary predicate on byte strings.  The reference
    output is defined on the whole stream at once; the object only ever sees it
    in chunks. */
module LineFilter {

  type Bytes = seq<bv8>
  const NL: bv8 := 10

  // ---- Splitting a stream into terminated lines and a tail ----

  ghost function Concat(ls: seq<Bytes>): Bytes {
    if ls == [] then [] else Concat(ls[..|ls| - 1]) + ls[|ls| - 1]
  }

  ghost predicate Terminated(l: Bytes) {
    l != [] && l[|l| - 1] == NL && NL !in l[..|l| - 1]
  }

  ghost predicate Splits(s: Bytes, ls: seq<Bytes>, tail: Bytes) {
    && s == Concat(ls) + tail
    && (forall i :: 0 <= i < |ls| ==> Terminated(ls[i]))
    && NL !in tail
  }

  // Index of the first newline.
  function FirstNewline(s: Bytes): (k: nat)
    requires NL in s
    ensures k < |s| && s[k] == NL && NL !in s[..k]
  {
    if s[0] == NL then 0
    else
      var k := 1 + FirstNewline(s[1..]);
      assert s[..k] == [s[0]] + s[1..][..k - 1];
      k
  }

  ghost function Lines(s: Bytes): seq<Bytes>
    decreases |s|
  {
    if NL !in s then []
    else var k := FirstNewline(s); [s[..k + 1]] + Lines(s[k + 1..])
  }

  ghost function Tail(s: Bytes): Bytes
    decreases |s|
  {
    if NL !in s then s else Tail(s[FirstNewline(s) + 1..])
  }

  lemma {:induction false} ConcatHead(l: Bytes, ls: seq<Bytes>)
    ensures Concat([l] + ls) == l + Concat(ls)
  {
    if ls == [] {
      assert [l] + ls == [l];
      assert Concat([l]) == Concat([]) + l;
    } else {
      var all := [l] + ls;
      ConcatHead(l, ls[..|ls| - 1]);
      assert all[..|all| - 1] == [l] + ls[..|ls| - 1];
    }
  }

  lemma FirstLine(l: Bytes, rest: Bytes)
    requires Terminated(l)
    ensures NL in l + rest && FirstNewline(l + rest) == |l| - 1
    ensures (l + rest)[..|l|] == l && (l + rest)[|l|..] == rest
  {
    var s, m := l + rest, |l| - 1;
    assert s[m] == NL && s[..m] == l[..m];
    NoNewline(s, m);
    NoNewline(s, FirstNewline(s));
  }

  lemma NoNewline(s: Bytes, m: nat)
    requires m <= |s| && NL !in s[..m]
    ensures forall k :: 0 <= k < m ==> s[k] != NL
  {
    assert forall k :: 0 <= k < m ==> s[k] in s[..m];
  }

  // A stream splits in one way only.
  lemma {:induction false} SplitUnique(s: Bytes, ls: seq<Bytes>, tail: Bytes)
    requires Splits(s, ls, tail)
    ensures ls == Lines(s) && tail == Tail(s)
  {
    if ls == [] {
      assert s == tail;
    } else {
      var rest := Concat(ls[1..]) + tail;
      assert ls == [ls[0]] + ls[1..];
      ConcatHead(ls[0], ls[1..]);
      assert s == ls[0] + rest;
      FirstLine(ls[0], rest);
      SplitUnique(rest, ls[1..], tail);
    }
  }

  lemma SplitCons(l: Bytes, s: Bytes, ls: seq<Bytes>, tail: Bytes)
    requires Terminated(l) && Splits(s, ls, tail)
    ensures Splits(l + s, [l] + ls, tail)
  {
    ConcatHead(l, ls);
    assert l + (Concat(ls) + tail) == l + Concat(ls) + tail;
  }

  lemma LineTerminated(s: Bytes, k: nat)
    requires k < |s| && s[k] == NL && NL !in s[..k]
    ensures Terminated(s[..k + 1])
  {
    assert s[..k + 1][..k] == s[..k];
  }

  lemma {:induction false} SplitExists(s: Bytes)
    ensures Splits(s, Lines(s), Tail(s))
    decreases |s|
  {
    if NL in s {
      var k := FirstNewline(s);
      var l, rest := s[..k + 1], s[k + 1..];
      SplitExists(rest);
      LineTerminated(s, k);
      SplitCons(l, rest, Lines(rest), Tail(rest));
      assert s == l + rest;
    }
  }

  // ---- The reference ----

  predicate Indented(l: Bytes) {
    l != [] && (l[0] == 32 || l[0] == 9)
  }

  // Line i is noise, or lies in an indented block directly below noise.
  ghost predicate Dropped(noise: Bytes -> bool, ls: seq<Bytes>, i: int)
    requires 0 <= i < |ls|
  {
    noise(ls[i]) || (Indented(ls[i]) && BelowNoise(noise, ls, i))
  }

  // Some earlier line is noise and every line after it, before `n`, is indented.
  ghost predicate BelowNoise(noise: Bytes -> bool, ls: seq<Bytes>, n: int)
    requires 0 <= n <= |ls|
  {
    exists j :: 0 <= j < n && noise(ls[j]) && forall k :: j < k < n ==> Indented(ls[k])
  }

  ghost function KeptLines(noise: Bytes -> bool, ls: seq<Bytes>, n: nat): seq<Bytes>
    requires n <= |ls|
  {
    if n == 0 then []
    else KeptLines(noise, ls, n - 1) + if Dropped(noise, ls, n - 1) then [] else [ls[n - 1]]
  }

  ghost function KeptTail(noise: Bytes -> bool, tail: Bytes): Bytes {
    if noise(tail) then [] else tail
  }

  // What must come out for the whole stream `s`.
  ghost function Filtered(noise: Bytes -> bool, s: Bytes): Bytes {
    Concat(KeptLines(noise, Lines(s), |Lines(s)|)) + KeptTail(noise, Tail(s))
  }

  // A byte sequence that ends with its only line feed.
  ghost predicate OneLine(l: Bytes) {
    l != [] && l[|l| - 1] == 10 && forall i :: 0 <= i < |l| - 1 ==> l[i] != 10
  }

  // Of two lines, the first being noise and the second not, the second goes too
  // exactly if it starts with a space or a tab.
  lemma BehindNoise(noise: Bytes -> bool, n: Bytes, l: Bytes)
    requires OneLine(n) && OneLine(l) && noise(n) && !noise(l)
    ensures Filtered(noise, n + l) == if l[0] == 32 || l[0] == 9 then [] else l
  {
    assert Terminated(n) && Terminated(l);
    TwoLines(n, l);
    var ls := [n, l];
    hide Lines, Tail, FirstNewline;
    assert noise(ls[0]) && Dropped(noise, ls, 0);
    assert BelowNoise(noise, ls, 1);
    assert KeptLines(noise, ls, 1) == KeptLines(noise, ls, 0) == [];
    assert KeptLines(noise, ls, 2) == if l[0] == 32 || l[0] == 9 then [] else [l];
    assert Concat([l]) == l && Concat([]) == [];
  }

  lemma TwoLines(n: Bytes, l: Bytes)
    requires Terminated(n) && Terminated(l)
    ensures Lines(n + l) == [n, l] && Tail(n + l) == []
  {
    var none: seq<Bytes> := [];
    SplitNothing();
    SplitCons(l, [], none, []);
    SplitCons(n, l + [], [l] + none, []);
    assert l + [] == l && [n] + ([l] + none) == [n, l];
    SplitUnique(n + l, [n, l], []);
  }

  // Nothing of a block of noise reaches over a line that is neither noise nor
  // indented, so what comes behind is filtered on its own.
  lemma KeptStep(noise: Bytes -> bool, ls: seq<Bytes>, n: nat)
    requires 0 < n <= |ls|
    ensures KeptLines(noise, ls, n) == KeptLines(noise, ls, n - 1) + if Dropped(noise, ls, n - 1) then [] else [ls[n - 1]]
  {
    hide Dropped;
  }

  lemma {:induction false} KeptBehind(noise: Bytes -> bool, a: seq<Bytes>, b: seq<Bytes>, n: nat)
    requires a != [] && Plain(noise, a[|a| - 1]) && n <= |b|
    ensures KeptLines(noise, a + b, |a| + n) == KeptLines(noise, a, |a|) + KeptLines(noise, b, n)
  {
    if n == 0 {
      KeptFront(noise, a, b, |a|);
      Append(KeptLines(noise, a, |a|), [], []);
    } else {
      KeptBehind(noise, a, b, n - 1);
      DroppedBehind(noise, a, b, n - 1);
      KeptStep(noise, a + b, |a| + n);
      KeptStep(noise, b, n);
      hide Dropped, KeptLines, Plain;
      Append(KeptLines(noise, a, |a|), KeptLines(noise, b, n - 1), if Dropped(noise, b, n - 1) then [] else [b[n - 1]]);
    }
  }

  lemma Append(x: seq<Bytes>, y: seq<Bytes>, z: seq<Bytes>)
    ensures x + y + z == x + (y + z) && x + [] == x
  {
  }

  ghost predicate Plain(noise: Bytes -> bool, l: Bytes) {
    !noise(l) && !Indented(l)
  }

  lemma DroppedBehind(noise: Bytes -> bool, a: seq<Bytes>, b: seq<Bytes>, i: nat)
    requires a != [] && Plain(noise, a[|a| - 1]) && i < |b|
    ensures (a + b)[|a| + i] == b[i] && (Dropped(noise, a + b, |a| + i) <==> Dropped(noise, b, i))
  {
    BelowBehind(noise, a, b, i);
  }

  lemma BelowBehind(noise: Bytes -> bool, a: seq<Bytes>, b: seq<Bytes>, n: nat)
    requires a != [] && Plain(noise, a[|a| - 1]) && n <= |b|
    ensures BelowNoise(noise, a + b, |a| + n) <==> BelowNoise(noise, b, n)
  {
    var all, m := a + b, |a|;
    assert all[m - 1] == a[m - 1] && forall k :: 0 <= k < n ==> all[m + k] == b[k];
    if j :| 0 <= j < m + n && noise(all[j]) && forall k :: j < k < m + n ==> Indented(all[k]) {
      assert j >= m;
      assert noise(b[j - m]);
    }
    if j :| 0 <= j < n && noise(b[j]) && forall k :: j < k < n ==> Indented(b[k]) {
      assert noise(all[m + j]);
      forall k | m + j < k < m + n ensures Indented(all[k]) { assert all[k] == b[k - m]; }
    }
  }

  lemma {:induction false} KeptFront(noise: Bytes -> bool, a: seq<Bytes>, b: seq<Bytes>, n: nat)
    requires n <= |a|
    ensures KeptLines(noise, a + b, n) == KeptLines(noise, a, n)
    ensures BelowNoise(noise, a + b, n) <==> BelowNoise(noise, a, n)
  {
    var all := a + b;
    assert forall k :: 0 <= k < n ==> all[k] == a[k];
    if n != 0 {
      KeptFront(noise, a, b, n - 1);
    }
    if j :| 0 <= j < n && noise(a[j]) && forall k :: j < k < n ==> Indented(a[k]) {
      assert noise(all[j]);
    }
  }

  lemma KeptPlain(noise: Bytes -> bool, a: seq<Bytes>, l: Bytes)
    requires Plain(noise, l)
    ensures KeptLines(noise, a + [l], |a| + 1) == KeptLines(noise, a, |a|) + [l]
  {
    var all := a + [l];
    assert all[|a|] == l;
    assert !Dropped(noise, all, |a|);
    hide Dropped, KeptLines;
    KeptStep(noise, all, |a| + 1);
    KeptFront(noise, a, [l], |a|);
  }

  // A plain line is kept, and separates what comes before from what comes behind.
  lemma PlainLineSeparates(noise: Bytes -> bool, s: Bytes, l: Bytes, t: Bytes)
    requires s == [] || s[|s| - 1] == 10
    requires OneLine(l) && !noise(l) && l[0] != 32 && l[0] != 9
    ensures Filtered(noise, s + l + t) == Filtered(noise, s) + l + Filtered(noise, t)
  {
    var a, b := Lines(s), Lines(t);
    assert Plain(noise, l);
    hide Lines, Tail, FirstNewline, Splits, KeptLines, Concat, KeptTail, OneLine, Plain;
    SplitExists(t);
    SplitWhole(s);
    SplitJoin(s, a, l, t, b, Tail(t));
    KeptAround(noise, a, l, b);
    var x, y := KeptLines(noise, a, |a|), KeptLines(noise, b, |b|);
    ThreeParts(x, l, y);
    SumOfFour(Concat(x), l, Concat(y), KeptTail(noise, Tail(t)));
    NothingKept(noise, Concat(x));
  }

  lemma KeptAround(noise: Bytes -> bool, a: seq<Bytes>, l: Bytes, b: seq<Bytes>)
    requires Plain(noise, l)
    ensures KeptLines(noise, a + [l] + b, |a + [l] + b|) == KeptLines(noise, a, |a|) + [l] + KeptLines(noise, b, |b|)
  {
    hide KeptLines, Plain;
    KeptBehind(noise, a + [l], b, |b|);
    KeptPlain(noise, a, l);
  }

  lemma SplitWhole(s: Bytes)
    requires s == [] || s[|s| - 1] == 10
    ensures Splits(s, Lines(s), []) && Tail(s) == []
  {
    SplitExists(s);
    NoTail(s);
  }

  lemma NothingKept(noise: Bytes -> bool, s: Bytes)
    ensures s + KeptTail(noise, []) == s
  {
  }

  // An unterminated rest is kept whatever lies above it, unless it is noise itself.
  lemma RestIsKept(noise: Bytes -> bool, s: Bytes, t: Bytes)
    requires (s == [] || s[|s| - 1] == 10) && 10 !in t
    ensures Filtered(noise, s + t) == Filtered(noise, s) + if noise(t) then [] else t
  {
    hide Lines, Tail, FirstNewline, KeptLines;
    SplitExists(s);
    NoTail(s);
    SplitUnique(s + t, Lines(s), t);
  }

  lemma NoTail(s: Bytes)
    requires s == [] || s[|s| - 1] == 10
    ensures Tail(s) == []
  {
    SplitExists(s);
    if Tail(s) != [] { LastOfSum(Concat(Lines(s)), Tail(s)); }
  }

  lemma LastOfSum(a: Bytes, b: Bytes)
    requires b != []
    ensures (a + b)[|a + b| - 1] in b
  {
  }

  lemma {:induction false} ConcatJoin(a: seq<Bytes>, b: seq<Bytes>)
    ensures Concat(a + b) == Concat(a) + Concat(b)
    decreases |b|
  {
    if b == [] {
      assert a + b == a && Concat(a) + [] == Concat(a);
    } else {
      var front, l := b[..|b| - 1], b[|b| - 1];
      ConcatJoin(a, front);
      assert (a + b)[..|a + b| - 1] == a + front;
      assert Concat(a) + Concat(front) + l == Concat(a) + (Concat(front) + l);
    }
  }

  lemma SplitJoin(s: Bytes, a: seq<Bytes>, l: Bytes, t: Bytes, b: seq<Bytes>, rest: Bytes)
    requires Splits(s, a, []) && OneLine(l) && Splits(t, b, rest)
    ensures Lines(s + l + t) == a + [l] + b && Tail(s + l + t) == rest
  {
    assert Terminated(l);
    hide Concat, Lines, Tail, Terminated;
    ThreeParts(a, l, b);
    SumOfFour(Concat(a), l, Concat(b), rest);
    assert Concat(a) + [] == Concat(a);
    SplitUnique(s + l + t, a + [l] + b, rest);
  }

  lemma ThreeParts(a: seq<Bytes>, l: Bytes, b: seq<Bytes>)
    ensures Concat(a + [l] + b) == Concat(a) + l + Concat(b)
  {
    ConcatJoin(a + [l], b);
    assert (a + [l])[..|a|] == a;
  }

  lemma SumOfFour(a: Bytes, b: Bytes, c: Bytes, d: Bytes)
    ensures a + b + c + d == a + b + (c + d)
  {
  }

  lemma SplitNothing()
    ensures Splits([], [], [])
  {
  }

  lemma {:induction false} KeptPrefix(noise: Bytes -> bool, ls: seq<Bytes>, l: Bytes, n: nat)
    requires n <= |ls|
    ensures KeptLines(noise, ls + [l], n) == KeptLines(noise, ls, n)
  {
    if n != 0 {
      KeptPrefix(noise, ls, l, n - 1);
      BelowPrefix(noise, ls, l, n - 1);
      assert (ls + [l])[n - 1] == ls[n - 1];
    }
  }

  lemma BelowPrefix(noise: Bytes -> bool, ls: seq<Bytes>, l: Bytes, n: nat)
    requires n <= |ls|
    ensures BelowNoise(noise, ls + [l], n) <==> BelowNoise(noise, ls, n)
  {
    var more := ls + [l];
    assert forall k :: 0 <= k < n ==> more[k] == ls[k];
    if BelowNoise(noise, ls, n) {
      var j :| 0 <= j < n && noise(ls[j]) && forall k :: j < k < n ==> Indented(ls[k]);
      assert noise(more[j]) && forall k :: j < k < n ==> Indented(more[k]);
    }
  }

  // How one more line moves the flag ...
  lemma NextFlag(noise: Bytes -> bool, ls: seq<Bytes>, l: Bytes)
    ensures BelowNoise(noise, ls + [l], |ls| + 1) <==> noise(l) || (Indented(l) && BelowNoise(noise, ls, |ls|))
  {
    var more, n := ls + [l], |ls|;
    BelowPrefix(noise, ls, l, n);
    if BelowNoise(noise, more, n + 1) && !noise(l) {
      var j :| 0 <= j < n + 1 && noise(more[j]) && forall k :: j < k < n + 1 ==> Indented(more[k]);
      assert j < n && Indented(more[n]);
      assert BelowNoise(noise, more, n);
    }
    if Indented(l) && BelowNoise(noise, more, n) {
      var j :| 0 <= j < n && noise(more[j]) && forall k :: j < k < n ==> Indented(more[k]);
      assert forall k :: j < k < n + 1 ==> Indented(more[k]);
    }
    if noise(l) {
      assert noise(more[n]);
    }
  }

  // ... and the output.
  lemma NextOutput(noise: Bytes -> bool, ls: seq<Bytes>, l: Bytes)
    ensures Concat(KeptLines(noise, ls + [l], |ls| + 1)) == Concat(KeptLines(noise, ls, |ls|)) +
              if noise(l) || (Indented(l) && BelowNoise(noise, ls, |ls|)) then [] else l
  {
    var more, n := ls + [l], |ls|;
    KeptPrefix(noise, ls, l, n);
    BelowPrefix(noise, ls, l, n);
    assert more[n] == l;
    var front := KeptLines(noise, ls, n);
    if Dropped(noise, more, n) {
      assert front + [] == front && Concat(front) + [] == Concat(front);
    } else {
      assert (front + [l])[..|front|] == front;
    }
  }

  // Flag and output as they must stand after the terminated lines `ls`.
  ghost predicate Tracks(noise: Bytes -> bool, ls: seq<Bytes>, suppress: bool, out: Bytes, base: Bytes) {
    suppress == BelowNoise(noise, ls, |ls|) && out == base + Concat(KeptLines(noise, ls, |ls|))
  }

  lemma TracksNothing(noise: Bytes -> bool, base: Bytes)
    ensures Tracks(noise, Lines([]), false, base, base) && Tail([]) == []
  {
  }

  lemma TracksLine(noise: Bytes -> bool, ls: seq<Bytes>, l: Bytes, suppress: bool, out: Bytes, base: Bytes)
    requires Tracks(noise, ls, suppress, out, base)
    ensures noise(l) ==> Tracks(noise, ls + [l], true, out, base)
    ensures !noise(l) && suppress && Indented(l) ==> Tracks(noise, ls + [l], true, out, base)
    ensures !noise(l) && !(suppress && Indented(l)) ==> Tracks(noise, ls + [l], false, out + l, base)
  {
    hide KeptLines, BelowNoise, Concat, Indented;
    NextFlag(noise, ls, l);
    NextOutput(noise, ls, l);
    var kept := Concat(KeptLines(noise, ls, |ls|));
    assert base + kept + l == base + (kept + l) && kept + [] == kept;
  }

  lemma TracksTail(noise: Bytes -> bool, s: Bytes, suppress: bool, out: Bytes, base: Bytes)
    requires Tracks(noise, Lines(s), suppress, out, base)
    ensures out + KeptTail(noise, Tail(s)) == base + Filtered(noise, s)
  {
  }

  // The first `|ls|` lines of `s` are done, `buf` is still to be read.
  ghost predicate Unread(s: Bytes, ls: seq<Bytes>, buf: Bytes) {
    s == Concat(ls) + buf && forall i :: 0 <= i < |ls| ==> Terminated(ls[i])
  }

  lemma UnreadNext(s: Bytes, ls: seq<Bytes>, buf: Bytes, line: Bytes, rest: Bytes)
    requires Unread(s, ls, buf) && buf == line + rest && Terminated(line)
    ensures Unread(s, ls + [line], rest)
  {
    assert (ls + [line])[..|ls|] == ls;
    assert Concat(ls) + (line + rest) == Concat(ls) + line + rest;
  }

  // ---- Filtering is idempotent ----

  lemma {:induction false} KeptAreQuiet(noise: Bytes -> bool, ls: seq<Bytes>, n: nat)
    requires n <= |ls|
    ensures forall l :: l in KeptLines(noise, ls, n) ==> l in ls && !noise(l)
  {
    if n != 0 {
      KeptAreQuiet(noise, ls, n - 1);
    }
  }

  lemma {:induction false} QuietAreKept(noise: Bytes -> bool, ls: seq<Bytes>, n: nat)
    requires n <= |ls| && forall l :: l in ls ==> !noise(l)
    ensures KeptLines(noise, ls, n) == ls[..n]
  {
    if n != 0 {
      QuietAreKept(noise, ls, n - 1);
      assert ls[n - 1] in ls;
      assert !BelowNoise(noise, ls, n - 1);
      assert ls[..n] == ls[..n - 1] + [ls[n - 1]];
    }
  }

  lemma FilteringTwice(noise: Bytes -> bool, s: Bytes)
    ensures Filtered(noise, Filtered(noise, s)) == Filtered(noise, s)
  {
    var ls, out := Lines(s), Filtered(noise, s);
    var kept, tail := KeptLines(noise, ls, |ls|), KeptTail(noise, Tail(s));
    SplitExists(s);
    KeptAreQuiet(noise, ls, |ls|);
    assert forall i :: 0 <= i < |kept| ==> kept[i] in kept;
    assert forall l :: l in ls ==> Terminated(l);
    assert Splits(out, kept, tail);
    SplitUnique(out, kept, tail);
    QuietAreKept(noise, kept, |kept|);
    assert kept[..|kept|] == kept;
  }

  // ---- The object ----

  class AsyncLineFilter {
    const noise: Bytes -> bool
    var buf: Bytes
    var suppressNext: bool
    var written: Bytes         // everything relayed to stderr
    ghost var fed: Bytes       // fed since the last flush
    ghost var base: Bytes      // relayed before that

    // Between calls: the buffer is the stream's unterminated tail, the flag says
    // whether an indented line would be dropped, and exactly the kept lines are out.
    ghost predicate Valid()
      reads this
    {
      var ls := Lines(fed);
      && buf == Tail(fed)
      && Tracks(noise, ls, suppressNext, written, base)
    }

    constructor (isNoise: Bytes -> bool)
      ensures Valid() && noise == isNoise && fed == [] && base == [] && written == []
    {
      hide Tracks, Lines, Tail;
      noise := isNoise;
      buf, suppressNext, written := [], false, [];
      fed, base := [], [];
      TracksNothing(isNoise, []);
    }

    method Feed(chunk: Bytes)
      requires Valid()
      modifies this
      ensures Valid() && fed == old(fed) + chunk && base == old(base)
    {
      hide Tracks, BelowNoise, KeptLines, Concat, FirstNewline, Indented, Filtered, Tail;
      ghost var ls := Lines(fed);
      SplitExists(fed);
      assert Unread(fed + chunk, ls, buf + chunk) by {
        assert Concat(ls) + buf + chunk == Concat(ls) + (buf + chunk);
      }
      ghost var stream, start := fed + chunk, base;
      fed := fed + chunk;
      buf := buf + chunk;
      while NL in buf
        invariant base == start && fed == stream
        invariant Unread(stream, ls, buf)
        invariant Tracks(noise, ls, suppressNext, written, start)
        decreases |buf|
      {
        var k := FirstNewline(buf);
        var line := buf[..k + 1];
        var rest := buf[k + 1..];
        assert line[..k] == buf[..k];
        UnreadNext(stream, ls, buf, line, rest);
        TracksLine(noise, ls, line, suppressNext, written, start);
        ls := ls + [line];
        buf := rest;
        if noise(line) {
          suppressNext := true;
          continue;
        }
        if suppressNext && Indented(line) {
          continue;
        }
        suppressNext := false;
        written := written + line;
      }
      SplitUnique(stream, ls, buf);
    }

    method Flush()
      requires Valid()
      modifies this
      ensures Valid() && fed == [] && base == written
      ensures written == old(base) + Filtered(noise, old(fed))
    {
      TracksTail(noise, fed, suppressNext, written, base);
      if buf != [] {
        if !noise(buf) {
          written := written + buf;
        }
        buf := [];
      }
      suppressNext := false;
      fed, base := [], written;
      TracksNothing(noise, written);
    }
  }

  // Draining a pipe: whatever the chunk boundaries, only the stream matters.
  method Drain(isNoise: Bytes -> bool, chunks: seq<Bytes>) returns (written: Bytes)
    ensures written == Filtered(isNoise, Concat(chunks))
  {
    var filt := new AsyncLineFilter(isNoise);
    for i := 0 to |chunks|
      invariant filt.Valid() && filt.noise == isNoise && filt.base == []
      invariant filt.fed == Concat(chunks[..i])
    {
      filt.Feed(chunks[i]);
      assert chunks[..i + 1][..i] == chunks[..i];
    }
    assert chunks[..|chunks|] == chunks;
    filt.Flush();
    written := filt.written;
  }
}
