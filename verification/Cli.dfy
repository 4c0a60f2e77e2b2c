/** The command line: lines assembled from received bytes, cut into words in place, and looked up in a command table. */
module Cli {
  import opened Common
  import opened RingBuf

  const LINE_MAX: nat := 64
  const MAX_ARGS: nat := 6
  const TABLE_MAX: nat := 16
  const RX_CHUNK: nat := 32

  const CR: byte := 13
  const LF: byte := 10
  const SPACE: byte := 32
  const TAB: byte := 9

  // ---- Line assembly ----

  /** The line under assembly, and the lines completed so far. */
  datatype Assembly = Assembly(line: seq<byte>, lines: seq<seq<byte>>)

  predicate EndsLine(c: byte) {
    c == CR || c == LF
  }

  function Feed(a: Assembly, c: byte): Assembly {
    if EndsLine(c) then Assembly([], if a.line == [] then a.lines else a.lines + [a.line])
    else if |a.line| < LINE_MAX - 1 then a.(line := a.line + [c])
    else a.(line := [])
  }

  function FeedAll(a: Assembly, bytes: seq<byte>): Assembly {
    if bytes == [] then a else Feed(FeedAll(a, bytes[..|bytes| - 1]), bytes[|bytes| - 1])
  }

  /** However the stream is cut into chunks, the result is that of the whole stream. */
  lemma {:induction false} ChunksDoNotMatter(a: Assembly, first: seq<byte>, second: seq<byte>)
    ensures FeedAll(a, first + second) == FeedAll(FeedAll(a, first), second)
  {
    if second == [] {
      assert first + second == first;
    } else {
      ChunksDoNotMatter(a, first, second[..|second| - 1]);
      assert (first + second)[..|first + second| - 1] == first + second[..|second| - 1];
    }
  }

  /** What is left of `n` typed characters: the buffer restarts at every sixty-fourth, which is dropped. */
  function Held(n: nat): (held: nat)
    ensures held < LINE_MAX && held <= n
  {
    if n == 0 then 0
    else
      var before := Held(n - 1);
      if before == LINE_MAX - 1 then 0 else before + 1
  }

  lemma {:induction false} HeldIsModulo(n: nat)
    ensures Held(n) == n % 64
  {
    if n > 0 {
      HeldIsModulo(n - 1);
    }
  }

  /** The line a typed run of characters leaves. */
  function Kept(typed: seq<byte>): seq<byte> {
    typed[|typed| - Held(|typed|)..]
  }

  /** The stream cut at its line ends: the runs that ended, and the one that has not. */
  function Typed(stream: seq<byte>): (seq<seq<byte>>, seq<byte>) {
    if stream == [] then ([], [])
    else
      var (ended, open) := Typed(stream[..|stream| - 1]);
      var c := stream[|stream| - 1];
      if c == 13 || c == 10 then (ended + [open], []) else (ended, open + [c])
  }

  /** The lines that the ended runs leave, empty ones skipped. */
  function KeptLines(ended: seq<seq<byte>>): seq<seq<byte>> {
    if ended == [] then []
    else
      var last := Kept(ended[|ended| - 1]);
      KeptLines(ended[..|ended| - 1]) + if last == [] then [] else [last]
  }

  lemma KeptGrows(typed: seq<byte>, c: byte)
    ensures Kept(typed + [c]) == if |Kept(typed)| < LINE_MAX - 1 then Kept(typed) + [c] else []
  {
    var more, held := typed + [c], Held(|typed|);
    assert |more| == |typed| + 1;
    if held < LINE_MAX - 1 {
      assert more[|typed| - held..] == typed[|typed| - held..] + [c];
    }
  }

  lemma KeptLinesSnoc(ended: seq<seq<byte>>, last: seq<byte>)
    ensures KeptLines(ended + [last]) == KeptLines(ended) + if Kept(last) == [] then [] else [Kept(last)]
  {
    assert (ended + [last])[..|ended|] == ended;
  }

  /**
   * The lines processed are those of the stream cut at carriage returns and line feeds, each run of n
   * characters leaving its last n mod 64, and empty ones skipped.
   */
  lemma {:induction false} LinesAreRunTails(stream: seq<byte>)
    ensures var (ended, open) := Typed(stream);
            FeedAll(Assembly([], []), stream) == Assembly(Kept(open), KeptLines(ended))
  {
    if stream != [] {
      var front, c := stream[..|stream| - 1], stream[|stream| - 1];
      LinesAreRunTails(front);
      var (ended, open) := Typed(front);
      if EndsLine(c) {
        KeptLinesSnoc(ended, open);
      } else {
        KeptGrows(open, c);
      }
    }
  }

  /** A typed run is processed whole if and only if it has at most 63 characters. */
  lemma LineIsWholeIff(typed: seq<byte>)
    ensures Kept(typed) == typed <==> |typed| < LINE_MAX
  {
    HeldIsModulo(|typed|);
    if |typed| < LINE_MAX {
      assert typed[0..] == typed;
    }
  }

  // ---- Words ----

  predicate Blank(c: byte) {
    c == SPACE || c == TAB
  }

  /** The text before the first NUL. */
  function Text(s: seq<byte>): (text: seq<byte>)
    ensures |text| <= |s| && text == s[..|text|]
    ensures 0 !in text && (|text| < |s| ==> s[|text|] == 0)
  {
    if s == [] || s[0] == 0 then [] else [s[0]] + Text(s[1..])
  }

  function SkipBlanks(t: seq<byte>, i: nat): (j: nat)
    requires i <= |t|
    ensures i <= j <= |t| && (forall k :: i <= k < j ==> Blank(t[k])) && (j < |t| ==> !Blank(t[j]))
    decreases |t| - i
  {
    if i < |t| && Blank(t[i]) then SkipBlanks(t, i + 1) else i
  }

  function SkipWord(t: seq<byte>, i: nat): (j: nat)
    requires i <= |t|
    ensures i <= j <= |t| && (forall k :: i <= k < j ==> !Blank(t[k])) && (j < |t| ==> Blank(t[j]))
    ensures i < |t| && !Blank(t[i]) ==> i < j
    decreases |t| - i
  {
    if i < |t| && !Blank(t[i]) then SkipWord(t, i + 1) else i
  }

  datatype Word = Word(start: nat, end: nat)

  /** The words of `t` from `i` on, in order. */
  function Words(t: seq<byte>, i: nat): (words: seq<Word>)
    requires i <= |t|
    ensures forall k :: 0 <= k < |words| ==> i <= words[k].start < words[k].end <= |t|
    decreases |t| - i
  {
    var start := SkipBlanks(t, i);
    if start == |t| then []
    else
      var end := SkipWord(t, start);
      [Word(start, end)] + Words(t, end)
  }

  /** A maximal run of non-blank characters. */
  predicate IsWord(t: seq<byte>, w: Word) {
    && w.start < w.end <= |t|
    && (forall k :: w.start <= k < w.end ==> !Blank(t[k]))
    && (w.start > 0 ==> Blank(t[w.start - 1]))
    && (w.end < |t| ==> Blank(t[w.end]))
  }

  lemma OnlyFirst(t: seq<byte>, i: nat, w: Word)
    requires i <= |t| && IsWord(t, w) && i <= w.start
    requires var start := SkipBlanks(t, i); start < |t| && w.start < SkipWord(t, start)
    ensures w == Word(SkipBlanks(t, i), SkipWord(t, SkipBlanks(t, i)))
  {
    var end := SkipWord(t, SkipBlanks(t, i));
    assert !Blank(t[w.start]);
    assert w.start > 0 ==> Blank(t[w.start - 1]);
    assert w.end < |t| ==> Blank(t[w.end]);
    assert end < |t| ==> Blank(t[end]);
  }

  /** Nothing of a word lies in front of the position. */
  predicate AtBoundary(t: seq<byte>, i: nat) {
    i <= |t| && (0 < i < |t| ==> Blank(t[i]) || Blank(t[i - 1]))
  }

  lemma FirstIsWord(t: seq<byte>, i: nat)
    requires AtBoundary(t, i) && SkipBlanks(t, i) < |t|
    ensures IsWord(t, Word(SkipBlanks(t, i), SkipWord(t, SkipBlanks(t, i))))
  {
  }

  /** From a boundary on, `Words` lists exactly the maximal non-blank runs. */
  lemma {:induction false} WordsAreMaximalRuns(t: seq<byte>, i: nat, w: Word)
    requires AtBoundary(t, i)
    ensures w in Words(t, i) <==> IsWord(t, w) && w.start >= i
    decreases |t| - i
  {
    var start := SkipBlanks(t, i);
    assert IsWord(t, w) ==> !Blank(t[w.start]);
    if start < |t| {
      var end := SkipWord(t, start);
      WordsAreMaximalRuns(t, end, w);
      FirstIsWord(t, i);
      if IsWord(t, w) && i <= w.start < end {
        OnlyFirst(t, i, w);
      }
    }
  }

  /** And lists them left to right. */
  lemma {:induction false} WordsAreOrdered(t: seq<byte>, i: nat)
    requires i <= |t|
    ensures forall k :: 0 < k < |Words(t, i)| ==> Words(t, i)[k - 1].end < Words(t, i)[k].start
    decreases |t| - i
  {
    var start := SkipBlanks(t, i);
    if start < |t| {
      var end := SkipWord(t, start);
      WordsAreOrdered(t, end);
      assert Words(t, end) != [] ==> Words(t, end)[0].start == SkipBlanks(t, end) && Blank(t[end]);
    }
  }

  // ---- Cutting a line into words in place ----

  /** The buffer still holds the text from `p` on, and its NUL. */
  predicate Intact(s: seq<byte>, t: seq<byte>, p: nat) {
    && p <= |t| < |s| && s[|t|] == 0 && 0 !in t
    && forall k :: p <= k < |t| ==> s[k] == t[k]
  }

  /** A word stands in the buffer with a NUL behind it. */
  predicate Cut(s: seq<byte>, t: seq<byte>, w: Word) {
    && w.start < w.end <= |t| < |s| && s[w.end] == 0
    && forall k :: w.start <= k < w.end ==> s[k] == t[k]
  }

  lemma {:induction false} TextEnds(s: seq<byte>, n: nat)
    requires n < |s| && s[n] == 0 && 0 !in s[..n]
    ensures Text(s) == s[..n]
  {
    if n > 0 {
      assert s[..n][0] == s[0];
      assert s[1..][..n - 1] == s[..n][1..];
      TextEnds(s[1..], n - 1);
    }
  }

  lemma CutReads(s: seq<byte>, t: seq<byte>, w: Word)
    requires Cut(s, t, w) && 0 !in t
    ensures Text(s[w.start..]) == t[w.start..w.end]
  {
    var n := w.end - w.start;
    assert s[w.start..][..n] == t[w.start..w.end];
    TextEnds(s[w.start..], n);
  }

  method PassBlanks(line: array<byte>, p: nat, ghost t: seq<byte>) returns (q: nat)
    requires Intact(line[..], t, p)
    ensures q == SkipBlanks(t, p) && Intact(line[..], t, q)
  {
    q := p;
    while line[q] == SPACE || line[q] == TAB
      invariant p <= q && Intact(line[..], t, q) && SkipBlanks(t, q) == SkipBlanks(t, p)
      decreases |t| - q
    {
      q := q + 1;
    }
  }

  method PassWord(line: array<byte>, p: nat, ghost t: seq<byte>) returns (q: nat)
    requires Intact(line[..], t, p)
    ensures q == SkipWord(t, p) && Intact(line[..], t, q)
  {
    q := p;
    while line[q] != 0 && line[q] != SPACE && line[q] != TAB
      invariant p <= q && Intact(line[..], t, q) && SkipWord(t, q) == SkipWord(t, p)
      decreases |t| - q
    {
      q := q + 1;
    }
  }

  /** The first words of a text, as many as there are places for. */
  function FirstWords(t: seq<byte>): (words: seq<Word>)
    ensures |words| <= MAX_ARGS
  {
    Words(t, 0)[..Min(MAX_ARGS, |Words(t, 0)|)]
  }

  lemma SkipOneBlank(t: seq<byte>, p: nat)
    requires p < |t| && Blank(t[p])
    ensures Words(t, p) == Words(t, p + 1)
  {
    assert SkipBlanks(t, p) == SkipBlanks(t, p + 1);
  }

  /** The words found so far are cut out of the buffer, and the rest of the text is untouched from `p` on. */
  predicate Splitting(s: seq<byte>, t: seq<byte>, words: seq<Word>, argv: seq<nat>, p: nat) {
    Intact(s, t, p) && Words(t, 0) == words + Words(t, p) && AllCut(s, t, words, argv, p)
  }

  predicate AllCut(s: seq<byte>, t: seq<byte>, words: seq<Word>, argv: seq<nat>, p: nat) {
    && |words| == |argv|
    && forall k :: 0 <= k < |words| ==>
         argv[k] == words[k].start && Cut(s, t, words[k]) && (words[k].end < p || p == |t|)
  }

  /** `w` is the first word from `p` on. */
  predicate IsNext(t: seq<byte>, p: nat, w: Word) {
    p <= |t| && w.start == SkipBlanks(t, p) < |t| && w.end == SkipWord(t, w.start)
  }

  lemma FoundWord(t: seq<byte>, words: seq<Word>, p: nat, w: Word)
    requires IsNext(t, p, w) && Words(t, 0) == words + Words(t, p)
    ensures p <= w.start < w.end && Words(t, 0) == (words + [w]) + Words(t, w.end)
  {
    assert Words(t, p) == [w] + Words(t, w.end);
    assert words + ([w] + Words(t, w.end)) == (words + [w]) + Words(t, w.end);
  }

  lemma FoundInner(t: seq<byte>, words: seq<Word>, p: nat, w: Word)
    requires IsNext(t, p, w) && Words(t, 0) == words + Words(t, p) && w.end < |t|
    ensures p <= w.start < w.end && Words(t, 0) == (words + [w]) + Words(t, w.end + 1)
  {
    FoundWord(t, words, p, w);
    SkipOneBlank(t, w.end);
  }

  /** The last word needs no cut: the NUL is there. */
  lemma LastWord(s: seq<byte>, t: seq<byte>, words: seq<Word>, argv: seq<nat>, p: nat, w: Word)
    requires Splitting(s, t, words, argv, p) && IsNext(t, p, w) && w.end == |t|
    ensures Splitting(s, t, words + [w], argv + [w.start], |t|)
  {
    FoundWord(t, words, p, w);
  }

  lemma CutKept(s: seq<byte>, t: seq<byte>, v: Word, at: nat)
    requires Cut(s, t, v) && v.end < at < |s|
    ensures Cut(s[at := 0], t, v)
  {
  }

  lemma CutNow(s: seq<byte>, t: seq<byte>, p: nat, w: Word)
    requires Intact(s, t, p) && p <= w.start < w.end < |t|
    ensures Cut(s[w.end := 0], t, w) && Intact(s[w.end := 0], t, w.end + 1)
  {
  }

  /** Writing a NUL behind the word cuts it off and disturbs no other. */
  lemma InnerWord(s: seq<byte>, t: seq<byte>, words: seq<Word>, argv: seq<nat>, p: nat, w: Word)
    requires Splitting(s, t, words, argv, p) && IsNext(t, p, w) && w.end < |t|
    ensures Splitting(s[w.end := 0], t, words + [w], argv + [w.start], w.end + 1)
  {
    FoundInner(t, words, p, w);
    CutNow(s, t, p, w);
    CutThrough(s, t, words, argv, p, w);
  }

  lemma CutThrough(s: seq<byte>, t: seq<byte>, words: seq<Word>, argv: seq<nat>, p: nat, w: Word)
    requires AllCut(s, t, words, argv, p) && p <= w.start < w.end < |t| < |s| && Cut(s[w.end := 0], t, w)
    ensures AllCut(s[w.end := 0], t, words + [w], argv + [w.start], w.end + 1)
  {
    forall k | 0 <= k < |words|
      ensures Cut(s[w.end := 0], t, words[k]) && words[k].end < w.end + 1
    {
      CutKept(s, t, words[k], w.end);
    }
  }

  /** One round: skips blanks, and if a word follows, takes it and cuts it off. */
  method NextWord(line: array<byte>, argv: seq<nat>, p: nat, ghost t: seq<byte>, ghost words: seq<Word>)
    returns (argv': seq<nat>, p': nat, ghost words': seq<Word>)
    requires Splitting(line[..], t, words, argv, p) && p < |t|
    modifies line
    ensures Splitting(line[..], t, words', argv', p') && p < p'
    ensures |argv| <= |argv'| <= |argv| + 1
    ensures |argv'| == |argv| ==> p' == |t|
  {
    var start := PassBlanks(line, p, t);
    if line[start] == 0 {
      assert Words(t, p) == Words(t, |t|);
      return argv, start, words;
    }
    var end := PassWord(line, start, t);
    argv', p', words' := argv + [start], end, words + [Word(start, end)];
    if line[end] != 0 {
      InnerWord(line[..], t, words, argv, p, Word(start, end));
      ghost var before := line[..];
      line[end] := 0;
      assert line[..] == before[end := 0];
      p' := end + 1;
    } else {
      LastWord(line[..], t, words, argv, p, Word(start, end));
    }
  }

  /** The strings at the given places of a buffer. */
  function Strings(s: seq<byte>, argv: seq<nat>): seq<seq<byte>>
    requires forall k :: 0 <= k < |argv| ==> argv[k] < |s|
  {
    seq(|argv|, k requires 0 <= k < |argv| => Text(s[argv[k]..]))
  }

  /** The words as pieces of the text. */
  function Pieces(t: seq<byte>, words: seq<Word>): seq<seq<byte>>
    requires forall k :: 0 <= k < |words| ==> words[k].start < words[k].end <= |t|
  {
    seq(|words|, k requires 0 <= k < |words| => t[words[k].start..words[k].end])
  }

  lemma CutPieces(s: seq<byte>, t: seq<byte>, words: seq<Word>, argv: seq<nat>, p: nat)
    requires AllCut(s, t, words, argv, p) && 0 !in t
    ensures Strings(s, argv) == Pieces(t, words)
  {
    forall k | 0 <= k < |argv|
      ensures Text(s[argv[k]..]) == t[words[k].start..words[k].end]
    {
      CutReads(s, t, words[k]);
    }
  }

  /**
   * The words of a NUL-terminated line: the strings left in the buffer at the places returned are
   * exactly its first words.
   */
  method SplitWords(line: array<byte>) returns (argv: seq<nat>)
    requires 0 in line[..]
    modifies line
    ensures forall k :: 0 <= k < |argv| ==> argv[k] < line.Length
    ensures var t := Text(old(line[..])); Strings(line[..], argv) == Pieces(t, FirstWords(t))
  {
    ghost var t := Text(line[..]);
    ghost var words: seq<Word> := [];
    var p := 0;
    argv := [];
    assert [] + Words(t, 0) == Words(t, 0);
    while line[p] != 0 && |argv| < MAX_ARGS
      invariant Splitting(line[..], t, words, argv, p) && |argv| <= MAX_ARGS
      decreases |t| - p
    {
      argv, p, words := NextWord(line, argv, p, t, words);
    }
    assert p == |t| || |argv| == MAX_ARGS;
    assert words == FirstWords(t);
    CutPieces(line[..], t, words, argv, p);
  }
}
