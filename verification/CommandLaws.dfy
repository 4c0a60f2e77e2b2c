/** What a typed line leads to, told from its characters. */
module CommandLaws {
  import opened Common
  import opened Cli
  import opened CommandLine

  predicate IsGap(c: byte) {
    c == 32 || c == 9
  }

  /** A longest stretch of characters that are neither blanks nor tabs. */
  predicate IsRun(t: seq<byte>, w: Word) {
    && w.start < w.end <= |t|
    && (forall k :: w.start <= k < w.end ==> !IsGap(t[k]))
    && (w.start > 0 ==> IsGap(t[w.start - 1]))
    && (w.end < |t| ==> IsGap(t[w.end]))
  }

  lemma WordsAreRuns(t: seq<byte>, w: Word)
    ensures IsWord(t, w) <==> IsRun(t, w)
  {
    assert forall c: byte :: Blank(c) == IsGap(c);
  }

  /** `words` are the first runs of the text, at most six, left to right and with none left out between. */
  ghost predicate AreFirstRuns(t: seq<byte>, words: seq<Word>) {
    && |words| <= 6
    && (forall k :: 0 <= k < |words| ==> IsRun(t, words[k]))
    && (forall k :: 0 < k < |words| ==> words[k - 1].end < words[k].start)
    && (forall w: Word :: IsRun(t, w) ==> w in words || (|words| == 6 && words[5].end < w.start))
  }

  lemma {:induction false} EndsIncrease(words: seq<Word>, j: nat, k: nat)
    requires forall i :: 0 < i < |words| ==> words[i - 1].end < words[i].start
    requires forall i :: 0 <= i < |words| ==> words[i].start < words[i].end
    requires j < k < |words|
    ensures words[j].end < words[k].start
    decreases k - j
  {
    if j < k - 1 {
      EndsIncrease(words, j, k - 1);
    }
  }

  lemma WordsHoldEveryRun(t: seq<byte>, w: Word)
    ensures w in Words(t, 0) <==> IsRun(t, w)
  {
    WordsAreRuns(t, w);
    WordsAreMaximalRuns(t, 0, w);
  }

  lemma RunIsFirstOrLater(t: seq<byte>, w: Word)
    requires IsRun(t, w)
    ensures w in FirstWords(t) || (|FirstWords(t)| == 6 && FirstWords(t)[5].end < w.start)
  {
    var all := Words(t, 0);
    WordsHoldEveryRun(t, w);
    WordsAreOrdered(t, 0);
    var k :| 0 <= k < |all| && all[k] == w;
    if k >= 6 {
      EndsIncrease(all, 5, k);
    } else {
      assert FirstWords(t)[k] == w;
    }
  }

  lemma FirstWordIsRun(t: seq<byte>, k: nat)
    requires k < |FirstWords(t)|
    ensures IsRun(t, FirstWords(t)[k])
  {
    assert Words(t, 0)[k] in Words(t, 0);
    WordsHoldEveryRun(t, Words(t, 0)[k]);
  }

  lemma FirstWordsAreFirstRuns(t: seq<byte>)
    ensures AreFirstRuns(t, FirstWords(t))
  {
    WordsAreOrdered(t, 0);
    forall k: nat | k < |FirstWords(t)|
      ensures IsRun(t, FirstWords(t)[k])
    {
      FirstWordIsRun(t, k);
    }
    forall w: Word | IsRun(t, w)
      ensures w in FirstWords(t) || (|FirstWords(t)| == 6 && FirstWords(t)[5].end < w.start)
    {
      RunIsFirstOrLater(t, w);
    }
  }

  /** The strings that the first runs spell. */
  ghost predicate Spell(t: seq<byte>, words: seq<Word>, args: seq<seq<byte>>) {
    && |args| == |words|
    && forall k :: 0 <= k < |args| ==> words[k].start <= words[k].end <= |t| && args[k] == t[words[k].start..words[k].end]
  }

  /**
   * The outcome of a line with these words: nothing without any; the handler of the entry named by the
   * first word, called with all of them; or unknown, when no entry has that name.
   */
  ghost predicate Follows(table: seq<Entry>, args: seq<seq<byte>>, outcome: Outcome) {
    match outcome
    case Nothing => args == []
    case Unknown => args != [] && forall i :: 0 <= i < |table| ==> table[i].name != args[0]
    case Called(handler, all) =>
      args != [] && all == args && exists i :: 0 <= i < |table| && table[i] == Entry(args[0], handler)
  }

  lemma AnswerFollows(table: seq<Entry>, args: seq<seq<byte>>)
    requires DistinctNames(table)
    ensures Follows(table, args, Answer(table, args))
  {
    if args != [] {
      LookupDecides(table, args[0]);
    }
  }

  /** A line's words are the first runs of its text before the first NUL, up to six, and its outcome follows from them. */
  lemma LineMeans(table: seq<Entry>, line: seq<byte>)
    requires DistinctNames(table)
    ensures exists words: seq<Word>, args: seq<seq<byte>> ::
              && AreFirstRuns(Text(line), words) && Spell(Text(line), words, args)
              && Follows(table, args, Interpret(table, line))
  {
    var t := Text(line);
    var words := FirstWords(t);
    FirstWordsAreFirstRuns(t);
    AnswerFollows(table, Pieces(t, words));
    assert Spell(t, words, Pieces(t, words));
  }

  lemma LookupDecides(table: seq<Entry>, name: seq<byte>)
    requires DistinctNames(table)
    ensures Lookup(table, name).None? <==> forall i :: 0 <= i < |table| ==> table[i].name != name
    ensures Lookup(table, name).Some? ==>
              exists i :: 0 <= i < |table| && table[i] == Entry(name, Lookup(table, name).value)
  {
    if i :| 0 <= i < |table| && table[i].name == name {
      LookupAt(table, i);
    } else {
      LookupMisses(table, name);
    }
  }

  /** There are no words exactly when every character of the text is a blank or a tab. */
  lemma NoRunsIffBlank(t: seq<byte>)
    ensures FirstWords(t) == [] <==> forall k :: 0 <= k < |t| ==> IsGap(t[k])
  {
    assert forall c: byte :: Blank(c) == IsGap(c);
    var start := SkipBlanks(t, 0);
    if start < |t| {
      assert !IsGap(t[start]);
    }
  }
}
