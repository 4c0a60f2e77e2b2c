/** The command table, and the task's code that turns received bytes into command calls. */
module CommandLine {
  import opened Common
  import opened Cli
  import RB = RingBuf

  const OK: int := 0
  const ERR_PARAM: int := -1
  const ERR_FULL: int := -3

  /** `handler` names a command function. */
  datatype Entry = Entry(name: seq<byte>, handler: nat)

  /** The first entry of that name. */
  function Lookup(table: seq<Entry>, name: seq<byte>): Option<nat> {
    if table == [] then None
    else if table[0].name == name then Some(table[0].handler)
    else Lookup(table[1..], name)
  }

  predicate DistinctNames(table: seq<Entry>) {
    forall i, j :: 0 <= i < j < |table| ==> table[i].name != table[j].name
  }

  lemma {:induction false} LookupAt(table: seq<Entry>, i: nat)
    requires DistinctNames(table) && i < |table|
    ensures Lookup(table, table[i].name) == Some(table[i].handler)
  {
    if i > 0 {
      assert table[1..][i - 1] == table[i];
      LookupAt(table[1..], i - 1);
    }
  }

  lemma {:induction false} LookupMisses(table: seq<Entry>, name: seq<byte>)
    requires forall i :: 0 <= i < |table| ==> table[i].name != name
    ensures Lookup(table, name).None?
  {
    if table != [] {
      LookupMisses(table[1..], name);
    }
  }

  lemma {:induction false} LookupReplaced(table: seq<Entry>, i: nat, handler: nat, name: seq<byte>)
    requires i < |table| && table[i].name != name
    ensures Lookup(table[i := Entry(table[i].name, handler)], name) == Lookup(table, name)
  {
    var replaced := table[i := Entry(table[i].name, handler)];
    if i > 0 {
      assert replaced[1..] == table[1..][i - 1 := Entry(table[i].name, handler)];
      LookupReplaced(table[1..], i - 1, handler, name);
    } else {
      assert replaced[1..] == table[1..];
    }
  }

  lemma {:induction false} LookupAppended(table: seq<Entry>, entry: Entry, name: seq<byte>)
    ensures Lookup(table + [entry], name) ==
            if Lookup(table, name).Some? then Lookup(table, name)
            else if entry.name == name then Some(entry.handler) else None
  {
    if table != [] {
      assert (table + [entry])[1..] == table[1..] + [entry];
      LookupAppended(table[1..], entry, name);
    } else {
      assert (table + [entry])[1..] == [];
    }
  }

  /** What a line leads to: nothing, a complaint, or a command called with its words. */
  datatype Outcome = Nothing | Unknown | Called(handler: nat, args: seq<seq<byte>>)

  function Answer(table: seq<Entry>, args: seq<seq<byte>>): Outcome {
    if args == [] then Nothing
    else
      match Lookup(table, args[0])
      case None => Unknown
      case Some(handler) => Called(handler, args)
  }

  /** A line, up to its first NUL if it has one, means its first six words. */
  function Interpret(table: seq<Entry>, line: seq<byte>): Outcome {
    Answer(table, Pieces(Text(line), FirstWords(Text(line))))
  }

  function InterpretAll(table: seq<Entry>, lines: seq<seq<byte>>): (outcomes: seq<Outcome>)
    ensures |outcomes| == |lines|
  {
    seq(|lines|, i requires 0 <= i < |lines| => Interpret(table, lines[i]))
  }

  lemma {:induction false} TextOfTerminated(line: seq<byte>, rest: seq<byte>)
    ensures Text(line + [0] + rest) == Text(line)
  {
    if line == [] || line[0] == 0 {
      assert (line + [0] + rest)[0] == 0;
    } else {
      assert (line + [0] + rest)[1..] == line[1..] + [0] + rest;
      TextOfTerminated(line[1..], rest);
    }
  }

  lemma OneMoreLine(table: seq<Entry>, lines: seq<seq<byte>>, line: seq<byte>)
    ensures InterpretAll(table, (lines + [line])[|lines|..]) == [Interpret(table, line)]
  {
    assert (lines + [line])[|lines|..] == [line];
  }

  /** Between two moments each line completed has led to its outcome, in order. */
  predicate Outcomes(table: seq<Entry>, a: Assembly, before: seq<Outcome>, b: Assembly, after: seq<Outcome>) {
    a.lines <= b.lines && after == before + InterpretAll(table, b.lines[|a.lines|..])
  }

  lemma OutcomesChain(table: seq<Entry>, a: Assembly, o: seq<Outcome>, b: Assembly, p: seq<Outcome>,
                      c: Assembly, q: seq<Outcome>)
    requires Outcomes(table, a, o, b, p) && Outcomes(table, b, p, c, q)
    ensures Outcomes(table, a, o, c, q)
  {
    var first, second := b.lines[|a.lines|..], c.lines[|b.lines|..];
    assert c.lines[|a.lines|..] == first + second;
    assert InterpretAll(table, first + second) == InterpretAll(table, first) + InterpretAll(table, second);
    assert o + InterpretAll(table, first) + InterpretAll(table, second) == o + InterpretAll(table, first + second);
  }

  lemma FeedMore(a: Assembly, all: seq<byte>, fed: nat, n: nat)
    requires fed + n <= |all|
    ensures FeedAll(FeedAll(a, all[..fed]), all[fed..][..n]) == FeedAll(a, all[..fed + n])
    ensures all[fed..][n..] == all[fed + n..]
  {
    ChunksDoNotMatter(a, all[..fed], all[fed..][..n]);
    assert all[..fed] + all[fed..][..n] == all[..fed + n];
  }

  class Console {
    const line: array<byte>
    var lineLen: nat
    const cmds: array<Entry>
    var cmdCount: nat
    /** The commands called and complaints made, in order. */
    var outcomes: seq<Outcome>

    /** The line under assembly and all lines completed. */
    ghost var assembly: Assembly

    ghost predicate Valid()
      reads this, line, cmds
    {
      TableValid() && line.Length == LINE_MAX && lineLen < LINE_MAX && assembly.line == line[..lineLen]
    }

    ghost predicate TableValid()
      reads this, cmds
    {
      cmds.Length == TABLE_MAX && cmdCount <= TABLE_MAX && DistinctNames(cmds[..cmdCount])
    }

    ghost function Table(): seq<Entry>
      reads this, cmds
      requires cmdCount <= cmds.Length
    {
      cmds[..cmdCount]
    }

    constructor ()
      ensures Valid() && Table() == [] && assembly == Assembly([], []) && outcomes == []
      ensures fresh(line) && fresh(cmds)
    {
      line := new byte[LINE_MAX](_ => 0);
      cmds := new Entry[TABLE_MAX](_ => Entry([], 0));
      lineLen, cmdCount, outcomes, assembly := 0, 0, [], Assembly([], []);
    }

    method FindCommand(name: seq<byte>) returns (i: nat)
      requires TableValid()
      ensures i <= cmdCount
      ensures i < cmdCount ==> Table()[i].name == name && Lookup(Table(), name) == Some(Table()[i].handler)
      ensures i == cmdCount ==> Lookup(Table(), name).None?
      ensures i == cmdCount ==> forall j :: 0 <= j < cmdCount ==> Table()[j].name != name
    {
      i := 0;
      while i < cmdCount && cmds[i].name != name
        invariant i <= cmdCount && forall j :: 0 <= j < i ==> cmds[j].name != name
      {
        i := i + 1;
      }
      if i < cmdCount {
        LookupAt(Table(), i);
      } else {
        LookupMisses(Table(), name);
      }
    }

    /** Afterwards the name means the new handler and every other name what it meant; refused only for want of room. */
    method RegisterCommand(name: seq<byte>, handler: Option<nat>) returns (rc: int)
      requires Valid()
      modifies this`cmdCount, cmds
      ensures Valid()
      ensures rc == ERR_PARAM <==> name == [] || handler.None?
      ensures rc == ERR_FULL <==>
                name != [] && handler.Some? && |old(Table())| == 16 && Lookup(old(Table()), name).None?
      ensures rc != OK ==> rc < 0 && Table() == old(Table())
      ensures rc == OK ==> forall n :: Lookup(Table(), n) == if n == name then handler else Lookup(old(Table()), n)
    {
      if |name| == 0 || handler.None? {
        return ERR_PARAM;
      }
      var i := FindCommand(name);
      ghost var before := Table();
      var entry := Entry(name, handler.value);
      if i < cmdCount {
        cmds[i] := entry;
        assert Table() == before[i := entry];
        forall n
          ensures Lookup(Table(), n) == if n == name then handler else Lookup(before, n)
        {
          if n == name {
            LookupAt(Table(), i);
          } else {
            LookupReplaced(before, i, entry.handler, n);
          }
        }
        return OK;
      }
      if cmdCount >= TABLE_MAX {
        return ERR_FULL;
      }
      cmds[cmdCount] := entry;
      cmdCount := cmdCount + 1;
      assert Table() == before + [entry];
      forall n
        ensures Lookup(Table(), n) == if n == name then handler else Lookup(before, n)
      {
        LookupAppended(before, entry, n);
      }
      rc := OK;
    }

    /** The line has been closed with a NUL; its words are cut in place and its command looked up. */
    method ProcessLine()
      requires TableValid() && 0 in line[..]
      modifies this`outcomes, line
      ensures outcomes == old(outcomes) + [Interpret(Table(), old(line[..]))]
    {
      var argv := SplitWords(line);
      var args := Strings(line[..], argv);
      if |args| == 0 {
        outcomes := outcomes + [Nothing];
        return;
      }
      var i := FindCommand(args[0]);
      outcomes := outcomes + [if i < cmdCount then Called(cmds[i].handler, args) else Unknown];
    }

    /** The end of a line: a line with something in it is closed, processed and forgotten. */
    method EndLine()
      requires Valid()
      modifies this`lineLen, this`outcomes, this`assembly, line
      ensures Valid() && assembly == Feed(old(assembly), CR)
      ensures outcomes
           == old(outcomes) + if old(assembly).line == [] then [] else [Interpret(Table(), old(assembly).line)]
    {
      ghost var before := assembly;
      if lineLen > 0 {
        line[lineLen] := 0;
        ghost var rest := line[lineLen + 1..];
        assert line[..] == before.line + [0] + rest;
        TextOfTerminated(before.line, rest);
        ProcessLine();
      }
      lineLen := 0;
      assembly := Feed(assembly, CR);
    }

    /** One received byte. */
    method TakeByte(c: byte)
      requires Valid()
      modifies this`lineLen, this`outcomes, this`assembly, line
      ensures Valid() && assembly == Feed(old(assembly), c)
      ensures Outcomes(Table(), old(assembly), old(outcomes), assembly, outcomes)
    {
      ghost var before := assembly;
      if c == CR || c == LF {
        EndLine();
        OneMoreLine(Table(), before.lines, before.line);
        assert assembly.lines == before.lines ==> assembly.lines[|before.lines|..] == [];
      } else if lineLen < LINE_MAX - 1 {
        line[lineLen] := c;
        lineLen := lineLen + 1;
        assert line[..lineLen] == before.line + [c];
        assembly := Feed(assembly, c);
      } else {
        lineLen := 0;
        assembly := Feed(assembly, c);
      }
    }

    method TakeChunk(buf: array<byte>, n: nat)
      requires Valid() && n <= buf.Length && buf != line
      modifies this`lineLen, this`outcomes, this`assembly, line
      ensures Valid() && assembly == FeedAll(old(assembly), buf[..n])
      ensures Outcomes(Table(), old(assembly), old(outcomes), assembly, outcomes)
    {
      var i := 0;
      assert buf[..0] == [];
      while i < n
        invariant Valid() && i <= n && assembly == FeedAll(old(assembly), buf[..i])
        invariant Outcomes(Table(), old(assembly), old(outcomes), assembly, outcomes)
      {
        ghost var mid, midOutcomes := assembly, outcomes;
        TakeByte(buf[i]);
        OutcomesChain(Table(), old(assembly), old(outcomes), mid, midOutcomes, assembly, outcomes);
        assert buf[..i + 1][..i] == buf[..i];
        i := i + 1;
      }
    }

    /** One read of the port, and the bytes it brought. */
    method ReadChunk(ring: RB.RingBuffer, buf: array<byte>) returns (n: nat)
      requires Valid() && ring.Valid() && buf.Length == RX_CHUNK
      requires ring.storage != line && ring.storage != buf && buf != line
      modifies this`lineLen, this`outcomes, this`assembly, line, buf, ring`tail, ring`contents
      ensures Valid() && ring.Valid()
      ensures n == Min(RX_CHUNK, |old(ring.contents)|) && ring.contents == old(ring.contents)[n..]
      ensures assembly == FeedAll(old(assembly), old(ring.contents)[..n])
      ensures Outcomes(Table(), old(assembly), old(outcomes), assembly, outcomes)
    {
      n := ring.Pop(buf, RX_CHUNK);
      assert buf[..n] == old(ring.contents)[..n];
      TakeChunk(buf, n);
    }

    /** `fed` of the bytes that had arrived when the handler started have been taken and answered for. */
    ghost predicate Progress(ring: RB.RingBuffer, all: seq<byte>, fed: nat, a: Assembly, o: seq<Outcome>)
      reads this, line, cmds, ring, ring.storage
    {
      && Valid() && ring.Valid() && fed <= |all| && ring.contents == all[fed..]
      && assembly == FeedAll(a, all[..fed]) && Outcomes(Table(), a, o, assembly, outcomes)
    }

    lemma ProgressEnds(ring: RB.RingBuffer, all: seq<byte>, a: Assembly, o: seq<Outcome>)
      requires Progress(ring, all, |all|, a, o)
      ensures ring.contents == [] && assembly == FeedAll(a, all)
    {
      assert all[..|all|] == all;
    }

    lemma ProgressStarts(ring: RB.RingBuffer)
      requires Valid() && ring.Valid()
      ensures Progress(ring, ring.contents, 0, assembly, outcomes)
    {
      assert ring.contents[..0] == [] && ring.contents[0..] == ring.contents;
    }

    method ReadOn(ring: RB.RingBuffer, buf: array<byte>, ghost all: seq<byte>, ghost fed: nat,
                  ghost a: Assembly, ghost o: seq<Outcome>) returns (more: bool, ghost done: nat)
      requires Progress(ring, all, fed, a, o) && buf.Length == RX_CHUNK
      requires ring.storage != line && ring.storage != buf && buf != line
      modifies this`lineLen, this`outcomes, this`assembly, line, buf, ring`tail, ring`contents
      ensures Progress(ring, all, done, a, o)
      ensures if more then fed < done <= |all| else done == |all|
    {
      ghost var mid, midOutcomes := assembly, outcomes;
      var n := ReadChunk(ring, buf);
      OutcomesChain(Table(), a, o, mid, midOutcomes, assembly, outcomes);
      FeedMore(a, all, fed, n);
      more, done := n > 0, fed + n;
    }

    method ReadAll(ring: RB.RingBuffer, buf: array<byte>, ghost all: seq<byte>,
                   ghost a: Assembly, ghost o: seq<Outcome>)
      requires Progress(ring, all, 0, a, o) && buf.Length == RX_CHUNK
      requires ring.storage != line && ring.storage != buf && buf != line
      modifies this`lineLen, this`outcomes, this`assembly, line, buf, ring`tail, ring`contents
      ensures Progress(ring, all, |all|, a, o)
    {
      ghost var fed: nat := 0;
      var more := true;
      while more
        invariant Progress(ring, all, fed, a, o)
        invariant !more ==> fed == |all|
        decreases more, |all| - fed
      {
        more, fed := ReadOn(ring, buf, all, fed, a, o);
      }
    }

    /** Everything that has arrived, in chunks of up to 32 bytes. */
    method RxHandler(ring: RB.RingBuffer, buf: array<byte>)
      requires Valid() && ring.Valid() && buf.Length == RX_CHUNK
      requires ring.storage != line && ring.storage != buf && buf != line
      modifies this`lineLen, this`outcomes, this`assembly, line, buf, ring`tail, ring`contents
      ensures Valid() && ring.Valid() && ring.contents == []
      ensures assembly == FeedAll(old(assembly), old(ring.contents))
      ensures Outcomes(Table(), old(assembly), old(outcomes), assembly, outcomes)
    {
      ProgressStarts(ring);
      ghost var all, a, o := ring.contents, assembly, outcomes;
      ReadAll(ring, buf, all, a, o);
      ProgressEnds(ring, all, a, o);
    }
  }
}
