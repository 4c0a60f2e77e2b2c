/** What the console owes its users: the lines it was offered while its inbox had room, all of them, on the wire. */
module ConsolePosts {
  import opened Common
  import opened Console

  /** The bytes of the lines posted while fewer than eight messages were waiting, told from the steps. */
  function Offered(s: State, steps: seq<Step>): seq<byte>
    requires Sized(s)
  {
    if steps == [] then []
    else
      var before, last := steps[..|steps| - 1], steps[|steps| - 1];
      Offered(s, before)
      + if last.Post? && last.m.Line? && |last.m.data| <= 130 && |Run(s, before).inbox| < 8 then last.m.data else []
  }

  /** A post with room is queued behind the others, and its sender owes a notification; without room it is refused. */
  lemma PostIsQueuedIff(s: State, m: Message)
    requires Sized(s)
    ensures var a := Apply(s, Post(m));
            if |s.inbox| < 8 && (m.Line? ==> |m.data| <= 130)
            then a == s.(inbox := s.inbox + [m], owed := s.owed + 1, posted := a.posted)
            else a == s
  {
  }

  lemma {:induction false} PostedIsOffered(s: State, steps: seq<Step>)
    requires Initial(s)
    ensures Run(s, steps).posted == Offered(s, steps)
  {
    if steps != [] {
      var before, last := steps[..|steps| - 1], steps[|steps| - 1];
      PostedIsOffered(s, before);
      if last.Post? {
        PostAdds(Run(s, before), last.m);
      } else {
        OthersAddNothing(Run(s, before), last);
      }
    }
  }

  lemma PostAdds(s: State, m: Message)
    requires Sized(s)
    ensures Apply(s, Post(m)).posted
            == s.posted + if m.Line? && |m.data| <= 130 && |s.inbox| < 8 then m.data else []
  {
  }

  lemma OthersAddNothing(s: State, step: Step)
    requires Sized(s) && !step.Post?
    ensures Apply(s, step).posted == s.posted
  {
  }

  /**
   * Over every run: once no step is left to take, the wire carries exactly the lines offered while the
   * inbox had room, in order; before that, what is missing is still on its way.
   */
  lemma {:induction false} EveryOfferedLineIsDelivered(s: State, steps: seq<Step>)
    requires Initial(s)
    ensures Inv(Run(s, steps)) && Run(s, steps).tx.wire <= Offered(s, steps)
    ensures Quiet(Run(s, steps)) ==> Run(s, steps).tx.wire == Offered(s, steps)
  {
    NothingLostOrReordered(s, steps);
    QuietMeansDelivered(s, steps);
    PostedIsOffered(s, steps);
  }

  function Posts(lines: seq<seq<byte>>): (steps: seq<Step>)
    ensures |steps| == |lines|
  {
    seq(|lines|, i requires 0 <= i < |lines| => Post(Line(lines[i])))
  }

  function Joined(lines: seq<seq<byte>>): seq<byte> {
    if lines == [] then [] else Joined(lines[..|lines| - 1]) + lines[|lines| - 1]
  }

  lemma {:induction false} LinesInARow(s: State, lines: seq<seq<byte>>)
    requires Initial(s) && |lines| <= 8 && forall i :: 0 <= i < |lines| ==> |lines[i]| <= 130
    ensures Offered(s, Posts(lines)) == Joined(lines) && |Run(s, Posts(lines)).inbox| == |lines|
  {
    if lines != [] {
      var front := lines[..|lines| - 1];
      LinesInARow(s, front);
      assert Posts(lines)[..|lines| - 1] == Posts(front);
      PostIsQueuedIff(Run(s, Posts(front)), Line(lines[|lines| - 1]));
    }
  }

  lemma OfferedSnoc(s: State, steps: seq<Step>, step: Step)
    requires Sized(s) && !step.Post?
    ensures Offered(s, steps + [step]) == Offered(s, steps)
  {
    assert (steps + [step])[..|steps|] == steps;
  }

  predicate NoPosts(steps: seq<Step>) {
    steps == [] || (NoPosts(steps[..|steps| - 1]) && !steps[|steps| - 1].Post?)
  }

  lemma EffectiveLast(s: State, steps: seq<Step>)
    requires Sized(s) && Effective(s, steps) && steps != []
    ensures Effective(s, steps[..|steps| - 1]) && !steps[|steps| - 1].Post?
  {
  }

  lemma {:induction false} EffectivePostsNothing(s: State, steps: seq<Step>)
    requires Sized(s) && Effective(s, steps)
    ensures NoPosts(steps)
  {
    if steps != [] {
      EffectiveLast(s, steps);
      EffectivePostsNothing(s, steps[..|steps| - 1]);
    }
  }

  lemma LastOfBoth(steps: seq<Step>, more: seq<Step>)
    requires more != []
    ensures steps + more == steps + more[..|more| - 1] + [more[|more| - 1]]
  {
  }

  lemma {:induction false} NoPostsOfferNothing(s: State, steps: seq<Step>, more: seq<Step>)
    requires Sized(s) && NoPosts(more)
    ensures Offered(s, steps + more) == Offered(s, steps)
    decreases |more|
  {
    if more == [] {
      assert steps + more == steps;
    } else {
      var front, last := more[..|more| - 1], more[|more| - 1];
      NoPostsOfferNothing(s, steps, front);
      LastOfBoth(steps, more);
      OfferedSnoc(s, steps + front, last);
    }
  }

  /** Up to eight lines posted in a row on a fresh console are all delivered, in order, within the bounded work left. */
  lemma {:induction false} LinesInARowAreDelivered(s: State, lines: seq<seq<byte>>, more: seq<Step>)
    requires Initial(s) && |lines| <= 8 && forall i :: 0 <= i < |lines| ==> |lines[i]| <= 130
    requires Effective(Run(s, Posts(lines)), more)
    ensures Inv(Run(s, Posts(lines))) && |more| <= Work(Run(s, Posts(lines)))
    ensures Quiet(Run(s, Posts(lines) + more)) ==> Run(s, Posts(lines) + more).tx.wire == Joined(lines)
  {
    EverythingIsDelivered(s, Posts(lines), more);
    EveryOfferedLineIsDelivered(s, Posts(lines) + more);
    EffectivePostsNothing(Run(s, Posts(lines)), more);
    NoPostsOfferNothing(s, Posts(lines), more);
    LinesInARow(s, lines);
  }
}
