/** Where reassembled records end, and what becomes of a line that is interrupted. */
module CriInterruptions {
  import opened Sequences
  import opened CriReassembly

  lemma {:induction false} LeadingConcat(a: seq<Line>, b: seq<Line>, st: Stream)
    ensures Leading(a + b, st) == if Leading(a, st) < |a| then Leading(a, st) else |a| + Leading(b, st)
  {
    if a == [] {
      assert a + b == b;
    } else if IsPart(a[0], st) {
      assert (a + b)[1..] == a[1..] + b;
      LeadingConcat(a[1..], b, st);
    }
  }

  lemma LongBlock(a: seq<Line>, b: seq<Line>)
    requires a != [] && !Whole(a[0])
    ensures BlockLength(a) < |a| || !Glued(a, b) ==> BlockLength(a + b) == BlockLength(a)
    ensures BlockLength(a) == |a| && Glued(a, b) ==> BlockLength(a + b) == |a| + BlockLength(b)
  {
    var st := a[0].stream;
    var n := Leading(a, st);
    LeadingConcat(a, b, st);
    LeadingAreParts(a, st);
    hide Leading;
    assert (a + b)[0] == a[0];
    assert n < |a| ==> (a + b)[n] == a[n];
    if n == |a| {
      assert a[..n] == a && IsPart(a[|a| - 1], st);
      assert forall m :: 0 <= m < |b| ==> (a + b)[|a| + m] == b[m];
      if b != [] { ContinuedBlock(b, st); }
    }
  }

  /** How far the lines at the front continue a record of this stream. */
  lemma ContinuedBlock(b: seq<Line>, st: Stream)
    requires b != []
    ensures var n := Leading(b, st);
      if b[0].Cri? && b[0].stream == st then BlockLength(b) == n + if n < |b| && Closes(b[n], st) then 1 else 0
      else n == 0 && !Closes(b[0], st)
  {
  }

  /** The first block ends where it ends in `a`, unless it reaches the end of `a` and goes on in `b`. */
  lemma FirstBlockOf(a: seq<Line>, b: seq<Line>)
    requires a != []
    ensures BlockLength(a) < |a| || !Glued(a, b) ==> BlockLength(a + b) == BlockLength(a)
    ensures BlockLength(a) == |a| && Glued(a, b) ==> BlockLength(a + b) == |a| + BlockLength(b)
  {
    if Whole(a[0]) {
      assert (a + b)[0] == a[0];
    } else {
      LongBlock(a, b);
    }
  }

  /** Records end exactly where a line does not continue the one before it: reassembling two pieces of
      input separately gives the records of the whole, one too many if the cut fell inside a record. */
  lemma {:induction false} PiecesCount(a: seq<Line>, b: seq<Line>)
    ensures |Reassembled(a + b)| == |Reassembled(a)| + |Reassembled(b)| - if Glued(a, b) then 1 else 0
    ensures !Glued(a, b) ==> Reassembled(a + b) == Reassembled(a) + Reassembled(b)
    decreases |a|
  {
    NothingLeft();
    hide Reassembled, BlockLength, JoinBlock, Continues;
    if a == [] {
      assert a + b == b;
    } else {
      var n := BlockLength(a);
      FirstBlockOf(a, b);
      ReassembledStep(a);
      ReassembledStep(a + b);
      if n == |a| && Glued(a, b) {
        ReassembledStep(b);
        assert (a + b)[|a| + BlockLength(b)..] == b[BlockLength(b)..];
      } else {
        assert (a + b)[..n] == a[..n] && (a + b)[n..] == a[n..] + b;
        assert Glued(a[n..], b) <==> Glued(a, b);
        PiecesCount(a[n..], b);
      }
    }
  }

  /** Input may be reassembled in pieces exactly when no piece ends inside a record. */
  lemma PiecesIff(a: seq<Line>, b: seq<Line>)
    ensures Reassembled(a + b) == Reassembled(a) + Reassembled(b) <==> !Glued(a, b)
  {
    hide Reassembled, Glued;
    PiecesCount(a, b);
  }

  // ---- Interrupted lines ----

  /** Nothing here belongs to the stream. */
  ghost predicate Foreign(gap: seq<Line>, st: Stream) {
    forall i :: 0 <= i < |gap| ==> gap[i].Other? || gap[i].stream != st
  }

  predicate EndsOpen(before: seq<Line>, st: Stream) { before != [] && IsPart(before[|before| - 1], st) }

  lemma GluedEnd(a: seq<Line>, b: seq<Line>, c: seq<Line>)
    requires b != []
    ensures Glued(a + b, c) <==> Glued(b, c)
  {
  }

  lemma PiecesAround(before: seq<Line>, line: seq<Line>, after: seq<Line>, st: Stream)
    requires line != [] && line[0].Cri? && line[0].stream == st && !Glued(line, after)
    ensures |Reassembled(before + line + after)|
      == |Reassembled(before)| + |Reassembled(line)| + |Reassembled(after)| - if EndsOpen(before, st) then 1 else 0
    ensures !EndsOpen(before, st) ==>
      Reassembled(before + line + after) == Reassembled(before) + Reassembled(line) + Reassembled(after)
  {
    assert Glued(before, line) <==> EndsOpen(before, st);
    hide Reassembled, Glued;
    PiecesCount(before, line);
    GluedEnd(before, line, after);
    PiecesCount(before + line, after);
  }

  /** The fragments of a line with what came between them: `gaps[i]` came behind `fragments[i]`. */
  function Woven(fragments: seq<Line>, gaps: seq<seq<Line>>): seq<Line>
    requires |fragments| == |gaps| + 1
  {
    if gaps == [] then fragments else [fragments[0]] + gaps[0] + Woven(fragments[1..], gaps[1..])
  }

  /** At how many places something came between. */
  function Interruptions(gaps: seq<seq<Line>>): nat {
    if gaps == [] then 0 else (if gaps[0] == [] then 0 else 1) + Interruptions(gaps[1..])
  }

  ghost predicate AllForeign(gaps: seq<seq<Line>>, st: Stream) {
    forall i :: 0 <= i < |gaps| ==> Foreign(gaps[i], st)
  }

  ghost predicate Fragments(fragments: seq<Line>, st: Stream) {
    && fragments != [] && AllParts(fragments[..|fragments| - 1], st) && Closes(fragments[|fragments| - 1], st)
  }

  /** The records of an interrupted line: fragments with nothing between them are joined, `open` being those
      read so far, and every gap that is not empty ends a record and is reassembled for itself. */
  function WovenOut(open: seq<Line>, fragments: seq<Line>, gaps: seq<seq<Line>>): seq<Line>
    requires |fragments| == |gaps| + 1
    decreases |gaps|
  {
    var piece := open + [fragments[0]];
    if gaps == [] then [JoinBlock(piece)]
    else if gaps[0] == [] then WovenOut(piece, fragments[1..], gaps[1..])
    else [JoinBlock(piece)] + Reassembled(gaps[0]) + WovenOut([], fragments[1..], gaps[1..])
  }

  lemma FragmentsTail(fragments: seq<Line>, st: Stream)
    requires Fragments(fragments, st) && |fragments| > 1
    ensures IsPart(fragments[0], st) && Fragments(fragments[1..], st)
  {
    var front := fragments[..|fragments| - 1];
    assert front[0] == fragments[0];
    assert fragments[1..][..|fragments| - 2] == front[1..];
    assert fragments[1..][|fragments| - 2] == fragments[|fragments| - 1];
  }

  lemma {:induction false} WovenStarts(fragments: seq<Line>, gaps: seq<seq<Line>>, st: Stream)
    requires |fragments| == |gaps| + 1 && Fragments(fragments, st)
    ensures var ls := Woven(fragments, gaps);
      ls != [] && ls[0] == fragments[0] && ls[|ls| - 1] == fragments[|fragments| - 1]
    ensures fragments[0].Cri? && fragments[0].stream == st
  {
    if gaps == [] {
      assert |fragments| == 1;
    } else {
      FragmentsTail(fragments, st);
      WovenStarts(fragments[1..], gaps[1..], st);
    }
  }

  lemma PartsAlone(ps: seq<Line>, st: Stream)
    requires ps != [] && AllParts(ps, st)
    ensures Reassembled(ps) == [JoinBlock(ps)]
  {
    hide Reassembled, JoinBlock;
    NothingLeft();
    PartsEnd(ps, [], st);
    assert ps + [] == ps && [JoinBlock(ps)] + [] == [JoinBlock(ps)];
  }

  lemma PartsClosed(ps: seq<Line>, last: Line, st: Stream)
    requires AllParts(ps, st) && Closes(last, st)
    ensures Reassembled(ps + [last]) == [JoinBlock(ps + [last])]
  {
    hide Reassembled, JoinBlock;
    NothingLeft();
    PartsClose(ps, last, [], st);
    assert ps + [last] + [] == ps + [last] && [JoinBlock(ps + [last])] + [] == [JoinBlock(ps + [last])];
  }

  /** What has been read so far, a gap and what follows are reassembled apart. */
  lemma GapApart(piece: seq<Line>, gap: seq<Line>, rest: seq<Line>, st: Stream)
    requires piece != [] && AllParts(piece, st) && gap != [] && Foreign(gap, st)
    requires rest != [] && rest[0].Cri? && rest[0].stream == st
    ensures Reassembled(piece + (gap + rest)) == [JoinBlock(piece)] + Reassembled(gap) + Reassembled(rest)
  {
    assert !Glued(piece, gap + rest) && !Glued(gap, rest);
    hide Reassembled, JoinBlock, Glued;
    PartsAlone(piece, st);
    PiecesCount(piece, gap + rest);
    PiecesCount(gap, rest);
    ConcatAssociative([JoinBlock(piece)], Reassembled(gap), Reassembled(rest));
  }

  lemma WovenStep(open: seq<Line>, fragments: seq<Line>, gaps: seq<seq<Line>>)
    requires |fragments| == |gaps| + 1 && gaps != []
    ensures open + Woven(fragments, gaps) == (open + [fragments[0]]) + (gaps[0] + Woven(fragments[1..], gaps[1..]))
  {
  }

  lemma WovenOutStep(open: seq<Line>, fragments: seq<Line>, gaps: seq<seq<Line>>)
    requires |fragments| == |gaps| + 1
    ensures var piece := open + [fragments[0]];
      WovenOut(open, fragments, gaps) ==
        if gaps == [] then [JoinBlock(piece)]
        else if gaps[0] == [] then WovenOut(piece, fragments[1..], gaps[1..])
        else [JoinBlock(piece)] + Reassembled(gaps[0]) + WovenOut([], fragments[1..], gaps[1..])
  {
    hide JoinBlock, Reassembled;
  }

  lemma LastOfWoven(open: seq<Line>, fragments: seq<Line>, st: Stream)
    requires |fragments| == 1 && AllParts(open, st) && Fragments(fragments, st)
    ensures Reassembled(open + Woven(fragments, [])) == [JoinBlock(open + [fragments[0]])]
  {
    hide JoinBlock, Reassembled;
    PartsClosed(open, fragments[0], st);
    assert fragments == [fragments[0]];
  }

  lemma PieceGrows(open: seq<Line>, fragments: seq<Line>, st: Stream)
    requires AllParts(open, st) && Fragments(fragments, st) && |fragments| > 1
    ensures AllParts(open + [fragments[0]], st)
  {
    FragmentsTail(fragments, st);
  }

  lemma GapsTail(gaps: seq<seq<Line>>, st: Stream)
    requires AllForeign(gaps, st) && gaps != []
    ensures Foreign(gaps[0], st) && AllForeign(gaps[1..], st)
  {
    hide Foreign;
    assert forall i :: 0 <= i < |gaps[1..]| ==> gaps[1..][i] == gaps[i + 1];
  }

  lemma {:induction false} WovenComesBack(open: seq<Line>, fragments: seq<Line>, gaps: seq<seq<Line>>, st: Stream)
    requires |fragments| == |gaps| + 1 && AllParts(open, st) && Fragments(fragments, st) && AllForeign(gaps, st)
    ensures Reassembled(open + Woven(fragments, gaps)) == WovenOut(open, fragments, gaps)
    decreases |gaps|
  {
    hide *;
    WovenOutStep(open, fragments, gaps);
    if gaps == [] {
      LastOfWoven(open, fragments, st);
    } else {
      var fs, gs, piece := fragments[1..], gaps[1..], open + [fragments[0]];
      FragmentsTail(fragments, st);
      PieceGrows(open, fragments, st);
      GapsTail(gaps, st);
      WovenStep(open, fragments, gaps);
      if gaps[0] == [] {
        WovenComesBack(piece, fs, gs, st);
        assert [] + Woven(fs, gs) == Woven(fs, gs);
      } else {
        NoneOpen(st);
        WovenComesBack([], fs, gs, st);
        assert [] + Woven(fs, gs) == Woven(fs, gs);
        WovenStarts(fs, gs, st);
        GapApart(piece, gaps[0], Woven(fs, gs), st);
      }
    }
  }

  // ---- Counting the pieces ----

  predicate IsOwn(l: Line, st: Stream) { l.Cri? && l.stream == st }

  /** The number of records of one stream. */
  function Own(ls: seq<Line>, st: Stream): nat {
    if ls == [] then 0 else (if IsOwn(ls[0], st) then 1 else 0) + Own(ls[1..], st)
  }

  lemma {:induction false} OwnConcat(a: seq<Line>, b: seq<Line>, st: Stream)
    ensures Own(a + b, st) == Own(a, st) + Own(b, st)
  {
    if a == [] {
      assert a + b == b;
    } else {
      assert (a + b)[1..] == a[1..] + b;
      OwnConcat(a[1..], b, st);
    }
  }

  lemma OwnOne(l: Line, st: Stream)
    ensures Own([l], st) == if IsOwn(l, st) then 1 else 0
  {
    assert [l][1..] == [];
  }

  /** Reassembly moves nothing into a stream. */
  lemma {:induction false} ForeignStaysForeign(ls: seq<Line>, st: Stream)
    requires Foreign(ls, st)
    ensures Own(Reassembled(ls), st) == 0
    decreases |ls|
  {
    if ls == [] {
      NothingLeft();
    } else {
      hide Reassembled, Own;
      var n := BlockLength(ls);
      ReassembledStep(ls);
      ForeignStaysForeign(ls[n..], st);
      assert ls[..n][0] == ls[0];
      OwnOne(JoinBlock(ls[..n]), st);
      OwnConcat([JoinBlock(ls[..n])], Reassembled(ls[n..]), st);
    }
  }

  lemma JoinedIsOwn(piece: seq<Line>, st: Stream)
    requires piece != [] && IsOwn(piece[0], st)
    ensures Own([JoinBlock(piece)], st) == 1
  {
    OwnOne(JoinBlock(piece), st);
  }

  lemma {:induction false} OwnPieces(open: seq<Line>, fragments: seq<Line>, gaps: seq<seq<Line>>, st: Stream)
    requires |fragments| == |gaps| + 1 && AllParts(open, st) && Fragments(fragments, st) && AllForeign(gaps, st)
    ensures Own(WovenOut(open, fragments, gaps), st) == 1 + Interruptions(gaps)
    decreases |gaps|
  {
    hide Reassembled, JoinBlock, Foreign, Own;
    var piece := open + [fragments[0]];
    WovenStarts(fragments, gaps, st);
    JoinedIsOwn(piece, st);
    if gaps != [] {
      var fs, gs := fragments[1..], gaps[1..];
      FragmentsTail(fragments, st);
      assert forall i :: 0 <= i < |gs| ==> gs[i] == gaps[i + 1];
      if gaps[0] == [] {
        OwnPieces(piece, fs, gs, st);
      } else {
        OwnPieces([], fs, gs, st);
        ForeignStaysForeign(gaps[0], st);
        OwnConcat([JoinBlock(piece)], Reassembled(gaps[0]), st);
        OwnConcat([JoinBlock(piece)] + Reassembled(gaps[0]), WovenOut([], fs, gs), st);
      }
    }
  }

  lemma CutFragments(whole: Line, fragments: seq<Line>)
    requires whole.Cri? && IsCut(whole, fragments)
    ensures Fragments(fragments, whole.stream)
  {
  }

  lemma WovenUnglued(fragments: seq<Line>, gaps: seq<seq<Line>>, after: seq<Line>, st: Stream)
    requires |fragments| == |gaps| + 1 && Fragments(fragments, st)
    ensures var ls := Woven(fragments, gaps); ls != [] && ls[0].Cri? && ls[0].stream == st && !Glued(ls, after)
  {
    WovenStarts(fragments, gaps, st);
  }

  /** A line interrupted any number of times, in any input that leaves no record of its stream open, comes
      back in one piece more than it was interrupted, around what came between: full or partial records of
      the other stream, or foreign lines. */
  lemma InterruptedLineComesBackInPieces(before: seq<Line>, whole: Line, fragments: seq<Line>,
                                         gaps: seq<seq<Line>>, after: seq<Line>)
    requires whole.Cri? && IsCut(whole, fragments) && |fragments| == |gaps| + 1 && AllForeign(gaps, whole.stream)
    requires !EndsOpen(before, whole.stream)
    ensures Reassembled(before + Woven(fragments, gaps) + after)
      == Reassembled(before) + WovenOut([], fragments, gaps) + Reassembled(after)
    ensures Own(WovenOut([], fragments, gaps), whole.stream) == 1 + Interruptions(gaps)
  {
    hide *;
    var st := whole.stream;
    CutFragments(whole, fragments);
    NoneOpen(st);
    WovenComesBack([], fragments, gaps, st);
    OwnPieces([], fragments, gaps, st);
    WovenUnglued(fragments, gaps, after, st);
    PiecesAround(before, Woven(fragments, gaps), after, st);
    assert [] + Woven(fragments, gaps) == Woven(fragments, gaps);
  }

  lemma NoneOpen(st: Stream)
    ensures AllParts([], st)
  {
  }

  /** Between `head` and `tail` the output holds the record `w` and otherwise nothing of its stream. */
  ghost predicate ComesBackAs(out: seq<Line>, head: seq<Line>, w: Line, tail: seq<Line>, st: Stream) {
    exists x, y :: Own(x, st) == 0 && Own(y, st) == 0 && out == head + (x + [w] + y) + tail
  }

  lemma MiddleIs(head: seq<Line>, a: seq<Line>, b: seq<Line>, tail: seq<Line>)
    ensures head + a + tail == head + b + tail ==> a == b
  {
    if head + a + tail == head + b + tail {
      assert |a| == |b|;
      assert a == (head + a + tail)[|head|..|head| + |a|] && b == (head + b + tail)[|head|..|head| + |b|];
    }
  }

  lemma {:induction false} NoInterruption(fragments: seq<Line>, gaps: seq<seq<Line>>)
    requires |fragments| == |gaps| + 1 && Interruptions(gaps) == 0
    ensures Woven(fragments, gaps) == fragments
  {
    if gaps != [] {
      NoInterruption(fragments[1..], gaps[1..]);
      assert [fragments[0]] + [] + fragments[1..] == fragments;
    }
  }

  lemma FragmentsComeBack(whole: Line, fragments: seq<Line>)
    requires IsCut(whole, fragments)
    ensures Reassembled(fragments) == [Rejoined(whole, fragments)]
  {
    hide Reassembled, IsCut, Rejoined;
    NothingLeft();
    CutComesBack(whole, fragments, []);
    assert fragments + [] == fragments && [Rejoined(whole, fragments)] + [] == [Rejoined(whole, fragments)];
  }

  lemma UninterruptedOut(whole: Line, fragments: seq<Line>, gaps: seq<seq<Line>>)
    requires whole.Cri? && IsCut(whole, fragments) && |fragments| == |gaps| + 1 && AllForeign(gaps, whole.stream)
    requires Interruptions(gaps) == 0
    ensures WovenOut([], fragments, gaps) == [Rejoined(whole, fragments)]
  {
    hide *;
    CutFragments(whole, fragments);
    NoneOpen(whole.stream);
    WovenComesBack([], fragments, gaps, whole.stream);
    NoInterruption(fragments, gaps);
    FragmentsComeBack(whole, fragments);
    assert [] + fragments == fragments;
  }

  /** One record of the stream among records of others, in a list with as many. */
  lemma OnlyRecord(x: seq<Line>, w: Line, y: seq<Line>, r: Line, st: Stream)
    requires Own(x, st) == 0 && Own(y, st) == 0 && [r] == x + [w] + y
    ensures w == r
  {
    assert |x| + 1 + |y| == 1;
    assert (x + [w] + y)[0] == w;
  }

  lemma OwnAround(x: seq<Line>, w: Line, y: seq<Line>, st: Stream)
    requires Own(x, st) == 0 && Own(y, st) == 0
    ensures Own(x + [w] + y, st) <= 1
  {
    OwnConcat(x, [w], st);
    OwnConcat(x + [w], y, st);
    OwnOne(w, st);
  }

  /** A line comes back as one record, whatever stands around that record, exactly when nothing came between
      its fragments; and that record is the joined line. */
  lemma OneRecordIff(before: seq<Line>, whole: Line, fragments: seq<Line>, gaps: seq<seq<Line>>,
                     after: seq<Line>, w: Line)
    requires whole.Cri? && IsCut(whole, fragments) && |fragments| == |gaps| + 1 && AllForeign(gaps, whole.stream)
    requires !EndsOpen(before, whole.stream)
    ensures ComesBackAs(Reassembled(before + Woven(fragments, gaps) + after), Reassembled(before), w,
                        Reassembled(after), whole.stream)
      <==> Interruptions(gaps) == 0 && w == Rejoined(whole, fragments)
  {
    InterruptedLineComesBackInPieces(before, whole, fragments, gaps, after);
    hide Reassembled, Woven, WovenOut, IsCut, Rejoined, Own, EndsOpen, Interruptions, AllForeign;
    var st, pieces := whole.stream, WovenOut([], fragments, gaps);
    var head, tail := Reassembled(before), Reassembled(after);
    if Interruptions(gaps) == 0 {
      UninterruptedOut(whole, fragments, gaps);
      if w == Rejoined(whole, fragments) {
        NoneOwn(st);
        assert [] + [w] + [] == pieces;
      }
    }
    if ComesBackAs(head + pieces + tail, head, w, tail, st) {
      var x, y :| Own(x, st) == 0 && Own(y, st) == 0 && head + pieces + tail == head + (x + [w] + y) + tail;
      MiddleIs(head, pieces, x + [w] + y, tail);
      OwnAround(x, w, y, st);
      UninterruptedOut(whole, fragments, gaps);
      OnlyRecord(x, w, y, Rejoined(whole, fragments), st);
    }
  }

  lemma NoneOwn(st: Stream)
    ensures Own([], st) == 0
  {
  }

  /** A line comes back exactly as it was if and only if nothing came between its fragments and it was not
      cut into fragments one of which begins with whitespace. */
  lemma ComesBackIff(before: seq<Line>, whole: Line, fragments: seq<Line>, gaps: seq<seq<Line>>, after: seq<Line>)
    requires whole.Cri? && IsCut(whole, fragments) && |fragments| == |gaps| + 1 && AllForeign(gaps, whole.stream)
    requires !EndsOpen(before, whole.stream)
    ensures ComesBackAs(Reassembled(before + Woven(fragments, gaps) + after), Reassembled(before), whole,
                        Reassembled(after), whole.stream)
      <==> Interruptions(gaps) == 0 && CutClean(whole, fragments)
  {
    hide *;
    OneRecordIff(before, whole, fragments, gaps, after, whole);
    RejoinedIff(whole, fragments);
  }

  /** Consecutive fragments come back as a record of their own exactly when no record of their stream was
      left open before them. */
  lemma OpenRecordIff(before: seq<Line>, whole: Line, fragments: seq<Line>, after: seq<Line>)
    requires whole.Cri? && IsCut(whole, fragments)
    ensures Reassembled(before + fragments + after)
        == Reassembled(before) + [Rejoined(whole, fragments)] + Reassembled(after)
      <==> !EndsOpen(before, whole.stream)
  {
    CutFragments(whole, fragments);
    CutUnglued(whole, fragments, after);
    hide Reassembled, IsCut, Rejoined, Fragments, EndsOpen;
    PiecesAround(before, fragments, after, whole.stream);
    FragmentsComeBack(whole, fragments);
  }

  lemma CutUnglued(whole: Line, fragments: seq<Line>, after: seq<Line>)
    requires whole.Cri? && IsCut(whole, fragments)
    ensures fragments != [] && fragments[0].Cri? && fragments[0].stream == whole.stream && !Glued(fragments, after)
  {
    FragmentsAreCri(whole, fragments, 0);
    FragmentsAreCri(whole, fragments, |fragments| - 1);
  }

  /** Whatever follows a fragment, if it does not begin in the line's stream then the record the line had
      begun ends there, in any surrounding input. */
  lemma InterruptionEndsRecord(before: seq<Line>, piece: seq<Line>, gap: seq<Line>, st: Stream)
    requires piece != [] && AllParts(piece, st) && gap != [] && !IsOwn(gap[0], st)
    ensures Reassembled(before + piece + gap) == Reassembled(before + piece) + Reassembled(gap)
  {
    assert (before + piece)[|before + piece| - 1] == piece[|piece| - 1];
    hide Reassembled;
    PiecesCount(before + piece, gap);
  }
}
