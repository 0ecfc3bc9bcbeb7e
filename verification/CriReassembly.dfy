/** Reassembly of CRI log fragments: kubelet cuts one container line into P records closed by an F
    record; the reader joins them back. */
module CriReassembly {
  import opened Sequences

  datatype Stream = Stdout | Stderr

  /** A line that matches the CRI pattern, or any other line. `body` is what follows the single delimiter
      behind the tag, exactly as kubelet wrote it. */
  datatype Line = Cri(ts: string, stream: Stream, partial: bool, body: string) | Other(text: string)

  /** What `\s` of the pattern matches. */
  predicate IsSpace(c: char) {
    var n := c as int;
    || 9 <= n <= 13 || 28 <= n <= 32 || n == 0x85 || n == 0xA0 || n == 0x1680 || 0x2000 <= n <= 0x200A
    || n == 0x2028 || n == 0x2029 || n == 0x202F || n == 0x205F || n == 0x3000
  }

  function DropSpaces(s: string): string { if s != "" && IsSpace(s[0]) then DropSpaces(s[1..]) else s }

  /** The `msg` group: the pattern's greedy `\s+` behind the tag takes all whitespace a body begins with. */
  function MsgOf(l: Line): string { if l.Cri? then DropSpaces(l.body) else "" }

  function BodyOf(l: Line): string { if l.Cri? then l.body else "" }

  function Messages(ls: seq<Line>): string { if ls == [] then "" else MsgOf(ls[0]) + Messages(ls[1..]) }

  function Bodies(ls: seq<Line>): string { if ls == [] then "" else BodyOf(ls[0]) + Bodies(ls[1..]) }

  predicate IsPart(l: Line, st: Stream) { l.Cri? && l.partial && l.stream == st }

  predicate AllParts(ls: seq<Line>, st: Stream) { forall i :: 0 <= i < |ls| ==> IsPart(ls[i], st) }

  predicate Whole(l: Line) { l.Other? || !l.partial }

  predicate AllWhole(ls: seq<Line>) { forall i :: 0 <= i < |ls| ==> Whole(ls[i]) }

  /** The reader joins `l` to what ends in `p`: `p` is partial and `l` a record of the same stream. */
  predicate Continues(p: Line, l: Line) { p.Cri? && p.partial && l.Cri? && l.stream == p.stream }

  /** The join between two pieces of input falls inside a record. */
  predicate Glued(a: seq<Line>, b: seq<Line>) { a != [] && b != [] && Continues(a[|a| - 1], b[0]) }

  // ---- The reference: cut the input into blocks, then join each block ----

  /** How many lines, from the front, are partial records of one stream. */
  function Leading(ls: seq<Line>, st: Stream): (n: nat)
    ensures n <= |ls|
  {
    if ls != [] && IsPart(ls[0], st) then 1 + Leading(ls[1..], st) else 0
  }

  predicate Closes(l: Line, st: Stream) { l.Cri? && !l.partial && l.stream == st }

  /** Length of the first block: a full record or foreign line alone, else the longest run of partial
      records of one stream, with the full record of that stream if it follows at once. */
  function BlockLength(ls: seq<Line>): (n: nat)
    requires ls != []
    ensures 1 <= n <= |ls|
  {
    if ls[0].Other? || !ls[0].partial then 1
    else
      var st := ls[0].stream;
      var n := Leading(ls, st);
      if n < |ls| && Closes(ls[n], st) then n + 1 else n
  }

  /** A line that is not partial is a block of its own and stays as it is; any other block becomes one
      full record with the first timestamp and all messages in order. */
  function JoinBlock(block: seq<Line>): Line
    requires block != []
  {
    if Whole(block[0]) then block[0] else Cri(block[0].ts, block[0].stream, false, Messages(block))
  }

  function Reassembled(ls: seq<Line>): seq<Line>
    decreases |ls|
  {
    if ls == [] then []
    else var n := BlockLength(ls); [JoinBlock(ls[..n])] + Reassembled(ls[n..])
  }

  lemma {:induction false} LeadingParts(ps: seq<Line>, rest: seq<Line>, st: Stream)
    requires AllParts(ps, st)
    ensures Leading(ps + rest, st) == |ps| + Leading(rest, st)
  {
    if ps == [] {
      assert ps + rest == rest;
    } else {
      assert (ps + rest)[1..] == ps[1..] + rest;
      LeadingParts(ps[1..], rest, st);
    }
  }

  /** Pending parts that the next line does not continue form a block of their own. */
  lemma PartsEnd(ps: seq<Line>, rest: seq<Line>, st: Stream)
    requires ps != [] && AllParts(ps, st)
    requires rest != [] ==> !IsPart(rest[0], st) && !Closes(rest[0], st)
    ensures Reassembled(ps + rest) == [JoinBlock(ps)] + Reassembled(rest)
  {
    LeadingParts(ps, rest, st);
    var ls := ps + rest;
    assert ls[0] == ps[0] && ls[..|ps|] == ps && ls[|ps|..] == rest;
    assert rest != [] ==> ls[|ps|] == rest[0];
  }

  /** Pending parts and the full record that closes them form one block. */
  lemma PartsClose(ps: seq<Line>, last: Line, rest: seq<Line>, st: Stream)
    requires AllParts(ps, st) && Closes(last, st)
    ensures Reassembled(ps + [last] + rest) == [JoinBlock(ps + [last])] + Reassembled(rest)
  {
    var ls := ps + [last] + rest;
    assert ls == ps + ([last] + rest);
    LeadingParts(ps, [last] + rest, st);
    assert ls[|ps|] == last && ls[..|ps| + 1] == ps + [last] && ls[|ps| + 1..] == rest;
  }

  lemma MessageAlone(l: Line)
    ensures Messages([l]) == MsgOf(l)
  {
    assert [l][1..] == [];
    assert MsgOf(l) + "" == MsgOf(l);
  }

  lemma AloneBlock(l: Line, rest: seq<Line>)
    requires l.Other? || !l.partial
    ensures Reassembled([l] + rest) == [l] + Reassembled(rest)
  {
    var ls := [l] + rest;
    assert ls[..1] == [l] && ls[1..] == rest;
  }

  lemma {:induction false} MessagesConcat(a: seq<Line>, b: seq<Line>)
    ensures Messages(a + b) == Messages(a) + Messages(b)
  {
    if a == [] {
      assert a + b == b;
    } else {
      assert (a + b)[1..] == a[1..] + b;
      MessagesConcat(a[1..], b);
    }
  }

  // ---- The reader: one pass with pending parts ----

  function JoinStrings(parts: seq<string>): string { Flatten(parts) }

  /** The pending fields hold exactly the block of lines read and not yet emitted. */
  ghost predicate Pending(block: seq<Line>, parts: seq<string>, ts: string, st: Stream) {
    && |parts| == |block| && JoinStrings(parts) == Messages(block)
    && (block != [] ==> block[0].Cri? && block[0].ts == ts && AllParts(block, st))
  }

  lemma PendingGrows(block: seq<Line>, parts: seq<string>, ts: string, st: Stream, l: Line)
    requires Pending(block, parts, ts, st) && l.Cri? && l.stream == st
    ensures JoinStrings(parts + [MsgOf(l)]) == Messages(block + [l])
    ensures l.partial && block != [] ==> Pending(block + [l], parts + [MsgOf(l)], ts, st)
  {
    FlattenConcat(parts, [MsgOf(l)]);
    assert Flatten([MsgOf(l)]) == MsgOf(l);
    MessagesConcat(block, [l]);
    MessageAlone(l);
  }

  lemma PendingStarts(l: Line)
    requires l.Cri? && l.partial
    ensures Pending([l], [MsgOf(l)], l.ts, l.stream)
  {
    MessageAlone(l);
    assert Flatten([MsgOf(l)]) == MsgOf(l);
  }

  lemma PendingEmpty(ts: string, st: Stream)
    ensures Pending([], [], ts, st)
  {
  }

  /** `take_joined`, when a line arrives that does not continue what is pending. */
  lemma FlushIsBlock(block: seq<Line>, parts: seq<string>, ts: string, st: Stream, rest: seq<Line>)
    requires Pending(block, parts, ts, st) && block != []
    requires rest != [] ==> !IsPart(rest[0], st) && !Closes(rest[0], st)
    ensures Reassembled(block + rest) == [Cri(ts, st, false, JoinStrings(parts))] + Reassembled(rest)
  {
    PartsEnd(block, rest, st);
  }

  lemma CloseIsBlock(block: seq<Line>, parts: seq<string>, ts: string, st: Stream, l: Line, rest: seq<Line>)
    requires Pending(block, parts, ts, st) && block != [] && Closes(l, st)
    ensures Reassembled(block + ([l] + rest))
      == [Cri(ts, st, false, JoinStrings(parts + [MsgOf(l)]))] + Reassembled(rest)
  {
    assert block + ([l] + rest) == block + [l] + rest;
    PartsClose(block, l, rest, st);
    PendingGrows(block, parts, ts, st, l);
  }

  /** One line that the pending parts do not concern: nothing is pending. */
  method StartLine(l: Line, ghost rest: seq<Line>) returns (out: seq<Line>, parts: seq<string>, ts: string,
                   st: Stream, ghost block: seq<Line>)
    ensures Pending(block, parts, ts, st)
    ensures Reassembled([l] + rest) == out + Reassembled(block + rest)
  {
    hide Reassembled, Pending;
    out, parts, ts, st, block := [], [], "", Stdout, [];
    if l.Other? || !l.partial {
      AloneBlock(l, rest);
      PendingEmpty(ts, st);
      assert [] + rest == rest;
      out := [l];
    } else {
      PendingStarts(l);
      parts, ts, st, block := [MsgOf(l)], l.ts, l.stream, [l];
    }
  }

  /** One line of the loop, with parts pending. */
  method ContinueLine(l: Line, parts0: seq<string>, ts0: string, st0: Stream, ghost block0: seq<Line>,
                      ghost rest: seq<Line>)
    returns (out: seq<Line>, parts: seq<string>, ts: string, st: Stream, ghost block: seq<Line>)
    requires Pending(block0, parts0, ts0, st0) && parts0 != []
    ensures Pending(block, parts, ts, st)
    ensures Reassembled(block0 + ([l] + rest)) == out + Reassembled(block + rest)
  {
    PendingTogether(block0, parts0, ts0, st0);
    hide *;
    if l.Other? || l.stream != st0 {
      FlushIsBlock(block0, parts0, ts0, st0, [l] + rest);
      out, parts, ts, st, block := StartLine(l, rest);
      ConcatAssociative([Cri(ts0, st0, false, JoinStrings(parts0))], out, Reassembled(block + rest));
      out := [Cri(ts0, st0, false, JoinStrings(parts0))] + out;
    } else if l.partial {
      PendingGrows(block0, parts0, ts0, st0, l);
      ConcatAssociative(block0, [l], rest);
      assert [] + Reassembled((block0 + [l]) + rest) == Reassembled((block0 + [l]) + rest);
      out, parts, ts, st, block := [], parts0 + [MsgOf(l)], ts0, st0, block0 + [l];
    } else {
      CloseIsBlock(block0, parts0, ts0, st0, l, rest);
      PendingEmpty(ts0, st0);
      assert [] + rest == rest;
      out, parts, ts, st, block := [Cri(ts0, st0, false, JoinStrings(parts0 + [MsgOf(l)]))], [], ts0, st0, [];
    }
  }

  lemma PendingTogether(block: seq<Line>, parts: seq<string>, ts: string, st: Stream)
    requires Pending(block, parts, ts, st)
    ensures parts == [] <==> block == []
  {
  }

  lemma NothingLeft()
    ensures Reassembled([]) == []
  {
  }

  method ReassembleFragments(lines: seq<Line>) returns (out: seq<Line>)
    ensures out == Reassembled(lines)
  {
    hide *;
    PendingEmpty("", Stdout);
    NothingLeft();
    var parts: seq<string>, ts, st := [], "", Stdout;
    ghost var block: seq<Line> := [];
    out := [];
    assert [] + lines[0..] == lines;
    for i := 0 to |lines|
      invariant Pending(block, parts, ts, st)
      invariant Reassembled(lines) == out + Reassembled(block + lines[i..])
    {
      var more;
      PendingTogether(block, parts, ts, st);
      assert lines[i..] == [lines[i]] + lines[i + 1..];
      if parts == [] {
        assert block + lines[i..] == lines[i..];
        more, parts, ts, st, block := StartLine(lines[i], lines[i + 1..]);
      } else {
        more, parts, ts, st, block := ContinueLine(lines[i], parts, ts, st, block, lines[i + 1..]);
      }
      out := out + more;
    }
    PendingTogether(block, parts, ts, st);
    assert block + lines[|lines|..] == block == block + [];
    if parts != [] {
      FlushIsBlock(block, parts, ts, st, []);
      out := out + [Cri(ts, st, false, JoinStrings(parts))];
    }
  }

  // ---- What whitespace costs ----

  /** A record whose body begins with whitespace, which its message lacks. */
  predicate Indented(l: Line) { l.Cri? && l.body != "" && IsSpace(l.body[0]) }

  lemma {:induction false} DropLength(s: string)
    ensures |DropSpaces(s)| <= |s|
    ensures s != "" && IsSpace(s[0]) ==> |DropSpaces(s)| < |s|
  {
    if s != "" && IsSpace(s[0]) {
      DropLength(s[1..]);
    }
  }

  /** Messages are the bodies exactly when no body begins with whitespace. */
  lemma {:induction false} MessagesIff(ls: seq<Line>)
    ensures |Messages(ls)| <= |Bodies(ls)|
    ensures Messages(ls) == Bodies(ls) <==> forall i :: 0 <= i < |ls| ==> !Indented(ls[i])
  {
    if ls != [] {
      var rest := ls[1..];
      MessagesIff(rest);
      DropLength(BodyOf(ls[0]));
      assert forall i :: 0 <= i < |rest| ==> rest[i] == ls[i + 1];
      assert forall i :: 1 <= i < |ls| ==> ls[i] == rest[i - 1];
      SameTail(MsgOf(ls[0]), Messages(rest), BodyOf(ls[0]), Bodies(rest));
    }
  }

  lemma SameTail(a: string, b: string, c: string, d: string)
    requires |a| <= |c| && |b| <= |d|
    ensures a + b == c + d <==> a == c && b == d
  {
    if a + b == c + d {
      assert |a| == |c| && |b| == |d|;
      assert a == (a + b)[..|a|] && c == (c + d)[..|a|];
      assert b == (a + b)[|a|..] && d == (c + d)[|a|..];
    }
  }

  lemma {:induction false} DropConcat(s: string, t: string)
    ensures DropSpaces(s + t) == if DropSpaces(s) == "" then DropSpaces(t) else DropSpaces(s) + t
  {
    if s == "" {
      assert s + t == t;
    } else if IsSpace(s[0]) {
      assert (s + t)[1..] == s[1..] + t;
      DropConcat(s[1..], t);
    }
  }

  /** Once something visible has been read, no record begins with whitespace. */
  ghost predicate CleanOnceVisible(ls: seq<Line>) {
    forall p, i :: 0 <= p < i < |ls| && MsgOf(ls[p]) != "" ==> !Indented(ls[i])
  }

  /** The message of the whole text is the messages of its pieces exactly when no piece behind the first
      visible character begins with whitespace. */
  lemma {:induction false} WholeMessageIff(ls: seq<Line>)
    requires forall i :: 0 <= i < |ls| ==> ls[i].Cri?
    ensures Messages(ls) == DropSpaces(Bodies(ls)) <==> CleanOnceVisible(ls)
  {
    if ls != [] {
      var rest := ls[1..];
      assert forall i :: 0 <= i < |rest| ==> rest[i] == ls[i + 1];
      assert forall i :: 1 <= i < |ls| ==> ls[i] == rest[i - 1];
      DropConcat(ls[0].body, Bodies(rest));
      if MsgOf(ls[0]) == "" {
        WholeMessageIff(rest);
        assert CleanOnceVisible(ls) <==> CleanOnceVisible(rest);
      } else {
        MessagesIff(rest);
        SameTail(MsgOf(ls[0]), Messages(rest), MsgOf(ls[0]), Bodies(rest));
        assert CleanOnceVisible(ls) <==> forall i :: 0 <= i < |rest| ==> !Indented(rest[i]);
      }
    }
  }

  // ---- Splitting and joining ----

  /** `fragments` is a legal cut of the line `whole`: a foreign line is never cut; a record is cut
      into partial records of its own stream closed by a full one, the first carrying its timestamp. */
  ghost predicate IsCut(whole: Line, fragments: seq<Line>) {
    if whole.Other? then fragments == [whole]
    else
      && !whole.partial && fragments != [] && Bodies(fragments) == whole.body
      && AllParts(fragments[..|fragments| - 1], whole.stream) && Closes(fragments[|fragments| - 1], whole.stream)
      && fragments[0].ts == whole.ts
  }

  /** What comes back for a line that was cut this way. */
  function Rejoined(whole: Line, fragments: seq<Line>): Line {
    if whole.Other? || |fragments| == 1 then whole else whole.(body := Messages(fragments))
  }

  /** The line was not cut, or no fragment begins with whitespace. */
  predicate CutClean(whole: Line, fragments: seq<Line>) {
    whole.Other? || |fragments| == 1 || forall i :: 0 <= i < |fragments| ==> !Indented(fragments[i])
  }

  lemma RejoinedIff(whole: Line, fragments: seq<Line>)
    requires IsCut(whole, fragments)
    ensures Rejoined(whole, fragments) == whole <==> CutClean(whole, fragments)
  {
    MessagesIff(fragments);
  }

  lemma FragmentsAreCri(whole: Line, fragments: seq<Line>, i: nat)
    requires whole.Cri? && IsCut(whole, fragments) && i < |fragments|
    ensures fragments[i].Cri? && fragments[i].stream == whole.stream && (fragments[i].partial <==> i < |fragments| - 1)
  {
    if i < |fragments| - 1 {
      assert IsPart(fragments[..|fragments| - 1][i], whole.stream);
    }
  }

  /** The rejoined line has the message group of the original exactly when the line was not cut, or no
      fragment behind its first visible character begins with whitespace. */
  lemma MessageSurvivesIff(whole: Line, fragments: seq<Line>)
    requires IsCut(whole, fragments)
    ensures MsgOf(Rejoined(whole, fragments)) == MsgOf(whole)
      <==> whole.Other? || |fragments| == 1 || CleanOnceVisible(fragments)
  {
    if whole.Cri? && |fragments| > 1 {
      forall i | 0 <= i < |fragments| ensures fragments[i].Cri? { FragmentsAreCri(whole, fragments, i); }
      WholeMessageIff(fragments);
      MessagesTrimmed(fragments);
    }
  }

  /** Joined messages never begin with whitespace. */
  lemma {:induction false} MessagesTrimmed(ls: seq<Line>)
    ensures DropSpaces(Messages(ls)) == Messages(ls)
  {
    if ls != [] {
      MessagesTrimmed(ls[1..]);
      DropTwice(BodyOf(ls[0]));
      assert MsgOf(ls[0]) == DropSpaces(BodyOf(ls[0]));
      DropConcat(MsgOf(ls[0]), Messages(ls[1..]));
      assert "" + Messages(ls[1..]) == Messages(ls[1..]);
    }
  }

  lemma {:induction false} DropTwice(s: string)
    ensures DropSpaces(DropSpaces(s)) == DropSpaces(s)
  {
    if s != "" && IsSpace(s[0]) {
      DropTwice(s[1..]);
    }
  }

  lemma UncutIsWhole(whole: Line, fragments: seq<Line>)
    requires whole.Cri? && IsCut(whole, fragments) && |fragments| == 1
    ensures fragments == [whole]
  {
    assert fragments[1..] == [] && Bodies(fragments) == fragments[0].body + "" == fragments[0].body;
  }

  lemma CutComesBack(whole: Line, fragments: seq<Line>, rest: seq<Line>)
    requires IsCut(whole, fragments)
    ensures Reassembled(fragments + rest) == [Rejoined(whole, fragments)] + Reassembled(rest)
  {
    hide Reassembled;
    if whole.Other? {
      AloneBlock(whole, rest);
    } else if |fragments| == 1 {
      UncutIsWhole(whole, fragments);
      AloneBlock(whole, rest);
    } else {
      var ps, last := fragments[..|fragments| - 1], fragments[|fragments| - 1];
      assert fragments == ps + [last];
      assert ps[0] == fragments[0] && IsPart(ps[0], whole.stream);
      PartsClose(ps, last, rest, whole.stream);
    }
  }

  function AllRejoined(wholes: seq<Line>, cuts: seq<seq<Line>>): (r: seq<Line>)
    requires |wholes| == |cuts|
    ensures |r| == |wholes| && forall i :: 0 <= i < |r| ==> r[i] == Rejoined(wholes[i], cuts[i])
  {
    seq(|wholes|, i requires 0 <= i < |wholes| => Rejoined(wholes[i], cuts[i]))
  }

  /** Any lines, each cut in any legal way, come back one for one, in order, with their timestamps. */
  lemma {:induction false} CutsComeBack(wholes: seq<Line>, cuts: seq<seq<Line>>)
    requires |wholes| == |cuts| && forall i :: 0 <= i < |wholes| ==> IsCut(wholes[i], cuts[i])
    ensures Reassembled(Flatten(cuts)) == AllRejoined(wholes, cuts)
  {
    if wholes == [] {
      NothingLeft();
    } else {
      hide Reassembled, IsCut, Rejoined;
      forall i | 0 <= i < |wholes[1..]| ensures IsCut(wholes[1..][i], cuts[1..][i]) {
        assert IsCut(wholes[i + 1], cuts[i + 1]);
      }
      CutsComeBack(wholes[1..], cuts[1..]);
      CutComesBack(wholes[0], cuts[0], Flatten(cuts[1..]));
      assert AllRejoined(wholes, cuts) == [Rejoined(wholes[0], cuts[0])] + AllRejoined(wholes[1..], cuts[1..]);
    }
  }

  /** Reassembly undoes splitting, so that all lines come back exactly, if and only if no line was cut into
      fragments one of which begins with whitespace. */
  lemma ReassemblyUndoesSplitting(wholes: seq<Line>, cuts: seq<seq<Line>>)
    requires |wholes| == |cuts| && forall i :: 0 <= i < |wholes| ==> IsCut(wholes[i], cuts[i])
    ensures Reassembled(Flatten(cuts)) == wholes <==> forall i :: 0 <= i < |wholes| ==> CutClean(wholes[i], cuts[i])
  {
    hide Reassembled, IsCut, Rejoined, CutClean;
    CutsComeBack(wholes, cuts);
    forall i | 0 <= i < |wholes| ensures Rejoined(wholes[i], cuts[i]) == wholes[i] <==> CutClean(wholes[i], cuts[i]) {
      RejoinedIff(wholes[i], cuts[i]);
    }
  }

  lemma BodyAlone(l: Line)
    ensures Bodies([l]) == BodyOf(l)
  {
    assert [l][1..] == [];
    assert BodyOf(l) + "" == BodyOf(l);
  }

  lemma TwoLines(a: Line, b: Line)
    ensures Messages([a, b]) == MsgOf(a) + MsgOf(b) && Bodies([a, b]) == BodyOf(a) + BodyOf(b)
  {
    assert [a, b][1..] == [b] && [a, b][0] == a;
    MessageAlone(b);
    BodyAlone(b);
  }

  /** A line cut once. */
  function CutAt(ts: string, head: string, tail: string): seq<Line> {
    [Cri(ts, Stdout, true, head), Cri(ts, Stdout, false, tail)]
  }

  lemma CutOnceIsLegal(ts: string, head: string, tail: string)
    ensures IsCut(Cri(ts, Stdout, false, head + tail), CutAt(ts, head, tail))
  {
    var fragments := CutAt(ts, head, tail);
    TwoLines(fragments[0], fragments[1]);
    hide Bodies;
    assert fragments[..1] == [fragments[0]];
  }

  lemma CutOnce(ts: string, head: string, tail: string)
    ensures Reassembled(CutAt(ts, head, tail)) == [Cri(ts, Stdout, false, DropSpaces(head) + DropSpaces(tail))]
  {
    var whole, fragments := Cri(ts, Stdout, false, head + tail), CutAt(ts, head, tail);
    TwoLines(fragments[0], fragments[1]);
    hide Reassembled, Messages, Bodies, DropSpaces, IsCut;
    NothingLeft();
    CutOnceIsLegal(ts, head, tail);
    CutComesBack(whole, fragments, []);
    assert fragments + [] == fragments;
    assert [Rejoined(whole, fragments)] + [] == [Rejoined(whole, fragments)];
  }

  lemma DropsOneSpace()
    ensures DropSpaces("connection") == "connection" && DropSpaces(" refused") == "refused"
  {
    assert " refused"[1..] == "refused";
  }

  /** A cut in front of a space glues two words together. */
  lemma SpaceAtTheCutIsLost(ts: string)
    ensures IsCut(Cri(ts, Stdout, false, "connection" + " refused"), CutAt(ts, "connection", " refused"))
    ensures Reassembled(CutAt(ts, "connection", " refused")) == [Cri(ts, Stdout, false, "connection" + "refused")]
  {
    hide *;
    DropsOneSpace();
    CutOnceIsLegal(ts, "connection", " refused");
    CutOnce(ts, "connection", " refused");
  }

  // ---- What arbitrary input keeps ----

  datatype Token = Ch(stream: Stream, c: char) | Text(text: string)

  function Chars(st: Stream, text: string): (r: seq<Token>)
    ensures |r| == |text| && forall i :: 0 <= i < |text| ==> r[i] == Ch(st, text[i])
  {
    seq(|text|, i requires 0 <= i < |text| => Ch(st, text[i]))
  }

  function TokensOf(l: Line): seq<Token> { if l.Cri? then Chars(l.stream, l.body) else [Text(l.text)] }

  /** Everything in the lines, in order: the characters of every body with their stream, and foreign lines. */
  function Payload(ls: seq<Line>): seq<Token> { if ls == [] then [] else TokensOf(ls[0]) + Payload(ls[1..]) }

  lemma {:induction false} PayloadConcat(a: seq<Line>, b: seq<Line>)
    ensures Payload(a + b) == Payload(a) + Payload(b)
  {
    if a == [] {
      assert a + b == b;
    } else {
      assert (a + b)[1..] == a[1..] + b;
      PayloadConcat(a[1..], b);
    }
  }

  /** A record without the whitespace its body begins with. */
  function Trim(l: Line): Line { if l.Cri? then l.(body := DropSpaces(l.body)) else l }

  /** The reader joins this line to another one: it is partial, or continues the line before it. */
  predicate Joined(ls: seq<Line>, i: nat)
    requires i < |ls|
  {
    !Whole(ls[i]) || (i > 0 && Continues(ls[i - 1], ls[i]))
  }

  /** The input with exactly the joined lines trimmed. */
  function Trimmed(ls: seq<Line>): (r: seq<Line>)
    ensures |r| == |ls| && forall i :: 0 <= i < |ls| ==> r[i] == if Joined(ls, i) then Trim(ls[i]) else ls[i]
  {
    seq(|ls|, i requires 0 <= i < |ls| => if Joined(ls, i) then Trim(ls[i]) else ls[i])
  }

  lemma TrimmedConcat(a: seq<Line>, b: seq<Line>)
    requires !Glued(a, b)
    ensures Trimmed(a + b) == Trimmed(a) + Trimmed(b)
  {
    hide Trim;
    var ls := a + b;
    forall i | 0 <= i < |ls| ensures Trimmed(ls)[i] == (Trimmed(a) + Trimmed(b))[i] {
      if i < |a| {
        assert Joined(ls, i) <==> Joined(a, i);
      } else {
        assert Joined(ls, i) <==> Joined(b, i - |a|);
      }
    }
  }

  predicate SameStream(ls: seq<Line>, st: Stream) { forall i :: 0 <= i < |ls| ==> ls[i].Cri? && ls[i].stream == st }

  lemma CharsConcat(st: Stream, a: string, b: string)
    ensures Chars(st, a + b) == Chars(st, a) + Chars(st, b)
  {
  }

  lemma {:induction false} BlockPayload(ls: seq<Line>, st: Stream)
    requires SameStream(ls, st)
    ensures Payload(Map(ls, Trim)) == Chars(st, Messages(ls))
  {
    if ls != [] {
      hide DropSpaces;
      assert Map(ls, Trim)[1..] == Map(ls[1..], Trim) && Map(ls, Trim)[0] == Trim(ls[0]);
      BlockPayload(ls[1..], st);
      CharsConcat(st, MsgOf(ls[0]), Messages(ls[1..]));
    }
  }

  lemma {:induction false} LeadingAreParts(ls: seq<Line>, st: Stream)
    ensures AllParts(ls[..Leading(ls, st)], st)
    ensures Leading(ls, st) < |ls| ==> !IsPart(ls[Leading(ls, st)], st)
  {
    if ls != [] && IsPart(ls[0], st) {
      LeadingAreParts(ls[1..], st);
      var n := Leading(ls, st);
      assert forall i :: 1 <= i < n ==> ls[..n][i] == ls[1..][..n - 1][i - 1];
    }
  }

  /** A block is a line alone that is not partial, or a run of joined lines of one stream; what follows it
      does not continue it. */
  lemma FirstBlock(ls: seq<Line>)
    requires ls != []
    ensures var n := BlockLength(ls);
      && !Glued(ls[..n], ls[n..])
      && (Whole(ls[0]) ==> n == 1)
      && (!Whole(ls[0]) ==> SameStream(ls[..n], ls[0].stream) && forall i :: 0 <= i < n ==> Joined(ls[..n], i))
  {
    var n := BlockLength(ls);
    if !Whole(ls[0]) {
      var st := ls[0].stream;
      var m := Leading(ls, st);
      LeadingAreParts(ls, st);
      assert forall i :: 0 <= i < m ==> ls[i] == ls[..m][i] && IsPart(ls[i], st);
      assert forall i :: 0 <= i < n ==> ls[..n][i] == ls[i];
      assert n < |ls| ==> ls[n..][0] == ls[n];
    }
  }

  lemma BlockKeeps(ls: seq<Line>)
    requires ls != []
    ensures var block := ls[..BlockLength(ls)];
      Payload([JoinBlock(block)]) == Payload(Trimmed(block)) && Whole(JoinBlock(block))
  {
    FirstBlock(ls);
    var block := ls[..BlockLength(ls)];
    var joined := JoinBlock(block);
    assert [joined][1..] == [];
    if Whole(ls[0]) {
      assert Trimmed(block) == [ls[0]];
    } else {
      assert Trimmed(block) == Map(block, Trim);
      hide Trimmed;
      BlockPayload(block, ls[0].stream);
      assert Payload([joined]) == Chars(ls[0].stream, Messages(block)) + [];
    }
  }

  lemma BlockEnds(ls: seq<Line>)
    requires ls != []
    ensures !Glued(ls[..BlockLength(ls)], ls[BlockLength(ls)..])
  {
    FirstBlock(ls);
  }

  lemma PayloadStep(ls: seq<Line>)
    requires ls != [] && Payload(Reassembled(ls[BlockLength(ls)..])) == Payload(Trimmed(ls[BlockLength(ls)..]))
    ensures Payload(Reassembled(ls)) == Payload(Trimmed(ls))
  {
    hide *;
    var n := BlockLength(ls);
    BlockEnds(ls);
    BlockKeeps(ls);
    ReassembledStep(ls);
    TrimmedConcat(ls[..n], ls[n..]);
    PayloadConcat(Trimmed(ls[..n]), Trimmed(ls[n..]));
    PayloadConcat([JoinBlock(ls[..n])], Reassembled(ls[n..]));
    assert ls[..n] + ls[n..] == ls;
  }

  lemma WholeStep(ls: seq<Line>)
    requires ls != [] && AllWhole(Reassembled(ls[BlockLength(ls)..]))
    ensures AllWhole(Reassembled(ls))
  {
    hide Reassembled, BlockLength, JoinBlock, Payload;
    BlockKeeps(ls);
    ReassembledStep(ls);
  }

  lemma ReassembledStep(ls: seq<Line>)
    requires ls != []
    ensures Reassembled(ls) == [JoinBlock(ls[..BlockLength(ls)])] + Reassembled(ls[BlockLength(ls)..])
  {
  }

  /** For arbitrary input nothing is invented or moved, and only whitespace at the start of a joined record
      is lost: every other character with its stream, and every foreign line, keeps its place. No partial
      record survives. */
  lemma {:induction false} ReassemblyKeepsPayload(ls: seq<Line>)
    ensures Payload(Reassembled(ls)) == Payload(Trimmed(ls))
    ensures AllWhole(Reassembled(ls))
    decreases |ls|
  {
    hide *;
    if ls == [] {
      NothingLeft();
      NothingAtAll();
    } else {
      ReassemblyKeepsPayload(ls[BlockLength(ls)..]);
      PayloadStep(ls);
      WholeStep(ls);
    }
  }

  lemma NothingAtAll()
    ensures AllWhole([]) && Payload([]) == Payload(Trimmed([]))
  {
  }

  lemma TrimShrinks(l: Line)
    ensures Trim(l) == l || |TokensOf(Trim(l))| < |TokensOf(l)|
    ensures Trim(l) == l <==> !Indented(l)
  {
    DropLength(BodyOf(l));
  }

  lemma {:induction false} TrimCosts(ls: seq<Line>, ms: seq<Line>)
    requires |ls| == |ms| && forall i :: 0 <= i < |ls| ==> ms[i] == ls[i] || ms[i] == Trim(ls[i])
    ensures |Payload(ms)| <= |Payload(ls)|
    ensures Payload(ms) == Payload(ls) <==> ms == ls
  {
    if ls != [] {
      hide TokensOf, Trim;
      assert forall i :: 0 <= i < |ls[1..]| ==> ls[1..][i] == ls[i + 1] && ms[1..][i] == ms[i + 1];
      TrimCosts(ls[1..], ms[1..]);
      TrimShrinks(ls[0]);
      SamePayload(ms[0], Payload(ms[1..]), ls[0], Payload(ls[1..]));
      assert ls == [ls[0]] + ls[1..] && ms == [ms[0]] + ms[1..];
    }
  }

  lemma SamePayload(a: Line, b: seq<Token>, c: Line, d: seq<Token>)
    requires (a == c || |TokensOf(a)| < |TokensOf(c)|) && |b| <= |d|
    ensures TokensOf(a) + b == TokensOf(c) + d <==> a == c && b == d
  {
    hide TokensOf;
    if TokensOf(a) + b == TokensOf(c) + d {
      assert |TokensOf(a)| == |TokensOf(c)| && |b| == |d|;
      assert b == (TokensOf(a) + b)[|TokensOf(a)|..] && d == (TokensOf(c) + d)[|TokensOf(a)|..];
    }
  }

  /** Nothing at all is lost exactly when no joined record begins with whitespace. */
  lemma LosslessIff(ls: seq<Line>)
    ensures Payload(Reassembled(ls)) == Payload(ls)
      <==> forall i :: 0 <= i < |ls| && Joined(ls, i) ==> !Indented(ls[i])
  {
    hide Reassembled, Payload, Joined;
    ReassemblyKeepsPayload(ls);
    TrimCosts(ls, Trimmed(ls));
    forall i | 0 <= i < |ls| ensures Trim(ls[i]) == ls[i] <==> !Indented(ls[i]) {
      TrimShrinks(ls[i]);
    }
  }

  lemma {:induction false} WholeLinesPass(ls: seq<Line>)
    requires AllWhole(ls)
    ensures Reassembled(ls) == ls
    decreases |ls|
  {
    if ls != [] {
      assert ls == [ls[0]] + ls[1..];
      assert Whole(ls[0]) && forall i :: 0 <= i < |ls[1..]| ==> ls[1..][i] == ls[i + 1];
      hide Reassembled;
      AloneBlock(ls[0], ls[1..]);
      WholeLinesPass(ls[1..]);
    }
    NothingLeft();
  }

  /** Input is left alone exactly when it holds no partial record; so a second pass changes nothing. */
  lemma FixedIffWhole(ls: seq<Line>)
    ensures Reassembled(ls) == ls <==> AllWhole(ls)
    ensures Reassembled(Reassembled(ls)) == Reassembled(ls)
  {
    hide *;
    ReassemblyKeepsPayload(ls);
    if AllWhole(ls) {
      WholeLinesPass(ls);
    }
    WholeLinesPass(Reassembled(ls));
  }
}
