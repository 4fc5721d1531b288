/** What the .env editor does to the text of a file: which lines stay, and when a second
    application of the same update changes anything. */
module EnvRewrites {
  import opened Common
  import opened EnvFile
  import opened EnvUpdate
  import opened EnvLines
  import opened EnvLaws

  // ----- lines inserted between lines -----

  /** Lines of a text, and the lines something inserts right after them. */
  datatype Segment = Segment(own: seq<string>, extra: seq<string>)

  function Plainly(segs: seq<Segment>): seq<string> {
    if segs == [] then [] else segs[0].own + Plainly(segs[1..])
  }

  function Grown(segs: seq<Segment>): seq<string> {
    if segs == [] then [] else segs[0].own + segs[0].extra + Grown(segs[1..])
  }

  predicate AllBlank(lines: seq<string>) {
    forall i :: 0 <= i < |lines| ==> lines[i] == ""
  }

  /** Everything inserted is blank, and blank lines are inserted only where nothing but
      blank lines follows. */
  predicate Harmless(segs: seq<Segment>) {
    segs == [] ||
    (AllBlank(segs[0].extra) && (segs[0].extra == [] || AllBlank(Plainly(segs[1..]))) && Harmless(segs[1..]))
  }

  lemma {:induction false} CoreOfBlank(lines: seq<string>)
    ensures AllBlank(lines) <==> Core(lines) == []
    decreases |lines|
  {
    if lines != [] && lines[|lines| - 1] == "" {
      CoreOfBlank(lines[..|lines| - 1]);
    }
  }

  lemma {:induction false} CoreConcat(a: seq<string>, b: seq<string>)
    ensures Core(a + b) == if AllBlank(b) then Core(a) else a + Core(b)
    decreases |b|
  {
    if b == [] {
      assert a + b == a;
    } else {
      var front, last := b[..|b| - 1], b[|b| - 1];
      assert (a + b)[..|a + b| - 1] == a + front && (a + b)[|a + b| - 1] == last;
      if last == "" {
        CoreConcat(a, front);
        assert AllBlank(b) <==> AllBlank(front);
      }
    }
  }

  lemma CoreIsShorter(lines: seq<string>)
    ensures |Core(lines)| <= |lines|
  {
  }

  lemma {:induction false} GrownBlank(segs: seq<Segment>)
    ensures AllBlank(Grown(segs)) ==> AllBlank(Plainly(segs))
    decreases |segs|
  {
    if segs != [] {
      var own, extra, rest := segs[0].own, segs[0].extra, segs[1..];
      GrownBlank(rest);
      BlankConcat(own + extra, Grown(rest));
      BlankConcat(own, extra);
      BlankConcat(own, Plainly(rest));
    }
  }

  lemma BlankConcat(a: seq<string>, b: seq<string>)
    ensures AllBlank(a + b) <==> AllBlank(a) && AllBlank(b)
  {
    if AllBlank(a + b) {
      forall i | 0 <= i < |a| ensures a[i] == "" {
        assert (a + b)[i] == a[i];
      }
      forall i | 0 <= i < |b| ensures b[i] == "" {
        assert (a + b)[|a| + i] == b[i];
      }
    }
  }

  lemma {:induction false} GrownIsLonger(segs: seq<Segment>)
    ensures |Core(Grown(segs))| >= |Core(Plainly(segs))|
    decreases |segs|
  {
    hide Core, AllBlank;
    if segs != [] {
      var own, extra, rest := segs[0].own, segs[0].extra, segs[1..];
      GrownIsLonger(rest);
      GrownBlank(rest);
      assert own + extra + Grown(rest) == own + (extra + Grown(rest));
      CoreConcat(own, extra + Grown(rest));
      CoreConcat(extra, Grown(rest));
      CoreConcat(own, Plainly(rest));
      BlankConcat(extra, Grown(rest));
      CoreIsShorter(own);
    }
  }

  lemma {:induction false} HarmlessWhenBlank(segs: seq<Segment>)
    requires AllBlank(Plainly(segs))
    ensures Harmless(segs) <==> AllBlank(Grown(segs))
    decreases |segs|
  {
    if segs != [] {
      var own, extra, rest := segs[0].own, segs[0].extra, segs[1..];
      BlankConcat(own, Plainly(rest));
      BlankConcat(own + extra, Grown(rest));
      BlankConcat(own, extra);
      HarmlessWhenBlank(rest);
    }
  }

  /** Insertions leave a text as it was, up to blank lines at its end, exactly when
      they are harmless. */
  lemma {:induction false} InsertionLaw(segs: seq<Segment>)
    ensures Core(Grown(segs)) == Core(Plainly(segs)) <==> Harmless(segs)
    decreases |segs|
  {
    if segs != [] {
      var own, extra, rest := segs[0].own, segs[0].extra, segs[1..];
      InsertionLaw(rest);
      GrownBlank(rest);
      GrownIsLonger(rest);
      assert own + extra + Grown(rest) == own + (extra + Grown(rest));
      CoreConcat(own, extra + Grown(rest));
      CoreConcat(extra, Grown(rest));
      CoreConcat(own, Plainly(rest));
      BlankConcat(extra, Grown(rest));
      CoreOfBlank(extra + Grown(rest));
      CoreIsShorter(own);
      hide Core, AllBlank;
      if AllBlank(Plainly(rest)) {
        HarmlessWhenBlank(rest);
        InsertAtEnd(own, extra, rest);
      } else {
        InsertInside(own, extra, rest);
      }
    }
  }

  lemma InsertAtEnd(own: seq<string>, extra: seq<string>, rest: seq<Segment>)
    requires Core(own + (extra + Grown(rest))) == if AllBlank(extra + Grown(rest)) then Core(own) else own + Core(extra + Grown(rest))
    requires |Core(own)| <= |own| && (AllBlank(extra + Grown(rest)) <==> Core(extra + Grown(rest)) == [])
    ensures Core(own + (extra + Grown(rest))) == Core(own) <==> AllBlank(extra + Grown(rest))
  {
    hide Core, AllBlank, Grown;
    if !AllBlank(extra + Grown(rest)) {
      assert |own + Core(extra + Grown(rest))| > |own|;
    }
  }

  lemma InsertInside(own: seq<string>, extra: seq<string>, rest: seq<Segment>)
    requires !AllBlank(Grown(rest)) && !AllBlank(extra + Grown(rest)) && !AllBlank(Plainly(rest))
    requires Core(extra + Grown(rest)) == extra + Core(Grown(rest))
    requires |Core(Grown(rest))| >= |Core(Plainly(rest))|
    ensures own + Core(extra + Grown(rest)) == own + Core(Plainly(rest)) <==> extra == [] && Core(Grown(rest)) == Core(Plainly(rest))
  {
    hide Core, AllBlank, Grown, Plainly;
    var a, b := Core(extra + Grown(rest)), Core(Plainly(rest));
    assert (own + a)[|own|..] == a && (own + b)[|own|..] == b;
    if a == b {
      assert |extra| + |Core(Grown(rest))| == |b|;
      assert extra == [];
      assert a == Core(Grown(rest));
    }
    if extra == [] {
      assert extra + Core(Grown(rest)) == Core(Grown(rest));
    }
  }

  lemma {:induction false} SegmentsAppend(segs: seq<Segment>, s: Segment)
    ensures Plainly(segs + [s]) == Plainly(segs) + s.own
    ensures Grown(segs + [s]) == Grown(segs) + (s.own + s.extra)
    decreases |segs|
  {
    var more := segs + [s];
    if segs == [] {
      assert more == [s] && [s][1..] == [];
      NoSegments();
      assert Plainly([s]) == s.own + [] && Grown([s]) == s.own + s.extra + [];
    } else {
      assert more[1..] == segs[1..] + [s] && more[0] == segs[0];
      SegmentsAppend(segs[1..], s);
    }
  }

  // ----- untouched lines stay, in order -----

  /** The lines the update does not concern. */
  function UntouchedLine(line: string, u: Updates): seq<string> {
    var k := CutKey(line);
    if k.Some? && Touches(u, k.value) then [] else [line]
  }

  function Untouched(lines: seq<string>, u: Updates): seq<string>
    decreases |lines|
  {
    if lines == [] then [] else Untouched(lines[..|lines| - 1], u) + UntouchedLine(lines[|lines| - 1], u)
  }

  lemma {:induction false} UntouchedAppend(a: seq<string>, b: seq<string>, u: Updates)
    ensures Untouched(a + b, u) == Untouched(a, u) + Untouched(b, u)
    decreases |b|
  {
    hide UntouchedLine;
    if b == [] {
      assert a + b == a;
    } else {
      var front, last := b[..|b| - 1], b[|b| - 1];
      UntouchedAppend(a, front, u);
      assert (a + b)[..|a + b| - 1] == a + front && (a + b)[|a + b| - 1] == last;
      assert Untouched(a, u) + Untouched(front, u) + UntouchedLine(last, u) == Untouched(a, u) + (Untouched(front, u) + UntouchedLine(last, u));
    }
  }

  lemma UntouchedOfOne(x: string, u: Updates)
    ensures Untouched([x], u) == UntouchedLine(x, u)
  {
    hide UntouchedLine;
    assert [x][..0] == [];
  }

  /** A written assignment is filed under its own key, which is touched. */
  lemma UntouchedOfAssignment(k: string, v: string, u: Updates)
    requires IsKey(k) && Touches(u, k)
    ensures Untouched([Assignment(k, v)], u) == []
  {
    hide CutKey, Assignment;
    AssignmentIsRead(k, v);
    UntouchedOfOne(Assignment(k, v), u);
  }

  lemma UntouchedOfEdit(line: string, u: Updates, known: seq<string>)
    requires Proper(u, known) && OneLine(line)
    ensures Untouched(Heads(EditedLine(line, u)), u) == Untouched([line], u)
  {
    hide CutKey, Assignment, Split;
    UntouchedOfOne(line, u);
    OneLinePiece(line);
    HeadsOfOne(line);
    HeadsOfNothing();
    var k := CutKey(line);
    if k.Some? && Sets(u, k.value) {
      UntouchedOfHead(k.value, u[k.value].value, u);
    }
  }

  lemma UntouchedOfHead(k: string, v: string, u: Updates)
    requires IsKey(k) && Touches(u, k)
    ensures Untouched(Heads([Assignment(k, v)]), u) == []
  {
    hide Assignment, Untouched, Split;
    AssignmentLines(k, v);
    HeadsOfOne(Assignment(k, v));
    UntouchedOfAssignment(k, First(v), u);
  }

  lemma {:induction false} UntouchedOfEdited(lines: seq<string>, u: Updates, known: seq<string>)
    requires Proper(u, known) && AllOneLine(lines)
    ensures Untouched(Heads(EditedLines(lines, u)), u) == Untouched(lines, u)
    decreases |lines|
  {
    hide EditedLine, Proper, Untouched, Heads, OneLine;
    if lines == [] {
      HeadsOfNothing();
    } else {
      var front, last := lines[..|lines| - 1], lines[|lines| - 1];
      UntouchedOfEdited(front, u, known);
      HeadsAppend(EditedLines(front, u), EditedLine(last, u));
      UntouchedAppend(Heads(EditedLines(front, u)), Heads(EditedLine(last, u)), u);
      UntouchedOfEdit(last, u, known);
      UntouchedAppend(front, [last], u);
      assert lines == front + [last];
    }
  }

  lemma UntouchedOfNothing(u: Updates)
    ensures Untouched([], u) == []
  {
  }

  lemma {:induction false} UntouchedOfAdditions(known: seq<string>, u: Updates, all: seq<string>, seen: set<string>)
    requires Proper(u, all)
    ensures Untouched(Heads(Additions(known, u, seen)), u) == []
    decreases |known|
  {
    hide CutKey, Assignment, Untouched, Heads;
    if known == [] {
      HeadsOfNothing();
      UntouchedOfNothing(u);
    } else {
      var k := known[|known| - 1];
      UntouchedOfAdditions(known[..|known| - 1], u, all, seen);
      if Sets(u, k) && k !in seen {
        var line := Assignment(k, u[k].value);
        UntouchedOfHead(k, u[k].value, u);
        HeadsAppend(Additions(known[..|known| - 1], u, seen), [line]);
        UntouchedAppend(Heads(Additions(known[..|known| - 1], u, seen)), Heads([line]), u);
      } else {
        assert Additions(known, u, seen) == Additions(known[..|known| - 1], u, seen);
      }
    }
  }

  /** Among the first lines of what is kept, the untouched ones are those of the file,
      in their order. */
  lemma UntouchedLinesStay(lines: seq<string>, u: Updates, known: seq<string>)
    requires Proper(u, known) && AllOneLine(lines)
    ensures Untouched(Heads(KeptLines(lines, u, known)), u) == Untouched(lines, u)
  {
    hide EditedLines, Additions, SeenKeys, Untouched, Heads, OneLine;
    UntouchedOfEdited(lines, u, known);
    UntouchedOfAdditions(known, u, known, SeenKeys(lines, u));
    HeadsAppend(EditedLines(lines, u), Additions(known, u, SeenKeys(lines, u)));
    UntouchedAppend(Heads(EditedLines(lines, u)), Heads(Additions(known, u, SeenKeys(lines, u))), u);
  }

  lemma {:induction false} CoreOfUntouched(lines: seq<string>, u: Updates)
    ensures Core(Untouched(Core(lines), u)) == Core(Untouched(lines, u))
    decreases |lines|
  {
    hide CutKey, Touches;
    if lines != [] && lines[|lines| - 1] == "" {
      EmptyLineReadsNothing();
      CoreOfUntouched(lines[..|lines| - 1], u);
      CoreAppendEmpty(Untouched(lines[..|lines| - 1], u));
    }
  }

  /** Each kept piece's untouched first line, with the untouched lines its value
      continues on. */
  function UntouchedSegments(pieces: seq<string>, u: Updates): seq<Segment>
    decreases |pieces|
  {
    if pieces == [] then [] else
      var x := pieces[|pieces| - 1];
      UntouchedSegments(pieces[..|pieces| - 1], u) + [Segment(Untouched([First(x)], u), Untouched(Cont(x), u))]
  }

  lemma {:induction false} UntouchedAreSegments(pieces: seq<string>, u: Updates)
    ensures Untouched(Heads(pieces), u) == Plainly(UntouchedSegments(pieces, u))
    ensures Untouched(Spread(pieces), u) == Grown(UntouchedSegments(pieces, u))
    decreases |pieces|
  {
    hide Untouched, Split, First, Cont, Plainly, Grown;
    if pieces == [] {
      UntouchedOfNothing(u);
      NoSegments();
    } else {
      var front, x := pieces[..|pieces| - 1], pieces[|pieces| - 1];
      UntouchedAreSegments(front, u);
      UntouchedAppend(Heads(front), [First(x)], u);
      UntouchedAppend(Spread(front), Split(x), u);
      SpreadOfOne(x);
      UntouchedAppend([First(x)], Cont(x), u);
      SegmentsAppend(UntouchedSegments(front, u), Segment(Untouched([First(x)], u), Untouched(Cont(x), u)));
    }
  }

  lemma NoSegments()
    ensures Plainly([]) == [] && Grown([]) == []
  {
  }

  /** Comments, unknown keys and untouched keys are the same lines in the same order in
      the written file, up to blank lines at its end, exactly when the values set
      continue on no such line except harmless blank ones. */
  lemma UntouchedBytesStayIff(raw: string, u: Updates, known: seq<string>)
    requires Proper(u, known)
    ensures Core(Untouched(Split(Updated(raw, u, known)), u)) == Core(Untouched(Split(raw), u)) <==>
      Harmless(UntouchedSegments(KeptLines(Split(raw), u, known), u))
  {
    hide Split, Core, Untouched, KeptLines, Content, Spread, Heads, Harmless, Plainly, Grown, UntouchedSegments, OneLine;
    var kept := KeptLines(Split(raw), u, known);
    WrittenLines(kept);
    CoreOfUntouched(Split(Content(kept)), u);
    CoreOfUntouched(Spread(kept), u);
    UntouchedLinesStay(Split(raw), u, known);
    UntouchedAreSegments(kept, u);
    InsertionLaw(UntouchedSegments(kept, u));
  }

  // ----- a second update -----

  lemma {:induction false} SeenAppend(a: seq<string>, b: seq<string>, u: Updates)
    ensures SeenKeys(a + b, u) == SeenKeys(a, u) + SeenKeys(b, u)
    decreases |b|
  {
    hide CutKey;
    if b == [] {
      assert a + b == a;
    } else {
      SeenAppend(a, b[..|b| - 1], u);
      assert (a + b)[..|a + b| - 1] == a + b[..|b| - 1];
    }
  }

  lemma SeenOfOne(x: string, u: Updates)
    ensures SeenKeys([x], u) == if CutKey(x).Some? && CutKey(x).value in u then {CutKey(x).value} else {}
  {
    hide CutKey;
    assert [x][..0] == [];
  }

  lemma {:induction false} SeenOfCore(lines: seq<string>, u: Updates)
    ensures SeenKeys(Core(lines), u) == SeenKeys(lines, u)
    decreases |lines|
  {
    hide CutKey;
    if lines != [] && lines[|lines| - 1] == "" {
      EmptyLineReadsNothing();
      SeenOfCore(lines[..|lines| - 1], u);
    }
  }

  lemma {:induction false} SeenStaysSeen(lines: seq<string>, u: Updates, known: seq<string>, k: string)
    requires Proper(u, known) && Sets(u, k) && k in SeenKeys(lines, u)
    ensures k in SeenKeys(EditedLines(lines, u), u)
    decreases |lines|
  {
    var last := lines[|lines| - 1];
    if CutKey(last) == Some(k) {
      AssignmentIsRead(k, u[k].value);
      SeenOfOne(Assignment(k, u[k].value), u);
    } else {
      SeenStaysSeen(lines[..|lines| - 1], u, known, k);
    }
    hide CutKey, Assignment, Proper;
    SeenAppend(EditedLines(lines[..|lines| - 1], u), EditedLine(last, u), u);
  }

  lemma {:induction false} AddedIsSeen(known: seq<string>, u: Updates, all: seq<string>, seen: set<string>, k: string)
    requires Proper(u, all) && Sets(u, k) && k in known && k !in seen
    ensures k in SeenKeys(Additions(known, u, seen), u)
    decreases |known|
  {
    var j := known[|known| - 1];
    var front := known[..|known| - 1];
    assert known == front + [j];
    if j == k {
      AssignmentIsRead(k, u[k].value);
      SeenOfOne(Assignment(k, u[k].value), u);
      hide CutKey, Assignment, SeenKeys;
      SeenAppend(Additions(front, u, seen), [Assignment(k, u[k].value)], u);
    } else {
      AddedIsSeen(front, u, all, seen, k);
      if Sets(u, j) && j !in seen {
        hide CutKey, Assignment, SeenKeys;
        SeenAppend(Additions(front, u, seen), [Assignment(j, u[j].value)], u);
      } else {
        assert Additions(known, u, seen) == Additions(front, u, seen);
      }
    }
  }

  /** After an update every set key has a line of its own. */
  lemma SetKeysAreSeen(lines: seq<string>, u: Updates, known: seq<string>, k: string)
    requires Proper(u, known) && Sets(u, k)
    ensures k in SeenKeys(KeptLines(lines, u, known), u)
  {
    hide EditedLines, Additions, SeenKeys;
    var seen := SeenKeys(lines, u);
    SeenAppend(EditedLines(lines, u), Additions(known, u, seen), u);
    if k in seen {
      SeenStaysSeen(lines, u, known, k);
    } else {
      AddedIsSeen(known, u, known, seen, k);
    }
  }

  lemma {:induction false} NothingToAdd(known: seq<string>, u: Updates, seen: set<string>)
    requires forall k :: Sets(u, k) ==> k in seen
    ensures Additions(known, u, seen) == []
    decreases |known|
  {
    hide Sets;
    if known != [] {
      NothingToAdd(known[..|known| - 1], u, seen);
    }
  }

  lemma {:induction false} EditedAppend(a: seq<string>, b: seq<string>, u: Updates)
    ensures EditedLines(a + b, u) == EditedLines(a, u) + EditedLines(b, u)
    decreases |b|
  {
    hide EditedLine;
    if b == [] {
      assert a + b == a;
    } else {
      var front, last := b[..|b| - 1], b[|b| - 1];
      EditedAppend(a, front, u);
      assert (a + b)[..|a + b| - 1] == a + front && (a + b)[|a + b| - 1] == last;
      assert EditedLines(a, u) + EditedLines(front, u) + EditedLine(last, u) == EditedLines(a, u) + (EditedLines(front, u) + EditedLine(last, u));
    }
  }

  lemma EditedOfOne(x: string, u: Updates)
    ensures EditedLines([x], u) == EditedLine(x, u)
  {
    hide EditedLine;
    assert [x][..0] == [];
    assert EditedLines([], u) == [];
  }

  lemma BlankIsSettled(u: Updates)
    ensures EditedLine("", u) == [""]
  {
    hide CutKey;
    EmptyLineReadsNothing();
  }

  /** Editing the first line of a kept piece gives the piece again. */
  lemma HeadIsRestored(x: string, u: Updates)
    requires PieceOf(x, u)
    ensures EditedLine(First(x), u) == [x]
  {
    hide CutKey, Assignment, Split;
    if OneLine(x) && EditedLine(x, u) == [x] {
      OneLinePiece(x);
    } else {
      var j :| Sets(u, j) && IsKey(j) && x == Assignment(j, u[j].value);
      AssignmentLines(j, u[j].value);
      AssignmentIsRead(j, First(u[j].value));
    }
  }

  /** Editing all lines of a kept piece gives its lines again, and then whatever its
      continuation lines are edited to. */
  lemma PieceAgain(x: string, u: Updates)
    requires PieceOf(x, u)
    ensures Spread(EditedLines(Split(x), u)) == Split(x) + Spread(EditedLines(Cont(x), u))
  {
    hide EditedLine, EditedLines, Split, First, Cont, Spread, PieceOf;
    SpreadOfOne(x);
    EditedAppend([First(x)], Cont(x), u);
    EditedOfOne(First(x), u);
    HeadIsRestored(x, u);
    SpreadAppend([x], EditedLines(Cont(x), u));
  }

  /** Each kept piece's lines, with what a second update inserts after them. */
  function GrowthSegments(pieces: seq<string>, u: Updates): seq<Segment>
    decreases |pieces|
  {
    if pieces == [] then [] else
      var x := pieces[|pieces| - 1];
      GrowthSegments(pieces[..|pieces| - 1], u) + [Segment(Split(x), Spread(EditedLines(Cont(x), u)))]
  }

  lemma {:induction false} EditedAgain(pieces: seq<string>, u: Updates)
    requires AllPieces(pieces, u)
    ensures Spread(pieces) == Plainly(GrowthSegments(pieces, u))
    ensures Spread(EditedLines(Spread(pieces), u)) == Grown(GrowthSegments(pieces, u))
    decreases |pieces|
  {
    hide Split, Cont, EditedLine, PieceOf, Plainly, Grown;
    if pieces == [] {
      NoSegments();
      assert EditedLines([], u) == [];
    } else {
      var front, x := pieces[..|pieces| - 1], pieces[|pieces| - 1];
      EditedAgain(front, u);
      PieceAgain(x, u);
      EditedAppend(Spread(front), Split(x), u);
      SpreadAppend(EditedLines(Spread(front), u), EditedLines(Split(x), u));
      hide Spread, EditedLines;
      SegmentsAppend(GrowthSegments(front, u), Segment(Split(x), Spread(EditedLines(Cont(x), u))));
    }
  }

  lemma {:induction false} CoreOfEdited(lines: seq<string>, u: Updates)
    ensures Core(Spread(EditedLines(Core(lines), u))) == Core(Spread(EditedLines(lines, u)))
    decreases |lines|
  {
    hide EditedLine, Split;
    if lines != [] && lines[|lines| - 1] == "" {
      var front := lines[..|lines| - 1];
      BlankIsSettled(u);
      CoreOfEdited(front, u);
      SplitOneLine("");
      SpreadOfOne("");
      hide Spread;
      SpreadAppend(EditedLines(front, u), [""]);
      CoreAppendEmpty(Spread(EditedLines(front, u)));
    }
  }

  lemma {:induction false} SeenOfSpread(pieces: seq<string>, u: Updates, k: string)
    requires AllPieces(pieces, u) && k in SeenKeys(pieces, u)
    ensures k in SeenKeys(Spread(pieces), u)
    decreases |pieces|
  {
    hide Split, CutKey, EditedLine, PieceOf;
    var front, x := pieces[..|pieces| - 1], pieces[|pieces| - 1];
    SeenAppend(Spread(front), Split(x), u);
    if k in SeenKeys(front, u) {
      SeenOfSpread(front, u, k);
    } else {
      SpreadOfOne(x);
      hide Cont, First, Spread;
      SeenAppend([First(x)], Cont(x), u);
      SeenOfOne(First(x), u);
      SameKey(x, u);
    }
  }

  lemma SameKey(x: string, u: Updates)
    requires PieceOf(x, u)
    ensures CutKey(First(x)) == CutKey(x)
  {
    hide CutKey, Assignment, Split, EditedLine;
    if OneLine(x) {
      OneLinePiece(x);
    } else {
      var j :| Sets(u, j) && IsKey(j) && x == Assignment(j, u[j].value);
      AssignmentLines(j, u[j].value);
      AssignmentIsRead(j, First(u[j].value));
      AssignmentIsRead(j, u[j].value);
    }
  }

  /** After an update nothing is left to add. */
  lemma NothingNew(lines: seq<string>, again: seq<string>, u: Updates, known: seq<string>)
    requires Proper(u, known) && AllOneLine(lines)
    requires Core(again) == Core(Spread(KeptLines(lines, u, known)))
    ensures KeptLines(again, u, known) == EditedLines(again, u)
  {
    hide Core, EditedLines, Additions, SeenKeys, Spread, Sets, AllPieces, OneLine;
    var kept := KeptLines(lines, u, known);
    KeptArePieces(lines, u, known);
    hide Proper;
    forall k | Sets(u, k) ensures k in SeenKeys(again, u) {
      SetKeysAreSeen(lines, u, known, k);
      SeenOfSpread(kept, u, k);
      SeenOfCore(Spread(kept), u);
      SeenOfCore(again, u);
    }
    NothingToAdd(known, u, SeenKeys(again, u));
  }

  /** Applying the same update twice is applying it once exactly when every line the
      continuation lines of its values are edited to is a harmless blank. */
  lemma UpdateIsIdempotentIff(raw: string, u: Updates, known: seq<string>)
    requires Proper(u, known)
    ensures Updated(Updated(raw, u, known), u, known) == Updated(raw, u, known) <==>
      Harmless(GrowthSegments(KeptLines(Split(raw), u, known), u))
  {
    hide Split, Content, Core, EditedLines, KeptLines, Proper, Spread, Harmless, GrowthSegments, Plainly, Grown, AllPieces, OneLine;
    var kept := KeptLines(Split(raw), u, known);
    var again := Split(Content(kept));
    WrittenLines(kept);
    NothingNew(Split(raw), again, u, known);
    SameContentIff(EditedLines(again, u), kept);
    CoreOfEdited(again, u);
    CoreOfEdited(Spread(kept), u);
    KeptArePieces(Split(raw), u, known);
    EditedAgain(kept, u);
    InsertionLaw(GrowthSegments(kept, u));
  }

  lemma {:induction false} NoExtraIsHarmless(segs: seq<Segment>)
    requires forall i :: 0 <= i < |segs| ==> segs[i].extra == []
    ensures Harmless(segs)
    decreases |segs|
  {
    if segs != [] {
      NoExtraIsHarmless(segs[1..]);
    }
  }

  lemma {:induction false} NoGrowth(pieces: seq<string>, u: Updates)
    requires AllPieces(pieces, u) && forall k :: Sets(u, k) ==> OneLine(u[k].value)
    ensures forall i :: 0 <= i < |GrowthSegments(pieces, u)| ==> GrowthSegments(pieces, u)[i].extra == []
    decreases |pieces|
  {
    hide Split, OneLine, PieceOf, Cont;
    if pieces != [] {
      var x := pieces[|pieces| - 1];
      NoGrowth(pieces[..|pieces| - 1], u);
      PieceCont(x, u);
      if Cont(x) != [] {
        var j :| Sets(u, j) && Cont(x) == Cont(u[j].value);
        OneLinePiece(u[j].value);
      }
      assert EditedLines([], u) == [] && Spread([]) == [];
    }
  }

  /** So an update whose values are each on one line is idempotent on every file. */
  lemma OneLineUpdateIsIdempotent(raw: string, u: Updates, known: seq<string>)
    requires Proper(u, known) && forall k :: Sets(u, k) ==> OneLine(u[k].value)
    ensures Updated(Updated(raw, u, known), u, known) == Updated(raw, u, known)
  {
    hide Split, KeptLines, Proper, Harmless, GrowthSegments, AllPieces, OneLine, Updated;
    var kept := KeptLines(Split(raw), u, known);
    KeptArePieces(Split(raw), u, known);
    NoGrowth(kept, u);
    NoExtraIsHarmless(GrowthSegments(kept, u));
    UpdateIsIdempotentIff(raw, u, known);
  }

  /** And the update that sets another key by a second line is not: applied again to an
      empty file's result, it adds that line once more. */
  lemma NewlineIsNotIdempotent(u: Updates, k: string, v: string, j: string, w: string)
    requires u == map[k := Some(WithLine(v, j, w))] && IsKey(k) && IsKey(j) && k != j && OneLine(v) && OneLine(w)
    requires Proper(u, [k])
    ensures Updated(Updated("", u, [k]), u, [k]) != Updated("", u, [k])
  {
    hide Split, Updated, Proper, Harmless, GrowthSegments, Assignment, Cont, First, IsKey, Spread, EditedLines, KeptLines;
    var x := Assignment(k, WithLine(v, j, w));
    EmptyFile(u, [k]);
    OneAddition(u, k);
    AssignmentLines(k, WithLine(v, j, w));
    ContOfWithLine(v, j, w);
    LineStaysLine(u, k, j, w);
    assert KeptLines([""], u, [k]) == [""] + [x];
    TwoPieces(x, u);
    UpdateIsIdempotentIff("", u, [k]);
  }

  lemma OneAddition(u: Updates, k: string)
    requires Sets(u, k)
    ensures Additions([k], u, {}) == [Assignment(k, u[k].value)]
  {
    hide Assignment;
    assert [k][..0] == [];
    assert Additions([], u, {}) == [];
  }

  lemma LineStaysLine(u: Updates, k: string, j: string, w: string)
    requires IsKey(j) && OneLine(w) && u.Keys == {k} && k != j
    ensures Spread(EditedLines([Assignment(j, w)], u)) == [Assignment(j, w)]
    ensures !AllBlank([Assignment(j, w)])
  {
    var x := Assignment(j, w);
    assert x[|j|] == '=';
    assert [x][0] == x;
    KeyOfOther(u, k, j, w);
    AssignmentOnOneLine(j, w);
    hide Split, EditedLines, EditedLine, Spread, Assignment, IsKey, OneLine, First, Cont, AllBlank;
    EditedOfOne(x, u);
    SpreadOfOne(x);
  }

  lemma AssignmentOnOneLine(j: string, w: string)
    requires IsKey(j) && OneLine(w)
    ensures Split(Assignment(j, w)) == [Assignment(j, w)]
  {
    hide Assignment, Split, IsKey, OneLine, First, Cont;
    OneLinePiece(w);
    AssignmentLines(j, w);
    OneLinePiece(Assignment(j, w));
  }

  lemma KeyOfOther(u: Updates, k: string, j: string, w: string)
    requires IsKey(j) && u.Keys == {k} && k != j
    ensures EditedLine(Assignment(j, w), u) == [Assignment(j, w)]
  {
    hide CutKey, Assignment, IsKey, ParseLine, ReadBack;
    AssignmentIsRead(j, w);
    assert j !in u.Keys;
    assert !Touches(u, j);
  }

  lemma TwoPieces(x: string, u: Updates)
    requires Spread(EditedLines(Cont(x), u)) != [] && !AllBlank(Spread(EditedLines(Cont(x), u)))
    ensures !Harmless(GrowthSegments([""] + [x], u))
  {
    hide Split, Cont, EditedLines, Spread, AllBlank;
    var pieces := [""] + [x];
    assert pieces[..1] == [""] && [""][..0] == [];
    var segs := GrowthSegments(pieces, u);
    assert |GrowthSegments([""], u)| == 1;
    assert segs[1..] == [Segment(Split(x), Spread(EditedLines(Cont(x), u)))];
  }
}
