/** What the .env reader finds after the .env editor, for every file, every update and
    every key. */
module EnvLaws {
  import opened Common
  import opened EnvFile
  import opened EnvUpdate
  import opened EnvLines

  /** What the callers of the editor pass: managed keys, all of them known. Values are
      any text; one with a newline in it is written as several lines. */
  ghost predicate Proper(u: Updates, known: seq<string>) {
    && (forall k :: Touches(u, k) ==> IsKey(k))
    && (forall k :: k in u ==> k in known)
  }

  lemma EmptyLineReadsNothing()
    ensures ParseLine("").None? && CutKey("").None?
  {
  }

  lemma {:induction false} ParseIgnoresTrailingBlanks(lines: seq<string>)
    ensures ParseLines(Core(lines)) == ParseLines(lines)
    decreases |lines|
  {
    hide ParseLine;
    if lines != [] && lines[|lines| - 1] == "" {
      EmptyLineReadsNothing();
      ParseIgnoresTrailingBlanks(lines[..|lines| - 1]);
    }
  }

  /** Reading the written file is reading the lines of the kept pieces. */
  lemma ReadOfUpdated(raw: string, u: Updates, known: seq<string>)
    ensures ReadRaw(Updated(raw, u, known)) == ParseLines(Spread(KeptLines(Split(raw), u, known)))
  {
    hide Split, ParseLines, KeptLines, Core, Content, Spread;
    var kept := KeptLines(Split(raw), u, known);
    WrittenLines(kept);
    ParseIgnoresTrailingBlanks(Split(Content(kept)));
    ParseIgnoresTrailingBlanks(Spread(kept));
  }

  // ----- the value of one key -----

  ghost predicate Reads(line: string, k: string) {
    ParseLine(line).Some? && ParseLine(line).value.key == k
  }

  ghost predicate Files(line: string, k: string) {
    CutKey(line) == Some(k)
  }

  /** The value the last line read under k declares. */
  ghost function Value(lines: seq<string>, k: string): Option<string>
    decreases |lines|
  {
    if lines == [] then None
    else if Reads(lines[|lines| - 1], k) then Some(ParseLine(lines[|lines| - 1]).value.value)
    else Value(lines[..|lines| - 1], k)
  }

  lemma {:induction false} ValueIsLookup(lines: seq<string>, k: string)
    ensures k in ParseLines(lines) <==> Value(lines, k).Some?
    ensures k in ParseLines(lines) ==> ParseLines(lines)[k] == Value(lines, k).value
    decreases |lines|
  {
    hide ParseLine;
    if lines != [] {
      ValueIsLookup(lines[..|lines| - 1], k);
    }
  }

  lemma {:induction false} ValueAppend(a: seq<string>, b: seq<string>, k: string)
    ensures Value(a + b, k) == if Value(b, k).Some? then Value(b, k) else Value(a, k)
    decreases |b|
  {
    hide Reads;
    if b == [] {
      assert a + b == a;
    } else {
      ValueAppend(a, b[..|b| - 1], k);
      assert (a + b)[..|a + b| - 1] == a + b[..|b| - 1];
    }
  }

  ghost function ValueOfLine(line: string, k: string): Option<string> {
    if Reads(line, k) then Some(ParseLine(line).value.value) else None
  }

  lemma ValueOfOne(line: string, k: string)
    ensures Value([line], k) == ValueOfLine(line, k)
  {
    hide ParseLine;
    assert [line][..0] == [];
  }

  // ----- first lines and continuation lines -----

  /** The first line of each piece. */
  function Heads(pieces: seq<string>): seq<string>
    decreases |pieces|
  {
    if pieces == [] then [] else Heads(pieces[..|pieces| - 1]) + [First(pieces[|pieces| - 1])]
  }

  /** What continuation lines make of key k: the value the last of them reads under k,
      unless the first line of some piece reads k after it. */
  ghost function Injected(pieces: seq<string>, k: string): Option<string>
    decreases |pieces|
  {
    if pieces == [] then None else
      var x := pieces[|pieces| - 1];
      if Value(Cont(x), k).Some? then Value(Cont(x), k)
      else if Reads(First(x), k) then None
      else Injected(pieces[..|pieces| - 1], k)
  }

  lemma {:induction false} HeadsAppend(a: seq<string>, b: seq<string>)
    ensures Heads(a + b) == Heads(a) + Heads(b)
    decreases |b|
  {
    hide First;
    if b == [] {
      assert a + b == a;
    } else {
      var front, last := b[..|b| - 1], b[|b| - 1];
      HeadsAppend(a, front);
      assert (a + b)[..|a + b| - 1] == a + front && (a + b)[|a + b| - 1] == last;
      assert Heads(a) + Heads(front) + [First(last)] == Heads(a) + (Heads(front) + [First(last)]);
    }
  }

  lemma HeadsOfOne(x: string)
    ensures Heads([x]) == [First(x)]
  {
    hide First;
    assert [x][..0] == [];
  }

  lemma ValueOfPiece(x: string, k: string)
    ensures Value(Split(x), k) == if Value(Cont(x), k).Some? then Value(Cont(x), k) else ValueOfLine(First(x), k)
  {
    hide Split, Value, Reads;
    SpreadOfOne(x);
    ValueAppend([First(x)], Cont(x), k);
    ValueOfOne(First(x), k);
  }

  /** The value read under k is a continuation line's, or that of the first lines. */
  lemma {:induction false} ValueOfSpread(pieces: seq<string>, k: string)
    ensures Value(Spread(pieces), k) ==
      if Injected(pieces, k).Some? then Injected(pieces, k) else Value(Heads(pieces), k)
    decreases |pieces|
  {
    hide Split, Cont, First, Value, Reads;
    if pieces == [] {
      ValueOfNothing(k);
    } else {
      var front, x := pieces[..|pieces| - 1], pieces[|pieces| - 1];
      ValueOfSpread(front, k);
      ValueOfPiece(x, k);
      ValueAppend(Spread(front), Split(x), k);
      ValueAppend(Heads(front), [First(x)], k);
      ValueOfOne(First(x), k);
    }
  }

  lemma ValueOfNothing(k: string)
    ensures Value([], k).None?
  {
  }

  // ----- what editing a line does to the value of key k -----

  ghost function ValueOfEdit(line: string, u: Updates, k: string): Option<string> {
    if Touches(u, k) && Files(line, k) then (if Sets(u, k) then Some(ReadBack(First(u[k].value))) else None)
    else ValueOfLine(line, k)
  }

  lemma ValueOfAssignment(j: string, v: string, k: string)
    requires IsKey(j)
    ensures Value(Heads([Assignment(j, v)]), k) == if j == k then Some(ReadBack(First(v))) else None
  {
    hide Assignment, ParseLine, ReadBack, Split;
    AssignmentIsRead(j, First(v));
    AssignmentLines(j, v);
    HeadsOfOne(Assignment(j, v));
    ValueOfOne(Assignment(j, First(v)), k);
  }

  lemma EditedLineValue(line: string, u: Updates, known: seq<string>, k: string)
    requires Proper(u, known) && OneLine(line)
    ensures Value(Heads(EditedLine(line, u)), k) == ValueOfEdit(line, u, k)
  {
    var f := CutKey(line);
    if f.Some? && Touches(u, f.value) {
      FiledLineIsRead(line, f.value);
      ValueOfAssignment(f.value, u[f.value].value, k);
    }
    ValueOfNothing(k);
    OneLinePiece(line);
    HeadsOfOne(line);
    ValueOfOne(line, k);
    hide Assignment, ParseLine, ReadBack, CutKey, Value, First;
  }

  /** The last line read under k. */
  ghost function LastReader(lines: seq<string>, k: string): (r: Option<nat>)
    ensures r.Some? ==> r.value < |lines|
    decreases |lines|
  {
    if lines == [] then None
    else if Reads(lines[|lines| - 1], k) then Some(|lines| - 1)
    else LastReader(lines[..|lines| - 1], k)
  }

  lemma {:induction false} LastReaderIsLast(lines: seq<string>, k: string)
    ensures var r := LastReader(lines, k);
      && (r.None? ==> forall i :: 0 <= i < |lines| ==> !Reads(lines[i], k))
      && (r.Some? ==> Reads(lines[r.value], k) && forall i :: r.value < i < |lines| ==> !Reads(lines[i], k))
    decreases |lines|
  {
    hide Reads;
    if lines != [] {
      LastReaderIsLast(lines[..|lines| - 1], k);
      assert forall i :: 0 <= i < |lines| - 1 ==> lines[..|lines| - 1][i] == lines[i];
    }
  }

  /** The last exporting line read under k: one the editor does not see. */
  ghost predicate Exports(line: string, k: string) {
    Reads(line, k) && !Files(line, k)
  }

  ghost function LastExport(lines: seq<string>, k: string): Option<string>
    decreases |lines|
  {
    if lines == [] then None
    else if Exports(lines[|lines| - 1], k) then Some(ParseLine(lines[|lines| - 1]).value.value)
    else LastExport(lines[..|lines| - 1], k)
  }

  lemma {:induction false} NoExportNoValue(lines: seq<string>, k: string)
    ensures LastExport(lines, k).None? <==> forall i :: 0 <= i < |lines| ==> !Exports(lines[i], k)
    decreases |lines|
  {
    hide Exports;
    if lines != [] {
      NoExportNoValue(lines[..|lines| - 1], k);
      assert forall i :: 0 <= i < |lines| - 1 ==> lines[..|lines| - 1][i] == lines[i];
    }
  }

  lemma {:induction false} UntouchedValue(lines: seq<string>, u: Updates, known: seq<string>, k: string)
    requires Proper(u, known) && AllOneLine(lines) && !Touches(u, k)
    ensures Value(Heads(EditedLines(lines, u)), k) == Value(lines, k)
    decreases |lines|
  {
    if lines != [] {
      hide EditedLine, Reads, Proper, Touches, Heads, OneLine;
      var last := |lines| - 1;
      UntouchedValue(lines[..last], u, known, k);
      EditedLineValue(lines[last], u, known, k);
      HeadsAppend(EditedLines(lines[..last], u), EditedLine(lines[last], u));
      ValueAppend(Heads(EditedLines(lines[..last], u)), Heads(EditedLine(lines[last], u)), k);
    } else {
      assert EditedLines([], u) == [] && Heads([]) == [];
    }
  }

  lemma {:induction false} ClearedValue(lines: seq<string>, u: Updates, known: seq<string>, k: string)
    requires Proper(u, known) && AllOneLine(lines) && Clears(u, k)
    ensures Value(Heads(EditedLines(lines, u)), k) == LastExport(lines, k)
    decreases |lines|
  {
    if lines != [] {
      hide EditedLine, Reads, Files, Proper, Heads, OneLine;
      var last := |lines| - 1;
      ClearedValue(lines[..last], u, known, k);
      EditedLineValue(lines[last], u, known, k);
      HeadsAppend(EditedLines(lines[..last], u), EditedLine(lines[last], u));
      ValueAppend(Heads(EditedLines(lines[..last], u)), Heads(EditedLine(lines[last], u)), k);
    } else {
      assert EditedLines([], u) == [] && Heads([]) == [];
    }
  }

  /** After setting k: the new value where the last reader of k is a line the
      editor filed under k, that line's own value where it is an export. */
  ghost function SetValueOf(lines: seq<string>, k: string, v: string): Option<string> {
    var r := LastReader(lines, k);
    if r.None? then None
    else if Files(lines[r.value], k) then Some(ReadBack(v))
    else ValueOfLine(lines[r.value], k)
  }

  lemma LastReaderLast(lines: seq<string>, k: string)
    requires lines != []
    ensures LastReader(lines, k) ==
      if Reads(lines[|lines| - 1], k) then Some(|lines| - 1) else LastReader(lines[..|lines| - 1], k)
  {
    hide Reads;
  }

  lemma SetValueStep(lines: seq<string>, k: string, v: string)
    requires lines != [] && (Files(lines[|lines| - 1], k) ==> Reads(lines[|lines| - 1], k))
    ensures var last := lines[|lines| - 1];
      SetValueOf(lines, k, v) ==
        if Files(last, k) then Some(ReadBack(v))
        else if Reads(last, k) then ValueOfLine(last, k)
        else SetValueOf(lines[..|lines| - 1], k, v)
  {
    hide Reads, Files, LastReader, ReadBack, ParseLine;
    LastReaderLast(lines, k);
  }

  lemma FiledReads(line: string, u: Updates, known: seq<string>, k: string)
    requires Proper(u, known) && Touches(u, k)
    ensures Files(line, k) ==> Reads(line, k)
  {
    hide ParseLine, CutKey;
    if Files(line, k) {
      FiledLineIsRead(line, k);
    }
  }

  lemma NoLinesToSet(u: Updates, k: string, v: string)
    ensures Value(Heads(EditedLines([], u)), k).None? && SetValueOf([], k, v).None?
  {
    assert EditedLines([], u) == [] && Heads([]) == [];
  }

  lemma {:induction false} SetValue(lines: seq<string>, u: Updates, known: seq<string>, k: string)
    requires Proper(u, known) && AllOneLine(lines) && Sets(u, k)
    ensures Value(Heads(EditedLines(lines, u)), k) == SetValueOf(lines, k, First(u[k].value))
    decreases |lines|
  {
    hide EditedLine, Reads, Files, Proper, SetValueOf, ReadBack, Heads, OneLine, First, Value;
    if lines == [] {
      NoLinesToSet(u, k, First(u[k].value));
    } else {
      var last := |lines| - 1;
      FiledReads(lines[last], u, known, k);
      SetValueStep(lines, k, First(u[k].value));
      SetValue(lines[..last], u, known, k);
      EditedLineValue(lines[last], u, known, k);
      HeadsAppend(EditedLines(lines[..last], u), EditedLine(lines[last], u));
      ValueAppend(Heads(EditedLines(lines[..last], u)), Heads(EditedLine(lines[last], u)), k);
    }
  }

  // ----- the appended lines -----

  lemma {:induction false} AdditionValue(known: seq<string>, u: Updates, all: seq<string>, seen: set<string>, k: string)
    requires Proper(u, all)
    ensures Value(Heads(Additions(known, u, seen)), k) ==
      if Sets(u, k) && k !in seen && k in known then Some(ReadBack(First(u[k].value))) else None
    decreases |known|
  {
    hide Assignment, ReadBack, Value, First, Heads;
    if known == [] {
      HeadsOfNothing();
      ValueOfNothing(k);
    } else {
      var last := |known| - 1;
      var j := known[last];
      AdditionValue(known[..last], u, all, seen, k);
      assert known == known[..last] + [j];
      if Sets(u, j) && j !in seen {
        ValueOfAssignment(j, u[j].value, k);
        HeadsAppend(Additions(known[..last], u, seen), [Assignment(j, u[j].value)]);
        ValueAppend(Heads(Additions(known[..last], u, seen)), Heads([Assignment(j, u[j].value)]), k);
      } else {
        assert Additions(known, u, seen) == Additions(known[..last], u, seen);
      }
    }
  }

  lemma HeadsOfNothing()
    ensures Heads([]) == []
  {
  }

  lemma {:induction false} SeenAreFiled(lines: seq<string>, u: Updates, k: string)
    requires k in u
    ensures k in SeenKeys(lines, u) <==> exists i :: 0 <= i < |lines| && Files(lines[i], k)
    decreases |lines|
  {
    hide CutKey;
    if lines != [] {
      SeenAreFiled(lines[..|lines| - 1], u, k);
      assert forall i :: 0 <= i < |lines| - 1 ==> lines[..|lines| - 1][i] == lines[i];
    }
  }

  // ----- what the file says after an update, key by key -----

  /** A line that names k after "export " comes after every line the editor can
      see for k, and there is such a visible line. */
  ghost predicate Shadowed(lines: seq<string>, k: string) {
    && (exists i :: 0 <= i < |lines| && Files(lines[i], k))
    && LastReader(lines, k).Some? && !Files(lines[LastReader(lines, k).value], k)
  }

  /** What the first lines alone say of k: the text set, unless an export line for k
      shadows the edited line; for a cleared key the value of its last export line;
      for any other key what the file said before. */
  ghost function Expected(lines: seq<string>, u: Updates, k: string): Option<string> {
    if Sets(u, k) then
      (if Shadowed(lines, k) then ValueOfLine(lines[LastReader(lines, k).value], k) else Some(ReadBack(First(u[k].value))))
    else if Clears(u, k) then LastExport(lines, k)
    else Value(lines, k)
  }

  lemma KeptValue(lines: seq<string>, u: Updates, known: seq<string>, k: string)
    requires Proper(u, known)
    ensures
      var added := Sets(u, k) && k !in SeenKeys(lines, u);
      Value(Heads(KeptLines(lines, u, known)), k) ==
        if added then Some(ReadBack(First(u[k].value))) else Value(Heads(EditedLines(lines, u)), k)
  {
    hide EditedLines, SeenKeys, Additions, Value, Heads, First, ReadBack;
    AdditionValue(known, u, known, SeenKeys(lines, u), k);
    HeadsAppend(EditedLines(lines, u), Additions(known, u, SeenKeys(lines, u)));
    ValueAppend(Heads(EditedLines(lines, u)), Heads(Additions(known, u, SeenKeys(lines, u))), k);
  }

  lemma FiledHasReader(lines: seq<string>, u: Updates, known: seq<string>, k: string, i: nat)
    requires Proper(u, known) && Touches(u, k) && i < |lines| && Files(lines[i], k)
    ensures LastReader(lines, k).Some?
  {
    FiledLineIsRead(lines[i], k);
    assert Reads(lines[i], k);
    hide Reads, LastReader;
    LastReaderIsLast(lines, k);
  }

  lemma SetExpected(lines: seq<string>, u: Updates, known: seq<string>, k: string)
    requires Proper(u, known) && AllOneLine(lines) && Sets(u, k)
    ensures Value(Heads(KeptLines(lines, u, known)), k) == Expected(lines, u, k)
  {
    hide EditedLines, SeenKeys, KeptLines, Value, LastReader, ParseLine, ReadBack, Files, Heads, First, OneLine;
    KeptValue(lines, u, known, k);
    SetValue(lines, u, known, k);
    SeenAreFiled(lines, u, k);
    if i :| 0 <= i < |lines| && Files(lines[i], k) {
      FiledHasReader(lines, u, known, k, i);
    }
  }

  lemma HeadsExpected(lines: seq<string>, u: Updates, known: seq<string>, k: string)
    requires Proper(u, known) && AllOneLine(lines)
    ensures Value(Heads(KeptLines(lines, u, known)), k) == Expected(lines, u, k)
  {
    if Sets(u, k) {
      SetExpected(lines, u, known, k);
    } else {
      hide EditedLines, SeenKeys, KeptLines, Value, LastExport, Heads, First, Shadowed, LastReader, ReadBack;
      KeptValue(lines, u, known, k);
      if Clears(u, k) {
        ClearedValue(lines, u, known, k);
      } else {
        UntouchedValue(lines, u, known, k);
      }
    }
  }

  ghost function Lookup(m: map<string, string>, k: string): Option<string> {
    if k in m then Some(m[k]) else None
  }

  /** The exact reading law, for every file, every update and every key: a value a
      continuation line gives the key, or else what the first lines say. */
  lemma ReadAfterUpdate(raw: string, u: Updates, known: seq<string>, k: string)
    requires Proper(u, known)
    ensures
      var injected := Injected(KeptLines(Split(raw), u, known), k);
      Lookup(ReadRaw(Updated(raw, u, known)), k) == if injected.Some? then injected else Expected(Split(raw), u, k)
  {
    hide Split, ParseLines, KeptLines, Value, Updated, Expected, Proper, Heads, Injected, Spread, OneLine;
    var lines := Split(raw);
    var kept := KeptLines(lines, u, known);
    ReadOfUpdated(raw, u, known);
    ValueIsLookup(Spread(kept), k);
    ValueOfSpread(kept, k);
    HeadsExpected(lines, u, known, k);
  }

  lemma ReadBefore(raw: string, k: string)
    ensures Lookup(ReadRaw(raw), k) == Value(Split(raw), k)
  {
    hide Split, ParseLines, Value;
    ValueIsLookup(Split(raw), k);
  }

  // ----- keys the update does not touch -----

  /** An untouched key keeps its value exactly when no continuation line changes what
      is read under it. */
  lemma UntouchedKeepsIff(raw: string, u: Updates, known: seq<string>, k: string)
    requires Proper(u, known) && !Touches(u, k)
    ensures
      var injected := Injected(KeptLines(Split(raw), u, known), k);
      Lookup(ReadRaw(Updated(raw, u, known)), k) == Lookup(ReadRaw(raw), k) <==>
        injected.None? || injected == Lookup(ReadRaw(raw), k)
  {
    hide Split, ReadRaw, KeptLines, Value, Updated, Proper, Injected, LastExport, Shadowed, LastReader, ReadBack, First;
    ReadAfterUpdate(raw, u, known, k);
    ReadBefore(raw, k);
  }

  /** A continuation line of the value set for j reads k. */
  ghost predicate ContinuationReads(u: Updates, j: string, k: string) {
    Sets(u, j) && Value(Cont(u[j].value), k).Some?
  }

  /** A kept piece is an original line or the assignment of a set key. */
  ghost predicate PieceOf(x: string, u: Updates) {
    || (OneLine(x) && EditedLine(x, u) == [x])
    || (exists j :: Sets(u, j) && IsKey(j) && x == Assignment(j, u[j].value))
  }

  ghost predicate AllPieces(pieces: seq<string>, u: Updates) {
    forall i :: 0 <= i < |pieces| ==> PieceOf(pieces[i], u)
  }

  lemma EditIsPiece(line: string, u: Updates, known: seq<string>)
    requires Proper(u, known) && OneLine(line)
    ensures AllPieces(EditedLine(line, u), u)
  {
    hide CutKey, Assignment;
    var f := CutKey(line);
    if f.Some? && Sets(u, f.value) {
      assert PieceOf(Assignment(f.value, u[f.value].value), u);
    }
  }

  lemma {:induction false} EditedArePieces(lines: seq<string>, u: Updates, known: seq<string>)
    requires Proper(u, known) && AllOneLine(lines)
    ensures AllPieces(EditedLines(lines, u), u)
    decreases |lines|
  {
    hide EditedLine, Proper, PieceOf, OneLine;
    if lines != [] {
      EditedArePieces(lines[..|lines| - 1], u, known);
      EditIsPiece(lines[|lines| - 1], u, known);
    }
  }

  lemma {:induction false} AdditionsArePieces(known: seq<string>, u: Updates, all: seq<string>, seen: set<string>)
    requires Proper(u, all)
    ensures AllPieces(Additions(known, u, seen), u)
    decreases |known|
  {
    hide EditedLine, Assignment;
    if known != [] {
      var k := known[|known| - 1];
      AdditionsArePieces(known[..|known| - 1], u, all, seen);
      if Sets(u, k) && k !in seen {
        assert PieceOf(Assignment(k, u[k].value), u);
      }
    }
  }

  lemma KeptArePieces(lines: seq<string>, u: Updates, known: seq<string>)
    requires Proper(u, known) && AllOneLine(lines)
    ensures AllPieces(KeptLines(lines, u, known), u)
  {
    hide EditedLines, Additions, SeenKeys, PieceOf, OneLine;
    EditedArePieces(lines, u, known);
    AdditionsArePieces(known, u, known, SeenKeys(lines, u));
  }

  /** The continuation lines of a piece are those of a set value, or none. */
  lemma PieceCont(x: string, u: Updates)
    requires PieceOf(x, u)
    ensures Cont(x) == [] || exists j :: Sets(u, j) && Cont(x) == Cont(u[j].value)
  {
    hide Split, EditedLine, Assignment;
    if OneLine(x) {
      OneLinePiece(x);
    } else {
      var j :| Sets(u, j) && IsKey(j) && x == Assignment(j, u[j].value);
      AssignmentLines(j, u[j].value);
    }
  }

  lemma {:induction false} NothingInjected(pieces: seq<string>, u: Updates, k: string)
    requires AllPieces(pieces, u) && forall j :: !ContinuationReads(u, j, k)
    ensures Injected(pieces, k).None?
    decreases |pieces|
  {
    hide PieceOf, Value, Cont, First, Reads;
    if pieces != [] {
      var x := pieces[|pieces| - 1];
      PieceCont(x, u);
      ValueOfNothing(k);
      if Cont(x) != [] {
        var j :| Sets(u, j) && Cont(x) == Cont(u[j].value);
        assert !ContinuationReads(u, j, k);
      }
      NothingInjected(pieces[..|pieces| - 1], u, k);
    }
  }

  lemma {:induction false} PieceIsRead(pieces: seq<string>, i: nat, k: string)
    requires i < |pieces| && Value(Cont(pieces[i]), k).Some?
    ensures Value(Spread(pieces), k).Some?
    decreases |pieces|
  {
    hide Split, Cont, First, Value, Reads;
    var front, x := pieces[..|pieces| - 1], pieces[|pieces| - 1];
    ValueOfPiece(x, k);
    ValueAppend(Spread(front), Split(x), k);
    if i < |pieces| - 1 {
      PieceIsRead(front, i, k);
    }
  }

  /** Where a set key's line is among the additions. */
  lemma {:induction false} AddedAt(known: seq<string>, u: Updates, seen: set<string>, j: string) returns (i: nat)
    requires Sets(u, j) && j in known && j !in seen
    ensures i < |Additions(known, u, seen)| && Additions(known, u, seen)[i] == Assignment(j, u[j].value)
    decreases |known|
  {
    hide Assignment;
    var front, last := known[..|known| - 1], known[|known| - 1];
    assert known == front + [last];
    if last == j {
      i := |Additions(front, u, seen)|;
    } else {
      i := AddedAt(front, u, seen, j);
    }
  }

  lemma EmptyFile(u: Updates, known: seq<string>)
    ensures Split("") == [""] && KeptLines([""], u, known) == [""] + Additions(known, u, {})
  {
    hide Additions, CutKey;
    EmptyLineReadsNothing();
    assert [""][..0] == [];
    assert EditedLines([], u) == [] && SeenKeys([], u) == {};
    assert EditedLines([""], u) == [""] && SeenKeys([""], u) == {};
  }

  lemma EmptyFileValue(k: string)
    ensures Value([""], k).None?
  {
    hide ParseLine;
    EmptyLineReadsNothing();
    ValueOfOne("", k);
  }

  /** An update leaves an untouched key alone in every file exactly when no continuation
      line of a value it sets reads that key. */
  lemma UntouchedInEveryFileIff(u: Updates, known: seq<string>, k: string)
    requires Proper(u, known) && !Touches(u, k)
    ensures (forall raw :: Lookup(ReadRaw(Updated(raw, u, known)), k) == Lookup(ReadRaw(raw), k)) <==>
      forall j :: !ContinuationReads(u, j, k)
  {
    if forall j :: !ContinuationReads(u, j, k) {
      forall raw ensures Lookup(ReadRaw(Updated(raw, u, known)), k) == Lookup(ReadRaw(raw), k) {
        QuietKeepsUntouched(raw, u, known, k);
      }
    }
    if j :| ContinuationReads(u, j, k) {
      ReaderShows(u, known, j, k);
      assert Lookup(ReadRaw(Updated("", u, known)), k) != Lookup(ReadRaw(""), k);
    }
  }

  lemma QuietKeepsUntouched(raw: string, u: Updates, known: seq<string>, k: string)
    requires Proper(u, known) && !Touches(u, k) && forall j :: !ContinuationReads(u, j, k)
    ensures Lookup(ReadRaw(Updated(raw, u, known)), k) == Lookup(ReadRaw(raw), k)
  {
    hide Split, ReadRaw, KeptLines, Updated, Proper, Injected, ContinuationReads, AllPieces, OneLine;
    KeptArePieces(Split(raw), u, known);
    NothingInjected(KeptLines(Split(raw), u, known), u, k);
    UntouchedKeepsIff(raw, u, known, k);
  }

  lemma ReaderShows(u: Updates, known: seq<string>, j: string, k: string)
    requires Proper(u, known) && ContinuationReads(u, j, k)
    ensures Lookup(ReadRaw(Updated("", u, known)), k).Some? && Lookup(ReadRaw(""), k).None?
  {
    hide ReadRaw, Updated, Value, Assignment, Spread, Additions, KeptLines, Split, Cont;
    EmptyFile(u, known);
    EmptyFileValue(k);
    ReadBefore("", k);
    var i := AddedAt(known, u, {}, j);
    var kept := KeptLines([""], u, known);
    assert kept[i + 1] == Assignment(j, u[j].value);
    AssignmentLines(j, u[j].value);
    PieceIsRead(kept, i + 1, k);
    ReadOfUpdated("", u, known);
    ValueIsLookup(Spread(kept), k);
  }

  // ----- keys the update sets or clears -----

  lemma ReadBackWhole(v: string)
    ensures ReadBack(First(v)) == v <==> OneLine(v) && Plain(v)
  {
    hide Split, ReadBack, Plain;
    if OneLine(v) {
      OneLinePiece(v);
      PlainExactlyWhenReadBack(v);
    } else {
      ReadBackIsOneLine(First(v));
      assert OneLine(First(v));
    }
  }

  /** A set key reads back as the value set exactly when: a continuation line says so;
      or none reads the key, and then the shadowing export line says so, or nothing
      shadows it and the value is plain and on one line. */
  lemma SetReadsBack(raw: string, u: Updates, known: seq<string>, k: string)
    requires Proper(u, known) && Sets(u, k)
    ensures
      var lines := Split(raw);
      var injected := Injected(KeptLines(lines, u, known), k);
      Lookup(ReadRaw(Updated(raw, u, known)), k) == Some(u[k].value) <==>
        if injected.Some? then injected == Some(u[k].value)
        else if Shadowed(lines, k) then ValueOfLine(lines[LastReader(lines, k).value], k) == Some(u[k].value)
        else OneLine(u[k].value) && Plain(u[k].value)
  {
    hide Split, ReadRaw, Updated, LastReader, ValueOfLine, ReadBack, Proper, Plain, Injected, KeptLines, First, OneLine, Shadowed;
    ReadAfterUpdate(raw, u, known, k);
    ReadBackWhole(u[k].value);
  }

  /** A cleared key is gone exactly when no export line names it and no continuation
      line gives it a value. */
  lemma ClearRemoves(raw: string, u: Updates, known: seq<string>, k: string)
    requires Proper(u, known) && Clears(u, k)
    ensures k !in ReadRaw(Updated(raw, u, known)) <==>
      Injected(KeptLines(Split(raw), u, known), k).None? &&
      forall i :: 0 <= i < |Split(raw)| ==> !Exports(Split(raw)[i], k)
  {
    hide Split, ReadRaw, Updated, LastReader, ValueOfLine, ReadBack, Proper, Exports, LastExport, Shadowed, Injected, KeptLines, First;
    ReadAfterUpdate(raw, u, known, k);
    NoExportNoValue(Split(raw), k);
  }

  /** What a caller of the editor expects: the old settings overridden by the new. */
  ghost function Overridden(old': map<string, string>, u: Updates, k: string): Option<string> {
    if Sets(u, k) then Some(u[k].value) else if Clears(u, k) then None else Lookup(old', k)
  }

  /** With plain one-line values, no export lines for the touched keys and no
      continuation line that reads k, the file reads at k as the old settings
      overridden by the update. */
  lemma PutGet(raw: string, u: Updates, known: seq<string>, k: string)
    requires Proper(u, known) && forall j :: !ContinuationReads(u, j, k)
    requires Sets(u, k) ==> OneLine(u[k].value) && Plain(u[k].value)
    requires Touches(u, k) ==> forall i :: 0 <= i < |Split(raw)| ==> !Exports(Split(raw)[i], k)
    ensures Lookup(ReadRaw(Updated(raw, u, known)), k) == Overridden(ReadRaw(raw), u, k)
  {
    hide Split, ReadRaw, Updated, LastReader, ValueOfLine, ReadBack, Proper, Plain, LastExport, Injected, KeptLines, First, OneLine, AllPieces, ContinuationReads;
    ReadAfterUpdate(raw, u, known, k);
    KeptArePieces(Split(raw), u, known);
    NothingInjected(KeptLines(Split(raw), u, known), u, k);
    ReadBefore(raw, k);
    if Sets(u, k) {
      ReadBackWhole(u[k].value);
      LastReaderIsLast(Split(raw), k);
    } else if Clears(u, k) {
      NoExportNoValue(Split(raw), k);
    }
  }

  /** An export line is read under its key and filed under another: the editor
      cannot change or clear it. */
  lemma ExportLineIsInvisible(k: string, v: string)
    requires IsKey(k)
    ensures Exports(EXPORT + Assignment(k, v), k)
    ensures ParseLine(EXPORT + Assignment(k, v)) == Some(Entry(k, ReadBack(v)))
  {
    hide TrimLeft, TrimRight, TrimSpace, FirstIndex, StripComment, Unquote, ParseAssignment;
    TrimOfExport(k, v);
    var a := Assignment(k, TrimRight(v));
    var t := EXPORT + a;
    assert t[0] == 'e';
    assert t[|EXPORT|..] == a;
    assert t[..|EXPORT|] == EXPORT;
    ParseOfAssignment(k, v);
    EqualsAfterExport(k, TrimRight(v));
    assert t[..|EXPORT| + |k|] == EXPORT + k;
    TrimOfExportKey(k);
  }

  lemma TrimAfterHead(head: string, v: string)
    requires head != [] && !IsSpace(head[0]) && !IsSpace(head[|head| - 1])
    ensures TrimSpace(head + v) == head + TrimRight(v)
  {
    hide TrimRight, IsSpace;
    assert (head + v)[0] == head[0];
    TrimRightAppend(head, v);
  }

  lemma TrimOfExport(k: string, v: string)
    requires IsKey(k)
    ensures TrimSpace(EXPORT + Assignment(k, v)) == EXPORT + Assignment(k, TrimRight(v))
  {
    hide TrimRight, TrimLeft, TrimSpace;
    var head := EXPORT + k + "=";
    assert head[0] == 'e' && head[|head| - 1] == '=';
    TrimAfterHead(head, v);
    ExportHead(k, v);
    ExportHead(k, TrimRight(v));
  }

  lemma ExportHead(k: string, v: string)
    ensures EXPORT + Assignment(k, v) == EXPORT + k + "=" + v
  {
    var head := EXPORT + k + "=";
    assert EXPORT + Assignment(k, v) == head + v;
  }

  lemma ParseOfAssignment(k: string, v: string)
    requires IsKey(k)
    ensures ParseAssignment(TrimSpace(Assignment(k, TrimRight(v)))) == Some(Entry(k, ReadBack(v)))
  {
    hide TrimLeft, TrimRight, TrimSpace, FirstIndex, StripComment, Unquote;
    var a := Assignment(k, TrimRight(v));
    TrimRightTwice(v);
    TrimOfAssignment(k, TrimRight(v));
    EqualsOfAssignment(k, TrimRight(v));
    TrimOfKey(k);
    assert a[..|k|] == k && a[|k| + 1..] == TrimRight(v);
  }

  lemma TrimRightTwice(v: string)
    ensures TrimRight(TrimRight(v)) == TrimRight(v)
  {
  }

  lemma EqualsAfterExport(k: string, v: string)
    requires IsKey(k)
    ensures FirstIndex(EXPORT + Assignment(k, v), '=') == Some(|EXPORT| + |k|)
  {
    var a := EXPORT + Assignment(k, v);
    assert a[|EXPORT| + |k|] == '=';
    forall i | 0 <= i < |EXPORT| + |k| ensures a[i] != '=' {
      if i >= |EXPORT| {
        assert a[i] == k[i - |EXPORT|] && IsKeyChar(k[i - |EXPORT|]);
      } else {
        assert a[i] == EXPORT[i];
      }
    }
  }

  lemma TrimOfExportKey(k: string)
    requires IsKey(k)
    ensures TrimSpace(EXPORT + k) == EXPORT + k
  {
    assert IsKeyChar(k[|k| - 1]);
    assert (EXPORT + k)[0] == 'e' && (EXPORT + k)[|EXPORT + k| - 1] == k[|k| - 1];
    TrimIdentity(EXPORT + k);
  }

  // ----- values that can be read at all -----

  lemma OneLineSlice(s: string, i: nat, j: nat)
    requires OneLine(s) && i <= j <= |s|
    ensures OneLine(s[i..j])
  {
  }

  lemma OneLineTrim(s: string)
    requires OneLine(s)
    ensures OneLine(TrimSpace(s))
  {
    hide IsSpace;
    var l := TrimLeft(s);
    OneLineSlice(s, |s| - |l|, |s|);
    assert s[|s| - |l|..|s|] == l;
    var r := TrimRight(l);
    OneLineSlice(l, 0, |r|);
    assert l[0..|r|] == r;
  }

  lemma OneLineAssignment(t: string)
    requires OneLine(t) && ParseAssignment(t).Some?
    ensures OneLine(ParseAssignment(t).value.value)
  {
    hide TrimSpace, HashFrom;
    var v := t[FirstIndex(t, '=').value + 1..];
    OneLineSlice(t, FirstIndex(t, '=').value + 1, |t|);
    var h := HashFrom(v, 0, false, false, false);
    if h.Some? {
      OneLineSlice(v, 0, h.value);
      OneLineTrim(v[..h.value]);
    } else {
      OneLineTrim(v);
    }
    var c := StripComment(v);
    OneLineTrim(c);
  }

  lemma OneLineValue(line: string)
    requires OneLine(line) && ParseLine(line).Some?
    ensures OneLine(ParseLine(line).value.value)
  {
    hide TrimSpace, ParseAssignment;
    var t := TrimSpace(line);
    OneLineTrim(line);
    if IsExport(t) {
      OneLineSlice(t, |EXPORT|, |t|);
      OneLineTrim(t[|EXPORT|..]);
      OneLineAssignment(TrimSpace(t[|EXPORT|..]));
    } else {
      OneLineAssignment(t);
    }
  }

  lemma ReadBackIsOneLine(v: string)
    requires OneLine(v)
    ensures OneLine(ReadBack(v))
  {
    hide ParseLine, ReadBack, Assignment;
    var k := "A";
    assert IsKey(k);
    AssignmentIsRead(k, v);
    OneLinePiece(v);
    AssignmentLines(k, v);
    OneLineValue(Assignment(k, v));
  }

  lemma {:induction false} ValueIsOneLine(lines: seq<string>, k: string)
    requires AllOneLine(lines)
    ensures Value(lines, k).Some? ==> OneLine(Value(lines, k).value)
    decreases |lines|
  {
    hide ParseLine, OneLine;
    if lines != [] {
      if Reads(lines[|lines| - 1], k) {
        OneLineValue(lines[|lines| - 1]);
      } else {
        ValueIsOneLine(lines[..|lines| - 1], k);
      }
    }
  }

  /** No file gives a key a value with a newline in it, so such a value can be set but
      never reads back. */
  lemma ReadValuesAreOneLine(raw: string, k: string)
    ensures k in ReadRaw(raw) ==> OneLine(ReadRaw(raw)[k])
  {
    hide Split, ParseLines, Value, OneLine;
    ValueIsLookup(Split(raw), k);
    ValueIsOneLine(Split(raw), k);
  }

  // ----- a value that sets another key -----

  /** The value v for k, followed by a line that assigns w to j. */
  function WithLine(v: string, j: string, w: string): string {
    v + "\n" + Assignment(j, w)
  }

  lemma ContOfWithLine(v: string, j: string, w: string)
    requires IsKey(j) && OneLine(v) && OneLine(w)
    ensures First(WithLine(v, j, w)) == v && Cont(WithLine(v, j, w)) == [Assignment(j, w)]
  {
    hide Assignment;
    SplitAppend(v, Assignment(j, w));
    SplitOneLine(v);
    OneLinePiece(w);
    AssignmentLines(j, w);
    OneLinePiece(Assignment(j, w));
    hide Split;
  }

  lemma AssignmentSets(j: string, w: string)
    requires IsKey(j)
    ensures Value([Assignment(j, w)], j).Some?
  {
    hide Assignment, ParseLine, ReadBack;
    AssignmentIsRead(j, w);
    ValueOfOne(Assignment(j, w), j);
  }

  /** Setting k alone to a value whose second line assigns j sets j too, in a file that
      said nothing of it. */
  lemma NewlineSetsAnotherKey(u: Updates, known: seq<string>, k: string, v: string, j: string, w: string)
    requires Proper(u, known) && u == map[k := Some(WithLine(v, j, w))] && k in known
    requires IsKey(k) && IsKey(j) && k != j && OneLine(v) && OneLine(w)
    ensures !Touches(u, j) && Lookup(ReadRaw(""), j).None? && Lookup(ReadRaw(Updated("", u, known)), j).Some?
  {
    hide Assignment, ReadRaw, Updated, Value, Split, First, Cont, IsKey, Proper;
    ContOfWithLine(v, j, w);
    AssignmentSets(j, w);
    assert WithLine(v, j, w) != "";
    ReaderShows(u, known, k, j);
  }
}
