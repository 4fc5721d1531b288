/** Editing a .env file in place (internal/envconfig/envconfig.go): what the
    editor does to each line, and the three-phase editor itself. */
module EnvUpdate {
  import opened Common
  import opened EnvFile

  /** None leaves a key alone, the empty value clears it, any other sets it. */
  type Updates = map<string, Option<string>>

  predicate Touches(u: Updates, k: string) {
    k in u && u[k].Some?
  }

  predicate Sets(u: Updates, k: string) {
    Touches(u, k) && u[k].value != ""
  }

  predicate Clears(u: Updates, k: string) {
    Touches(u, k) && u[k].value == ""
  }

  /** What the editor makes of one line: itself, nothing, or a new assignment. */
  function EditedLine(line: string, u: Updates): seq<string> {
    var k := CutKey(line);
    if k.None? || !Touches(u, k.value) then [line]
    else if Clears(u, k.value) then []
    else [Assignment(k.value, u[k.value].value)]
  }

  function EditedLines(lines: seq<string>, u: Updates): seq<string>
    decreases |lines|
  {
    if lines == [] then [] else EditedLines(lines[..|lines| - 1], u) + EditedLine(lines[|lines| - 1], u)
  }

  /** The updated keys the file already has a line for. */
  function SeenKeys(lines: seq<string>, u: Updates): set<string>
    decreases |lines|
  {
    if lines == [] then {} else
      var k := CutKey(lines[|lines| - 1]);
      SeenKeys(lines[..|lines| - 1], u) + (if k.Some? && k.value in u then {k.value} else {})
  }

  /** New lines for the set keys not seen, in the order of the known keys. */
  function Additions(known: seq<string>, u: Updates, seen: set<string>): seq<string>
    decreases |known|
  {
    if known == [] then [] else
      var k := known[|known| - 1];
      Additions(known[..|known| - 1], u, seen) + (if Sets(u, k) && k !in seen then [Assignment(k, u[k].value)] else [])
  }

  function KeptLines(lines: seq<string>, u: Updates, known: seq<string>): seq<string> {
    EditedLines(lines, u) + Additions(known, u, SeenKeys(lines, u))
  }

  function TrimNewlines(s: string): string {
    if s != [] && s[|s| - 1] == '\n' then TrimNewlines(s[..|s| - 1]) else s
  }

  function Content(lines: seq<string>): string {
    TrimNewlines(Join(lines)) + "\n"
  }

  function Updated(raw: string, u: Updates, known: seq<string>): string {
    Content(KeptLines(Split(raw), u, known))
  }

  // ----- the editor -----

  /** The lines at the indices not blanked. */
  function Surviving(lines: seq<string>, blanked: set<nat>): seq<string>
    decreases |lines|
  {
    if lines == [] then [] else
      Surviving(lines[..|lines| - 1], blanked) + (if |lines| - 1 in blanked then [] else [lines[|lines| - 1]])
  }

  lemma {:induction false} SurvivingFrame(a: seq<string>, b: seq<string>, ba: set<nat>, bb: set<nat>)
    requires a == b && forall i :: 0 <= i < |a| ==> (i in ba <==> i in bb)
    ensures Surviving(a, ba) == Surviving(b, bb)
    decreases |a|
  {
    if a != [] {
      SurvivingFrame(a[..|a| - 1], b[..|b| - 1], ba, bb);
    }
  }

  lemma {:induction false} SurvivingAppend(a: seq<string>, b: seq<string>, blanked: set<nat>)
    requires forall i :: i in blanked ==> i < |a|
    ensures Surviving(a + b, blanked) == Surviving(a, blanked) + b
    decreases |b|
  {
    if b == [] {
      assert a + b == a;
    } else {
      SurvivingAppend(a, b[..|b| - 1], blanked);
      assert (a + b)[..|a + b| - 1] == a + b[..|b| - 1];
      assert b == b[..|b| - 1] + [b[|b| - 1]];
    }
  }

  /** Editing line i of the buffer: blanked, rewritten or left as it was. */
  lemma EditStep(orig: seq<string>, u: Updates, i: nat, before: seq<string>, after: seq<string>, ba: set<nat>, bb: set<nat>)
    requires i < |orig| == |before| == |after|
    requires before[..i] == after[..i] && (forall j :: 0 <= j < i ==> (j in ba <==> j in bb))
    requires Surviving(before[..i], ba) == EditedLines(orig[..i], u)
    requires if i in bb then EditedLine(orig[i], u) == [] else EditedLine(orig[i], u) == [after[i]]
    ensures Surviving(after[..i + 1], bb) == EditedLines(orig[..i + 1], u)
  {
    hide EditedLine;
    SurvivingFrame(before[..i], after[..i], ba, bb);
    assert orig[..i + 1][..i] == orig[..i] && after[..i + 1][..i] == after[..i];
  }

  lemma EditNothing(u: Updates)
    ensures Surviving([], {}) == EditedLines([], u) && SeenKeys([], u) == {}
  {
  }

  lemma SeenStep(orig: seq<string>, u: Updates, i: nat)
    requires i < |orig|
    ensures SeenKeys(orig[..i + 1], u) ==
      SeenKeys(orig[..i], u) + (if CutKey(orig[i]).Some? && CutKey(orig[i]).value in u then {CutKey(orig[i]).value} else {})
  {
    hide CutKey;
    assert orig[..i + 1][..i] == orig[..i];
  }

  /** First phase: rewrite or blank the matching lines in place. */
  method EditInPlace(orig: seq<string>, u: Updates) returns (lines: seq<string>, seen: set<string>, blanked: set<nat>)
    ensures |lines| == |orig| && (forall i :: i in blanked ==> i < |orig|)
    ensures Surviving(lines, blanked) == EditedLines(orig, u)
    ensures seen == SeenKeys(orig, u)
  {
    hide CutKey, Assignment, Surviving, EditedLines, SeenKeys;
    EditNothing(u);
    lines, seen, blanked := orig, {}, {};
    var i := 0;
    while i < |orig|
      invariant 0 <= i <= |orig| && |lines| == |orig|
      invariant forall j :: i <= j < |orig| ==> lines[j] == orig[j]
      invariant forall j :: j in blanked ==> j < i
      invariant Surviving(lines[..i], blanked) == EditedLines(orig[..i], u)
      invariant seen == SeenKeys(orig[..i], u)
    {
      var k := CutKey(lines[i]);
      ghost var before, wasBlanked := lines, blanked;
      if k.Some? && k.value in u {
        seen := seen + {k.value};
        var ptr := u[k.value];
        if ptr.Some? {
          if ptr.value == "" {
            lines := lines[i := ""];
            blanked := blanked + {i};
          } else {
            lines := lines[i := Assignment(k.value, ptr.value)];
          }
        }
      }
      assert before[..i] == lines[..i];
      EditStep(orig, u, i, before, lines, wasBlanked, blanked);
      SeenStep(orig, u, i);
      i := i + 1;
    }
    assert orig[..i] == orig && lines[..i] == lines;
  }

  /** Second phase: append the keys not seen. */
  method AppendNew(known: seq<string>, u: Updates, seen: set<string>) returns (added: seq<string>)
    ensures added == Additions(known, u, seen)
  {
    hide Assignment;
    added := [];
    var i := 0;
    while i < |known|
      invariant 0 <= i <= |known| && added == Additions(known[..i], u, seen)
    {
      var k := known[i];
      if k in u {
        if !(k in seen || u[k].None? || u[k].value == "") {
          added := added + [Assignment(k, u[k].value)];
        }
      }
      i := i + 1;
      assert known[..i][..i - 1] == known[..i - 1];
    }
    assert known[..i] == known;
  }

  /** Third phase: drop the blanked lines, end with a single newline. */
  method UpdateRaw(raw: string, u: Updates, known: seq<string>) returns (content: string)
    ensures content == Updated(raw, u, known)
  {
    hide Split, Join, TrimNewlines, EditedLines, SeenKeys, Additions;
    var orig := Split(raw);
    var lines, seen, blanked := EditInPlace(orig, u);
    var added := AppendNew(known, u, seen);
    SurvivingAppend(lines, added, blanked);
    lines := lines + added;
    var kept: seq<string> := [];
    var i := 0;
    while i < |lines|
      invariant 0 <= i <= |lines| && kept == Surviving(lines[..i], blanked)
    {
      if i !in blanked {
        kept := kept + [lines[i]];
      }
      i := i + 1;
      assert lines[..i][..i - 1] == lines[..i - 1];
    }
    assert lines[..i] == lines;
    content := TrimNewlines(Join(kept)) + "\n";
  }
}
