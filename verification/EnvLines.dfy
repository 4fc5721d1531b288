/** Lines and bytes of a .env file: what a list of written pieces, some of which may
    hold newlines, is once it has been joined, written and split again. */
module EnvLines {
  import opened Common
  import opened EnvFile
  import opened EnvUpdate

  ghost predicate AllOneLine(lines: seq<string>) {
    forall i :: 0 <= i < |lines| ==> OneLine(lines[i])
  }

  /** The lines without the empty ones at the end. */
  function Core(lines: seq<string>): seq<string>
    decreases |lines|
  {
    if lines != [] && lines[|lines| - 1] == "" then Core(lines[..|lines| - 1]) else lines
  }

  lemma {:induction false} CoreIsOneLine(lines: seq<string>)
    requires AllOneLine(lines)
    ensures AllOneLine(Core(lines)) && Core(Core(lines)) == Core(lines)
    decreases |lines|
  {
    if lines != [] && lines[|lines| - 1] == "" {
      CoreIsOneLine(lines[..|lines| - 1]);
    }
  }

  lemma TrimAppendNewline(s: string)
    ensures TrimNewlines(s + "\n") == TrimNewlines(s)
  {
    assert (s + "\n")[..|s|] == s;
  }

  lemma TrimAppendText(s: string, x: string)
    requires x != [] && OneLine(x)
    ensures TrimNewlines(s + x) == s + x
  {
    assert (s + x)[|s + x| - 1] == x[|x| - 1];
  }

  lemma {:induction false} TrimOfJoin(lines: seq<string>)
    requires AllOneLine(lines)
    ensures TrimNewlines(Join(lines)) == Join(Core(lines))
    decreases |lines|
  {
    if lines != [] {
      hide TrimNewlines;
      var front := lines[..|lines| - 1];
      var last := lines[|lines| - 1];
      assert lines == front + [last];
      if last == "" {
        TrimOfJoin(front);
        if front == [] {
          TrimOfEmpty();
        } else {
          JoinLast(front, last);
          assert Join(front) + "\n" + "" == Join(front) + "\n";
          TrimAppendNewline(Join(front));
        }
      } else {
        if front == [] {
          TrimAppendText("", last);
          assert "" + last == last;
        } else {
          JoinLast(front, last);
          TrimAppendText(Join(front) + "\n", last);
        }
      }
    }
  }

  lemma TrimOfEmpty()
    ensures TrimNewlines("") == "" && Join([]) == "" && Join([""]) == "" && Core([]) == [] && Core([""]) == []
  {
    assert [""][..0] == [];
  }

  lemma CoreAppendEmpty(lines: seq<string>)
    ensures Core(lines + [""]) == Core(lines)
  {
    assert (lines + [""])[..|lines|] == lines;
  }

  /** The written bytes split back into the kept lines, up to trailing blanks. */
  lemma SplitOfContent(lines: seq<string>)
    requires AllOneLine(lines)
    ensures Core(Split(Content(lines))) == Core(lines)
  {
    hide Split, Join, TrimNewlines, Core;
    var c := Core(lines);
    TrimOfJoin(lines);
    CoreIsOneLine(lines);
    SplitAppendLine(Join(c), "");
    assert Join(c) + "\n" + "" == Join(c) + "\n";
    CoreAppendEmpty(Split(Join(c)));
    if c == [] {
      TrimOfEmpty();
      SplitOneLine("");
    } else {
      SplitJoin(c);
    }
  }

  // ----- pieces with newlines in them -----

  /** The first line of a piece, and the lines after it. */
  function First(x: string): string {
    Split(x)[0]
  }

  function Cont(x: string): seq<string> {
    Split(x)[1..]
  }

  /** The lines a list of pieces makes. */
  function Spread(pieces: seq<string>): seq<string>
    decreases |pieces|
  {
    if pieces == [] then [] else Spread(pieces[..|pieces| - 1]) + Split(pieces[|pieces| - 1])
  }

  /** The last line with one more character. */
  function Extended(lines: seq<string>, c: char): seq<string>
    requires lines != []
  {
    lines[..|lines| - 1] + [lines[|lines| - 1] + [c]]
  }

  lemma SplitSnoc(s: string, c: char)
    ensures Split(s + [c]) == if c == '\n' then Split(s) + [""] else Extended(Split(s), c)
  {
    assert (s + [c])[..|s|] == s;
  }

  lemma ExtendedAppend(a: seq<string>, b: seq<string>, c: char)
    requires b != []
    ensures Extended(a + b, c) == a + Extended(b, c)
  {
    assert (a + b)[..|a + b| - 1] == a + b[..|b| - 1];
  }

  lemma {:induction false} SplitAppend(s: string, x: string)
    ensures Split(s + "\n" + x) == Split(s) + Split(x)
    decreases |x|
  {
    hide Split, Extended;
    if x == [] {
      SplitSnoc(s, '\n');
      SplitOneLine("");
      assert s + "\n" + x == s + ['\n'];
    } else {
      var y, c := x[..|x| - 1], x[|x| - 1];
      SplitAppend(s, y);
      assert x == y + [c] && s + "\n" + x == s + "\n" + y + [c];
      SplitSnoc(s + "\n" + y, c);
      SplitSnoc(y, c);
      ExtendedAppend(Split(s), Split(y), c);
    }
  }

  lemma {:induction false} SplitOfJoin(pieces: seq<string>)
    requires pieces != []
    ensures Split(Join(pieces)) == Spread(pieces)
    decreases |pieces|
  {
    hide Split;
    if |pieces| == 1 {
      assert pieces[..0] == [];
    } else {
      SplitOfJoin(pieces[..|pieces| - 1]);
      SplitAppend(Join(pieces[..|pieces| - 1]), pieces[|pieces| - 1]);
    }
  }

  lemma {:induction false} SpreadIsOneLine(pieces: seq<string>)
    ensures AllOneLine(Spread(pieces))
    decreases |pieces|
  {
    hide Split, OneLine;
    if pieces != [] {
      SpreadIsOneLine(pieces[..|pieces| - 1]);
    }
  }

  /** Writing pieces is writing their lines. */
  lemma ContentOfSpread(pieces: seq<string>)
    ensures Content(pieces) == Content(Spread(pieces))
  {
    hide Split, Join, TrimNewlines;
    if pieces != [] {
      SplitOfJoin(pieces);
      JoinSplit(Join(pieces));
    }
  }

  /** The written bytes split back into the lines of the pieces, up to blank lines at
      the end. */
  lemma WrittenLines(pieces: seq<string>)
    ensures Core(Split(Content(pieces))) == Core(Spread(pieces))
  {
    hide Split, Content, Core, Spread;
    ContentOfSpread(pieces);
    SpreadIsOneLine(pieces);
    SplitOfContent(Spread(pieces));
  }

  /** Two lists of pieces are written alike exactly when their lines agree up to blank
      lines at the end. */
  lemma SameContentIff(a: seq<string>, b: seq<string>)
    ensures Content(a) == Content(b) <==> Core(Spread(a)) == Core(Spread(b))
  {
    hide Split, Core, Spread, Join, TrimNewlines;
    WrittenLines(a);
    WrittenLines(b);
    ContentOfSpread(a);
    ContentOfSpread(b);
    SpreadIsOneLine(a);
    SpreadIsOneLine(b);
    TrimOfJoin(Spread(a));
    TrimOfJoin(Spread(b));
  }

  lemma {:induction false} SpreadAppend(a: seq<string>, b: seq<string>)
    ensures Spread(a + b) == Spread(a) + Spread(b)
    decreases |b|
  {
    hide Split;
    if b == [] {
      assert a + b == a;
    } else {
      var front, last := b[..|b| - 1], b[|b| - 1];
      SpreadAppend(a, front);
      assert (a + b)[..|a + b| - 1] == a + front && (a + b)[|a + b| - 1] == last;
      assert Spread(a) + Spread(front) + Split(last) == Spread(a) + (Spread(front) + Split(last));
    }
  }

  lemma SpreadOfOne(x: string)
    ensures Spread([x]) == Split(x) && Split(x) == [First(x)] + Cont(x)
  {
    hide Split;
    assert [x][..0] == [];
  }

  lemma OneLinePiece(x: string)
    requires OneLine(x)
    ensures Split(x) == [x] && First(x) == x && Cont(x) == []
  {
    SplitOneLine(x);
  }

  lemma ExtendedFirst(h: string, first: string, rest: seq<string>, c: char)
    ensures var t := Extended([first] + rest, c); Extended([h + first] + rest, c) == [h + t[0]] + t[1..]
  {
    if rest == [] {
      assert h + (first + [c]) == h + first + [c];
    } else {
      ExtendedAppend([first], rest, c);
      ExtendedAppend([h + first], rest, c);
    }
  }

  /** Text put before a piece goes on its first line. */
  lemma {:induction false} SplitHead(h: string, v: string)
    requires OneLine(h)
    ensures Split(h + v) == [h + First(v)] + Cont(v)
    decreases |v|
  {
    hide Split, Extended, OneLine;
    if v == [] {
      assert h + v == h && h + "" == h;
      SplitOneLine(h);
      SplitOneLine("");
    } else {
      var w, c := v[..|v| - 1], v[|v| - 1];
      SplitHead(h, w);
      assert v == w + [c] && h + v == h + w + [c];
      SplitSnoc(h + w, c);
      SplitSnoc(w, c);
      assert Split(w) == [First(w)] + Cont(w);
      ExtendedFirst(h, First(w), Cont(w), c);
    }
  }

  lemma AssignmentLines(k: string, v: string)
    requires IsKey(k)
    ensures First(Assignment(k, v)) == Assignment(k, First(v)) && Cont(Assignment(k, v)) == Cont(v)
    ensures OneLine(Assignment(k, First(v)))
  {
    hide Split;
    var h := k + "=";
    forall i | 0 <= i < |h| ensures h[i] != '\n' {
      assert i < |k| ==> IsKeyChar(k[i]);
    }
    assert Assignment(k, v) == h + v && Assignment(k, First(v)) == h + First(v);
    SplitHead(h, v);
  }
}
