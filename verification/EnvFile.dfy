/** The .env file format: lines, trimming, and the permissive line parser
    (internal/envconfig/envconfig.go). */
module EnvFile {
  import opened Common

  // ----- whitespace -----

  /** The characters Unicode counts as white space. */
  predicate IsSpace(c: char) {
    var n := c as int;
    9 <= n <= 13 || n == 32 || n == 0x85 || n == 0xA0 || n == 0x1680 || 0x2000 <= n <= 0x200A
    || n == 0x2028 || n == 0x2029 || n == 0x202F || n == 0x205F || n == 0x3000
  }

  function TrimLeft(s: string): (r: string)
    ensures |r| <= |s| && r == s[|s| - |r|..]
    ensures r != [] ==> !IsSpace(r[0])
  {
    if s != [] && IsSpace(s[0]) then TrimLeft(s[1..]) else s
  }

  function TrimRight(s: string): (r: string)
    ensures r <= s
    ensures r != [] ==> !IsSpace(r[|r| - 1])
  {
    if s != [] && IsSpace(s[|s| - 1]) then TrimRight(s[..|s| - 1]) else s
  }

  function TrimSpace(s: string): string {
    TrimRight(TrimLeft(s))
  }

  lemma TrimIdentity(s: string)
    ensures TrimSpace(s) == s <==> s == [] || (!IsSpace(s[0]) && !IsSpace(s[|s| - 1]))
  {
  }

  /** Trailing white space after something that does not end in any. */
  lemma {:induction false} TrimRightAppend(a: string, b: string)
    requires a != [] && !IsSpace(a[|a| - 1])
    ensures TrimRight(a + b) == a + TrimRight(b)
    decreases |b|
  {
    if b == [] {
      assert a + b == a;
    } else if IsSpace(b[|b| - 1]) {
      TrimRightAppend(a, b[..|b| - 1]);
      assert (a + b)[..|a + b| - 1] == a + b[..|b| - 1];
    }
  }

  // ----- lines -----

  ghost predicate OneLine(s: string) {
    forall i :: 0 <= i < |s| ==> s[i] != '\n'
  }

  function Split(s: string): (r: seq<string>)
    ensures r != []
    ensures forall k :: 0 <= k < |r| ==> OneLine(r[k])
  {
    if s == [] then [""] else
      var t := Split(s[..|s| - 1]);
      var c := s[|s| - 1];
      if c == '\n' then t + [""] else t[..|t| - 1] + [t[|t| - 1] + [c]]
  }

  function Join(lines: seq<string>): string
    decreases |lines|
  {
    if lines == [] then "" else if |lines| == 1 then lines[0]
    else Join(lines[..|lines| - 1]) + "\n" + lines[|lines| - 1]
  }

  lemma JoinLast(lines: seq<string>, x: string)
    requires lines != []
    ensures Join(lines + [x]) == Join(lines) + "\n" + x
  {
    assert (lines + [x])[..|lines|] == lines;
  }

  lemma {:induction false} JoinExtend(lines: seq<string>, c: char)
    requires lines != []
    ensures Join(lines[..|lines| - 1] + [lines[|lines| - 1] + [c]]) == Join(lines) + [c]
  {
    var front := lines[..|lines| - 1];
    var last := lines[|lines| - 1];
    if front == [] {
      assert lines == [last];
    } else {
      JoinLast(front, last + [c]);
      assert Join(front) + "\n" + (last + [c]) == Join(front) + "\n" + last + [c];
    }
  }

  lemma {:induction false} JoinSplit(s: string)
    ensures Join(Split(s)) == s
    decreases |s|
  {
    if s != [] {
      var t := Split(s[..|s| - 1]);
      var c := s[|s| - 1];
      JoinSplit(s[..|s| - 1]);
      assert s == s[..|s| - 1] + [c];
      if c == '\n' {
        JoinLast(t, "");
        assert Join(t) + "\n" + "" == Join(t) + [c];
      } else {
        JoinExtend(t, c);
      }
    }
  }

  lemma {:induction false} SplitAppendLine(s: string, x: string)
    requires OneLine(x)
    ensures Split(s + "\n" + x) == Split(s) + [x]
    decreases |x|
  {
    var whole := s + "\n" + x;
    if x == [] {
      assert whole[..|whole| - 1] == s;
    } else {
      var y := x[..|x| - 1];
      SplitAppendLine(s, y);
      assert whole[..|whole| - 1] == s + "\n" + y;
      assert y + [x[|x| - 1]] == x;
      assert (Split(s) + [y])[..|Split(s)|] == Split(s);
    }
  }

  lemma {:induction false} SplitOneLine(x: string)
    requires OneLine(x)
    ensures Split(x) == [x]
    decreases |x|
  {
    if x != [] {
      SplitOneLine(x[..|x| - 1]);
      assert x[..|x| - 1] + [x[|x| - 1]] == x;
    }
  }

  lemma {:induction false} SplitJoin(lines: seq<string>)
    requires lines != [] && forall k :: 0 <= k < |lines| ==> OneLine(lines[k])
    ensures Split(Join(lines)) == lines
    decreases |lines|
  {
    hide Split;
    if |lines| == 1 {
      SplitOneLine(lines[0]);
    } else {
      var front := lines[..|lines| - 1];
      SplitJoin(front);
      SplitAppendLine(Join(front), lines[|lines| - 1]);
    }
  }

  // ----- keys and values -----

  /** The position of the first '#' outside quotes, scanning from i in the given
      quote state; a backslash escapes only inside double quotes. */
  function HashFrom(v: string, i: nat, single: bool, double: bool, escaped: bool): (r: Option<nat>)
    requires i <= |v|
    ensures r.Some? ==> i <= r.value < |v|
    decreases |v| - i
  {
    if i == |v| then None
    else if escaped then HashFrom(v, i + 1, single, double, false)
    else if v[i] == '\\' && double then HashFrom(v, i + 1, single, double, true)
    else if v[i] == '\'' then HashFrom(v, i + 1, if double then single else !single, double, false)
    else if v[i] == '"' then HashFrom(v, i + 1, single, if single then double else !double, false)
    else if v[i] == '#' && !single && !double then Some(i)
    else HashFrom(v, i + 1, single, double, false)
  }

  function StripComment(v: string): string {
    var h := HashFrom(v, 0, false, false, false);
    if h.Some? then TrimSpace(v[..h.value]) else TrimSpace(v)
  }

  /** The quote-state loop of the source. */
  method StripEnvInlineComment(v: string) returns (r: string)
    ensures r == StripComment(v)
  {
    var inSingle, inDouble, escapeNext := false, false, false;
    var i := 0;
    while i < |v|
      invariant 0 <= i <= |v|
      invariant HashFrom(v, 0, false, false, false) == HashFrom(v, i, inSingle, inDouble, escapeNext)
    {
      var c := v[i];
      if escapeNext {
        escapeNext := false;
      } else if c == '\\' && inDouble {
        escapeNext := true;
      } else if c == '\'' {
        if !inDouble {
          inSingle := !inSingle;
        }
      } else if c == '"' {
        if !inSingle {
          inDouble := !inDouble;
        }
      } else if c == '#' {
        if !inSingle && !inDouble {
          return TrimSpace(v[..i]);
        }
      }
      i := i + 1;
    }
    r := TrimSpace(v);
  }

  predicate Quoted(v: string) {
    |v| >= 2 && ((v[0] == '"' && v[|v| - 1] == '"') || (v[0] == '\'' && v[|v| - 1] == '\''))
  }

  function Unquote(v: string): string {
    if Quoted(v) then v[1..|v| - 1] else v
  }

  const EXPORT := "export "

  predicate IsExport(trimmed: string) {
    EXPORT <= trimmed
  }

  datatype Entry = Entry(key: string, value: string)

  /** A trimmed, non-comment text cut at its first '='. */
  function ParseAssignment(t: string): Option<Entry> {
    var eq := FirstIndex(t, '=');
    if eq.None? then None
    else Some(Entry(TrimSpace(t[..eq.value]), Unquote(TrimSpace(StripComment(t[eq.value + 1..])))))
  }

  function ParseLine(line: string): Option<Entry> {
    var t := TrimSpace(line);
    if t == [] || t[0] == '#' then None
    else ParseAssignment(if IsExport(t) then TrimSpace(t[|EXPORT|..]) else t)
  }

  /** The map a file declares; a later line for the same key wins. */
  function ParseLines(lines: seq<string>): map<string, string>
    decreases |lines|
  {
    if lines == [] then map[] else
      var m := ParseLines(lines[..|lines| - 1]);
      var e := ParseLine(lines[|lines| - 1]);
      if e.Some? then m[e.value.key := e.value.value] else m
  }

  function ReadRaw(raw: string): map<string, string> {
    ParseLines(Split(raw))
  }

  method ReadRawFile(raw: string) returns (out: map<string, string>)
    ensures out == ReadRaw(raw)
  {
    hide ParseLine, Split;
    out := map[];
    var lines := Split(raw);
    var i := 0;
    while i < |lines|
      invariant 0 <= i <= |lines|
      invariant out == ParseLines(lines[..i])
    {
      var e := ParseLine(lines[i]);
      if e.Some? {
        out := out[e.value.key := e.value.value];
      }
      i := i + 1;
      assert lines[..i][..i - 1] == lines[..i - 1];
    }
    assert lines[..i] == lines;
  }

  // ----- the key a line is filed under by the editor, which ignores "export" -----

  function CutKey(line: string): Option<string> {
    var t := TrimSpace(line);
    if t == [] || t[0] == '#' then None else
    var eq := FirstIndex(t, '=');
    if eq.None? then None else Some(TrimSpace(t[..eq.value]))
  }

  /** The shape of every managed key: upper-case letters, digits, underscores. */
  predicate IsKeyChar(c: char) {
    'A' <= c <= 'Z' || '0' <= c <= '9' || c == '_'
  }

  ghost predicate IsKey(k: string) {
    k != [] && forall i :: 0 <= i < |k| ==> IsKeyChar(k[i])
  }

  lemma TrimOfKey(k: string)
    requires IsKey(k)
    ensures TrimSpace(k) == k
  {
    assert IsKeyChar(k[0]) && IsKeyChar(k[|k| - 1]);
  }

  /** A prefix of trimmed text keeps its first character through trimming. */
  lemma TrimKeepsFirst(t: string, n: nat)
    requires n <= |t| && t != [] && !IsSpace(t[0]) && TrimSpace(t[..n]) != []
    ensures TrimSpace(t[..n])[0] == t[0]
  {
    var b := t[..n];
    assert b != [];
    assert TrimLeft(b) == b;
  }

  /** A line the editor files under a managed key is read back under that key. */
  lemma FiledLineIsRead(line: string, k: string)
    requires CutKey(line) == Some(k) && IsKey(k)
    ensures ParseLine(line).Some? && ParseLine(line).value.key == k && !IsExport(TrimSpace(line))
  {
    hide TrimLeft, TrimRight, FirstIndex, StripComment, Unquote;
    var t := TrimSpace(line);
    var eq := FirstIndex(t, '=').value;
    TrimKeepsFirst(t, eq);
    assert IsKeyChar(k[0]);
    assert t[0] == k[0];
    assert EXPORT[0] == 'e';
  }

  /** A line read under k is filed under k unless it starts with "export ". */
  lemma ReadLineIsFiled(line: string, k: string)
    requires ParseLine(line).Some? && ParseLine(line).value.key == k && !IsExport(TrimSpace(line))
    ensures CutKey(line) == Some(k)
  {
  }

  // ----- the line the editor writes -----

  function Assignment(k: string, v: string): string {
    k + "=" + v
  }

  /** What a written value is read back as. */
  function ReadBack(v: string): string {
    Unquote(TrimSpace(StripComment(TrimRight(v))))
  }

  lemma TrimOfAssignment(k: string, v: string)
    requires IsKey(k)
    ensures TrimSpace(Assignment(k, v)) == Assignment(k, TrimRight(v))
  {
    assert IsKeyChar(k[0]);
    var head := k + "=";
    assert Assignment(k, v) == head + v && Assignment(k, TrimRight(v)) == head + TrimRight(v);
    assert TrimLeft(head + v) == head + v;
    TrimRightAppend(head, v);
  }

  lemma EqualsOfAssignment(k: string, v: string)
    requires IsKey(k)
    ensures FirstIndex(Assignment(k, v), '=') == Some(|k|)
  {
    var a := Assignment(k, v);
    assert a[|k|] == '=';
    forall i | 0 <= i < |k| ensures a[i] != '=' {
      assert a[i] == k[i] && IsKeyChar(k[i]);
    }
  }

  lemma AssignmentIsRead(k: string, v: string)
    requires IsKey(k)
    ensures ParseLine(Assignment(k, v)) == Some(Entry(k, ReadBack(v)))
    ensures CutKey(Assignment(k, v)) == Some(k)
  {
    hide TrimLeft, TrimRight, TrimSpace, FirstIndex, StripComment, Unquote;
    var t := Assignment(k, TrimRight(v));
    TrimOfAssignment(k, v);
    EqualsOfAssignment(k, TrimRight(v));
    TrimOfKey(k);
    assert t[0] == k[0] && IsKeyChar(k[0]);
    assert t[..|k|] == k && t[|k| + 1..] == TrimRight(v);
    assert EXPORT[0] == 'e';
  }

  /** A value that survives being written and read. */
  predicate Plain(v: string) {
    TrimSpace(v) == v && HashFrom(v, 0, false, false, false).None? && !Quoted(v)
  }

  lemma TrimShrinks(s: string)
    ensures |TrimSpace(s)| <= |s|
    ensures |TrimSpace(s)| == |s| ==> TrimSpace(s) == s
  {
    hide TrimLeft, TrimRight;
  }

  lemma UnquoteShrinks(s: string)
    ensures |Unquote(s)| <= |s|
    ensures |Unquote(s)| == |s| <==> !Quoted(s)
  {
  }

  /** Removing a comment from text that has no white space to trim. */
  lemma StripShrinks(v: string)
    ensures |StripComment(v)| <= |v|
    ensures |StripComment(v)| == |v| ==> HashFrom(v, 0, false, false, false).None? && StripComment(v) == v && TrimSpace(v) == v
    ensures HashFrom(v, 0, false, false, false).None? ==> StripComment(v) == TrimSpace(v)
  {
    hide HashFrom, TrimSpace;
    TrimShrinks(v);
    var h := HashFrom(v, 0, false, false, false);
    if h.Some? {
      TrimShrinks(v[..h.value]);
    }
  }

  lemma TrimRightOfTrimmed(v: string)
    requires TrimSpace(v) == v
    ensures TrimRight(v) == v
  {
    TrimIdentity(v);
  }

  /** Exactly the plain values survive: no white space at either end, no '#'
      outside quotes, no pair of surrounding quotes. */
  lemma PlainExactlyWhenReadBack(v: string)
    ensures ReadBack(v) == v <==> Plain(v)
  {
    hide TrimRight, TrimSpace, StripComment, HashFrom, Unquote;
    var w := TrimRight(v);
    StripShrinks(w);
    TrimShrinks(StripComment(w));
    UnquoteShrinks(TrimSpace(StripComment(w)));
    if Plain(v) {
      TrimRightOfTrimmed(v);
      UnquoteOfBare(v);
    }
    if ReadBack(v) == v {
      assert |w| == |v|;
      assert w == v;
    }
  }

  lemma UnquoteOfBare(v: string)
    requires !Quoted(v)
    ensures Unquote(v) == v
  {
  }
}
