/** The conversation log: one JSON record per line, read through a bounded buffer
    (internal/agentsession/conversation.go). */
module LineReader {
  import opened Common

  function Chomp(s: string): string {
    if s != [] && s[|s| - 1] == '\r' then s[..|s| - 1] else s
  }

  /** What splitting the log into lines means, whatever the buffer size: up to the
      first newline, without a carriage return before it; at the end of the file
      the remainder as it is. */
  function Line(s: string): string {
    var n := FirstIndex(s, '\n');
    if n.None? then s else Chomp(s[..n.value])
  }

  function Tail(s: string): (r: string)
    ensures s != [] ==> |r| < |s|
  {
    var n := FirstIndex(s, '\n');
    if n.None? then "" else s[n.value + 1..]
  }

  // ----- the buffered reader -----

  /** A place where the read buffer may be full: inside the first line and not
      between a carriage return and its newline. */
  predicate Cut(s: string, n: nat) {
    0 < n <= |s| && '\n' !in s[..n] && !(s[n - 1] == '\r' && n < |s| && s[n] == '\n')
  }

  lemma NewlineIsFirst(s: string, i: nat)
    requires i < |s| && s[i] == '\n' && forall k :: 0 <= k < i ==> s[k] != '\n'
    ensures FirstIndex(s, '\n') == Some(i)
  {
  }

  /** Reading a line in two pieces is reading it in one. */
  lemma CutLine(s: string, n: nat)
    requires Cut(s, n)
    ensures Line(s) == s[..n] + Line(s[n..]) && Tail(s) == Tail(s[n..])
  {
    hide FirstIndex;
    assert forall k :: 0 <= k < n ==> s[..n][k] == s[k];
    var i := FirstIndex(s, '\n');
    if i.None? {
      assert s == s[..n] + s[n..];
      assert FirstIndex(s[n..], '\n').None?;
    } else {
      var rest := s[n..];
      NewlineIsFirst(rest, i.value - n);
      assert s[..i.value] == s[..n] + rest[..i.value - n];
      assert s[i.value + 1..] == rest[i.value - n + 1..];
      if i.value == n {
        assert s[..i.value][|s[..i.value]| - 1] == s[n - 1];
      }
    }
  }

  /** The unread input behind a buffer of any size: every ReadLine may stop at any
      cut, which covers every buffer size and every way the bytes arrive. */
  class BufferedReader {
    var rest: string

    constructor (s: string)
      ensures rest == s
    {
      rest := s;
    }

    /** A fragment of the current line, or its end, or the end of the file. */
    method ReadLine() returns (frag: string, isPrefix: bool, eof: bool)
      modifies this
      ensures eof == (old(rest) == "")
      ensures eof ==> rest == "" && frag == ""
      ensures !eof && isPrefix ==> frag != "" && old(rest) == frag + rest
      ensures !eof && isPrefix ==> Line(old(rest)) == frag + Line(rest) && Tail(old(rest)) == Tail(rest)
      ensures !eof && !isPrefix ==> frag == Line(old(rest)) && rest == Tail(old(rest))
    {
      hide Line, Tail;
      if rest == "" {
        return "", false, true;
      }
      var n: nat := *;
      if Cut(rest, n) {
        CutLine(rest, n);
        frag, rest := rest[..n], rest[n..];
        return frag, true, false;
      }
      frag, rest := Line(rest), Tail(rest);
      return frag, false, false;
    }
  }

  /** Assemble one line of at most maxLen characters, draining a longer one. The
      peak is the most the assembly buffer ever holds. */
  method ReadLogicalLine(br: BufferedReader, maxLen: nat) returns (line: string, oversized: bool, eof: bool, ghost peak: nat)
    modifies br
    ensures peak <= maxLen && |line| <= peak
    ensures oversized == (|Line(old(br.rest))| > maxLen)
    ensures line == if oversized then "" else Line(old(br.rest))
    ensures br.rest == Tail(old(br.rest))
    ensures old(br.rest) == "" ==> eof
    ensures eof ==> line == "" && br.rest == ""
  {
    ghost var start := br.rest;
    ghost var taken := "";
    var buf := "";
    oversized, peak := false, 0;
    while true
      invariant Line(start) == taken + Line(br.rest) && Tail(start) == Tail(br.rest)
      invariant oversized == (|taken| > maxLen) && buf == (if oversized then "" else taken)
      invariant taken == "" ==> br.rest == start
      invariant |buf| <= peak <= maxLen
      decreases |br.rest|
    {
      var frag, isPrefix, e := br.ReadLine();
      if e {
        assert taken + Line("") == taken;
        if |buf| > 0 {
          return buf, oversized, false, peak;
        }
        return "", oversized, true, peak;
      }
      if !oversized && |buf| + |frag| > maxLen {
        oversized := true;
        buf := "";
      }
      if !oversized {
        buf := buf + frag;
      }
      peak := if |buf| > peak then |buf| else peak;
      ghost var before := taken;
      taken := taken + frag;
      if !isPrefix {
        return buf, oversized, false, peak;
      }
      assert before + (frag + Line(br.rest)) == taken + Line(br.rest);
    }
  }

  // ----- the messages of a log -----

  /** What one line contributes: nothing when it is empty, too long or malformed. */
  function Record<M>(line: string, maxLen: nat, decode: string -> Option<M>): seq<M> {
    if |line| > maxLen || line == "" then []
    else match decode(line)
      case None => []
      case Some(m) => [m]
  }

  function Messages<M>(s: string, maxLen: nat, decode: string -> Option<M>): seq<M>
    decreases |s|
  {
    if s == "" then [] else Record(Line(s), maxLen, decode) + Messages(Tail(s), maxLen, decode)
  }

  lemma MessagesAdvance<M>(sofar: seq<M>, s: string, maxLen: nat, decode: string -> Option<M>)
    requires s != ""
    ensures sofar + Messages(s, maxLen, decode) == (sofar + Record(Line(s), maxLen, decode)) + Messages(Tail(s), maxLen, decode)
  {
    hide Line, Tail, Record;
  }

  lemma MessagesOfNothing<M>(maxLen: nat, decode: string -> Option<M>)
    ensures Messages("", maxLen, decode) == [] && Line("") == "" && Tail("") == ""
  {
  }

  method ReadMessages<M>(br: BufferedReader, maxLen: nat, decode: string -> Option<M>) returns (msgs: seq<M>)
    modifies br
    ensures msgs == Messages(old(br.rest), maxLen, decode) && br.rest == ""
  {
    hide Line, Tail, Messages;
    msgs := [];
    MessagesOfNothing(maxLen, decode);
    ghost var all := Messages(br.rest, maxLen, decode);
    assert msgs + all == all;
    while true
      invariant msgs + Messages(br.rest, maxLen, decode) == all
      decreases |br.rest|
    {
      ghost var before, sofar := br.rest, msgs;
      var line, oversized, eof, peak := ReadLogicalLine(br, maxLen);
      if !oversized && |line| > 0 {
        var m := decode(line);
        if m.Some? {
          msgs := msgs + [m.value];
        }
      }
      assert msgs == sofar + Record(Line(before), maxLen, decode);
      if before != "" {
        MessagesAdvance(sofar, before, maxLen, decode);
      }
      if eof {
        return;
      }
    }
  }

  // ----- appending and reading back -----

  /** The file as far as its last newline, and what a torn append left after it. */
  function TornFrom(s: string): (n: nat)
    ensures n <= |s| && (n == 0 || s[n - 1] == '\n') && forall k :: n <= k < |s| ==> s[k] != '\n'
  {
    if s == [] || s[|s| - 1] == '\n' then |s| else TornFrom(s[..|s| - 1])
  }

  function Whole(s: string): string {
    s[..TornFrom(s)]
  }

  function Torn(s: string): string {
    s[TornFrom(s)..]
  }

  predicate Complete(s: string) {
    s == "" || s[|s| - 1] == '\n'
  }

  ghost predicate NoNewline(s: string) {
    forall k :: 0 <= k < |s| ==> s[k] != '\n'
  }

  lemma LineOfConcat(a: string, b: string)
    requires FirstIndex(a, '\n').Some?
    ensures Line(a + b) == Line(a) && Tail(a + b) == Tail(a) + b
  {
    hide FirstIndex, Chomp;
    var i := FirstIndex(a, '\n').value;
    NewlineIsFirst(a + b, i);
    SlicesOfConcat(a, b, i);
  }

  lemma SlicesOfConcat(a: string, b: string, i: nat)
    requires i < |a|
    ensures (a + b)[..i] == a[..i] && (a + b)[i + 1..] == a[i + 1..] + b
  {
  }

  lemma TailOfComplete(a: string)
    requires Complete(a) && a != ""
    ensures FirstIndex(a, '\n').Some? && Complete(Tail(a))
  {
    hide FirstIndex;
    var t := Tail(a);
    assert t != "" ==> t[|t| - 1] == a[|a| - 1];
  }

  lemma {:induction false} MessagesConcat<M>(a: string, b: string, maxLen: nat, decode: string -> Option<M>)
    requires Complete(a)
    ensures Messages(a + b, maxLen, decode) == Messages(a, maxLen, decode) + Messages(b, maxLen, decode)
    decreases |a|
  {
    hide FirstIndex, Line, Tail, Record, Complete;
    if a == "" {
      assert a + b == b;
    } else {
      TailOfComplete(a);
      LineOfConcat(a, b);
      MessagesConcat(Tail(a), b, maxLen, decode);
    }
  }

  lemma MessagesOfOne<M>(x: string, maxLen: nat, decode: string -> Option<M>)
    requires NoNewline(x)
    ensures Messages(x + "\n", maxLen, decode) == Record(Chomp(x), maxLen, decode)
  {
    var s := x + "\n";
    NewlineIsFirst(s, |x|);
    hide FirstIndex, Record;
    assert s[..|x|] == x && s[|x| + 1..] == "";
  }

  /** What appending a record makes of any file: the complete lines read as before,
      and the record is read together with whatever a torn append left. */
  lemma AppendLaw<M>(s: string, e: string, maxLen: nat, decode: string -> Option<M>)
    requires NoNewline(e)
    ensures Messages(s + e + "\n", maxLen, decode) ==
      Messages(Whole(s), maxLen, decode) + Record(Chomp(Torn(s) + e), maxLen, decode)
  {
    hide Messages, Record;
    assert s + e + "\n" == Whole(s) + (Torn(s) + e + "\n");
    MessagesConcat(Whole(s), Torn(s) + e + "\n", maxLen, decode);
    MessagesOfOne(Torn(s) + e, maxLen, decode);
  }

  /** The records of a log, each on a line of its own. */
  function Log<M>(ms: seq<M>, encode: M -> string): string
    decreases |ms|
  {
    if ms == [] then "" else Log(ms[..|ms| - 1], encode) + encode(ms[|ms| - 1]) + "\n"
  }

  ghost predicate Faithful<M>(m: M, encode: M -> string, decode: string -> Option<M>) {
    && NoNewline(encode(m)) && encode(m) != "" && Chomp(encode(m)) == encode(m)
    && decode(encode(m)) == Some(m)
  }

  /** The messages whose record fits under the cap, in order. */
  function Fitting<M>(ms: seq<M>, encode: M -> string, maxLen: nat): seq<M>
    decreases |ms|
  {
    if ms == [] then [] else
      Fitting(ms[..|ms| - 1], encode, maxLen) + (if |encode(ms[|ms| - 1])| <= maxLen then [ms[|ms| - 1]] else [])
  }

  lemma LogIsComplete<M>(ms: seq<M>, encode: M -> string)
    ensures Complete(Log(ms, encode))
  {
  }

  /** Every message appended under the cap is read back, in order; one over the cap
      is skipped and loses nothing else. */
  lemma {:induction false} RoundTrip<M>(ms: seq<M>, maxLen: nat, encode: M -> string, decode: string -> Option<M>)
    requires forall i :: 0 <= i < |ms| ==> Faithful(ms[i], encode, decode)
    ensures Messages(Log(ms, encode), maxLen, decode) == Fitting(ms, encode, maxLen)
    decreases |ms|
  {
    if ms != [] {
      var front, m := ms[..|ms| - 1], ms[|ms| - 1];
      assert Faithful(ms[|ms| - 1], encode, decode);
      assert forall i :: 0 <= i < |front| ==> front[i] == ms[i];
      RoundTrip(front, maxLen, encode, decode);
      LogIsComplete(front, encode);
      hide Messages, Faithful, Chomp;
      AppendLaw(Log(front, encode), encode(m), maxLen, decode);
      CompleteIsWhole(Log(front, encode));
      FaithfulRecord(m, maxLen, encode, decode);
      assert "" + encode(m) == encode(m);
    }
  }

  lemma FaithfulRecord<M>(m: M, maxLen: nat, encode: M -> string, decode: string -> Option<M>)
    requires Faithful(m, encode, decode)
    ensures NoNewline(encode(m))
    ensures Record(Chomp(encode(m)), maxLen, decode) == if |encode(m)| <= maxLen then [m] else []
  {
  }

  lemma CompleteIsWhole(s: string)
    requires Complete(s)
    ensures Whole(s) == s && Torn(s) == ""
  {
  }

  /** The log on disk. */
  class ConversationStore<M> {
    var log: string
    const encode: M -> string
    const decode: string -> Option<M>
    const maxLen: nat

    constructor (encode: M -> string, decode: string -> Option<M>, maxLen: nat)
      ensures this.encode == encode && this.decode == decode && this.maxLen == maxLen && log == ""
    {
      this.encode, this.decode, this.maxLen, log := encode, decode, maxLen, "";
    }

    /** Appends one record. On a file whose last append was whole, a message that
        encodes faithfully is read back after all the others exactly when its
        record fits. */
    method AppendMessage(m: M)
      modifies `log
      ensures log == old(log) + encode(m) + "\n" && Complete(log)
      ensures Complete(old(log)) && Faithful(m, encode, decode) ==>
        Messages(log, maxLen, decode) == Messages(old(log), maxLen, decode) + (if |encode(m)| <= maxLen then [m] else [])
    {
      if Complete(log) && Faithful(m, encode, decode) {
        FaithfulRecord(m, maxLen, encode, decode);
        AppendLaw(log, encode(m), maxLen, decode);
        CompleteIsWhole(log);
        assert "" + encode(m) == encode(m);
      }
      log := log + encode(m) + "\n";
    }

    method ReadAll() returns (msgs: seq<M>)
      ensures msgs == Messages(log, maxLen, decode)
    {
      var br := new BufferedReader(log);
      msgs := ReadMessages(br, maxLen, decode);
    }
  }
}
