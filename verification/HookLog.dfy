/** A hook's output, split into lines however the writes fall. */
module HookLog {
  import opened Basics

  const NEWLINE: char := '\n'
  const RETURN: char := '\r'

  function TrimReturns(line: string): string {
    if line != "" && line[|line| - 1] == RETURN then TrimReturns(line[..|line| - 1]) else line
  }

  /** One line as logged: nothing when it is empty after trimming. */
  function Logged(line: string): seq<string> {
    var t := TrimReturns(line);
    if t == "" then [] else [t]
  }

  /** The position of the first newline, or the length. */
  function FirstNewline(s: string): (i: nat)
    ensures i <= |s|
    ensures i < |s| ==> s[i] == NEWLINE
    ensures forall j :: 0 <= j < i ==> s[j] != NEWLINE
  {
    if s == "" || s[0] == NEWLINE then 0 else 1 + FirstNewline(s[1..])
  }

  /** strings.Split at newlines, defined on its own: always at least one piece. */
  function Split(s: string): (lines: seq<string>)
    ensures lines != []
  {
    if s == "" then [""]
    else
      var rest := Split(s[1..]);
      if s[0] == NEWLINE then [""] + rest
      else [[s[0]] + rest[0]] + rest[1..]
  }

  function LoggedAll(lines: seq<string>): seq<string> {
    if lines == [] then [] else Logged(lines[0]) + LoggedAll(lines[1..])
  }

  /** What the whole output should leave in the log. */
  function Lines(output: string): seq<string> {
    LoggedAll(Split(output))
  }

  lemma {:induction false} SplitAtFirstNewline(s: string)
    ensures var i := FirstNewline(s);
            Split(s) == if i == |s| then [s] else [s[..i]] + Split(s[i + 1..])
  {
    var i := FirstNewline(s);
    if s != "" && s[0] != NEWLINE {
      SplitAtFirstNewline(s[1..]);
      if i == |s| {
        assert [s[0]] + s[1..] == s;
      } else {
        assert s[1..][..i - 1] == s[1..i] && [s[0]] + s[1..i] == s[..i];
        assert s[1..][i..] == s[i + 1..];
      }
    } else if s != "" {
      assert s[..0] == "";
    }
  }

  lemma LoggedAllCons(line: string, rest: seq<string>)
    ensures LoggedAll([line] + rest) == Logged(line) + LoggedAll(rest)
  {
    assert ([line] + rest)[1..] == rest;
  }

  /** What the lines that a newline already ended leave in the log. */
  function Complete(s: string): seq<string>
    decreases |s|
  {
    var i := FirstNewline(s);
    if i == |s| then [] else Logged(s[..i]) + Complete(s[i + 1..])
  }

  /** What follows the last newline. */
  function Tail(s: string): (t: string)
    ensures FirstNewline(t) == |t|
    decreases |s|
  {
    var i := FirstNewline(s);
    if i == |s| then s else Tail(s[i + 1..])
  }

  lemma Unfold(s: string, i: nat)
    requires i == FirstNewline(s) < |s|
    ensures Complete(s) == Logged(s[..i]) + Complete(s[i + 1..])
    ensures Tail(s) == Tail(s[i + 1..])
  {
  }

  lemma LoggedOne(line: string)
    ensures LoggedAll([line]) == Logged(line)
  {
    LoggedAllCons(line, []);
    assert [line] + [] == [line];
  }

  lemma LinesWithoutNewline(s: string)
    requires FirstNewline(s) == |s|
    ensures Lines(s) == Logged(s)
  {
    SplitAtFirstNewline(s);
    LoggedOne(s);
  }

  lemma LinesAfterNewline(s: string, line: string, rest: string)
    requires FirstNewline(s) < |s| && line == s[..FirstNewline(s)] && rest == s[FirstNewline(s) + 1..]
    ensures Lines(s) == Logged(line) + Lines(rest)
  {
    SplitAtFirstNewline(s);
    LoggedAllCons(line, Split(rest));
  }

  /** The lines of an output are its complete ones and what is left. */
  lemma {:induction false} LinesAreCompleteAndTail(s: string)
    ensures Lines(s) == Complete(s) + Logged(Tail(s))
    decreases |s|
  {
    var i := FirstNewline(s);
    if i == |s| {
      LinesWithoutNewline(s);
    } else {
      var rest := s[i + 1..];
      LinesAfterNewline(s, s[..i], rest);
      LinesAreCompleteAndTail(rest);
      Unfold(s, i);
      Assoc(Logged(s[..i]), Complete(rest), Logged(Tail(rest)));
    }
  }

  lemma {:induction false} FirstNewlineOfExtended(s: string, t: string)
    requires FirstNewline(s) < |s|
    ensures FirstNewline(s + t) == FirstNewline(s)
  {
    if s[0] != NEWLINE {
      assert (s + t)[1..] == s[1..] + t;
      FirstNewlineOfExtended(s[1..], t);
    }
  }

  /** Output that comes later only ever meets the tail. */
  lemma {:induction false} CompleteOfExtended(s: string, t: string)
    ensures Complete(s + t) == Complete(s) + Complete(Tail(s) + t)
    ensures Tail(s + t) == Tail(Tail(s) + t)
    decreases |s|
  {
    var i := FirstNewline(s);
    if i < |s| {
      FirstNewlineOfExtended(s, t);
      assert (s + t)[..i] == s[..i] && (s + t)[i + 1..] == s[i + 1..] + t;
      var rest := s[i + 1..];
      CompleteOfExtended(rest, t);
      Unfold(s, i);
      Unfold(s + t, i);
      Assoc(Logged(s[..i]), Complete(rest), Complete(Tail(rest) + t));
    } else {
      assert [] + Complete(s + t) == Complete(s + t);
    }
  }

  class Writer {
    var buf: string
    var log: seq<string> // what reached the logger, in order
    ghost var written: string // every byte written so far

    ghost predicate Valid()
      reads this
    {
      buf == Tail(written) && log == Complete(written)
    }

    constructor ()
      ensures Valid() && log == [] && written == ""
    {
      buf, log, written := "", [], "";
    }

    method Emit(line: string)
      modifies this`log
      ensures log == old(log) + Logged(line)
    {
      var t := line;
      while t != "" && t[|t| - 1] == RETURN
        invariant TrimReturns(t) == TrimReturns(line)
        decreases |t|
      {
        t := t[..|t| - 1];
      }
      if t != "" { log := log + [t]; }
    }

    /** Every complete line goes to the log; the rest waits in the buffer. */
    method Write(p: string)
      requires Valid()
      modifies this
      ensures Valid() && written == old(written) + p
    {
      CompleteOfExtended(written, p);
      buf, written := buf + p, written + p;
      var i := FirstNewline(buf);
      while i < |buf|
        invariant i == FirstNewline(buf)
        invariant written == old(written) + p
        invariant log + Complete(buf) == Complete(written)
        invariant Tail(buf) == Tail(written)
        decreases |buf|
      {
        Unfold(buf, i);
        Assoc(log, Logged(buf[..i]), Complete(buf[i + 1..]));
        Emit(buf[..i]);
        buf := buf[i + 1..];
        i := FirstNewline(buf);
      }
      assert log + [] == log;
    }

    /** After the last write: the log holds exactly the lines of everything written. */
    method Flush()
      requires Valid()
      modifies this
      ensures log == Lines(written) && written == old(written)
    {
      LinesAreCompleteAndTail(written);
      if |buf| > 0 {
        Emit(buf);
        buf := "";
      } else {
        assert log + [] == log;
      }
    }
  }

  function Concat(writes: seq<string>): string {
    if writes == [] then "" else writes[0] + Concat(writes[1..])
  }

  /** However the output is cut into writes, the log is the same. */
  method LogHook(writes: seq<string>) returns (log: seq<string>)
    ensures log == Lines(Concat(writes))
  {
    var w := new Writer();
    for i := 0 to |writes|
      invariant w.Valid() && fresh(w)
      invariant w.written + Concat(writes[i..]) == Concat(writes)
    {
      assert writes[i..][0] == writes[i] && writes[i..][1..] == writes[i + 1..];
      assert (w.written + writes[i]) + Concat(writes[i + 1..]) == w.written + (writes[i] + Concat(writes[i + 1..]));
      w.Write(writes[i]);
    }
    assert writes[|writes|..] == [];
    assert w.written + "" == w.written;
    w.Flush();
    log := w.log;
  }

  // ---- what the lines are ----

  function Join(lines: seq<string>): string
    requires lines != []
  {
    if |lines| == 1 then lines[0] else lines[0] + [NEWLINE] + Join(lines[1..])
  }

  /** The pieces, joined by newlines, are the output, and none holds a newline: there is only one such cut. */
  lemma {:induction false} JoinInvertsSplit(s: string)
    ensures Join(Split(s)) == s
    ensures forall line :: line in Split(s) ==> '\n' !in line
  {
    if s != "" {
      JoinInvertsSplit(s[1..]);
      var rest := Split(s[1..]);
      if s[0] == NEWLINE {
        assert ([""] + rest)[1..] == rest;
        assert [""] + rest != [""];
        assert s == [NEWLINE] + s[1..];
      } else {
        var lines := [[s[0]] + rest[0]] + rest[1..];
        assert lines[1..] == rest[1..];
        assert s == [s[0]] + s[1..];
        assert rest[0] in rest && forall line :: line in rest[1..] ==> line in rest;
      }
    }
  }

  /** Trimming takes off trailing carriage returns, all of them, and nothing else. */
  lemma {:induction false} TrimTakesReturns(line: string)
    ensures var t := TrimReturns(line);
            && t <= line
            && (forall i :: |t| <= i < |line| ==> line[i] == '\r')
            && (t != "" ==> t[|t| - 1] != '\r')
  {
    if line != "" && line[|line| - 1] == RETURN {
      TrimTakesReturns(line[..|line| - 1]);
    }
  }

  /** The log holds the trimmed pieces in order, without the empty ones. */
  lemma {:induction false} LoggedInOrder(a: seq<string>, line: string)
    ensures LoggedAll([]) == []
    ensures LoggedAll(a + [line]) == LoggedAll(a) + if TrimReturns(line) == "" then [] else [TrimReturns(line)]
  {
    if a == [] {
      LoggedOne(line);
      assert a + [line] == [line];
    } else {
      LoggedInOrder(a[1..], line);
      assert a + [line] == [a[0]] + (a[1..] + [line]);
      LoggedAllCons(a[0], a[1..] + [line]);
      Assoc(Logged(a[0]), LoggedAll(a[1..]), Logged(line));
    }
  }
}
