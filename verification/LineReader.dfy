/** The line buffer of the sensor bridge (src/monitor/lhm_bridge.cpp): bytes arrive from a pipe in arbitrary
  * chunks, complete lines are taken off the front, and the last one taken is the one that is used. */
module LineReader {
  import opened Sequences

  /** The complete lines of `s`, without their newlines. */
  ghost function Lines(s: string): seq<string> {
    if s == [] then [] else
      var front := s[..|s| - 1];
      if s[|s| - 1] == '\n' then Lines(front) + [Rest(front)] else Lines(front)
  }

  /** The text after the last newline of `s`. */
  ghost function Rest(s: string): string {
    if s == [] || s[|s| - 1] == '\n' then [] else Rest(s[..|s| - 1]) + [s[|s| - 1]]
  }

  ghost function Unlines(lines: seq<string>): string {
    if lines == [] then [] else Unlines(lines[..|lines| - 1]) + lines[|lines| - 1] + "\n"
  }

  lemma UnlinesSnoc(lines: seq<string>, line: string)
    ensures Unlines(lines + [line]) == Unlines(lines) + line + "\n"
  {
    FrontOfSnoc(lines, line);
  }

  /** Putting the newlines back gives the text, and neither the lines nor the rest contain one. */
  lemma {:induction false} SplitIsExact(s: string)
    ensures Unlines(Lines(s)) + Rest(s) == s
    ensures '\n' !in Rest(s)
    ensures forall l :: l in Lines(s) ==> '\n' !in l
  {
    if s == [] {
    } else {
      var front := s[..|s| - 1];
      SplitIsExact(front);
      FrontAndLast(s);
      if s[|s| - 1] == '\n' {
        FrontOfSnoc(Lines(front), Rest(front));
        UnlinesSnoc(Lines(front), Rest(front));
      }
    }
  }

  lemma SplitSnoc(s: string, c: char)
    ensures Lines(s + [c]) == if c == '\n' then Lines(s) + [Rest(s)] else Lines(s)
    ensures Rest(s + [c]) == if c == '\n' then [] else Rest(s) + [c]
  {
    FrontOfSnoc(s, c);
  }

  /** What has been split off already does not influence how the following text is split. */
  lemma {:induction false} SplitAppend(a: string, b: string)
    ensures Lines(a + b) == Lines(a) + Lines(Rest(a) + b)
    ensures Rest(a + b) == Rest(Rest(a) + b)
  {
    hide Lines, Rest;
    if b == [] {
      assert a + b == a;
      SplitIsExact(a);
      NoNewline(Rest(a));
      assert Rest(a) + b == Rest(a);
    } else {
      var front, c := b[..|b| - 1], b[|b| - 1];
      SplitAppend(a, front);
      FrontAndLast(b);
      Associate(a, front, [c]);
      Associate(Rest(a), front, [c]);
      SplitSnoc(a + front, c);
      SplitSnoc(Rest(a) + front, c);
    }
  }

  lemma {:induction false} NoNewline(s: string)
    requires '\n' !in s
    ensures Lines(s) == [] && Rest(s) == s
  {
    if s == [] {
    } else {
      assert s == s[..|s| - 1] + [s[|s| - 1]];
      NoNewline(s[..|s| - 1]);
    }
  }

  lemma OneLine(head: string)
    requires '\n' !in head
    ensures Lines(head + "\n") == [head] && Rest(head + "\n") == ""
  {
    NoNewline(head);
    assert (head + "\n")[..|head|] == head;
  }

  /** Taking the first line off the front leaves the other lines and the rest. */
  lemma FirstLine(s: string, pos: nat)
    requires pos < |s| && s[pos] == '\n' && '\n' !in s[..pos]
    ensures Lines(s) == [s[..pos]] + Lines(s[pos + 1..])
    ensures Rest(s) == Rest(s[pos + 1..])
  {
    hide Lines, Rest;
    var head, tail := s[..pos], s[pos + 1..];
    OneLine(head);
    assert s == (head + "\n") + tail;
    SplitAppend(head + "\n", tail);
    assert "" + tail == tail;
  }

  /** The last line of a drain, or nothing when it completed none. */
  ghost function LastLine(lines: seq<string>): string {
    if lines == [] then "" else lines[|lines| - 1]
  }

  /** The bytes one drain takes from the pipe: chunk after chunk until a read brings nothing. */
  ghost function Received(chunks: seq<string>): string {
    if chunks == [] || chunks[0] == "" then "" else chunks[0] + Received(chunks[1..])
  }

  lemma ReceivedFirst(chunks: seq<string>)
    requires chunks != []
    ensures Received(chunks) == if chunks[0] == "" then "" else chunks[0] + Received(chunks[1..])
  {
  }

  lemma ReceivedNothing()
    ensures Received([]) == ""
  {
  }

  lemma {:induction false} ReceivedStep(chunks: seq<string>, i: nat)
    requires i < |chunks| && (forall j :: 0 <= j < i ==> chunks[j] != "")
    ensures Received(chunks[..i]) + Received(chunks[i..]) == Received(chunks)
    ensures chunks[i] != "" ==> Received(chunks[..i + 1]) == Received(chunks[..i]) + chunks[i]
  {
    hide Received;
    ReceivedFirst(chunks);
    if i > 0 {
      var tail := chunks[1..];
      ReceivedStep(tail, i - 1);
      assert chunks[..i][1..] == tail[..i - 1] && chunks[..i + 1][1..] == tail[..i] && chunks[i..] == tail[i - 1..];
      ReceivedFirst(chunks[..i]);
      ReceivedFirst(chunks[..i + 1]);
      Associate(chunks[0], Received(tail[..i - 1]), Received(chunks[i..]));
      Associate(chunks[0], Received(tail[..i - 1]), chunks[i]);
    } else {
      assert chunks[..1][1..] == [] && chunks[0..] == chunks && chunks[..0] == [];
      ReceivedFirst(chunks[..1]);
      ReceivedNothing();
    }
  }

  /** After any number of drains the buffer is the text after the last newline of everything received. */
  ghost function BufferAfter(drains: seq<string>): string {
    if drains == [] then "" else Rest(BufferAfter(drains[..|drains| - 1]) + drains[|drains| - 1])
  }

  ghost function Everything(drains: seq<string>): string {
    if drains == [] then "" else Everything(drains[..|drains| - 1]) + drains[|drains| - 1]
  }

  lemma {:induction false} BufferIsRest(drains: seq<string>)
    ensures BufferAfter(drains) == Rest(Everything(drains))
  {
    if drains == [] {
    } else {
      var n := |drains| - 1;
      BufferIsRest(drains[..n]);
      SplitAppend(Everything(drains[..n]), drains[n]);
    }
  }

  /** However the stream was cut up before, the lines a drain takes are exactly those it completes: the lines
    * of the whole stream that were not complete before it. */
  lemma DrainTakesNewLines(drains: seq<string>, next: string)
    ensures Lines(Everything(drains) + next) ==
      Lines(Everything(drains)) + Lines(BufferAfter(drains) + next)
  {
    BufferIsRest(drains);
    SplitAppend(Everything(drains), next);
  }

  class LineBuffer {
    var text: string

    constructor ()
      ensures text == ""
    {
      text := "";
    }

    method Clear()
      modifies this
      ensures text == ""
    {
      text := "";
    }

    /** Appends what the pipe has to offer. */
    method ReadAvailable(chunks: seq<string>) returns (total: nat)
      modifies this
      ensures text == old(text) + Received(chunks)
      ensures total == |Received(chunks)|
    {
      total := 0;
      var i := 0;
      while i < |chunks| && chunks[i] != ""
        invariant 0 <= i <= |chunks|
        invariant forall j :: 0 <= j < i ==> chunks[j] != ""
        invariant text == old(text) + Received(chunks[..i])
        invariant total == |Received(chunks[..i])|
      {
        ReceivedStep(chunks, i);
        text := text + chunks[i];
        total := total + |chunks[i]|;
        i := i + 1;
      }
      if i < |chunks| {
        ReceivedStep(chunks, i);
      } else {
        assert chunks[..i] == chunks;
      }
    }

    method FindNewline() returns (pos: int)
      ensures -1 <= pos < |text|
      ensures pos >= 0 ==> text[pos] == '\n' && '\n' !in text[..pos]
      ensures pos == -1 ==> '\n' !in text
    {
      pos := 0;
      while pos < |text|
        invariant 0 <= pos <= |text| && '\n' !in text[..pos]
      {
        if text[pos] == '\n' {
          return;
        }
        assert text[..pos + 1] == text[..pos] + [text[pos]];
        pos := pos + 1;
      }
      assert text[..pos] == text;
      pos := -1;
    }

    /** Takes all complete lines off the front and returns the last of them. */
    method TakeLastLine() returns (last: string)
      modifies this
      ensures text == Rest(old(text))
      ensures last == LastLine(Lines(old(text)))
    {
      last := "";
      ghost var taken: seq<string> := [];
      var pos := FindNewline();
      while pos >= 0
        invariant -1 <= pos < |text|
        invariant pos >= 0 ==> text[pos] == '\n' && '\n' !in text[..pos]
        invariant pos == -1 ==> '\n' !in text
        invariant taken + Lines(text) == Lines(old(text)) && Rest(text) == Rest(old(text))
        invariant last == LastLine(taken)
        decreases |text|
      {
        FirstLine(text, pos);
        last := text[..pos];
        text := text[pos + 1..];
        taken := taken + [last];
        pos := FindNewline();
      }
      NoNewline(text);
    }
  }
}
