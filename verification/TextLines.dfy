/**
 The lines of a text, for the readers of what is printed.
 */
module TextLines {

  /** Line feed, vertical tab, form feed and carriage return end a line. */
  predicate IsBreak(c: char) {
    10 <= c as int <= 13
  }

  predicate OneLine(s: string) {
    forall i :: 0 <= i < |s| ==> !IsBreak(s[i])
  }

  /** The lines of `s`; what follows the last break is the last line. */
  function Lines(s: string): (ls: seq<string>)
    ensures |ls| >= 1
  {
    if s == "" then [""]
    else if IsBreak(s[0]) then [""] + Lines(s[1..])
    else
      var rest := Lines(s[1..]);
      [[s[0]] + rest[0]] + rest[1..]
  }

  lemma {:induction false} LinesAreOneLine(s: string, i: nat)
    requires i < |Lines(s)|
    ensures OneLine(Lines(s)[i])
    decreases |s|
  {
    if s != "" {
      var rest := Lines(s[1..]);
      if IsBreak(s[0]) {
        if i > 0 {
          LinesAreOneLine(s[1..], i - 1);
        }
      } else if i == 0 {
        LinesAreOneLine(s[1..], 0);
      } else {
        LinesAreOneLine(s[1..], i);
        assert Lines(s)[i] == rest[i];
      }
    }
  }

  /** A break ends the lines before it. */
  lemma {:induction false} LinesBreak(a: string, b: string)
    ensures Lines(a + "\n" + b) == Lines(a) + Lines(b)
    decreases |a|
  {
    if a == "" {
      assert a + "\n" + b == "\n" + b && ("\n" + b)[1..] == b;
    } else {
      assert (a + "\n" + b)[1..] == a[1..] + "\n" + b;
      LinesBreak(a[1..], b);
    }
  }

  lemma {:induction false} LinesOfOne(s: string)
    requires OneLine(s)
    ensures Lines(s) == [s]
  {
    if s != "" {
      LinesOfOne(s[1..]);
      assert s == [s[0]] + s[1..];
    }
  }

  /** One line and then the rest. */
  lemma FirstLine(s: string, rest: string)
    requires OneLine(s)
    ensures Lines(s + "\n" + rest) == [s] + Lines(rest)
  {
    LinesBreak(s, rest);
    LinesOfOne(s);
  }
}
