/**
 Reading sections back from the printed text itself.

 The reader goes through the lines.  By the "Sections" part of the reStructuredText
 Markup Specification, a title is followed by a line of one adornment character that
 is at least as long as the title, and preceded by the same line if it has an
 overline.  A line of one adornment character is never a title.
 */
module RestReader {
  import opened Fields
  import opened TextLines
  import opened RestPrinter

  // ----------------------------------------------------------------- the reader

  predicate IsTitleLine(line: string) {
    Trim(line) != "" && !IsRule(Trim(line))
  }

  predicate StartsOverlined(ls: seq<string>) {
    && |ls| >= 3 && IsRule(ls[0]) && IsTitleLine(ls[1]) && ls[2] == ls[0]
    && |TrimRight(ls[1])| <= |ls[0]|
  }

  predicate StartsUnderlined(ls: seq<string>) {
    && |ls| >= 2 && ls[0] != "" && !IsBlank(ls[0][0]) && IsTitleLine(ls[0]) && IsRule(ls[1])
    && |TrimRight(ls[0])| <= |ls[1]|
  }

  /** The headings that the lines show, with their adornments. */
  function Scan(ls: seq<string>): seq<Heading>
    decreases |ls|
  {
    if ls == [] then []
    else if StartsOverlined(ls) then [Heading(Style(ls[0][0], ls[0][0]), Trim(ls[1]))] + Scan(ls[3..])
    else if StartsUnderlined(ls) then [Heading(Style(' ', ls[1][0]), Trim(ls[0]))] + Scan(ls[2..])
    else Scan(ls[1..])
  }

  /** The forest of sections that a reader of the text sees. */
  function TextRebuilt(text: string): Option<Forest> {
    Rebuilt(Scan(Lines(text)))
  }

  // ------------------------------------------------------------- one heading

  lemma {:induction false} TrimPlain(title: string)
    requires PlainTitle(title)
    ensures TrimRight(title) == title && Trim(title) == title && IsTitleLine(title)
  {
    ReadAsItStands(Style(' ', '='), title);
  }

  lemma RepeatedIsRule(n: nat, c: char)
    requires n > 0 && IsAdornment(c)
    ensures IsRule(Repeated(n, c)) && OneLine(Repeated(n, c)) && Repeated(n, c)[0] == c && |Repeated(n, c)| == n
  {
  }

  lemma GlueTwo(a: string, b: string, n: string, rest: string)
    ensures "" + a + n + b + n + rest == a + n + (b + n + rest)
  {
  }

  lemma GlueThree(o: string, a: string, b: string, n: string, rest: string)
    ensures o + n + a + n + b + n + rest == o + n + (a + n + (b + n + rest))
  {
  }

  /** The lines of a heading and of what follows it. */
  lemma HeadingLines(h: Heading, rest: string)
    requires LegibleStyle(h.style) && PlainTitle(h.title)
    ensures var under := Repeated(|h.title|, h.style.under);
            Lines(HeadingText(h) + rest)
            == (if h.style.over != ' ' then [under, h.title, under] else [h.title, under]) + Lines(rest)
  {
    var t, under := h.title, Repeated(|h.title|, h.style.under);
    RepeatedIsRule(|t|, h.style.under);
    TwoLines(t, under, rest);
    hide Repeated, IsRule, IsAdornment, Lines, IsBlank, OneLine;
    if h.style.over != ' ' {
      GlueThree(under, t, under, "\n", rest);
      ThreeLines(under, t, under, rest);
    } else {
      GlueTwo(t, under, "\n", rest);
    }
  }

  lemma ThreeLines(o: string, a: string, b: string, rest: string)
    requires OneLine(o) && OneLine(a) && OneLine(b)
    ensures Lines(o + "\n" + (a + "\n" + (b + "\n" + rest))) == [o, a, b] + Lines(rest)
  {
    TwoLines(a, b, rest);
    FirstLine(o, a + "\n" + (b + "\n" + rest));
    hide Lines, OneLine;
    assert [o] + ([a, b] + Lines(rest)) == [o, a, b] + Lines(rest);
  }

  lemma TwoLines(a: string, b: string, rest: string)
    requires OneLine(a) && OneLine(b)
    ensures Lines(a + "\n" + (b + "\n" + rest)) == [a, b] + Lines(rest)
  {
    FirstLine(b, rest);
    FirstLine(a, b + "\n" + rest);
    hide Lines, OneLine;
    assert [a] + ([b] + Lines(rest)) == [a, b] + Lines(rest);
  }

  /** A legible heading is read as it was printed. */
  lemma HeadingIsScanned(h: Heading, rest: string)
    requires LegibleStyle(h.style) && PlainTitle(h.title)
    ensures Scan(Lines(HeadingText(h) + rest)) == [h] + Scan(Lines(rest))
  {
    var ls := Lines(HeadingText(h) + rest);
    HeadingLines(h, rest);
    TrimPlain(h.title);
    RepeatedIsRule(|h.title|, h.style.under);
    hide Lines, Repeated, HeadingText, Trim, TrimRight, IsAdornment;
    if h.style.over != ' ' {
      assert StartsOverlined(ls) && ls[3..] == Lines(rest);
    } else {
      assert !StartsOverlined(ls) && StartsUnderlined(ls) && ls[2..] == Lines(rest);
    }
  }

  // --------------------------------------------------------------- other text

  lemma {:induction false} BlankIsNoTitle(line: string)
    requires IsBlankLine(line)
    ensures !IsTitleLine(line)
  {
    TrimBlank(line);
  }

  lemma {:induction false} TrimBlank(line: string)
    requires IsBlankLine(line)
    ensures TrimRight(line) == "" && TrimLeft(line) == ""
    decreases |line|
  {
    if line != "" {
      TrimBlank(line[1..]);
      TrimBlank(line[..|line| - 1]);
    }
  }

  /** Lines without adornments are passed over, unless the last one is followed by
      an adornment that it could be the title of. */
  lemma {:induction false} ScanPasses(ls: seq<string>, rest: seq<string>)
    requires NoRules(ls)
    requires ls == [] || rest == [] || !IsRule(rest[0]) || IsBlankLine(ls[|ls| - 1])
    ensures Scan(ls + rest) == Scan(rest)
    decreases |ls|
  {
    hide IsRule, IsTitleLine, IsBlankLine;
    var all := ls + rest;
    if ls == [] {
      assert all == rest;
    } else {
      assert all[0] == ls[0] && all[1..] == ls[1..] + rest;
      assert !StartsOverlined(all);
      if |ls| > 1 {
        assert all[1] == ls[1];
        assert !StartsUnderlined(all);
      } else {
        assert rest != [] ==> all[1] == rest[0];
        if IsBlankLine(ls[0]) {
          BlankIsNoTitle(ls[0]);
        }
        assert !StartsUnderlined(all);
      }
      assert NoRules(ls[1..]);
      ScanPasses(ls[1..], rest);
    }
  }

  lemma WordsThenHeading(words: string, h: Heading, rest: string)
    requires Leaves(words, h.style) && LegibleStyle(h.style) && PlainTitle(h.title)
    ensures Scan(Lines(words + HeadingText(h) + rest)) == [h] + Scan(Lines(rest))
  {
    var after := HeadingText(h) + rest;
    HeadingIsScanned(h, rest);
    TitleFirst(h, rest);
    hide Lines, Scan, HeadingText, IsBlankLine, LegibleStyle, PlainTitle, IsRule;
    if words == "" {
      assert words + HeadingText(h) + rest == after;
    } else {
      var front := words[..|words| - 1];
      assert words == front + "\n";
      GlueWords(front, "\n", HeadingText(h), rest);
      LinesBreak(front, after);
      ScanPasses(Lines(front), Lines(after));
    }
  }

  lemma TitleFirst(h: Heading, rest: string)
    requires LegibleStyle(h.style) && PlainTitle(h.title)
    ensures h.style.over == ' ' ==> !IsRule(Lines(HeadingText(h) + rest)[0])
  {
    HeadingLines(h, rest);
    hide Lines, HeadingText, Repeated, IsRule, IsAdornment, OneLine;
  }

  lemma GlueWords(front: string, n: string, text: string, rest: string)
    ensures front + n + text + rest == front + n + (text + rest)
  {
  }

  // ------------------------------------------------------------- whole documents

  ghost predicate AllLegible(hs: seq<Heading>) {
    forall i :: 0 <= i < |hs| ==> LegibleStyle(hs[i].style) && PlainTitle(hs[i].title)
  }

  lemma {:induction false} PiecesAreScanned(pieces: seq<Piece>, rest: string)
    requires Quiet(pieces) && AllLegible(TitlesOf(pieces))
    ensures Scan(Lines(TextOf(pieces) + rest)) == TitlesOf(pieces) + Scan(Lines(Tail(pieces) + rest))
    decreases |pieces|
  {
    hide LegibleStyle, PlainTitle, Scan, Lines, HeadingText, Leaves;
    if pieces != [] {
      var last, before := pieces[|pieces| - 1], pieces[..|pieces| - 1];
      match last
      case Words(text) =>
        assert TextOf(pieces) + rest == TextOf(before) + (text + rest);
        assert Tail(pieces) + rest == Tail(before) + (text + rest);
        PiecesAreScanned(before, text + rest);
      case Title(h) =>
        var hs := TitlesOf(before);
        assert TitlesOf(pieces) == hs + [h];
        assert AllLegible(hs) && LegibleStyle(h.style) && PlainTitle(h.title) by {
          assert forall i :: 0 <= i < |hs| ==> TitlesOf(pieces)[i] == hs[i];
          assert TitlesOf(pieces)[|hs|] == h;
        }
        assert TextOf(pieces) + rest == TextOf(before) + (HeadingText(h) + rest);
        assert Tail(before) + (HeadingText(h) + rest) == Tail(before) + HeadingText(h) + rest;
        PiecesAreScanned(before, HeadingText(h) + rest);
        WordsThenHeading(Tail(before), h, rest);
        assert hs + ([h] + Scan(Lines(rest))) == hs + [h] + Scan(Lines(rest));
        assert "" + rest == rest;
    }
  }

  lemma NothingToScan(ls: seq<string>)
    requires NoRules(ls)
    ensures Scan(ls) == []
  {
    assert ls + [] == ls;
    ScanPasses(ls, []);
  }

  /** Exactly the headings that were printed are read from the text. */
  lemma TextShowsHeadings(pieces: seq<Piece>)
    requires Quiet(pieces) && NoRules(Lines(Tail(pieces))) && AllLegible(TitlesOf(pieces))
    ensures Scan(Lines(TextOf(pieces))) == TitlesOf(pieces)
  {
    PiecesAreScanned(pieces, "");
    NothingToScan(Lines(Tail(pieces)));
    hide Scan, Lines, AllLegible, Quiet;
    assert TextOf(pieces) + "" == TextOf(pieces) && Tail(pieces) + "" == Tail(pieces);
    assert TitlesOf(pieces) + [] == TitlesOf(pieces);
  }

  // ---------------------------------------------------------- only plain titles

  lemma {:induction false} TrimmedEnds(s: string)
    ensures TrimRight(s) != "" ==> !IsBlank(TrimRight(s)[|TrimRight(s)| - 1])
    ensures TrimLeft(s) != "" ==> !IsBlank(TrimLeft(s)[0])
    ensures TrimLeft(s) != "" ==> TrimLeft(s)[|TrimLeft(s)| - 1] == s[|s| - 1]
    ensures OneLine(s) ==> OneLine(TrimRight(s)) && OneLine(TrimLeft(s))
    decreases |s|
  {
    if s != "" {
      TrimmedEnds(s[1..]);
      TrimmedEnds(s[..|s| - 1]);
    }
  }

  lemma LegibleIsPlain(s: Style, title: string)
    requires LegibleTitle(s, title)
    ensures PlainTitle(Trim(title))
  {
    hide IsRule;
    TrimmedEnds(title);
    TrimmedEnds(TrimRight(title));
  }

  ghost predicate PlainItems(items: seq<Item>) {
    forall i :: 0 <= i < |items| ==> PlainTitle(items[i].1)
  }

  /** Whatever the headings are, only plain titles are read. */
  lemma {:induction false} ReadTitlesArePlain(r: Reader, hs: seq<Heading>)
    requires ReadAll(r, hs).Some? && PlainItems(r.items)
    ensures PlainItems(ReadAll(r, hs).value.items)
    decreases |hs|
  {
    hide LegibleTitle, PlainTitle, Trim;
    if hs != [] {
      LegibleIsPlain(hs[0].style, hs[0].title);
      ReadTitlesArePlain(ReadOne(r, hs[0]).value, hs[1..]);
    }
  }

  lemma {:induction false} PlainForest(f: Forest, d: nat)
    requires PlainItems(Flatten(f, d))
    ensures Titled(f)
    decreases f
  {
    hide PlainTitle;
    if f.Section? {
      var below, beside := Flatten(f.subs, d + 1), Flatten(f.next, d);
      var all := Flatten(f, d);
      assert all[0] == (d, f.title);
      assert forall i :: 0 <= i < |below| ==> all[i + 1] == below[i];
      assert forall i :: 0 <= i < |beside| ==> all[i + 1 + |below|] == beside[i];
      PlainForest(f.subs, d + 1);
      PlainForest(f.next, d);
    }
  }

  lemma RebuiltIsTitled(hs: seq<Heading>, f: Forest)
    requires Rebuilt(hs) == Some(f)
    ensures Titled(f)
  {
    RebuiltIff(hs, f);
    hide PlainTitle, Flatten, ReadAll;
    ReadTitlesArePlain(Reader([], 0, []), hs);
    PlainForest(f, 0);
  }

  // ------------------------------------------------------------ the main results

  lemma {:induction false} HeadingsAreLegible(styles: seq<Style>, f: Forest, d: nat)
    requires d + Height(f) <= |styles| && Titled(f)
    requires forall i :: d <= i < d + Height(f) ==> LegibleStyle(styles[i])
    ensures AllLegible(Headings(styles, f, d))
    decreases f
  {
    hide LegibleStyle, PlainTitle;
    if f.Section? {
      HeadingsAreLegible(styles, f.subs, d + 1);
      HeadingsAreLegible(styles, f.next, d);
    }
  }

  /** A document whose other text is quiet is read back from its text exactly when
      the styles in use, legible ones, are all different and the titles plain. */
  lemma DocumentIsReadIff(styles: seq<Style>, f: Forest, pieces: seq<Piece>)
    requires Height(f) <= |styles| && forall i :: 0 <= i < Height(f) ==> LegibleStyle(styles[i])
    requires TitlesOf(pieces) == Headings(styles, f, 0) && Quiet(pieces) && NoRules(Lines(Tail(pieces)))
    ensures TextRebuilt(TextOf(pieces)) == Some(f) <==> Fine(styles, Height(f)) && Titled(f)
  {
    hide Scan, Lines, Rebuilt, Titled, Headings, Fine, AllLegible, Quiet, NoRules, LegibleStyle;
    if Titled(f) {
      HeadingsAreLegible(styles, f, 0);
      TextShowsHeadings(pieces);
      ForestIsRebuiltIff(styles, f);
    } else if TextRebuilt(TextOf(pieces)) == Some(f) {
      RebuiltIsTitled(Scan(Lines(TextOf(pieces))), f);
    }
  }

  /** Over every run that closes its sections, with quiet text in between: what is
      read from the printed text is the forest of the sections that were opened
      exactly when the styles in use are different and the titles plain. */
  lemma RunIsReadFromText(styles: seq<Style>, events: seq<Event>, pieces: seq<Piece>)
    requires Exec(styles, events, 0) == Some((0, TitlesOf(pieces)))
    requires Quiet(pieces) && NoRules(Lines(Tail(pieces)))
    requires forall i :: 0 <= i < |styles| && i < Height(Parse(events).0) ==> LegibleStyle(styles[i])
    ensures var f := Parse(events).0;
            && events == EventsOf(f) && Height(f) <= |styles|
            && (TextRebuilt(TextOf(pieces)) == Some(f) <==> Fine(styles, Height(f)) && Titled(f))
  {
    RunIsRead(styles, events);
    hide LegibleStyle, Exec, Parse, Quiet, TextRebuilt, Fine, Titled;
    DocumentIsReadIff(styles, Parse(events).0, pieces);
  }
}
