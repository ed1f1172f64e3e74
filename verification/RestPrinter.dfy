/**
 Section headings in reStructuredText.

 The printer chooses a heading's adornments by the depth of the section.  A
 reader following the "Sections" part of the reStructuredText Markup
 Specification gives each new style of adornment the next level, in order of first
 appearance, and drops the blanks around a title; the forest it rebuilds is the
 one that was printed exactly when the styles of the depths in use are legible and
 all different and the titles are plain lines.
 */
module RestPrinter {
  import opened Fields
  import opened TextLines

  // ----------------------------------------------------------------- headings

  /** An overline of spaces stands for no overline. */
  datatype Style = Style(over: char, under: char)

  datatype Heading = Heading(style: Style, title: string)

  function Repeated(n: nat, c: char): string {
    seq(n, i => c)
  }

  function HeadingText(h: Heading): string {
    (if h.style.over != ' ' then Repeated(|h.title|, h.style.over) + "\n" else "")
    + h.title + "\n" + Repeated(|h.title|, h.style.under) + "\n"
  }

  /** The styles of the depths for which there are both adornments. */
  function StylesOf(under: string, over: string): seq<Style> {
    seq(if |under| <= |over| then |under| else |over|,
        i requires 0 <= i < |under| && i < |over| => Style(over[i], under[i]))
  }

  // --------------------------------------------------------------------- runs

  datatype Event = Start(title: string) | Finish

  /** Starting at depth `d`: the final depth and the headings printed, unless the
      run fails. */
  function Exec(styles: seq<Style>, events: seq<Event>, d: nat): Option<(nat, seq<Heading>)>
    decreases |events|
  {
    if events == [] then Some((d, []))
    else
      match events[0]
      case Start(title) =>
        if d >= |styles| then None
        else
          var r := Exec(styles, events[1..], d + 1);
          if r.None? then None else Some((r.value.0, [Heading(styles[d], title)] + r.value.1))
      case Finish => if d == 0 then None else Exec(styles, events[1..], d - 1)
  }

  lemma {:induction false} ExecAppend(styles: seq<Style>, a: seq<Event>, b: seq<Event>, d: nat)
    requires Exec(styles, a, d).Some?
    ensures var (e, hs) := Exec(styles, a, d).value;
            Exec(styles, a + b, d) == match Exec(styles, b, e)
                                      case None => None
                                      case Some(r) => Some((r.0, hs + r.1))
    decreases |a|
  {
    if a == [] {
      assert a + b == b;
      var r := Exec(styles, b, d);
      if r.Some? {
        assert [] + r.value.1 == r.value.1;
      }
    } else {
      assert (a + b)[1..] == a[1..] + b;
      ExecAppend(styles, a[1..], b, if a[0].Start? then d + 1 else d - 1);
      if a[0].Start? {
        var (e, hs) := Exec(styles, a[1..], d + 1).value;
        var first := [Heading(styles[d], a[0].title)];
        var r := Exec(styles, b, e);
        if r.Some? {
          assert first + (hs + r.value.1) == first + hs + r.value.1;
        }
      }
    }
  }

  lemma RunMore(styles: seq<Style>, events: seq<Event>, e: Event)
    requires Exec(styles, events, 0).Some?
    ensures var (d, hs) := Exec(styles, events, 0).value;
            Exec(styles, events + [e], 0) ==
            match e
            case Start(title) => if d < |styles| then Some((d + 1, hs + [Heading(styles[d], title)])) else None
            case Finish => if d > 0 then Some((d - 1, hs)) else None
  {
    var (d, hs) := Exec(styles, events, 0).value;
    OneEvent(styles, e, d);
    hide Exec;
    ExecAppend(styles, events, [e], 0);
    assert hs + [] == hs;
  }

  lemma OneEvent(styles: seq<Style>, e: Event, d: nat)
    ensures Exec(styles, [e], d) ==
            match e
            case Start(title) => if d < |styles| then Some((d + 1, [Heading(styles[d], title)])) else None
            case Finish => if d > 0 then Some((d - 1, [])) else None
  {
    var none: seq<Event> := [];
    assert [e][1..] == none;
    match e
    case Start(title) =>
      if d < |styles| {
        assert Exec(styles, none, d + 1) == Some((d + 1, []));
        assert [Heading(styles[d], title)] + [] == [Heading(styles[d], title)];
      }
    case Finish =>
      if d > 0 {
        assert Exec(styles, none, d - 1) == Some((d - 1, []));
      }
  }

  lemma PiecesMore(pieces: seq<Piece>, p: Piece)
    ensures TextOf(pieces + [p]) == TextOf(pieces) + if p.Title? then HeadingText(p.heading) else p.text_
    ensures TitlesOf(pieces + [p]) == if p.Title? then TitlesOf(pieces) + [p.heading] else TitlesOf(pieces)
  {
    assert (pieces + [p])[..|pieces|] == pieces;
  }

  /** What has been written: headings and other text. */
  datatype Piece = Title(heading: Heading) | Words(text_: string)

  ghost function TextOf(pieces: seq<Piece>): string {
    if pieces == [] then ""
    else
      var last := pieces[|pieces| - 1];
      TextOf(pieces[..|pieces| - 1]) + if last.Title? then HeadingText(last.heading) else last.text_
  }

  ghost function TitlesOf(pieces: seq<Piece>): seq<Heading> {
    if pieces == [] then []
    else
      var last := pieces[|pieces| - 1];
      var before := TitlesOf(pieces[..|pieces| - 1]);
      if last.Title? then before + [last.heading] else before
  }

  // ----------------------------------------------------- between the headings

  predicate IsAdornment(c: char) {
    c in "!\"#$%&'()*+,-./:;<=>?@[\\]^_`{|}~"
  }

  /** A line of one adornment character, which is never a title. */
  predicate IsRule(line: string) {
    line != "" && IsAdornment(line[0]) && forall i :: 0 <= i < |line| ==> line[i] == line[0]
  }

  predicate IsBlank(c: char) {
    c == ' ' || c == '\t'
  }

  predicate NoRules(ls: seq<string>) {
    forall i :: 0 <= i < |ls| ==> !IsRule(ls[i])
  }

  /** Whole lines, none of which is of one adornment character. */
  predicate Closed(words: string) {
    words == "" || (words[|words| - 1] == '\n' && NoRules(Lines(words[..|words| - 1])))
  }

  predicate IsBlankLine(line: string) {
    forall i :: 0 <= i < |line| ==> IsBlank(line[i])
  }

  /** The last line, if there is one, is blank. */
  predicate EndsBlank(words: string) {
    words != "" ==> var ls := Lines(words[..|words| - 1]); IsBlankLine(ls[|ls| - 1])
  }

  /** Text that leaves the next heading alone. */
  predicate Leaves(words: string, s: Style) {
    Closed(words) && (s.over != ' ' ==> EndsBlank(words))
  }

  /** The text after the last heading. */
  ghost function Tail(pieces: seq<Piece>): string {
    if pieces == [] then ""
    else
      var last := pieces[|pieces| - 1];
      if last.Title? then "" else Tail(pieces[..|pieces| - 1]) + last.text_
  }

  /** The text before each heading leaves it alone. */
  ghost predicate Quiet(pieces: seq<Piece>) {
    pieces == [] ||
    var last, before := pieces[|pieces| - 1], pieces[..|pieces| - 1];
    Quiet(before) && (last.Title? ==> Leaves(Tail(before), last.heading.style))
  }

  /** One more piece leaves the text before the others as it was. */
  lemma QuietMore(pieces: seq<Piece>, p: Piece)
    ensures Tail(pieces + [p]) == if p.Title? then "" else Tail(pieces) + p.text_
    ensures Quiet(pieces + [p]) <==> Quiet(pieces) && (p.Title? ==> Leaves(Tail(pieces), p.heading.style))
  {
    assert (pieces + [p])[..|pieces|] == pieces;
  }

  class Printer {
    const underlineChars: string
    const overlineChars: string
    var section: nat
    var os: string
    ghost var pieces: seq<Piece>
    ghost var events: seq<Event>

    function Styles(): seq<Style> {
      StylesOf(underlineChars, overlineChars)
    }

    /** The text is made of the headings that the events so far ask for, with
        other text around them. */
    ghost predicate Valid()
      reads this
    {
      && section <= |Styles()| && os == TextOf(pieces)
      && Exec(Styles(), events, 0) == Some((section, TitlesOf(pieces)))
    }

    constructor (underlineChars: string := "#*=-^\"", overlineChars: string := "#*      ")
      ensures this.underlineChars == underlineChars && this.overlineChars == overlineChars
      ensures Valid() && section == 0 && os == "" && events == [] && pieces == []
    {
      this.underlineChars, this.overlineChars := underlineChars, overlineChars;
      section, os, pieces, events := 0, "", [], [];
    }

    /** Fails, and changes nothing, when the adornments are used up. */
    method StartSection(header: string) returns (ok: bool)
      requires Valid()
      modifies this
      ensures Valid()
      ensures ok <==> old(section) < |Styles()|
      ensures !ok ==> unchanged(this)
      ensures ok ==> section == old(section) + 1 && events == old(events) + [Start(header)]
      ensures ok ==> pieces == old(pieces) + [Title(Heading(Styles()[old(section)], header))]
      ensures ok ==>
                && Tail(pieces) == ""
                && (Quiet(pieces) <==> old(Quiet(pieces)) && Leaves(old(Tail(pieces)), Styles()[old(section)]))
    {
      hide Leaves, Quiet, Tail;
      if |underlineChars| <= section {
        return false;
      }
      if |overlineChars| <= section {
        return false;
      }
      var ochar := overlineChars[section];
      var uchar := underlineChars[section];
      var nchars := |header|;
      var text := "";
      if ochar != ' ' {
        text := Repeated(nchars, ochar) + "\n";
      }
      text := text + header + "\n";
      text := text + Repeated(nchars, uchar) + "\n";
      RunMore(Styles(), events, Start(header));
      PiecesMore(pieces, Title(Heading(Style(ochar, uchar), header)));
      QuietMore(pieces, Title(Heading(Style(ochar, uchar), header)));
      pieces := pieces + [Title(Heading(Style(ochar, uchar), header))];
      events := events + [Start(header)];
      os := os + text;
      section := section + 1;
      ok := true;
    }

    method FinishSection() returns (ok: bool)
      requires Valid()
      modifies this
      ensures Valid() && os == old(os) && pieces == old(pieces)
      ensures ok <==> old(section) > 0
      ensures !ok ==> unchanged(this)
      ensures ok ==> section == old(section) - 1 && events == old(events) + [Finish]
    {
      if section == 0 {
        return false;
      }
      RunMore(Styles(), events, Finish);
      events := events + [Finish];
      section := section - 1;
      ok := true;
    }

    /** `print_verbatim` and `operator<<` */
    method Write(message: string)
      requires Valid()
      modifies this
      ensures Valid() && section == old(section) && events == old(events)
      ensures os == old(os) + message && pieces == old(pieces) + [Words(message)]
      ensures Tail(pieces) == old(Tail(pieces)) + message && (Quiet(pieces) <==> old(Quiet(pieces)))
    {
      QuietMore(pieces, Words(message));
      PiecesMore(pieces, Words(message));
      pieces := pieces + [Words(message)];
      os := os + message;
    }
  }

  // ------------------------------------------------------------------ forests

  /** Sibling sections; `subs` are the subsections of the first one. */
  datatype Forest = Empty | Section(title: string, subs: Forest, next: Forest)

  function Height(f: Forest): nat {
    match f
    case Empty => 0
    case Section(_, subs, next) => if Height(subs) + 1 >= Height(next) then Height(subs) + 1 else Height(next)
  }

  /** The headings of a forest at depth `d`. */
  ghost function Headings(styles: seq<Style>, f: Forest, d: nat): seq<Heading>
    requires d + Height(f) <= |styles|
  {
    match f
    case Empty => []
    case Section(title, subs, next) =>
      [Heading(styles[d], title)] + Headings(styles, subs, d + 1) + Headings(styles, next, d)
  }

  type Item = (nat, string)

  /** The levels and titles of a forest in document order. */
  function Flatten(f: Forest, d: nat): seq<Item> {
    match f
    case Empty => []
    case Section(title, subs, next) => [(d, title)] + Flatten(subs, d + 1) + Flatten(next, d)
  }

  /** Rebuilds the forest at level `d`, and what follows it. */
  function Build(items: seq<Item>, d: nat): (r: (Forest, seq<Item>))
    ensures |r.1| <= |items|
    decreases |items|
  {
    if items == [] || items[0].0 != d then (Empty, items)
    else
      var (subs, after) := Build(items[1..], d + 1);
      var (next, rest) := Build(after, d);
      (Section(items[0].1, subs, next), rest)
  }

  /** Levels and titles determine the forest. */
  lemma {:induction false} BuildFlatten(f: Forest, d: nat, rest: seq<Item>)
    requires rest == [] || rest[0].0 < d
    ensures Build(Flatten(f, d) + rest, d) == (f, rest)
    decreases f
  {
    match f
    case Empty =>
      assert Flatten(f, d) + rest == rest;
    case Section(title, subs, next) =>
      var items := Flatten(f, d) + rest;
      var tail := Flatten(next, d) + rest;
      assert items[1..] == Flatten(subs, d + 1) + tail;
      assert tail == [] || tail[0].0 <= d by {
        if next.Section? {
          assert tail[0] == (d, next.title);
        }
      }
      BuildFlatten(subs, d + 1, tail);
      BuildFlatten(next, d, rest);
  }

  // --------------------------------------------------------------- the reader

  /** A title line has adornments of one printing character. */
  predicate LegibleStyle(s: Style) {
    IsAdornment(s.under) && (s.over == ' ' || s.over == s.under)
  }

  function TrimLeft(s: string): string {
    if s != "" && IsBlank(s[0]) then TrimLeft(s[1..]) else s
  }

  function TrimRight(s: string): string {
    if s != "" && IsBlank(s[|s| - 1]) then TrimRight(s[..|s| - 1]) else s
  }

  /** The text of a title, without blanks around it. */
  function Trim(s: string): string {
    TrimLeft(TrimRight(s))
  }

  /** A title is one line of text, which starts at the left margin unless there
      is an overline. */
  predicate LegibleTitle(s: Style, title: string) {
    && Trim(title) != "" && !IsRule(Trim(title)) && OneLine(title)
    && (s.over == ' ' ==> !IsBlank(title[0]))
  }

  /** One line without blanks at its ends, and not of one adornment character. */
  predicate PlainTitle(title: string) {
    && title != "" && !IsBlank(title[0]) && !IsBlank(title[|title| - 1]) && !IsRule(title) && OneLine(title)
  }

  /** Under any style, a title is legible and read as it stands exactly when it
      is plain. */
  lemma ReadAsItStands(s: Style, title: string)
    ensures LegibleTitle(s, title) && Trim(title) == title <==> PlainTitle(title)
  {
    TrimShorter(title);
    TrimShorter(TrimRight(title));
    if title != "" && IsBlank(title[|title| - 1]) {
      TrimShorter(title[..|title| - 1]);
      assert |TrimRight(title)| < |title|;
    }
    if title != "" && TrimRight(title) == title && IsBlank(title[0]) {
      TrimShorter(title[1..]);
    }
  }

  lemma {:induction false} TrimShorter(s: string)
    ensures |TrimLeft(s)| <= |s| && |TrimRight(s)| <= |s|
    decreases |s|
  {
    if s != "" {
      TrimShorter(s[1..]);
      TrimShorter(s[..|s| - 1]);
    }
  }

  /** Where the reader is: the styles met so far, how many sections are open, and
      what it has read. */
  datatype Reader = Reader(seen: seq<Style>, level: nat, items: seq<Item>)

  function IndexOf(styles: seq<Style>, s: Style): (i: nat)
    ensures i <= |styles|
    ensures i < |styles| ==> styles[i] == s
    ensures forall j :: 0 <= j < i ==> styles[j] != s
  {
    if styles == [] || styles[0] == s then 0 else 1 + IndexOf(styles[1..], s)
  }

  /** A known style closes sections down to its level or opens the next level; a
      new style opens a new level below the deepest one. */
  function ReadOne(r: Reader, h: Heading): Option<Reader> {
    var i := IndexOf(r.seen, h.style);
    if !LegibleStyle(h.style) || !LegibleTitle(h.style, h.title) then None
    else if i < |r.seen| then
      if i <= r.level then Some(Reader(r.seen, i + 1, r.items + [(i, Trim(h.title))])) else None
    else if |r.seen| == r.level then
      Some(Reader(r.seen + [h.style], r.level + 1, r.items + [(r.level, Trim(h.title))]))
    else None
  }

  function ReadAll(r: Reader, hs: seq<Heading>): Option<Reader>
    decreases |hs|
  {
    if hs == [] then Some(r)
    else
      var one := ReadOne(r, hs[0]);
      if one.None? then None else ReadAll(one.value, hs[1..])
  }

  lemma {:induction false} ReadAppend(r: Reader, a: seq<Heading>, b: seq<Heading>)
    ensures ReadAll(r, a + b) == if ReadAll(r, a).None? then None else ReadAll(ReadAll(r, a).value, b)
    decreases |a|
  {
    if a == [] {
      assert a + b == b;
    } else {
      assert (a + b)[1..] == a[1..] + b;
      if ReadOne(r, a[0]).Some? {
        ReadAppend(ReadOne(r, a[0]).value, a[1..], b);
      }
    }
  }

  lemma {:induction false} ReadAddsItems(r: Reader, hs: seq<Heading>)
    requires ReadAll(r, hs).Some?
    ensures |ReadAll(r, hs).value.items| == |r.items| + |hs| && r.items <= ReadAll(r, hs).value.items
    decreases |hs|
  {
    if hs != [] {
      ReadAddsItems(ReadOne(r, hs[0]).value, hs[1..]);
    }
  }

  lemma {:induction false} SameLength(styles: seq<Style>, f: Forest, d: nat)
    requires d + Height(f) <= |styles|
    ensures |Headings(styles, f, d)| == |Flatten(f, d)|
    decreases f
  {
    if f.Section? {
      SameLength(styles, f.subs, d + 1);
      SameLength(styles, f.next, d);
    }
  }

  // -------------------------------------------------------- when it reads back

  /** The first `n` styles are legible and all different. */
  ghost predicate Fine(styles: seq<Style>, n: nat)
    requires n <= |styles|
  {
    && (forall i :: 0 <= i < n ==> LegibleStyle(styles[i]))
    && (forall i, j :: 0 <= i < j < n ==> styles[i] != styles[j])
  }

  ghost predicate Titled(f: Forest) {
    f.Section? ==> PlainTitle(f.title) && Titled(f.subs) && Titled(f.next)
  }

  function Max(a: nat, b: nat): nat {
    if a >= b then a else b
  }

  /** How many sections are open after reading `f` at depth `d`. */
  function LevelAfter(f: Forest, d: nat, level: nat): (r: nat)
    requires level >= d
    ensures r >= d
  {
    match f
    case Empty => level
    case Section(_, subs, next) => LevelAfter(next, d, LevelAfter(subs, d + 1, d + 1))
  }

  /** The reader has met the styles of the first `m` depths, and sections down
      to depth `d` are open. */
  ghost predicate At(styles: seq<Style>, r: Reader, m: nat, d: nat) {
    m <= |styles| && r.seen == styles[..m] && d <= r.level <= m && Fine(styles, m)
  }

  ghost function After(styles: seq<Style>, r: Reader, m: nat, f: Forest, d: nat): Reader
    requires At(styles, r, m, d) && d + Height(f) <= |styles|
  {
    Reader(styles[..Max(m, d + Height(f))], LevelAfter(f, d, r.level), r.items + Flatten(f, d))
  }

  ghost predicate ReadsBack(styles: seq<Style>, r: Reader, f: Forest, d: nat)
    requires d + Height(f) <= |styles|
  {
    var out := ReadAll(r, Headings(styles, f, d));
    out.Some? && out.value.items == r.items + Flatten(f, d)
  }

  /** A heading at depth `d` is read at level `d` exactly when it is legible and
      its style is not that of a smaller depth. */
  lemma ReadsHeading(styles: seq<Style>, r: Reader, m: nat, title: string, d: nat)
    requires At(styles, r, m, d) && d < |styles|
    ensures var one := ReadOne(r, Heading(styles[d], title));
            if PlainTitle(title) && Fine(styles, Max(m, d + 1))
            then one == Some(Reader(styles[..Max(m, d + 1)], d + 1, r.items + [(d, title)]))
            else one.None? || one.value.items != r.items + [(d, title)]
  {
    hide LegibleTitle, PlainTitle, LegibleStyle, Trim;
    ReadAsItStands(styles[d], title);
    assert (r.items + [(d, Trim(title))])[|r.items|] != (r.items + [(d, title)])[|r.items|] || Trim(title) == title;
    if d < m {
      KnownStyle(styles, m, d);
    } else {
      NewStyle(styles, d);
      var i := IndexOf(r.seen, styles[d]);
      assert (r.items + [(i, Trim(title))])[|r.items|] == (i, Trim(title));
      assert (r.items + [(d, title)])[|r.items|] == (d, title);
    }
  }

  lemma KnownStyle(styles: seq<Style>, m: nat, d: nat)
    requires d < m <= |styles| && Fine(styles, m)
    ensures IndexOf(styles[..m], styles[d]) == d
  {
    assert styles[..m][d] == styles[d];
  }

  lemma NewStyle(styles: seq<Style>, d: nat)
    requires d < |styles| && Fine(styles, d)
    ensures Fine(styles, d + 1) <==> LegibleStyle(styles[d]) && IndexOf(styles[..d], styles[d]) == d
    ensures styles[..d] + [styles[d]] == styles[..d + 1]
  {
    hide LegibleStyle;
    var i := IndexOf(styles[..d], styles[d]);
    if i < d {
      assert styles[i] == styles[d];
    } else {
      forall j | 0 <= j < d
        ensures styles[j] != styles[d]
      {
        assert styles[..d][j] == styles[j];
      }
    }
  }

  lemma {:induction false} LevelBound(f: Forest, d: nat, level: nat)
    requires level >= d
    ensures LevelAfter(f, d, level) <= Max(level, d + Height(f))
    decreases f
  {
    if f.Section? {
      LevelBound(f.subs, d + 1, d + 1);
      LevelBound(f.next, d, LevelAfter(f.subs, d + 1, d + 1));
    }
  }

  lemma LevelParts(f: Forest, d: nat, level: nat)
    requires level >= d && f.Section?
    ensures LevelAfter(f, d, level) == LevelAfter(f.next, d, LevelAfter(f.subs, d + 1, d + 1))
  {
  }

  lemma FirstHeading(styles: seq<Style>, r: Reader, f: Forest, d: nat)
    requires f.Section? && d + Height(f) <= |styles|
    ensures var one := ReadOne(r, Heading(styles[d], f.title));
            ReadAll(r, Headings(styles, f, d)) ==
            if one.None? then None
            else ReadAll(one.value, Headings(styles, f.subs, d + 1) + Headings(styles, f.next, d))
  {
    assert Headings(styles, f, d)[1..] == Headings(styles, f.subs, d + 1) + Headings(styles, f.next, d);
  }

  lemma FlattenParts(items: seq<Item>, f: Forest, d: nat)
    requires f.Section?
    ensures items + Flatten(f, d) == items + [(d, f.title)] + (Flatten(f.subs, d + 1) + Flatten(f.next, d))
    ensures items + Flatten(f, d) == items + [(d, f.title)] + Flatten(f.subs, d + 1) + Flatten(f.next, d)
  {
  }

  lemma FewerAreFine(styles: seq<Style>, n: nat, more: nat)
    requires n <= more <= |styles| && Fine(styles, more)
    ensures Fine(styles, n)
  {
  }

  /** What has been read wrongly stays wrong. */
  lemma WrongStaysWrong(r: Reader, hs: seq<Heading>, start: seq<Item>, rest: seq<Item>)
    requires |r.items| == |start| && r.items != start
    ensures ReadAll(r, hs).Some? ==> ReadAll(r, hs).value.items != start + rest
  {
    if ReadAll(r, hs).Some? {
      ReadAddsItems(r, hs);
      assert (start + rest)[..|start|] == start;
    }
  }

  /** Reading a forest at depth `d` recovers its levels and titles exactly when
      the styles it uses are fine and its titles are legible. */
  lemma {:induction false} ReadsBackIff(styles: seq<Style>, r: Reader, m: nat, f: Forest, d: nat)
    requires At(styles, r, m, d) && d + Height(f) <= |styles|
    ensures ReadsBack(styles, r, f, d) <==> Fine(styles, Max(m, d + Height(f))) && Titled(f)
    ensures ReadsBack(styles, r, f, d) ==> ReadAll(r, Headings(styles, f, d)) == Some(After(styles, r, m, f, d))
    decreases f
  {
    match f
    case Empty =>
      assert r.items + [] == r.items;
    case Section(title, subs, next) =>
      var below, beside := Headings(styles, subs, d + 1), Headings(styles, next, d);
      var one := ReadOne(r, Heading(styles[d], title));
      ReadsHeading(styles, r, m, title, d);
      FirstHeading(styles, r, f, d);
      FlattenParts(r.items, f, d);
      hide Fine, Headings, Flatten, LevelAfter, ReadOne, ReadAll, PlainTitle;
      if PlainTitle(title) && Fine(styles, Max(m, d + 1)) {
        ReadAppend(one.value, below, beside);
        ReadsSubs(styles, r, m, f, d, one.value);
      } else {
        if Fine(styles, Max(m, d + Height(f))) {
          FewerAreFine(styles, Max(m, d + 1), Max(m, d + Height(f)));
        }
        if one.Some? {
          WrongStaysWrong(one.value, below + beside, r.items + [(d, title)], Flatten(subs, d + 1) + Flatten(next, d));
        }
      }
  }

  /** The rest of the proof once the first heading has been read as `r1`. */
  lemma {:induction false} ReadsSubs(styles: seq<Style>, r: Reader, m: nat, f: Forest, d: nat, r1: Reader)
    requires At(styles, r, m, d) && f.Section? && d + Height(f) <= |styles|
    requires PlainTitle(f.title) && Fine(styles, Max(m, d + 1))
    requires r1 == Reader(styles[..Max(m, d + 1)], d + 1, r.items + [(d, f.title)])
    ensures var a := ReadAll(r1, Headings(styles, f.subs, d + 1));
            var out := if a.None? then None else ReadAll(a.value, Headings(styles, f.next, d));
            && (out.Some? && out.value.items == r.items + Flatten(f, d)
                <==> Fine(styles, Max(m, d + Height(f))) && Titled(f))
            && (out.Some? && out.value.items == r.items + Flatten(f, d) ==> out.value == After(styles, r, m, f, d))
    decreases f, 0
  {
    hide Fine, Headings, Flatten, LevelAfter, ReadAll, PlainTitle;
    var subs, next := f.subs, f.next;
    var m1 := Max(m, d + 1);
    var m2 := Max(m1, d + 1 + Height(subs));
    assert Max(m2, d + Height(next)) == Max(m, d + Height(f));
    var a := ReadAll(r1, Headings(styles, subs, d + 1));
    var items2 := r1.items + Flatten(subs, d + 1);
    FlattenParts(r.items, f, d);
    LevelParts(f, d, r.level);
    if Fine(styles, Max(m, d + Height(f))) {
      FewerAreFine(styles, m2, Max(m, d + Height(f)));
    }
    ReadsBackIff(styles, r1, m1, subs, d + 1);
    if ReadsBack(styles, r1, subs, d + 1) {
      LevelBound(subs, d + 1, d + 1);
      ReadsBackIff(styles, a.value, m2, next, d);
    } else if a.Some? {
      ReadAddsItems(r1, Headings(styles, subs, d + 1));
      SameLength(styles, subs, d + 1);
      WrongStaysWrong(a.value, Headings(styles, next, d), items2, Flatten(next, d));
    }
  }

  // ------------------------------------------------------------- balanced runs

  function EventsOf(f: Forest): seq<Event> {
    match f
    case Empty => []
    case Section(title, subs, next) => [Start(title)] + EventsOf(subs) + [Finish] + EventsOf(next)
  }

  /** A forest can be printed at depth `d` exactly when it is not too high, and
      that leaves the depth as it was. */
  lemma {:induction false} ForestRuns(styles: seq<Style>, f: Forest, d: nat)
    requires d <= |styles|
    ensures Exec(styles, EventsOf(f), d) ==
            if d + Height(f) <= |styles| then Some((d, Headings(styles, f, d))) else None
    decreases f
  {
    if f.Section? {
      var below, beside := [Start(f.title)] + EventsOf(f.subs), EventsOf(f.next);
      assert EventsOf(f) == below + ([Finish] + beside);
      assert below[1..] == EventsOf(f.subs) && ([Finish] + beside)[1..] == beside;
      if d < |styles| {
        ForestRuns(styles, f.subs, d + 1);
        ForestRuns(styles, f.next, d);
        if d + 1 + Height(f.subs) <= |styles| {
          ExecAppend(styles, below, [Finish] + beside, d);
        } else {
          ExecFails(styles, below, [Finish] + beside, d);
        }
      }
    }
  }

  lemma {:induction false} ExecFails(styles: seq<Style>, a: seq<Event>, b: seq<Event>, d: nat)
    requires Exec(styles, a, d).None?
    ensures Exec(styles, a + b, d).None?
    decreases |a|
  {
    if a != [] {
      assert (a + b)[1..] == a[1..] + b;
      if a[0].Start? && d < |styles| {
        ExecFails(styles, a[1..], b, d + 1);
      } else if a[0].Finish? && d > 0 {
        ExecFails(styles, a[1..], b, d - 1);
      }
    }
  }

  /** The forest opened by a run, up to the first section end without a start. */
  function Parse(events: seq<Event>): (r: (Forest, seq<Event>))
    ensures |r.1| <= |events| && (r.1 == [] || r.1[0] == Finish)
    decreases |events|
  {
    if events == [] || events[0].Finish? then (Empty, events)
    else
      var (subs, after) := Parse(events[1..]);
      if after == [] then (Section(events[0].title, subs, Empty), [])
      else
        var (next, rest) := Parse(after[1..]);
        (Section(events[0].title, subs, next), rest)
  }

  /** A run that ends at most as deep as it began is the printing of a forest
      and then the end of an outer section, if anything. */
  lemma {:induction false} RunIsForest(styles: seq<Style>, events: seq<Event>, d: nat)
    requires Exec(styles, events, d).Some? && Exec(styles, events, d).value.0 <= d <= |styles|
    ensures var (f, rest) := Parse(events);
            events == EventsOf(f) + rest && d + Height(f) <= |styles|
            && Exec(styles, rest, d).Some? && Exec(styles, rest, d).value.0 == Exec(styles, events, d).value.0
    decreases |events|
  {
    if events != [] && events[0].Start? {
      RunIsForest(styles, events[1..], d + 1);
      var (subs, after) := Parse(events[1..]);
      RunIsForest(styles, after[1..], d);
      var (next, rest) := Parse(after[1..]);
      assert after == [Finish] + after[1..] && events == [events[0]] + events[1..];
      hide Exec, Parse;
      EventsParts(events[0].title, subs, next, rest);
    }
  }

  lemma EventsParts(title: string, subs: Forest, next: Forest, rest: seq<Event>)
    ensures EventsOf(Section(title, subs, next)) + rest ==
            [Start(title)] + (EventsOf(subs) + ([Finish] + (EventsOf(next) + rest)))
  {
  }

  // ------------------------------------------------------------- the main result

  /** The forest that a reader sees in a document with these headings. */
  function Rebuilt(hs: seq<Heading>): Option<Forest> {
    var r := ReadAll(Reader([], 0, []), hs);
    if r.None? then None
    else
      var (f, rest) := Build(r.value.items, 0);
      if rest == [] then Some(f) else None
  }

  lemma {:induction false} FlattenBuild(items: seq<Item>, d: nat)
    ensures var (f, rest) := Build(items, d); Flatten(f, d) + rest == items
    decreases |items|
  {
    if items != [] && items[0].0 == d {
      var (subs, after) := Build(items[1..], d + 1);
      var (next, rest) := Build(after, d);
      FlattenBuild(items[1..], d + 1);
      FlattenBuild(after, d);
      assert items == [items[0]] + (Flatten(subs, d + 1) + (Flatten(next, d) + rest));
    }
  }

  /** A forest is read back exactly when the styles it uses and its titles are
      fine. */
  lemma {:induction false} ForestIsRebuiltIff(styles: seq<Style>, f: Forest)
    requires Height(f) <= |styles|
    ensures Rebuilt(Headings(styles, f, 0)) == Some(f) <==> Fine(styles, Height(f)) && Titled(f)
  {
    hide Fine, Titled, ReadAll, Headings, Rebuilt, Flatten, After, Height, At;
    var start := Reader([], 0, []);
    StartsAt(styles);
    ReadsBackIff(styles, start, 0, f, 0);
    RebuiltIff(Headings(styles, f, 0), f);
    assert start.items + Flatten(f, 0) == Flatten(f, 0);
  }

  lemma StartsAt(styles: seq<Style>)
    ensures At(styles, Reader([], 0, []), 0, 0)
  {
    assert styles[..0] == [];
  }

  lemma RebuiltIff(hs: seq<Heading>, f: Forest)
    ensures var r := ReadAll(Reader([], 0, []), hs);
            Rebuilt(hs) == Some(f) <==> r.Some? && r.value.items == Flatten(f, 0)
  {
    hide ReadAll, Build, Flatten;
    var r := ReadAll(Reader([], 0, []), hs);
    if r.Some? {
      ItemsAreForest(r.value.items, f);
    }
  }

  lemma ItemsAreForest(items: seq<Item>, f: Forest)
    ensures Build(items, 0) == (f, []) <==> items == Flatten(f, 0)
  {
    hide Build, Flatten;
    FlattenBuild(items, 0);
    BuildFlatten(f, 0, []);
    assert Flatten(f, 0) + [] == Flatten(f, 0);
  }

  /** Every run that closes all its sections prints the headings of one forest,
      and that forest is read back exactly when the styles in use are legible and
      different and the titles are legible. */
  lemma {:induction false} RunIsRead(styles: seq<Style>, events: seq<Event>)
    requires Exec(styles, events, 0).Some? && Exec(styles, events, 0).value.0 == 0
    ensures var f, hs := Parse(events).0, Exec(styles, events, 0).value.1;
            && events == EventsOf(f) && Height(f) <= |styles| && hs == Headings(styles, f, 0)
            && (Rebuilt(hs) == Some(f) <==> Fine(styles, Height(f)) && Titled(f))
  {
    var (f, rest) := Parse(events);
    RunIsForest(styles, events, 0);
    assert rest == [];
    assert EventsOf(f) + [] == EventsOf(f);
    ForestRuns(styles, f, 0);
    ForestIsRebuiltIff(styles, f);
  }
}
