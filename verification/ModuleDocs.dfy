/**
 The documentation page of a module, a client of the section printer.  Body text
 comes in as strings; what is modelled is which sections are opened and closed, where
 lines end in between, and what a reader of the page sees.
 */
module ModuleDocs {
  import opened Fields
  import opened TextLines
  import opened RestPrinter
  import opened RestReader

  /** A module input: its name and the text below its heading. */
  datatype InputDoc = InputDoc(name: string, details: seq<string>)

  /** The text above the list of inputs, above the table and above the details. */
  datatype InputTexts = InputTexts(intro: string, table: string, list: string)

  datatype ModuleText = ModuleText(
    remark: string,
    description: string,
    citations: seq<string>,
    propertyTypes: seq<string>,
    inputTexts: InputTexts,
    inputs: seq<InputDoc>,
    results: seq<string>,
    submods: seq<string>)

  function Joined(texts: seq<string>): string {
    if texts == [] then "" else Joined(texts[..|texts| - 1]) + texts[|texts| - 1]
  }

  // ------------------------------------------------------------ its sections

  function InputSections(inputs: seq<InputDoc>): Forest {
    if inputs == [] then Empty else Section(inputs[0].name, Empty, InputSections(inputs[1..]))
  }

  function InputsBody(inputs: seq<InputDoc>): Forest {
    Section("Quick Reference", Empty, Section("Detailed Descriptions", InputSections(inputs), Empty))
  }

  function InputsForest(inputs: seq<InputDoc>): Forest {
    Section("Module Inputs", InputsBody(inputs), Empty)
  }

  function Leaf(title: string): Forest {
    Section(title, Empty, Empty)
  }

  /** The page: citations, property types, inputs, results and submodules, all
      below the module's name. */
  function PageForest(name: string, inputs: seq<InputDoc>): Forest {
    Section(name, PageBody(inputs), Empty)
  }

  function PageBody(inputs: seq<InputDoc>): Forest {
    Section("Please Cite", Empty,
    Section("Property Types", Empty,
    Section("Module Inputs", InputsBody(inputs),
    Section("Module Results", Empty,
    Section("Submodules", Empty,
    Empty)))))
  }

  lemma EventsSplit(title: string, subs: Forest, next: Forest)
    ensures EventsOf(Section(title, subs, next)) == EventsOf(Section(title, subs, Empty)) + EventsOf(next)
  {
  }

  lemma {:induction false} OneMoreInput(inputs: seq<InputDoc>, x: InputDoc)
    ensures EventsOf(InputSections(inputs + [x])) == EventsOf(InputSections(inputs)) + [Start(x.name), Finish]
  {
    if inputs == [] {
      assert inputs + [x] == [x];
      assert InputSections([x]) == Section(x.name, Empty, InputSections([])) by { assert [x][1..] == []; }
    } else {
      assert (inputs + [x])[1..] == inputs[1..] + [x];
      OneMoreInput(inputs[1..], x);
    }
  }

  lemma {:induction false} InputsHeight(inputs: seq<InputDoc>)
    ensures Height(InputSections(inputs)) == if inputs == [] then 0 else 1
    ensures Height(InputsForest(inputs)) == if inputs == [] then 2 else 3
    ensures Height(InputsBody(inputs)) + 1 == Height(InputsForest(inputs))
  {
    if inputs != [] {
      InputsHeight(inputs[1..]);
    }
    var list := Section("Detailed Descriptions", InputSections(inputs), Empty);
    assert Height(list) == if inputs == [] then 1 else 2;
    assert Height(Section("Quick Reference", Empty, list)) == Height(list);
  }

  // ---------------------------------------------------------------- the calls

  /** One call after another on a printer `p` that prints the forest `f`; it gets
      stuck exactly when `f` is too high for the depth it starts at. */
  twostate predicate Printed(p: Printer, f: Forest, ok: bool)
    reads p
  {
    && p.Valid()
    && (ok <==> old(p.section) + Height(f) <= |p.Styles()|)
    && (ok ==> p.section == old(p.section) && p.events == old(p.events) + EventsOf(f))
  }

  lemma NoInputs()
    ensures EventsOf(InputSections([])) == []
  {
  }

  /** The text of a section without subsections. */
  function Body(rows: seq<string>, nothing: string, end: string): string {
    "\n" + if rows == [] then nothing else Joined(rows) + end
  }

  /** The details of every input are whole lines without adornments. */
  ghost predicate AllClosed(inputs: seq<InputDoc>) {
    forall i :: 0 <= i < |inputs| ==> Closed(Body(inputs[i].details, "", ""))
  }

  method InputFullList(p: Printer, inputs: seq<InputDoc>) returns (ok: bool)
    requires p.Valid()
    modifies p
    ensures Printed(p, InputSections(inputs), ok)
    ensures ok && inputs != [] && p.Styles()[p.section].over == ' ' && AllClosed(inputs)
            && old(Quiet(p.pieces)) && old(Closed(Tail(p.pieces))) ==>
              Quiet(p.pieces) && Closed(Tail(p.pieces))
  {
    hide Exec, TextOf, TitlesOf, Height, EventsOf, InputSections, StylesOf, Quiet, Closed, Tail;
    NoInputs();
    InputsHeight(inputs);
    ghost var calm := AllClosed(inputs) && Quiet(p.pieces) && Closed(Tail(p.pieces));
    var i := 0;
    while i < |inputs|
      invariant 0 <= i <= |inputs| && p.Valid() && p.section == old(p.section)
      invariant i > 0 ==> p.section < |p.Styles()|
      invariant p.events == old(p.events) + EventsOf(InputSections(inputs[..i]))
      invariant calm && p.section < |p.Styles()| && p.Styles()[p.section].over == ' ' ==>
                  Quiet(p.pieces) && Closed(Tail(p.pieces))
    {
      assert inputs[..i + 1] == inputs[..i] + [inputs[i]];
      OneMoreInput(inputs[..i], inputs[i]);
      ok := p.StartSection(inputs[i].name);
      if !ok {
        return;
      }
      WriteBody(p, inputs[i].details, "", "");
      assert "" + Body(inputs[i].details, "", "") == Body(inputs[i].details, "", "");
      ok := p.FinishSection();
      i := i + 1;
    }
    assert inputs[..i] == inputs;
    ok := true;
  }

  /** The text of the sections on the inputs, apart from the list itself. */
  ghost predicate QuietInputs(texts: InputTexts, inputs: seq<InputDoc>) {
    NoRules(Lines(texts.intro)) && NoRules(Lines(texts.table)) && NoRules(Lines(texts.list)) && AllClosed(inputs)
  }

  /** Deeper headings than those of the inputs have no overline. */
  ghost predicate UnderlinedFrom(styles: seq<Style>, d: nat) {
    forall i :: d <= i < |styles| ==> styles[i].over == ' '
  }

  const NO_INPUTS := "The module defines no inputs."

  method QuickReference(p: Printer, table: string, inputs: seq<InputDoc>) returns (ok: bool)
    requires p.Valid()
    modifies p
    ensures Printed(p, Leaf("Quick Reference"), ok)
    ensures ok ==>
              && Tail(p.pieces) == "" + ("\n" + (if inputs == [] then NO_INPUTS else table) + "\n\n")
              && (Quiet(p.pieces) <==> old(Quiet(p.pieces)) && Leaves(old(Tail(p.pieces)), p.Styles()[p.section]))
  {
    hide Printer.Valid, EventsOf, Height, Quiet, Tail, Leaves;
    LeafParts("Quick Reference");
    ok := p.StartSection("Quick Reference");
    if !ok { return; }
    if inputs == [] {
      p.Write("\n" + NO_INPUTS + "\n\n");
    } else {
      p.Write("\n" + table + "\n\n");
    }
    ok := p.FinishSection();
  }

  function DetailsForest(inputs: seq<InputDoc>): Forest {
    Section("Detailed Descriptions", InputSections(inputs), Empty)
  }

  method DetailedDescriptions(p: Printer, list: string, inputs: seq<InputDoc>) returns (ok: bool)
    requires p.Valid()
    modifies p
    ensures Printed(p, DetailsForest(inputs), ok)
    ensures ok && NoRules(Lines(list)) && AllClosed(inputs) && UnderlinedFrom(p.Styles(), p.section + 1)
            && old(Quiet(p.pieces)) && Leaves(old(Tail(p.pieces)), p.Styles()[p.section]) ==>
              Quiet(p.pieces) && Closed(Tail(p.pieces))
  {
    hide Printer.Valid, EventsOf, InputSections, Height, Quiet, Tail, Leaves, Lines, NoRules, AllClosed, Closed;
    DetailsParts(inputs);
    NoInputsLine();
    LineCloses(NO_INPUTS);
    FramedCloses(list);
    ok := p.StartSection("Detailed Descriptions");
    if !ok { return; }
    if inputs == [] {
      p.Write("\n" + NO_INPUTS + "\n");
    } else {
      p.Write("\n" + list + "\n\n");
      ok := InputFullList(p, inputs);
      if !ok { return; }
    }
    ok := p.FinishSection();
  }

  lemma DetailsParts(inputs: seq<InputDoc>)
    ensures EventsOf(DetailsForest(inputs)) ==
            [Start("Detailed Descriptions")] + EventsOf(InputSections(inputs)) + [Finish]
    ensures Height(DetailsForest(inputs)) == 1 + Height(InputSections(inputs))
    ensures Height(InputSections(inputs)) == if inputs == [] then 0 else 1
    ensures inputs == [] ==> EventsOf(InputSections(inputs)) == []
  {
    InputsHeight(inputs);
  }

  /** `print_inputs` */
  method PrintInputs(p: Printer, texts: InputTexts, inputs: seq<InputDoc>) returns (ok: bool)
    requires p.Valid()
    modifies p
    ensures Printed(p, InputsForest(inputs), ok)
    ensures ok && QuietInputs(texts, inputs) && UnderlinedFrom(p.Styles(), p.section + 2)
            && old(Quiet(p.pieces)) && Leaves(old(Tail(p.pieces)), p.Styles()[p.section]) ==>
              Quiet(p.pieces) && Closed(Tail(p.pieces))
  {
    hide Printer.Valid, EventsOf, InputSections, InputsForest, DetailsForest, Height, Leaf;
    hide Quiet, Leaves, Tail, NoRules, Lines, AllClosed, Closed;
    InputsHeight(inputs);
    InputsEvents(inputs);
    DetailsParts(inputs);
    LeafParts("Quick Reference");
    InputBodies(texts);
    ok := p.StartSection("Module Inputs");
    if !ok { return; }
    p.Write("\n" + texts.intro + "\n\n");
    ok := QuickReference(p, texts.table, inputs);
    if !ok { return; }
    ok := DetailedDescriptions(p, texts.list, inputs);
    if !ok { return; }
    ok := p.FinishSection();
  }

  lemma InputBodies(texts: InputTexts)
    ensures NoRules(Lines(texts.intro)) ==> forall s :: Leaves("" + ("\n" + texts.intro + "\n\n"), s)
    ensures NoRules(Lines(texts.table)) ==> forall s :: Leaves("" + ("\n" + texts.table + "\n\n"), s)
    ensures forall s :: Leaves("" + ("\n" + NO_INPUTS + "\n\n"), s)
  {
    hide Leaves, Closed, NoRules, Lines, EndsBlank;
    NoInputsLine();
    forall s
      ensures NoRules(Lines(texts.intro)) ==> Leaves("" + ("\n" + texts.intro + "\n\n"), s)
      ensures NoRules(Lines(texts.table)) ==> Leaves("" + ("\n" + texts.table + "\n\n"), s)
      ensures Leaves("" + ("\n" + NO_INPUTS + "\n\n"), s)
    {
      FramedLeaves(texts.intro, s);
      FramedLeaves(texts.table, s);
      FramedLeaves(NO_INPUTS, s);
    }
  }

  lemma NoInputsLine()
    ensures NoRules(Lines(NO_INPUTS))
  {
    hide NoRules, Lines;
    MixedLine(NO_INPUTS);
  }

  /** A line that begins with two different characters is no adornment. */
  lemma MixedLine(line: string)
    requires |line| >= 2 && line[0] != line[1] && OneLine(line)
    ensures NoRules(Lines(line))
  {
    LinesOfOne(line);
    hide Lines, IsAdornment;
  }

  /** Text between a break and two breaks leaves any heading alone. */
  lemma FramedLeaves(t: string, s: Style)
    ensures NoRules(Lines(t)) ==> Leaves("" + ("\n" + t + "\n\n"), s)
  {
    var words := "" + ("\n" + t + "\n\n");
    assert words[..|words| - 1] == "" + "\n" + (t + "\n" + "");
    LinesBreak("", t + "\n" + "");
    LinesBreak(t, "");
    assert Lines("") == [""];
    assert Lines(words[..|words| - 1]) == [""] + (Lines(t) + [""]);
    hide Lines, IsRule;
    NotARule();
  }

  lemma NotARule()
    ensures !IsRule("") && IsBlankLine("")
  {
  }

  lemma FramedCloses(t: string)
    ensures NoRules(Lines(t)) ==> Closed("" + ("\n" + t + "\n\n"))
  {
    FramedLeaves(t, Style(' ', '='));
  }

  lemma LineCloses(t: string)
    ensures NoRules(Lines(t)) ==> Closed("" + ("\n" + t + "\n"))
  {
    var words := "" + ("\n" + t + "\n");
    assert words[..|words| - 1] == "" + "\n" + t;
    LinesBreak("", t);
    assert Lines("") == [""];
    hide Lines, IsRule;
    NotARule();
  }

  lemma InputsEvents(inputs: seq<InputDoc>)
    ensures EventsOf(InputsForest(inputs)) ==
            [Start("Module Inputs"), Start("Quick Reference"), Finish, Start("Detailed Descriptions")]
            + EventsOf(InputSections(inputs)) + [Finish, Finish]
    ensures inputs == [] ==> EventsOf(InputSections(inputs)) == []
  {
    var list := Section("Detailed Descriptions", InputSections(inputs), Empty);
    assert EventsOf(list) == [Start("Detailed Descriptions")] + EventsOf(InputSections(inputs)) + [Finish];
    var both := Section("Quick Reference", Empty, list);
    assert EventsOf(both) == [Start("Quick Reference"), Finish] + EventsOf(list);
    assert EventsOf(InputsForest(inputs)) == [Start("Module Inputs")] + EventsOf(both) + [Finish];
  }

  /** `print_results` and `print_submods`: one section with a table, or a remark
      that there is nothing. */
  method PrintTable(p: Printer, title: string, rows: seq<string>, nothing: string, end: string) returns (ok: bool)
    requires p.Valid()
    modifies p
    ensures Printed(p, Leaf(title), ok)
    ensures ok ==>
              && Tail(p.pieces) == Body(rows, nothing, end)
              && (Quiet(p.pieces) <==> old(Quiet(p.pieces)) && Leaves(old(Tail(p.pieces)), p.Styles()[p.section]))
  {
    hide Printer.Valid, EventsOf, Height, Quiet, Tail, Leaves, Body;
    LeafParts(title);
    ok := p.StartSection(title);
    if !ok { return; }
    WriteBody(p, rows, nothing, end);
    assert "" + Body(rows, nothing, end) == Body(rows, nothing, end);
    ok := p.FinishSection();
  }

  lemma LeafParts(title: string)
    ensures EventsOf(Leaf(title)) == [Start(title), Finish] && Height(Leaf(title)) == 1
  {
  }

  method WriteBody(p: Printer, rows: seq<string>, nothing: string, end: string)
    requires p.Valid()
    modifies p
    ensures p.Valid() && p.section == old(p.section) && p.events == old(p.events)
    ensures Tail(p.pieces) == old(Tail(p.pieces)) + Body(rows, nothing, end)
    ensures Quiet(p.pieces) <==> old(Quiet(p.pieces))
  {
    hide Printer.Valid, Quiet, Tail;
    p.Write("\n");
    if rows == [] {
      p.Write(nothing);
    } else {
      WriteAll(p, rows);
      p.Write(end);
    }
    assert Tail(p.pieces) == old(Tail(p.pieces)) + Body(rows, nothing, end);
  }

  method WriteAll(p: Printer, lines: seq<string>)
    requires p.Valid()
    modifies p
    ensures p.Valid() && p.section == old(p.section) && p.events == old(p.events)
    ensures Tail(p.pieces) == old(Tail(p.pieces)) + Joined(lines) && (Quiet(p.pieces) <==> old(Quiet(p.pieces)))
  {
    hide Printer.Valid, Quiet, Tail;
    var i := 0;
    while i < |lines|
      invariant 0 <= i <= |lines| && p.Valid() && p.section == old(p.section) && p.events == old(p.events)
      invariant Tail(p.pieces) == old(Tail(p.pieces)) + Joined(lines[..i])
      invariant Quiet(p.pieces) <==> old(Quiet(p.pieces))
    {
      p.Write(lines[i]);
      assert lines[..i + 1][..i] == lines[..i];
      i := i + 1;
    }
    assert lines[..i] == lines;
  }

  // ----------------------------------------------------------------- the page

  const DEFAULT_STYLES: seq<Style> := StylesOf("#*=-^\"", "#*      ")

  lemma PageHeight(name: string, inputs: seq<InputDoc>)
    ensures Height(PageForest(name, inputs)) == if inputs == [] then 3 else 4
    ensures Height(PageBody(inputs)) == Height(InputsForest(inputs))
  {
    hide InputsBody, InputsForest;
    InputsHeight(inputs);
    var results := Section("Module Results", Empty, Section("Submodules", Empty, Empty));
    var below := Section("Module Inputs", InputsBody(inputs), results);
    assert Height(results) == 1;
    assert Height(below) == Height(InputsBody(inputs)) + 1;
    assert Height(PageBody(inputs)) == Height(below);
  }

  function InputItems(inputs: seq<InputDoc>): seq<Item> {
    seq(|inputs|, i requires 0 <= i < |inputs| => (3, inputs[i].name))
  }

  /** The outline of the page. */
  lemma PageOutline(name: string, inputs: seq<InputDoc>)
    ensures Flatten(PageForest(name, inputs), 0) ==
            [(0, name), (1, "Please Cite"), (1, "Property Types"), (1, "Module Inputs"),
             (2, "Quick Reference"), (2, "Detailed Descriptions")]
            + InputItems(inputs) + [(1, "Module Results"), (1, "Submodules")]
  {
    InputsOutline(inputs);
    hide InputSections, InputItems;
    var d := Section("Module Results", Empty, Leaf("Submodules"));
    assert Flatten(d, 1) == [(1, "Module Results"), (1, "Submodules")];
    assert Flatten(InputsBody(inputs), 2) ==
           [(2, "Quick Reference"), (2, "Detailed Descriptions")] + InputItems(inputs);
    hide InputsBody;
    var c := Section("Module Inputs", InputsBody(inputs), d);
    assert Flatten(c, 1) == [(1, "Module Inputs")] + Flatten(InputsBody(inputs), 2) + Flatten(d, 1);
    var b := Section("Property Types", Empty, c);
    assert Flatten(b, 1) == [(1, "Property Types")] + Flatten(c, 1);
    assert Flatten(PageBody(inputs), 1) == [(1, "Please Cite")] + Flatten(b, 1);
  }

  lemma {:induction false} InputsOutline(inputs: seq<InputDoc>)
    ensures Flatten(InputSections(inputs), 3) == InputItems(inputs)
  {
    if inputs != [] {
      InputsOutline(inputs[1..]);
      assert InputItems(inputs) == [(3, inputs[0].name)] + InputItems(inputs[1..]);
    }
  }

  lemma PageEvents(name: string, inputs: seq<InputDoc>)
    ensures EventsOf(PageForest(name, inputs)) ==
            [Start(name)] + EventsOf(PageBody(inputs)) + [Finish]
    ensures EventsOf(PageBody(inputs)) ==
            EventsOf(Leaf("Please Cite")) + EventsOf(Leaf("Property Types"))
            + EventsOf(InputsForest(inputs)) + EventsOf(Leaf("Module Results")) + EventsOf(Leaf("Submodules"))
  {
    assert EventsOf(PageForest(name, inputs)) == [Start(name)] + EventsOf(PageBody(inputs)) + [Finish] + [];
    hide EventsOf, InputsBody, InputSections;
    var d := Leaf("Submodules");
    var c := Section("Module Results", Empty, d);
    var b := Section("Module Inputs", InputsBody(inputs), c);
    EventsSplit("Module Results", Empty, d);
    EventsSplit("Module Inputs", InputsBody(inputs), c);
    EventsSplit("Property Types", Empty, b);
    EventsSplit("Please Cite", Empty, Section("Property Types", Empty, b));
  }

  lemma DefaultStylesFine()
    ensures |DEFAULT_STYLES| == 6 && Fine(DEFAULT_STYLES, 6)
  {
  }

  lemma HeightOfLeaf()
    ensures forall title :: Height(Leaf(title)) == 1
  {
  }

  const NO_CITATIONS := "No citations"
  const NO_TYPES := "The module satisfies no property types."
  const NO_RESULTS := "The module defines no results."
  const NO_SUBMODS := "The module defines no submodules."

  /** No line of the module's own texts is of one adornment character, and what is
      printed line by line ends its lines. */
  ghost predicate QuietText(mod: ModuleText) {
    && NoRules(Lines(mod.remark)) && NoRules(Lines(mod.description))
    && (forall s :: Leaves(Body(mod.citations, NO_CITATIONS + "\n\n", "\n\n"), s))
    && (forall s :: Leaves(Body(mod.propertyTypes, NO_TYPES + "\n" + "\n\n", "\n"), s))
    && QuietInputs(mod.inputTexts, mod.inputs)
    && (forall s :: Leaves(Body(mod.results, NO_RESULTS + "\n\n", "\n\n"), s))
    && NoRules(Lines(Body(mod.submods, NO_SUBMODS + "\n\n", "")))
  }

  /** The remarks on what a module does not have are quiet, so the texts of a module
      that has nothing are as long as its remark and description are. */
  lemma NothingIsQuiet(remark: string, description: string, texts: InputTexts)
    requires NoRules(Lines(remark)) && NoRules(Lines(description)) && QuietInputs(texts, [])
    ensures QuietText(ModuleText(remark, description, [], [], texts, [], [], []))
  {
    hide NoRules, Lines, Leaves, QuietInputs;
    RemarksAreLines();
    LineAndBreak(NO_TYPES);
    FramedHasNoRules(NO_SUBMODS);
    forall s
      ensures Leaves(Body([], NO_CITATIONS + "\n\n", "\n\n"), s)
      ensures Leaves(Body([], NO_TYPES + "\n" + "\n\n", "\n"), s)
      ensures Leaves(Body([], NO_RESULTS + "\n\n", "\n\n"), s)
    {
      RemarkLeaves(NO_CITATIONS, "\n\n", s);
      RemarkLeaves(NO_TYPES + "\n", "\n", s);
      RemarkLeaves(NO_RESULTS, "\n\n", s);
    }
    assert "\n" + NO_SUBMODS + "\n\n" == Body([], NO_SUBMODS + "\n\n", "");
  }

  lemma RemarksAreLines()
    ensures NoRules(Lines(NO_CITATIONS)) && NoRules(Lines(NO_TYPES)) && NoRules(Lines(NO_RESULTS))
    ensures NoRules(Lines(NO_SUBMODS))
  {
    hide NoRules, Lines, OneLine;
    CitationsRemark();
    TypesRemark();
    ResultsRemark();
    SubmodsRemark();
  }

  lemma CitationsRemark()
    ensures NoRules(Lines(NO_CITATIONS))
  {
    hide NoRules, Lines;
    MixedLine(NO_CITATIONS);
  }

  lemma TypesRemark()
    ensures NoRules(Lines(NO_TYPES))
  {
    hide NoRules, Lines;
    MixedLine(NO_TYPES);
  }

  lemma ResultsRemark()
    ensures NoRules(Lines(NO_RESULTS))
  {
    hide NoRules, Lines;
    MixedLine(NO_RESULTS);
  }

  lemma SubmodsRemark()
    ensures NoRules(Lines(NO_SUBMODS))
  {
    hide NoRules, Lines;
    MixedLine(NO_SUBMODS);
  }

  lemma RemarkLeaves(t: string, end: string, s: Style)
    requires NoRules(Lines(t))
    ensures Leaves(Body([], t + "\n\n", end), s)
  {
    hide Leaves, NoRules, Lines;
    FramedLeaves(t, s);
    assert "" + ("\n" + t + "\n\n") == Body([], t + "\n\n", end);
  }

  lemma LineAndBreak(t: string)
    requires NoRules(Lines(t))
    ensures NoRules(Lines(t + "\n"))
  {
    LinesBreak(t, "");
    assert t + "\n" + "" == t + "\n" && Lines("") == [""];
    hide Lines, IsRule;
    NotARule();
  }

  lemma FramedHasNoRules(t: string)
    requires NoRules(Lines(t))
    ensures NoRules(Lines("\n" + t + "\n\n"))
  {
    LineAndBreak(t);
    LineAndBreak(t + "\n");
    LinesBreak("", t + "\n\n");
    assert "" + "\n" + (t + "\n\n") == "\n" + t + "\n\n" && t + "\n\n" == t + "\n" + "\n" && Lines("") == [""];
    hide Lines, IsRule;
    NotARule();
  }

  /** The sections below the module's name. */
  method PageSections(p: Printer, mod: ModuleText) returns (ok: bool)
    requires p.Valid()
    modifies p
    ensures Printed(p, PageBody(mod.inputs), ok)
    ensures ok && QuietText(mod) && UnderlinedFrom(p.Styles(), p.section + 2)
            && old(Quiet(p.pieces)) && Leaves(old(Tail(p.pieces)), p.Styles()[p.section]) ==>
              Quiet(p.pieces) && NoRules(Lines(Tail(p.pieces)))
  {
    hide Printer.Valid, Exec, TextOf, TitlesOf, EventsOf, InputsForest, PageForest, PageBody, Height, Leaf;
    hide Quiet, Tail, Leaves, NoRules, Lines, Body, QuietInputs, Closed;
    PageHeight("", mod.inputs);
    InputsHeight(mod.inputs);
    PageEvents("", mod.inputs);
    HeightOfLeaf();
    ok := PrintTable(p, "Please Cite", mod.citations, NO_CITATIONS + "\n\n", "\n\n");
    if !ok { return; }
    ok := PrintTable(p, "Property Types", mod.propertyTypes, NO_TYPES + "\n" + "\n\n", "\n");
    if !ok { return; }
    ok := PrintInputs(p, mod.inputTexts, mod.inputs);
    if !ok { return; }
    ghost var words := Tail(p.pieces);
    p.Write("\n");
    OneMoreBreak(words, p.Styles());
    ok := PrintTable(p, "Module Results", mod.results, NO_RESULTS + "\n\n", "\n\n");
    if !ok { return; }
    ok := PrintTable(p, "Submodules", mod.submods, NO_SUBMODS + "\n\n", "");
  }

  /** A further break after whole lines leaves any heading alone. */
  lemma OneMoreBreak(words: string, styles: seq<Style>)
    ensures Closed(words) ==> forall i :: 0 <= i < |styles| ==> Leaves(words + "\n", styles[i])
  {
    var all := words + "\n";
    assert all[..|all| - 1] == words;
    if words != "" && Closed(words) {
      var front := words[..|words| - 1];
      assert words == front + "\n" + "";
      LinesBreak(front, "");
      assert Lines("") == [""];
    }
    NotARule();
    hide Lines, IsRule;
  }

  /** Never runs out of adornments and ends outside every section; the headings in
      the text are those of the page's sections.  If the module's own texts are
      quiet, a reader of the text sees exactly these sections if and only if the
      names of the module and of its inputs are plain lines. */
  method DocumentModule(name: string, mod: ModuleText)
    returns (ok: bool, doc: string, ghost pieces: seq<Piece>, ghost events: seq<Event>)
    ensures ok && doc == TextOf(pieces)
    ensures events == EventsOf(PageForest(name, mod.inputs))
    ensures Exec(DEFAULT_STYLES, events, 0) == Some((0, TitlesOf(pieces)))
    ensures Height(PageForest(name, mod.inputs)) <= 4 <= |DEFAULT_STYLES|
    ensures TitlesOf(pieces) == Headings(DEFAULT_STYLES, PageForest(name, mod.inputs), 0)
    ensures QuietText(mod) ==>
              (TextRebuilt(doc) == Some(PageForest(name, mod.inputs))
               <==> PlainTitle(name) && forall i :: 0 <= i < |mod.inputs| ==> PlainTitle(mod.inputs[i].name))
  {
    hide Exec, StylesOf, Fine, TextOf, TitlesOf, EventsOf, InputsForest, PageForest, PageBody, Height, Headings;
    hide QuietText, Quiet, Tail, Leaves, Lines, NoRules, TextRebuilt, PlainTitle;
    PageHeight(name, mod.inputs);
    InputsHeight(mod.inputs);
    DefaultStylesFine();
    PageTexts(mod);
    var p := new Printer("#*=-^\"", "#*      ");
    EmptyIsQuiet();
    p.Write(mod.remark + "\n\n");
    ok := p.StartSection(name);
    p.Write("\n" + mod.description + "\n\n");
    ok := PageSections(p, mod);
    ok := p.FinishSection();
    PageEvents(name, mod.inputs);
    assert p.events == EventsOf(PageForest(name, mod.inputs)) && p.Styles() == DEFAULT_STYLES;
    ForestRuns(DEFAULT_STYLES, PageForest(name, mod.inputs), 0);
    doc, pieces, events := p.os, p.pieces, p.events;
    assert p.Valid();
    if QuietText(mod) {
      PageTextIsReadBack(name, mod.inputs, pieces);
    }
  }

  lemma EmptyIsQuiet()
    ensures Quiet([]) && Tail([]) == ""
  {
  }

  lemma PageTexts(mod: ModuleText)
    requires |DEFAULT_STYLES| == 6
    ensures QuietText(mod) ==>
              && Leaves("" + (mod.remark + "\n\n"), DEFAULT_STYLES[0])
              && Leaves("" + ("\n" + mod.description + "\n\n"), DEFAULT_STYLES[1])
    ensures UnderlinedFrom(DEFAULT_STYLES, 2)
  {
    DeepStylesUnderlined();
    hide StylesOf, Leaves, Lines, NoRules, Body, QuietInputs, UnderlinedFrom;
    if QuietText(mod) {
      FramedLeaves(mod.description, DEFAULT_STYLES[1]);
      LeadingLeaves(mod.remark, DEFAULT_STYLES[0]);
    }
  }

  lemma DeepStylesUnderlined()
    ensures UnderlinedFrom(DEFAULT_STYLES, 2)
  {
  }

  lemma LeadingLeaves(t: string, s: Style)
    requires NoRules(Lines(t))
    ensures Leaves("" + (t + "\n\n"), s)
  {
    var words := "" + (t + "\n\n");
    assert words[..|words| - 1] == t + "\n" + "";
    LinesBreak(t, "");
    assert Lines("") == [""];
    hide Lines, IsRule;
    NotARule();
  }

  /** A reader of the page finds exactly its sections if and only if the names of
      the module and of its inputs are plain lines. */
  lemma PageIsReadBack(name: string, inputs: seq<InputDoc>)
    ensures Height(PageForest(name, inputs)) <= |DEFAULT_STYLES|
    ensures Rebuilt(Headings(DEFAULT_STYLES, PageForest(name, inputs), 0)) == Some(PageForest(name, inputs))
            <==> (PlainTitle(name) && forall i :: 0 <= i < |inputs| ==> PlainTitle(inputs[i].name))
  {
    hide Rebuilt, Headings, Height, Fine, StylesOf, PlainTitle, PageForest;
    PageHeight(name, inputs);
    DefaultStylesFine();
    FewerAreFine(DEFAULT_STYLES, Height(PageForest(name, inputs)), 6);
    ForestIsRebuiltIff(DEFAULT_STYLES, PageForest(name, inputs));
    PageTitles(name, inputs);
  }

  /** The same for the text of the page. */
  lemma PageTextIsReadBack(name: string, inputs: seq<InputDoc>, pieces: seq<Piece>)
    requires Height(PageForest(name, inputs)) <= |DEFAULT_STYLES|
    requires TitlesOf(pieces) == Headings(DEFAULT_STYLES, PageForest(name, inputs), 0)
    requires Quiet(pieces) && NoRules(Lines(Tail(pieces)))
    ensures TextRebuilt(TextOf(pieces)) == Some(PageForest(name, inputs))
            <==> (PlainTitle(name) && forall i :: 0 <= i < |inputs| ==> PlainTitle(inputs[i].name))
  {
    hide TextRebuilt, Headings, Height, StylesOf, PlainTitle, PageForest, Quiet, NoRules;
    PageHeight(name, inputs);
    DefaultStylesFine();
    FewerAreFine(DEFAULT_STYLES, Height(PageForest(name, inputs)), 6);
    assert forall i :: 0 <= i < Height(PageForest(name, inputs)) ==> LegibleStyle(DEFAULT_STYLES[i]);
    DocumentIsReadIff(DEFAULT_STYLES, PageForest(name, inputs), pieces);
    PageTitles(name, inputs);
  }

  lemma PageTitles(name: string, inputs: seq<InputDoc>)
    ensures Titled(PageForest(name, inputs))
            <==> (PlainTitle(name) && forall i :: 0 <= i < |inputs| ==> PlainTitle(inputs[i].name))
  {
    FixedTitles();
    InputTitles(inputs);
    hide PlainTitle, InputSections;
    assert Titled(InputsBody(inputs)) <==> Titled(InputSections(inputs));
    hide InputsBody;
    var d := Section("Module Results", Empty, Leaf("Submodules"));
    assert Titled(d);
    var c := Section("Module Inputs", InputsBody(inputs), d);
    assert Titled(c) <==> Titled(InputsBody(inputs));
    var b := Section("Property Types", Empty, c);
    assert Titled(b) <==> Titled(c);
  }

  lemma LetterTitle(s: string)
    requires s != "" && 'A' <= s[0] <= 'Z' && 'a' <= s[|s| - 1] <= 'z' && OneLine(s)
    ensures PlainTitle(s)
  {
  }

  lemma FixedTitles()
    ensures PlainTitle("Please Cite") && PlainTitle("Property Types") && PlainTitle("Module Inputs")
    ensures PlainTitle("Quick Reference") && PlainTitle("Detailed Descriptions")
    ensures PlainTitle("Module Results") && PlainTitle("Submodules")
  {
    hide PlainTitle;
    LetterTitle("Please Cite");
    LetterTitle("Property Types");
    LetterTitle("Module Inputs");
    LetterTitle("Quick Reference");
    LetterTitle("Detailed Descriptions");
    LetterTitle("Module Results");
    LetterTitle("Submodules");
  }

  lemma {:induction false} InputTitles(inputs: seq<InputDoc>)
    ensures Titled(InputSections(inputs)) <==> forall i :: 0 <= i < |inputs| ==> PlainTitle(inputs[i].name)
  {
    if inputs != [] {
      InputTitles(inputs[1..]);
      assert forall i :: 0 < i < |inputs| ==> inputs[i] == inputs[1..][i - 1];
    }
  }
}
