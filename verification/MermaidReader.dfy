/**
 Reading a Mermaid flowchart back from the printed text: line by line, a node or an
 arrow between two nodes, by their codes.
 */
module MermaidReader {
  import opened TextLines
  import opened Mermaid
  import F = Fields

  // ----------------------------------------------------------------- the reader

  datatype Item = Node(code: string, caption: string) | Link(from: string, key: string, to: string, caption: string)

  /** How many capital letters `s` begins with. */
  function Capitals(s: string): (n: nat)
    ensures n <= |s|
  {
    if s != "" && 'A' <= s[0] <= 'Z' then 1 + Capitals(s[1..]) else 0
  }

  /** The position of the first `c`, or the length if there is none. */
  function Find(s: string, c: char): (i: nat)
    ensures i <= |s|
  {
    if s == "" || s[0] == c then 0 else 1 + Find(s[1..], c)
  }

  /** A code and a label in brackets. */
  function ReadNode(s: string): F.Option<(string, string)> {
    var n := Capitals(s);
    if |s| >= n + 2 && s[n] == '[' && s[|s| - 1] == ']' then F.Some((s[..n], s[n + 1..|s| - 1])) else F.None
  }

  /** A key up to a bar, and a node. */
  function ReadEnd(from: string, s: string): F.Option<Item> {
    var i := Find(s, '|');
    if !("| " <= s[i..]) then F.None
    else
      var to := ReadNode(s[i..][2..]);
      if to.None? then F.None else F.Some(Link(from, s[..i], to.value.0, to.value.1))
  }

  /** A code, an arrow with a key, and a node. */
  function ReadLink(s: string): F.Option<Item> {
    var n := Capitals(s);
    if "-->|" <= s[n..] then ReadEnd(s[..n], s[n..][4..]) else F.None
  }

  function ReadItem(line: string): F.Option<Item> {
    if line == "" || line[0] != '\t' then F.None
    else
      var node := ReadNode(line[1..]);
      if node.Some? then F.Some(Node(node.value.0, node.value.1)) else ReadLink(line[1..])
  }

  /** The nodes and arrows in the lines of a text. */
  function ReadItems(ls: seq<string>): seq<Item> {
    if ls == [] then [] else ItemsIn(ls[0]) + ReadItems(ls[1..])
  }

  function ItemsIn(line: string): seq<Item> {
    if ReadItem(line).Some? then [ReadItem(line).value] else []
  }

  lemma {:induction false} ReadAppend(a: seq<string>, b: seq<string>)
    ensures ReadItems(a + b) == ReadItems(a) + ReadItems(b)
  {
    hide ItemsIn;
    if a == [] {
      assert a + b == b;
    } else {
      assert (a + b)[0] == a[0] && (a + b)[1..] == a[1..] + b;
      ReadAppend(a[1..], b);
      GlueThree(ItemsIn(a[0]), ReadItems(a[1..]), ReadItems(b));
    }
  }

  lemma GlueThree(a: seq<Item>, b: seq<Item>, c: seq<Item>)
    ensures a + (b + c) == a + b + c
  {
  }

  // ------------------------------------------------------------------ one line

  lemma {:induction false} CapitalsOf(code: string, rest: string)
    requires IsCode(code) && (rest == "" || !('A' <= rest[0] <= 'Z'))
    ensures Capitals(code + rest) == |code|
  {
    if code == "" {
      assert code + rest == rest;
    } else {
      assert (code + rest)[1..] == code[1..] + rest;
      CapitalsOf(code[1..], rest);
    }
  }

  lemma {:induction false} FindIn(s: string, rest: string, c: char)
    requires rest != "" && rest[0] == c
    ensures Find(s + rest, c) <= |s| && (Find(s + rest, c) == |s| <==> c !in s)
  {
    if s == "" {
      assert s + rest == rest;
    } else {
      assert (s + rest)[1..] == s[1..] + rest;
      FindIn(s[1..], rest, c);
      assert c in s <==> c == s[0] || c in s[1..];
    }
  }

  lemma NodeIsRead(code: string, caption: string)
    requires IsCode(code)
    ensures ReadNode(code + Box(caption)) == F.Some((code, caption))
  {
    var s := code + Box(caption);
    CapitalsOf(code, Box(caption));
    assert s[..|code|] == code && s[|code| + 1..|s| - 1] == caption;
  }

  /** The line of a module's own node. */
  lemma NodeLineIsRead(code: string, caption: string)
    requires IsCode(code)
    ensures ReadItem("\t" + code + Box(caption)) == F.Some(Node(code, caption))
  {
    NodeIsRead(code, caption);
    assert ("\t" + code + Box(caption))[1..] == code + Box(caption);
  }

  function LinkText(from: string, key: string, to: string, caption: string): string {
    "\t" + from + "-->" + "|" + key + "| " + to + Box(caption)
  }

  lemma EndIsRead(from: string, key: string, to: string, caption: string)
    requires IsCode(to)
    ensures ReadEnd(from, key + ("| " + (to + Box(caption)))) == F.Some(Link(from, key, to, caption)) <==> '|' !in key
  {
    var node := to + Box(caption);
    var tail := "| " + node;
    var s := key + tail;
    FindIn(key, tail, '|');
    NodeIsRead(to, caption);
    hide ReadNode, Find, Box;
    var i := Find(s, '|');
    if '|' !in key {
      assert s[i..] == tail && s[..i] == key && tail[2..] == node;
    } else {
      assert |s[..i]| < |key|;
    }
  }

  /** A link is read as it was printed exactly when its key has no bar. */
  lemma LinkIsRead(from: string, key: string, to: string, caption: string)
    requires IsCode(from) && IsCode(to)
    ensures ReadLink(from + ("-->|" + (key + ("| " + (to + Box(caption)))))) == F.Some(Link(from, key, to, caption))
            <==> '|' !in key
  {
    var body := key + ("| " + (to + Box(caption)));
    var rest := "-->|" + body;
    CapitalsOf(from, rest);
    EndIsRead(from, key, to, caption);
    hide ReadEnd, Capitals, Box;
    assert (from + rest)[|from|..] == rest && (from + rest)[..|from|] == from && rest[4..] == body;
  }

  /** So is its line. */
  lemma LinkLineIsRead(from: string, key: string, to: string, caption: string)
    requires IsCode(from) && IsCode(to)
    ensures ReadItem(LinkText(from, key, to, caption)) == F.Some(Link(from, key, to, caption)) <==> '|' !in key
  {
    var rest := "-->|" + (key + ("| " + (to + Box(caption))));
    LinkParts(from, key, to, caption);
    LinkIsRead(from, key, to, caption);
    NotANode(from, rest);
    hide ReadLink, ReadNode, LinkText;
    assert ("\t" + (from + rest))[1..] == from + rest;
  }

  lemma LinkParts(from: string, key: string, to: string, caption: string)
    ensures LinkText(from, key, to, caption) == "\t" + (from + ("-->|" + (key + ("| " + (to + Box(caption))))))
  {
  }

  lemma NotANode(from: string, rest: string)
    requires IsCode(from) && "-->|" <= rest
    ensures ReadNode(from + rest) == F.None
  {
    CapitalsOf(from, rest);
    assert (from + rest)[|from|] == rest[0] == '-';
  }

  // ---------------------------------------------------------------- the arrows

  /** What an arrow looks like on paper. */
  ghost function Shown(n: nat, e: Edge): Item {
    Link(Code(n, e.from), e.key, Code(n, e.to), e.text)
  }

  ghost function AllShown(n: nat, es: seq<Edge>): (items: seq<Item>)
    ensures |items| == |es| && forall k :: 0 <= k < |es| ==> items[k] == Shown(n, es[k])
  {
    seq(|es|, k requires 0 <= k < |es| => Shown(n, es[k]))
  }

  /** One line each, and no bar in the key. */
  ghost predicate PlainEdge(e: Edge) {
    OneLine(e.key) && '|' !in e.key && OneLine(e.text)
  }

  ghost predicate PlainEdges(es: seq<Edge>) {
    forall k :: 0 <= k < |es| ==> PlainEdge(es[k])
  }

  ghost function LineOf(n: nat, e: Edge): string {
    LinkText(Code(n, e.from), e.key, Code(n, e.to), e.text)
  }

  lemma TextIsLine(n: nat, e: Edge)
    ensures Text(n, e) == "\n" + LineOf(n, e)
    ensures PlainEdge(e) ==> OneLine(LineOf(n, e)) && ReadItem(LineOf(n, e)) == F.Some(Shown(n, e))
  {
    var from, to := Code(n, e.from), Code(n, e.to);
    LinkLineIsRead(from, e.key, to, e.text);
    CodeLine(from);
    CodeLine(to);
    hide Code, ReadItem;
    GlueText(from, e.key, to, e.text);
  }

  lemma CodeLine(code: string)
    requires IsCode(code)
    ensures OneLine(code)
  {
  }

  lemma GlueText(from: string, key: string, to: string, caption: string)
    ensures Arrow(from, key) + to + Box(caption) == "\n" + LinkText(from, key, to, caption)
    ensures OneLine(from) && OneLine(key) && OneLine(to) && OneLine(caption) ==>
              OneLine(LinkText(from, key, to, caption))
  {
  }

  /** The arrows that follow a line are read back in order. */
  lemma {:induction false} ArrowsAreRead(first: string, n: nat, es: seq<Edge>, rest: string)
    requires PlainEdges(es)
    ensures ReadItems(Lines(first + Texts(n, es) + "\n" + rest))
            == ReadItems(Lines(first)) + AllShown(n, es) + ReadItems(Lines(rest))
    decreases |es|
  {
    hide Lines, ReadItem, ReadItems, Text, LinkText, Code, PlainEdge;
    if es == [] {
      assert first + Texts(n, es) + "\n" + rest == first + "\n" + rest;
      LinesBreak(first, rest);
      ReadAppend(Lines(first), Lines(rest));
      assert ReadItems(Lines(first)) + [] == ReadItems(Lines(first));
    } else {
      var line, more := LineOf(n, es[0]), Texts(n, es[1..]);
      TextIsLine(n, es[0]);
      GlueLines(first, line, more, rest);
      LinesBreak(first, line + more + "\n" + rest);
      ReadAppend(Lines(first), Lines(line + more + "\n" + rest));
      assert PlainEdges(es[1..]);
      ArrowsAreRead(line, n, es[1..], rest);
      OneItem(line);
      assert [Shown(n, es[0])] + AllShown(n, es[1..]) == AllShown(n, es);
      GlueItems(ReadItems(Lines(first)), [Shown(n, es[0])], AllShown(n, es[1..]), ReadItems(Lines(rest)));
    }
  }

  lemma GlueLines(first: string, line: string, more: string, rest: string)
    ensures first + ("\n" + line + more) + "\n" + rest == first + "\n" + (line + more + "\n" + rest)
  {
  }

  lemma GlueItems(a: seq<Item>, b: seq<Item>, c: seq<Item>, d: seq<Item>)
    ensures a + (b + c + d) == a + (b + c) + d
  {
  }

  lemma OneItem(line: string)
    requires OneLine(line)
    ensures ReadItems(Lines(line)) == if ReadItem(line).Some? then [ReadItem(line).value] else []
  {
    LinesOfOne(line);
    hide ReadItem;
    assert [line][1..] == [];
  }

  // ----------------------------------------------------------------- the charts

  /** All that is drawn, module by module. */
  ghost function Drawn(t: Table, keys: seq<Key>, n: nat): seq<Item>
    requires Acyclic(t) && AllPrintable(t, keys) && n <= |keys|
  {
    if n == 0 then []
    else
      var start, key := Total(t, keys, n - 1), keys[n - 1];
      Drawn(t, keys, n - 1) + ([Node(Code(3, start), key)] + AllShown(3, Edges(t, key, Nodes(t, key), start)))
  }

  /** Names are one line each, and no submodule key has a bar. */
  ghost predicate PlainNames(t: Table, keys: seq<Key>) {
    && (forall i :: 0 <= i < |keys| ==> OneLine(keys[i]))
    && (forall key, i :: IsSub(t, key, i) ==> PlainRow(t.rows[key][i]))
  }

  ghost predicate PlainRow(row: (Key, Target)) {
    OneLine(row.0) && '|' !in row.0 && (row.1.Named? ==> OneLine(row.1.name))
  }

  lemma {:induction false} StepsArePlain(t: Table, key: Key, p: Path)
    requires forall key, i :: IsSub(t, key, i) ==> PlainRow(t.rows[key][i])
    ensures PlainRow(LastStep(t, key, p))
    decreases |p|
  {
    if p != [] && IsSub(t, key, p[0]) && |p| > 1 && Sub(t, key, p[0]).Named? {
      StepsArePlain(t, Sub(t, key, p[0]).name, p[1..]);
    }
  }

  lemma EdgesArePlain(t: Table, key: Key, ps: seq<Path>, start: nat)
    requires |ps| >= 1 && forall key, i :: IsSub(t, key, i) ==> PlainRow(t.rows[key][i])
    ensures PlainEdges(Edges(t, key, ps, start))
  {
    assert OneLine(NO_SUBMODULE);
    var es := Edges(t, key, ps, start);
    forall k | 0 <= k < |es|
      ensures PlainEdge(es[k])
    {
      assert es[k] == EdgeInto(t, key, ps, start, k + 1);
      StepsArePlain(t, key, ps[k + 1]);
    }
  }

  /** The flowchart of one module is read back as its node and its arrows. */
  lemma SectionIsRead(t: Table, key: Key, start: nat, before: string)
    requires Acyclic(t) && Printable(t, key) && OneLine(key)
    requires forall key, i :: IsSub(t, key, i) ==> PlainRow(t.rows[key][i])
    ensures ReadItems(Lines(before + Section(t, key, start)))
            == ReadItems(Lines(before))
               + ([Node(Code(3, start), key)] + AllShown(3, Edges(t, key, Nodes(t, key), start)))
  {
    hide Lines, ReadItem, ReadItems, Texts, Code, Edges, Nodes, Printable, Acyclic, PlainRow, AllShown, Box;
    var code, es := Code(3, start), Edges(t, key, Nodes(t, key), start);
    var node := "\t" + code + Box(key);
    var body := node + Texts(3, es) + "\n" + "```";
    GlueSection(before, code, key, Texts(3, es));
    assert before + Section(t, key, start) == before + "\n" + ("```mermaid" + "\n" + ("flowchart LR" + "\n" + body));
    LinesBreak(before, "```mermaid" + "\n" + ("flowchart LR" + "\n" + body));
    ReadAppend(Lines(before), Lines("```mermaid" + "\n" + ("flowchart LR" + "\n" + body)));
    FrameIsSkipped(body);
    EdgesArePlain(t, key, Nodes(t, key), start);
    ArrowsAreRead(node, 3, es, "```");
    NodeLine(code, key);
    TicksAreSkipped();
    assert [Node(code, key)] + AllShown(3, es) + [] == [Node(code, key)] + AllShown(3, es);
  }

  lemma GlueSection(before: string, code: string, key: Key, texts: string)
    ensures before + ("\n```mermaid" + "\nflowchart LR\n" + "\t" + code + Box(key) + texts + "\n```")
            == before + "\n" + ("```mermaid" + "\n"
               + ("flowchart LR" + "\n" + ("\t" + code + Box(key) + texts + "\n" + "```")))
  {
    hide Box;
    assert "\n```mermaid" == "\n" + "```mermaid" && "\nflowchart LR\n" == "\n" + "flowchart LR" + "\n";
    assert "\n```" == "\n" + "```";
    GlueParts(before, "\n", "```mermaid", "flowchart LR", "\t", code, Box(key), texts, "```");
  }

  lemma GlueParts(before: string, n: string, a: string, b: string, tab: string, code: string, box: string,
                  texts: string, end: string)
    ensures before + (n + a + (n + b + n) + tab + code + box + texts + (n + end))
            == before + n + (a + n + (b + n + (tab + code + box + texts + n + end)))
  {
  }

  lemma NodeLine(code: string, key: Key)
    requires IsCode(code) && OneLine(key)
    ensures ReadItems(Lines("\t" + code + Box(key))) == [Node(code, key)]
  {
    NodeLineIsRead(code, key);
    OneItem("\t" + code + Box(key));
  }

  lemma TicksAreSkipped()
    ensures ReadItems(Lines("```")) == []
  {
    OneItem("```");
  }

  lemma FrameIsSkipped(body: string)
    ensures ReadItems(Lines("```mermaid" + "\n" + ("flowchart LR" + "\n" + body))) == ReadItems(Lines(body))
  {
    hide Lines;
    assert OneLine("```mermaid") && OneLine("flowchart LR");
    FirstLine("```mermaid", "flowchart LR" + "\n" + body);
    FirstLine("flowchart LR", body);
    assert (["```mermaid"] + (["flowchart LR"] + Lines(body)))[1..] == ["flowchart LR"] + Lines(body);
    assert (["flowchart LR"] + Lines(body))[1..] == Lines(body);
  }

  /** From the whole text a reader gets every module's node and every arrow, with
      its key, its label and the codes of its ends, in the order of the unfolding. */
  lemma {:induction false} ChartsAreRead(t: Table, keys: seq<Key>, n: nat)
    requires Acyclic(t) && AllPrintable(t, keys) && n <= |keys| && PlainNames(t, keys)
    ensures ReadItems(Lines(Sections(t, keys, n))) == Drawn(t, keys, n)
  {
    hide Lines, ReadItems, Section, Code, Edges, Nodes, PlainRow;
    if n == 0 {
      NothingIsRead();
    } else {
      ChartsAreRead(t, keys, n - 1);
      SectionIsRead(t, keys[n - 1], Total(t, keys, n - 1), Sections(t, keys, n - 1));
    }
  }

  lemma NothingIsRead()
    ensures ReadItems(Lines("")) == []
  {
    OneItem("");
  }
}
