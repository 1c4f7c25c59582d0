/** How printed JSON is laid out, line by line. */
module JsonLayout {
  import opened Text
  import opened Values
  import opened JsonSyntax
  import opened JsonPrinter

  /** A line of printed text without its indentation, and how many objects are open around it. */
  datatype Line = Line(level: nat, text: string)

  function Blanks(n: nat): string {
    if n == 0 then "" else [0x20 as char] + Blanks(n - 1)
  }

  /** The lines after the first: each begins with `depth` and four blanks for every open object. */
  function Tail(depth: string, ls: seq<Line>): string {
    if ls == [] then "" else "\n" + depth + Blanks(4 * ls[0].level) + ls[0].text + Tail(depth, ls[1..])
  }

  /** The text of lines; the first continues the line it is printed on. */
  function Render(depth: string, ls: seq<Line>): string
    requires ls != []
  {
    ls[0].text + Tail(depth, ls[1..])
  }

  /** The lines of a value: those between brackets run on, and an object's entries stand one level deeper. */
  function Lines(fmt: NumberFormat, v: Value): (ls: seq<Line>)
    ensures ls != [] && ls[0].level == 0
    decreases v
  {
    match v
    case Nul => [Line(0, "null")]
    case Bool(b) => [Line(0, if b then "true" else "false")]
    case Num(x) => [Line(0, fmt.show(x))]
    case Str(s) => [Line(0, "\"" + s + "\"")]
    case List(items) => if items == [] then [Line(0, "[]")] else Ended(Begun("[", ItemLines(fmt, items)), "]")
    case Map(es) => if es == [] then [Line(0, "[]")] else [Line(0, "{")] + Deeper(EntryLines(fmt, es)) + [Line(0, "}")]
    case _ => [Line(0, "")]
  }

  /** The items joined by a comma and a space. */
  function ItemLines(fmt: NumberFormat, items: seq<Value>): (ls: seq<Line>)
    requires items != []
    ensures ls != [] && ls[0].level == 0
    decreases items
  {
    var first := Lines(fmt, items[0]);
    if |items| == 1 then first else Joined(Ended(first, ", "), ItemLines(fmt, items[1..]))
  }

  /** The entries in order, each beginning with its quoted key, a colon and a space, all but the last ending
      in a comma. */
  function EntryLines(fmt: NumberFormat, es: seq<Entry>): (ls: seq<Line>)
    requires es != []
    ensures ls != [] && ls[0].level == 0
    decreases es
  {
    var first := Begun("\"" + es[0].key + "\": ", Lines(fmt, es[0].val));
    if |es| == 1 then first else Ended(first, ",") + EntryLines(fmt, es[1..])
  }

  function Begun(p: string, ls: seq<Line>): (r: seq<Line>)
    requires ls != []
    ensures r != [] && r[0].level == ls[0].level
  {
    [Line(ls[0].level, p + ls[0].text)] + ls[1..]
  }

  function Ended(ls: seq<Line>, q: string): (r: seq<Line>)
    requires ls != []
    ensures r != [] && r[0].level == ls[0].level
  {
    var n := |ls| - 1;
    ls[..n] + [Line(ls[n].level, ls[n].text + q)]
  }

  /** The last line of `ls` goes on with the first of `ms`. */
  function Joined(ls: seq<Line>, ms: seq<Line>): (r: seq<Line>)
    requires ls != [] && ms != []
    ensures r != [] && r[0].level == ls[0].level
  {
    Ended(ls, ms[0].text) + ms[1..]
  }

  function Deeper(ls: seq<Line>): (r: seq<Line>)
    ensures |r| == |ls|
  {
    if ls == [] then [] else [Line(ls[0].level + 1, ls[0].text)] + Deeper(ls[1..])
  }

  // ---- rendering ----

  lemma {:induction false} TailAppend(depth: string, ls: seq<Line>, ms: seq<Line>)
    ensures Tail(depth, ls + ms) == Tail(depth, ls) + Tail(depth, ms)
  {
    if ls == [] {
      assert ls + ms == ms;
    } else {
      assert (ls + ms)[1..] == ls[1..] + ms;
      TailAppend(depth, ls[1..], ms);
    }
  }

  lemma TailOne(depth: string, l: Line)
    ensures Tail(depth, [l]) == "\n" + depth + Blanks(4 * l.level) + l.text
  {
    assert [l][1..] == [];
  }

  lemma RenderAppend(depth: string, ls: seq<Line>, ms: seq<Line>)
    requires ls != []
    ensures Render(depth, ls + ms) == Render(depth, ls) + Tail(depth, ms)
  {
    assert (ls + ms)[1..] == ls[1..] + ms;
    TailAppend(depth, ls[1..], ms);
  }

  lemma RenderBegun(depth: string, p: string, ls: seq<Line>)
    requires ls != []
    ensures Render(depth, Begun(p, ls)) == p + Render(depth, ls)
  {
    assert Begun(p, ls)[1..] == ls[1..];
  }

  lemma RenderEnded(depth: string, ls: seq<Line>, q: string)
    requires ls != []
    ensures Render(depth, Ended(ls, q)) == Render(depth, ls) + q
  {
    var n := |ls| - 1;
    var l, m := ls[n], Line(ls[n].level, ls[n].text + q);
    assert ls == ls[..n] + [l];
    if n == 0 {
      assert ls[..n] + [m] == [m] && [m][1..] == [] && ls[1..] == [];
    } else {
      RenderAppend(depth, ls[..n], [l]);
      RenderAppend(depth, ls[..n], [m]);
      TailOne(depth, l);
      TailOne(depth, m);
    }
  }

  lemma RenderJoined(depth: string, ls: seq<Line>, ms: seq<Line>)
    requires ls != [] && ms != []
    ensures Render(depth, Joined(ls, ms)) == Render(depth, ls) + Render(depth, ms)
  {
    hide Render, Ended;
    RenderAppend(depth, Ended(ls, ms[0].text), ms[1..]);
    RenderEnded(depth, ls, ms[0].text);
    RenderIs(depth, ms);
    Regroup(Render(depth, ls), ms[0].text, Tail(depth, ms[1..]));
  }

  lemma RenderIs(depth: string, ls: seq<Line>)
    requires ls != []
    ensures Render(depth, ls) == ls[0].text + Tail(depth, ls[1..])
  {
  }

  /** Lines one level deeper are lines whose depth has four blanks more. */
  lemma {:induction false} TailDeeper(depth: string, ls: seq<Line>)
    ensures Tail(depth, Deeper(ls)) == Tail(depth + INDENT, ls)
  {
    hide Blanks;
    if ls != [] {
      TailDeeper(depth, ls[1..]);
      assert Deeper(ls)[1..] == Deeper(ls[1..]);
      LineDeeper(depth, ls[0].level);
    }
  }

  lemma LineDeeper(depth: string, level: nat)
    ensures "\n" + depth + Blanks(4 * (level + 1)) == "\n" + (depth + INDENT) + Blanks(4 * level)
  {
    IndentIsFourBlanks(4 * level);
    hide Blanks;
    Regroup("\n" + depth, INDENT, Blanks(4 * level));
    Regroup("\n", depth, INDENT);
  }

  lemma IndentIsFourBlanks(n: nat)
    ensures Blanks(n + 4) == INDENT + Blanks(n)
  {
    var b := [0x20 as char];
    assert Blanks(n + 4) == b + (b + (b + (b + Blanks(n)))) by {
      assert Blanks(n + 3) == b + Blanks(n + 2) && Blanks(n + 1) == b + Blanks(n);
    }
    assert INDENT == b + b + b + b;
  }

  lemma TailOfBlock(depth: string, ls: seq<Line>)
    requires ls != [] && ls[0].level == 0
    ensures Tail(depth, ls) == "\n" + depth + Render(depth, ls)
  {
  }

  // ---- the layout of printed text ----

  /** The text printed for a value is the text of its lines. */
  lemma {:induction false} PrintIsLines(fmt: NumberFormat, depth: string, v: Value)
    ensures Print(fmt, depth, v) == Render(depth, Lines(fmt, v))
    decreases v, 0
  {
    match v
    case List(items) =>
      if items != [] {
        PrintItemsIsLines(fmt, depth, items);
        var ls := ItemLines(fmt, items);
        RenderEnded(depth, Begun("[", ls), "]");
        RenderBegun(depth, "[", ls);
      }
    case Map(es) =>
      if es != [] {
        ObjectIsLines(fmt, depth, es);
      }
    case _ =>
  }

  lemma {:induction false} PrintItemsIsLines(fmt: NumberFormat, depth: string, items: seq<Value>)
    requires items != []
    ensures PrintItems(fmt, depth, items) == Render(depth, ItemLines(fmt, items))
    decreases items, 1
  {
    hide Render, Ended, Joined, Lines, Print;
    PrintIsLines(fmt, depth, items[0]);
    if |items| > 1 {
      PrintItemsIsLines(fmt, depth, items[1..]);
      var first := Lines(fmt, items[0]);
      RenderEnded(depth, first, ", ");
      RenderJoined(depth, Ended(first, ", "), ItemLines(fmt, items[1..]));
      Regroup(Print(fmt, depth, items[0]), ", ", PrintItems(fmt, depth, items[1..]));
    }
  }

  lemma ObjectIsLines(fmt: NumberFormat, depth: string, es: seq<Entry>)
    requires es != []
    ensures Print(fmt, depth, Map(es)) == Render(depth, Lines(fmt, Map(es)))
    decreases es, 2
  {
    hide Render, PrintEntries, EntryLines, Tail;
    var inner := Deeper(EntryLines(fmt, es));
    PrintEntriesIsLines(fmt, depth + INDENT, es);
    TailDeeper(depth, EntryLines(fmt, es));
    RenderAppend(depth, [Line(0, "{")] + inner, [Line(0, "}")]);
    RenderAppend(depth, [Line(0, "{")], inner);
    RenderOne(depth, Line(0, "{"));
    TailOne(depth, Line(0, "}"));
    BraceLines(PrintEntries(fmt, depth + INDENT, es), depth);
  }

  lemma RenderOne(depth: string, l: Line)
    ensures Render(depth, [l]) == l.text
  {
    assert [l][1..] == [];
  }

  lemma BraceLines(body: string, depth: string)
    ensures "{\n" + body + "\n" + depth + "}" == "{" + ("\n" + body) + ("\n" + depth + "" + "}")
  {
  }

  lemma {:induction false} PrintEntriesIsLines(fmt: NumberFormat, depth: string, es: seq<Entry>)
    requires es != []
    ensures "\n" + PrintEntries(fmt, depth, es) == Tail(depth, EntryLines(fmt, es))
    decreases es, 1
  {
    var head := "\"" + es[0].key + "\": ";
    var ls := Lines(fmt, es[0].val);
    PrintIsLines(fmt, depth, es[0].val);
    hide Render, Begun, Ended;
    RenderBegun(depth, head, ls);
    EntryLine(depth, es[0].key, Print(fmt, depth, es[0].val));
    var first := Begun(head, ls);
    TailOfBlock(depth, first);
    if |es| > 1 {
      PrintEntriesIsLines(fmt, depth, es[1..]);
      RenderEnded(depth, first, ",");
      TailOfBlock(depth, Ended(first, ","));
      TailAppend(depth, Ended(first, ","), EntryLines(fmt, es[1..]));
      NextLine(depth, head + Print(fmt, depth, es[0].val), PrintEntries(fmt, depth, es[1..]));
    }
  }

  lemma EntryLine(depth: string, key: string, val: string)
    ensures depth + "\"" + key + "\": " + val == depth + (("\"" + key + "\": ") + val)
  {
  }

  lemma NextLine(depth: string, entry: string, more: string)
    ensures "\n" + (depth + entry + (",\n" + more)) == "\n" + depth + (entry + ",") + ("\n" + more)
  {
  }

  /** The keys of an object are printed in dictionary order. */
  lemma KeysInOrder(fmt: NumberFormat, es: seq<Entry>, i: nat, j: nat)
    requires IsJson(fmt, Map(es)) && i < j < |es|
    ensures Precedes(es[i].key, es[j].key)
  {
    hide Precedes, Less;
    SortedAnywhere(es, i, j);
    LessIsPrecedes(es[i].key, es[j].key);
  }
}
