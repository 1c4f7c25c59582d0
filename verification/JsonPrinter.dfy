/** The JSON printer: the text it writes, as a function and as the method that appends it to an output. */
module JsonPrinter {
  import opened Text
  import opened Values
  import opened JsonSyntax

  const INDENT: string := "    "

  /** The alternatives of `json_value`, with maps sorted as `std::map` keeps them. */
  predicate IsJson(fmt: NumberFormat, v: Value) {
    match v
    case Nul | Bool(_) | Str(_) => true
    case Num(x) => fmt.fits(x)
    case List(items) => forall i :: 0 <= i < |items| ==> IsJson(fmt, items[i])
    case Map(es) => Sorted(es) && forall i :: 0 <= i < |es| ==> IsJson(fmt, es[i].val)
    case _ => false
  }

  /** What `format(depth, v, ctx)` writes. An empty object is written like an empty array. */
  function Print(fmt: NumberFormat, depth: string, v: Value): string
    decreases v
  {
    match v
    case Nul => "null"
    case Bool(b) => if b then "true" else "false"
    case Num(x) => fmt.show(x)
    case Str(s) => "\"" + s + "\""
    case List(items) => if items == [] then "[]" else "[" + PrintItems(fmt, depth, items) + "]"
    case Map(es) =>
      if es == [] then "[]"
      else "{\n" + PrintEntries(fmt, depth + INDENT, es) + "\n" + depth + "}"
    case _ => ""
  }

  function PrintItems(fmt: NumberFormat, depth: string, items: seq<Value>): string
    requires items != []
    decreases items
  {
    Print(fmt, depth, items[0]) + if |items| == 1 then "" else ", " + PrintItems(fmt, depth, items[1..])
  }

  function PrintEntry(fmt: NumberFormat, depth: string, e: Entry): string
    decreases e
  {
    depth + "\"" + e.key + "\": " + Print(fmt, depth, e.val)
  }

  function PrintEntries(fmt: NumberFormat, depth: string, es: seq<Entry>): string
    requires es != []
    decreases es
  {
    PrintEntry(fmt, depth, es[0]) + if |es| == 1 then "" else ",\n" + PrintEntries(fmt, depth, es[1..])
  }

  /** The output written so far and the current indentation, both updated in place while printing. */
  class Formatter {
    var out: string
    var depth: string

    constructor (indentation: string)
      ensures out == "" && depth == indentation
    {
      out, depth := "", indentation;
    }

    /** Appends the text of `v` and leaves the indentation as it was. */
    method Format(fmt: NumberFormat, v: Value)
      requires IsJson(fmt, v)
      modifies this
      ensures out == old(out) + Print(fmt, old(depth), v)
      ensures depth == old(depth)
      decreases v, 0
    {
      match v
      case Nul => out := out + "null";
      case Bool(b) => out := out + if b then "true" else "false";
      case Num(x) => out := out + fmt.show(x);
      case Str(s) => out := out + ("\"" + s + "\"");
      case List(items) => FormatArray(fmt, items);
      case Map(es) => FormatObject(fmt, es);
    }

    method FormatArray(fmt: NumberFormat, items: seq<Value>)
      requires forall i :: 0 <= i < |items| ==> IsJson(fmt, items[i])
      modifies this
      ensures out == old(out) + Print(fmt, old(depth), List(items))
      ensures depth == old(depth)
      decreases items, 1
    {
      if items == [] {
        out := out + "[]";
        return;
      }
      out := out + "[";
      ghost var start := out;
      var begin := 0;
      assert items[0..] == items;
      while true
        invariant 0 <= begin < |items|
        invariant depth == old(depth)
        invariant out + PrintItems(fmt, depth, items[begin..]) == start + PrintItems(fmt, depth, items)
        decreases |items| - begin
      {
        ghost var before := out;
        Format(fmt, items[begin]);
        ghost var first := Print(fmt, depth, items[begin]);
        begin := begin + 1;
        assert items[begin - 1..][1..] == items[begin..];
        if begin == |items| {
          assert out == start + PrintItems(fmt, depth, items);
          out := out + "]";
          break;
        }
        Regroup(before, first, ", " + PrintItems(fmt, depth, items[begin..]));
        Regroup(out, ", ", PrintItems(fmt, depth, items[begin..]));
        out := out + ", ";
      }
      Regroup(old(out), "[", PrintItems(fmt, depth, items));
      Regroup(old(out), "[" + PrintItems(fmt, depth, items), "]");
    }

    method FormatObject(fmt: NumberFormat, es: seq<Entry>)
      requires forall i :: 0 <= i < |es| ==> IsJson(fmt, es[i].val)
      modifies this
      ensures out == old(out) + Print(fmt, old(depth), Map(es))
      ensures depth == old(depth)
      decreases es, 1
    {
      if es == [] {
        out := out + "[]";
        return;
      }
      out := out + "{\n";
      ghost var start := out;
      depth := depth + INDENT;
      var begin := 0;
      assert es[0..] == es;
      while true
        invariant 0 <= begin < |es|
        invariant depth == old(depth) + INDENT
        invariant out + PrintEntries(fmt, depth, es[begin..]) == start + PrintEntries(fmt, depth, es)
        decreases |es| - begin
      {
        ghost var before := out;
        out := out + (depth + "\"" + es[begin].key + "\": ");
        Format(fmt, es[begin].val);
        ghost var first := PrintEntry(fmt, depth, es[begin]);
        Regroup(before, depth + "\"" + es[begin].key + "\": ", Print(fmt, depth, es[begin].val));
        begin := begin + 1;
        assert es[begin - 1..][1..] == es[begin..];
        if begin == |es| {
          break;
        }
        Regroup(before, first, ",\n" + PrintEntries(fmt, depth, es[begin..]));
        Regroup(out, ",\n", PrintEntries(fmt, depth, es[begin..]));
        out := out + ",\n";
      }
      assert out == start + PrintEntries(fmt, depth, es);
      if |depth| >= 4 {
        depth := depth[..|depth| - 4];
      }
      out := out + ("\n" + depth + "}");
      CloseObject(old(out), PrintEntries(fmt, depth + INDENT, es), depth);
    }
  }

  lemma CloseObject(before: string, body: string, depth: string)
    ensures before + "{\n" + body + ("\n" + depth + "}") == before + ("{\n" + body + "\n" + depth + "}")
  {
  }
}
