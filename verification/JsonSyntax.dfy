/** JSON texts as syntax trees: what text a tree stands for, and what value it means. */
module JsonSyntax {
  import opened Text
  import opened Values
  import opened Outcomes
  import opened Scanners

  // ---- whitespace: section 2 of RFC 8259 ----

  /** Space, horizontal tab, line feed and carriage return, by their code points. */
  predicate IsBlank(c: char) {
    c as int == 0x20 || c as int == 0x09 || c as int == 0x0A || c as int == 0x0D
  }

  predicate Blank(w: string) {
    forall i :: 0 <= i < |w| ==> IsBlank(w[i])
  }

  /** The set the parsers skip is that of the grammar. */
  lemma WhitespaceIsBlank(c: char)
    ensures c in WHITESPACE <==> IsBlank(c)
  {
  }

  lemma BlankIs(w: string)
    ensures Blank(w) <==> AllIn(w, WHITESPACE)
  {
    hide IsBlank;
    forall i | 0 <= i < |w| ensures IsBlank(w[i]) <==> w[i] in WHITESPACE {
      WhitespaceIsBlank(w[i]);
    }
  }

  // ---- numbers, whose parser and printer are not part of the repository ----

  const NUMBER_START: set<char> := DIGITS + {'-', '.', 'i', 'I', 'n', 'N'}

  /** A minus, a digit, a point, or the first letter of an infinity or a NaN, in either case. */
  lemma NumbersMayStart(c: char)
    ensures c in NUMBER_START <==> c in "-0123456789.iInN"
  {
  }

  predicate NumberStart(s: string) {
    s != "" && s[0] in NUMBER_START && !("null" <= s)
  }

  predicate Delimited(rest: string) {
    rest == "" || IsBlank(rest[0]) || rest[0] == ',' || rest[0] == ']' || rest[0] == '}'
  }

  /** A number parser (`std::from_chars` for double), the way its values are printed, and which numbers
      it can represent. */
  datatype NumberFormat = NumberFormat(read: LeafParser, show: real -> string, fits: real -> bool) {

    /** `text` is a number from its first character to its last. */
    predicate Full(text: string) {
      read(text).Good? && read(text).rest == ""
    }

    /** Reading a number consumes text that looks like one and is itself a full number. */
    predicate ReadsPrefix(s: string) {
      read(s).Good? ==>
        && read(s).value.Num? && fits(read(s).value.num)
        && |read(s).rest| < |s| && NumberStart(s)
        && read(s[..|s| - |read(s).rest|]) == Good("", read(s).value, 0)
    }

    ghost predicate ReadsPrefixes() {
      forall s :: ReadsPrefix(s)
    }

    /** A full number is read whole when a delimiter follows it. */
    predicate StopsAt(text: string, rest: string) {
      Full(text) && Delimited(rest) ==> read(text + rest) == Good(rest, read(text).value, 0)
    }

    ghost predicate StopsAtDelimiters() {
      forall text, rest :: StopsAt(text, rest)
    }

    /** What is printed for a number reads back as that number. */
    ghost predicate ReadsBack() {
      forall x :: fits(x) ==> read(show(x)) == Good("", Num(x), 0)
    }

    ghost predicate Lawful() {
      ReadsPrefixes() && StopsAtDelimiters() && ReadsBack()
    }
  }

  // ---- syntax trees: sections 2 to 5 of RFC 8259, with strings delimited as view_parser does ----

  datatype Tree =
    | NullText
    | BoolText(flag: bool)
    | NumText(num: string)
    | StrText(body: string)
    | EmptyArray(inner: string)
    | Array(opening: string, items: Items, closing: string)
    | EmptyObject(inner: string)
    | Object(opening: string, members: Members, closing: string)
  {
    function Text(): string {
      match this
      case NullText => "null"
      case BoolText(b) => if b then "true" else "false"
      case NumText(n) => n
      case StrText(w) => "\"" + w + "\""
      case EmptyArray(ws) => "[" + ws + "]"
      case Array(o, items, c) => "[" + o + items.Text() + c + "]"
      case EmptyObject(ws) => "{" + ws + "}"
      case Object(o, ms, c) => "{" + o + ms.Text() + c + "}"
    }

    function Meaning(fmt: NumberFormat): Value {
      match this
      case NullText => Nul
      case BoolText(b) => Bool(b)
      case NumText(n) => if fmt.Full(n) then fmt.read(n).value else Nul
      case StrText(w) => Str(w)
      case EmptyArray(_) => List([])
      case Array(_, items, _) => List(items.Meanings(fmt))
      case EmptyObject(_) => Map([])
      case Object(_, ms, _) => InsertAll(Map([]), ms.Pairs(fmt))
    }

    predicate WellFormed(fmt: NumberFormat) {
      match this
      case NullText | BoolText(_) => true
      case NumText(n) => fmt.Full(n)
      case StrText(w) => ViewSafe(w)
      case EmptyArray(ws) => Blank(ws)
      case Array(o, items, c) => Blank(o) && Blank(c) && items.WellFormed(fmt)
      case EmptyObject(ws) => Blank(ws)
      case Object(o, ms, c) => Blank(o) && Blank(c) && ms.WellFormed(fmt)
    }

    /** `rest` does not extend this value: only a number can be extended by what follows it. */
    predicate EndsBefore(fmt: NumberFormat, rest: string) {
      NumText? ==> fmt.read(num + rest) == Good(rest, Meaning(fmt), 0)
    }
  }

  /** One or more values, each but the last followed by a comma with whitespace around it. */
  datatype Items =
    | LastItem(item: Tree)
    | Item(item: Tree, before: string, after: string, more: Items)
  {
    function Text(): string {
      match this
      case LastItem(t) => t.Text()
      case Item(t, b, a, more) => t.Text() + (b + "," + a + more.Text())
    }

    function Meanings(fmt: NumberFormat): seq<Value> {
      match this
      case LastItem(t) => [t.Meaning(fmt)]
      case Item(t, _, _, more) => [t.Meaning(fmt)] + more.Meanings(fmt)
    }

    predicate WellFormed(fmt: NumberFormat) {
      && item.WellFormed(fmt)
      && (Item? ==> Blank(before) && Blank(after) && more.WellFormed(fmt))
    }
  }

  /** A quoted key, a colon with whitespace around it, and a value. */
  datatype Member = Member(key: string, before: string, after: string, val: Tree)
  {
    function Text(): string {
      "\"" + key + "\"" + (before + ":" + after + val.Text())
    }

    function Pair(fmt: NumberFormat): Value {
      Value.Pair(Str(key), val.Meaning(fmt))
    }

    predicate WellFormed(fmt: NumberFormat) {
      ViewSafe(key) && Blank(before) && Blank(after) && val.WellFormed(fmt)
    }
  }

  datatype Members =
    | LastMember(member: Member)
    | Also(member: Member, before: string, after: string, more: Members)
  {
    function Text(): string {
      match this
      case LastMember(m) => m.Text()
      case Also(m, b, a, more) => m.Text() + (b + "," + a + more.Text())
    }

    function Pairs(fmt: NumberFormat): seq<Value> {
      match this
      case LastMember(m) => [m.Pair(fmt)]
      case Also(m, _, _, more) => [m.Pair(fmt)] + more.Pairs(fmt)
    }

    predicate WellFormed(fmt: NumberFormat) {
      && member.WellFormed(fmt)
      && (Also? ==> Blank(before) && Blank(after) && more.WellFormed(fmt))
    }
  }

  // ---- how texts of trees begin ----

  /** Text that starts with a character no JSON whitespace or punctuation between values can be. */
  predicate StartsValue(s: string) {
    s != "" && s[0] !in WHITESPACE && s[0] != ',' && s[0] != ':' && s[0] != ']' && s[0] != '}'
  }

  lemma NumberStarts(fmt: NumberFormat, n: string)
    requires fmt.ReadsPrefixes() && fmt.Full(n)
    ensures NumberStart(n) && StartsValue(n)
  {
    assert fmt.ReadsPrefix(n);
  }

  lemma TextStarts(fmt: NumberFormat, t: Tree)
    requires fmt.ReadsPrefixes() && t.WellFormed(fmt)
    ensures StartsValue(t.Text())
  {
    hide NumberFormat.ReadsPrefixes;
    match t
    case NumText(n) => NumberStarts(fmt, n);
    case NullText => assert t.Text()[0] == 'n';
    case BoolText(b) => assert t.Text()[0] == if b then 't' else 'f';
    case StrText(_) => assert t.Text()[0] == '"';
    case EmptyArray(_) => assert t.Text()[0] == '[';
    case Array(_, _, _) => assert t.Text()[0] == '[';
    case EmptyObject(_) => assert t.Text()[0] == '{';
    case Object(_, _, _) => assert t.Text()[0] == '{';
  }

  lemma {:induction false} ItemsStart(fmt: NumberFormat, items: Items)
    requires fmt.ReadsPrefixes() && items.WellFormed(fmt)
    ensures StartsValue(items.Text())
  {
    TextStarts(fmt, items.item);
  }

  lemma MembersStart(ms: Members)
    ensures "\"" <= ms.Text()
  {
    assert ms.member.Text()[0] == '"';
  }
}
