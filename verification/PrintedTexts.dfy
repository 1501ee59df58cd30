/** The text of a printed document, written out construct by construct, for every syntax tree. */
module PrintedTexts {
  import opened Ast
  import opened Layout
  import Lexer
  import Numerals
  import QuotedStrings
  import BlockStrings
  import BlockStringRoundTrip

  // ----- Strings -----

  /** Triple quotes for strings with a line feed and nothing that has to be escaped by its code. */
  predicate TakesTripleQuotes(s: string) {
    && '\n' in s
    && forall c | c in s :: c == '\n' || c == '\r' || c == '\t' || ' ' <= c <= '\U{FFFF}'
  }

  /** A character between single quotes; a code has at least four decimal digits. */
  function CharText(c: char): string {
    match c
    case '\r' => "\\r"
    case '\n' => "\\n"
    case '\t' => "\\t"
    case '"' => "\\\""
    case '\\' => "\\\\"
    case _ =>
      if ' ' <= c <= '\U{FFFF}' then [c]
      else
        var digits := Numerals.Numeral(c as int, 10);
        "\\u" + (if |digits| < 4 then "0000"[|digits|..] else "") + digits
  }

  function CharsText(s: string): string {
    if s == "" then "" else CharText(s[0]) + CharsText(s[1..])
  }

  function Blanks(n: nat): string {
    seq(n, i => ' ')
  }

  /** Every line on its own, indented unless it is blank, with triple quotes escaped. */
  function LinesText(ls: seq<string>, indent: nat): string {
    if ls == [] then ""
    else
      (if BlockStrings.Blank(ls[0]) then "" else Blanks(indent) + BlockStringRoundTrip.EscapeQuotes(ls[0]))
      + "\n" + LinesText(ls[1..], indent)
  }

  function StringText(s: string, indent: nat, step: nat): string {
    if TakesTripleQuotes(s) then
      "\"\"\"\n" + LinesText(BlockStrings.Lines(s), indent + step) + Blanks(indent) + "\"\"\""
    else "\"" + CharsText(s) + "\""
  }

  // ----- Values, types, variables -----

  function ValueText(v: Value, indent: nat, step: nat): string
    decreases v
  {
    match v
    case Variable(n) => "$" + n
    case Int(n) => if n < 0 then "-" + Numerals.Numeral(-n, 10) else Numerals.Numeral(n, 10)
    case Float(text) => text
    case String(s) => StringText(s, indent, step)
    case Boolean(b) => if b then "true" else "false"
    case Null => "null"
    case Enum(n) => n
    case List(items) => "[" + ValuesText(items, indent, step) + "]"
    case Object(fields) => "{" + MembersText(fields, indent, step) + "}"
  }

  function ValuesText(vs: seq<Value>, indent: nat, step: nat): string
    decreases vs
  {
    if vs == [] then ""
    else if |vs| == 1 then ValueText(vs[0], indent, step)
    else ValueText(vs[0], indent, step) + ", " + ValuesText(vs[1..], indent, step)
  }

  function MembersText(ms: seq<Member>, indent: nat, step: nat): string
    decreases ms
  {
    if ms == [] then ""
    else if |ms| == 1 then ms[0].name + ": " + ValueText(ms[0].value, indent, step)
    else ms[0].name + ": " + ValueText(ms[0].value, indent, step) + ", " + MembersText(ms[1..], indent, step)
  }

  function ArgumentsText(ms: seq<Member>, indent: nat, step: nat): string {
    if ms == [] then "" else "(" + MembersText(ms, indent, step) + ")"
  }

  function DirectivesText(ds: seq<Directive>, indent: nat, step: nat): string {
    if ds == [] then ""
    else " @" + ds[0].name + ArgumentsText(ds[0].arguments, indent, step) + DirectivesText(ds[1..], indent, step)
  }

  function TypeText(t: Type): string {
    match t
    case NamedType(n) => n
    case ListType(inner) => "[" + TypeText(inner) + "]"
    case NonNullType(inner) => TypeText(inner) + "!"
  }

  function VariableText(v: VariableDefinition, step: nat): string {
    "$" + v.name + ": " + TypeText(v.varType)
    + if v.defaultValue.Some? then " = " + ValueText(v.defaultValue.value, 0, step) else ""
  }

  function VariablesText(vs: seq<VariableDefinition>, step: nat): string {
    if vs == [] then ""
    else if |vs| == 1 then VariableText(vs[0], step)
    else VariableText(vs[0], step) + ", " + VariablesText(vs[1..], step)
  }

  // ----- Selections and definitions -----

  function SelectionText(s: Selection, indent: nat, step: nat): string
    decreases s, 0
  {
    match s
    case Field(alias, name, arguments, directives, items) =>
      var end := if items == [] then "\n" else " " + SetText(items, indent, step);
      var named := name + (ArgumentsText(arguments, indent, step) + (DirectivesText(directives, indent, step) + end));
      Blanks(indent) + if alias.Some? then alias.value + ": " + named else named
    case FragmentSpread(name, directives) =>
      Blanks(indent) + ("..." + (name + (DirectivesText(directives, indent, step) + "\n")))
    case InlineFragment(condition, directives, items) =>
      var rest := DirectivesText(directives, indent, step) + (" " + SetText(items, indent, step));
      Blanks(indent) + ("..." + if condition.Some? then " on " + condition.value + rest else rest)
  }

  function SetText(ss: seq<Selection>, indent: nat, step: nat): string
    decreases ss, 1
  {
    "{\n" + SelectionsText(ss, indent + step, step) + Blanks(indent) + "}\n"
  }

  function SelectionsText(ss: seq<Selection>, indent: nat, step: nat): string
    decreases ss, 0
  {
    if ss == [] then "" else SelectionText(ss[0], indent, step) + SelectionsText(ss[1..], indent, step)
  }

  /** Variables of an operation without a name are dropped. */
  function DefinitionText(d: Definition, step: nat): string {
    match d
    case SelectionSet(items) => SetText(items, 0, step)
    case Operation(kind, name, variables, directives, items) =>
      var rest := DirectivesText(directives, 0, step) + (" " + SetText(items, 0, step));
      var typed := if variables == [] then rest else "(" + (VariablesText(variables, step) + (")" + rest));
      (match kind case Query => "query" case Mutation => "mutation" case Subscription => "subscription")
      + if name.None? then rest else " " + (name.value + typed)
    case Fragment(name, condition, directives, items) =>
      var rest := DirectivesText(directives, 0, step) + (" " + SetText(items, 0, step));
      "fragment" + (" " + (name + (" on " + condition + rest)))
  }

  /** An empty line between definitions. */
  function DocumentText(ds: seq<Definition>, step: nat): string {
    if ds == [] then ""
    else if |ds| == 1 then DefinitionText(ds[0], step)
    else DefinitionText(ds[0], step) + "\n" + DocumentText(ds[1..], step)
  }

  // ----- The layout stands for this text -----

  lemma BlanksAreSpaces(n: nat)
    ensures BlockStrings.Spaces(n) == Blanks(n)
  {
  }

  lemma {:induction false} EscapedIs(s: string)
    ensures QuotedStrings.EscapeAll(s) == CharsText(s)
  {
    if s != "" {
      EscapeIs(s[0]);
      EscapedIs(s[1..]);
    }
  }

  lemma EscapeIs(c: char)
    ensures QuotedStrings.Escape(c) == CharText(c)
  {
    var digits := Numerals.Numeral(c as int, 10);
    hide Numerals.Numeral;
    PadIs(digits);
  }

  lemma {:induction false} PadIs(digits: string)
    ensures QuotedStrings.Pad4(digits) == (if |digits| < 4 then "0000"[|digits|..] else "") + digits
    decreases 4 - |digits|
  {
    if |digits| < 4 {
      PadIs("0" + digits);
      assert "0000"[|digits|..] == "0000"[|digits| + 1..] + "0";
    }
  }

  lemma {:induction false} PrintedLinesAre(ls: seq<string>, indent: nat)
    ensures BlockStrings.JoinLines(BlockStrings.PrintedLines(ls, indent)) == LinesText(ls, indent)
  {
    if ls != [] {
      PrintedLinesAre(ls[1..], indent);
      assert BlockStrings.PrintedLines(ls, indent)[1..] == BlockStrings.PrintedLines(ls[1..], indent);
      BlanksAreSpaces(indent);
    }
  }

  lemma LongStringIs(s: string, indent: nat, step: nat)
    ensures BlockStrings.BlockQuoted(s, indent, step) ==
            "\"\"\"\n" + LinesText(BlockStrings.Lines(s), indent + step) + Blanks(indent) + "\"\"\""
  {
    var lines := LinesText(BlockStrings.Lines(s), indent + step);
    assert BlockStrings.BlockBody(s, indent, step) == "\n" + lines + Blanks(indent) by {
      PrintedLinesAre(BlockStrings.Lines(s), indent + step);
      BlanksAreSpaces(indent);
    }
    hide *;
    assert Lexer.QUOTES == "\"\"\"";
    assert "\"\"\"" + ("\n" + lines + Blanks(indent)) == "\"\"\"\n" + lines + Blanks(indent);
  }

  lemma StringIs(s: string, indent: nat, step: nat)
    ensures StringToken(s, indent, step).value == StringText(s, indent, step)
    ensures StringToken(s, indent, step).kind.BlockString? <==> TakesTripleQuotes(s)
  {
    EscapedIs(s);
    LongStringIs(s, indent, step);
    MultilineIs(s);
    hide BlockStrings.BlockQuoted, BlockStrings.Lines, QuotedStrings.EscapeAll, LinesText, CharsText;
    hide IsMultiline, TakesTripleQuotes;
  }

  lemma MultilineIs(s: string)
    ensures IsMultiline(s) <==> TakesTripleQuotes(s)
  {
    if TakesTripleQuotes(s) {
      assert forall i | 0 <= i < |s| :: s[i] in s;
    }
  }

  lemma Grouped(a: string, b: string, c: string)
    ensures (a + b) + c == a + (b + c)
  {
  }

  lemma NamedIs(n: string, c: Chunks)
    ensures Render(N(n, P(":", G(" ", c)))) == n + ": " + Render(c)
  {
    assert Render(P(":", G(" ", c))) == ":" + (" " + Render(c));
    Grouped(":", " ", Render(c));
    Grouped(n, ": ", Render(c));
  }

  lemma BracketedIs(open: string, inside: Chunks, text: string, close: string, c: Chunks)
    requires Render(inside) == text + Render(P(close, c))
    ensures Render(P(open, inside)) == (open + text + close) + Render(c)
  {
    Grouped(open + text, close, Render(c));
    Grouped(open, text, close + Render(c));
  }

  lemma {:induction false} ValueIs(v: Value, indent: nat, step: nat, c: Chunks)
    ensures Render(ValueC(v, indent, step, c)) == ValueText(v, indent, step) + Render(c)
    decreases v
  {
    hide ValuesC, ValuesText, MembersC, MembersText, StringToken, StringText;
    match v
    case Variable(n) => Grouped("$", n, Render(c));
    case String(s) => StringIs(s, indent, step);
    case List(items) =>
      ValuesAre(items, indent, step, P("]", c));
      BracketedIs("[", ValuesC(items, indent, step, P("]", c)), ValuesText(items, indent, step), "]", c);
    case Object(fields) =>
      MembersAre(fields, indent, step, P("}", c));
      BracketedIs("{", MembersC(fields, indent, step, P("}", c)), MembersText(fields, indent, step), "}", c);
    case _ =>
  }

  /** One of several with a comma behind it. */
  lemma CommaIs(one: Chunks, text: string, others: Chunks, otherTexts: string, c: Chunks)
    requires Render(one) == text + Render(G(", ", others)) && Render(others) == otherTexts + Render(c)
    ensures Render(one) == (text + ", " + otherTexts) + Render(c)
  {
    Grouped(text + ", ", otherTexts, Render(c));
    Grouped(text, ", ", otherTexts + Render(c));
  }

  lemma {:induction false} ValuesAre(vs: seq<Value>, indent: nat, step: nat, c: Chunks)
    ensures Render(ValuesC(vs, indent, step, c)) == ValuesText(vs, indent, step) + Render(c)
    decreases vs
  {
    hide ValueC, ValueText;
    if |vs| == 1 {
      ValueIs(vs[0], indent, step, c);
    } else if vs != [] {
      var others := ValuesC(vs[1..], indent, step, c);
      ValuesAre(vs[1..], indent, step, c);
      ValueIs(vs[0], indent, step, G(", ", others));
      var one, text := ValueC(vs[0], indent, step, G(", ", others)), ValueText(vs[0], indent, step);
      CommaIs(one, text, others, ValuesText(vs[1..], indent, step), c);
    }
  }

  lemma MemberIs(m: Member, indent: nat, step: nat, later: Chunks)
    requires Render(ValueC(m.value, indent, step, later)) == ValueText(m.value, indent, step) + Render(later)
    ensures Render(N(m.name, P(":", G(" ", ValueC(m.value, indent, step, later))))) ==
            (m.name + ": " + ValueText(m.value, indent, step)) + Render(later)
  {
    NamedIs(m.name, ValueC(m.value, indent, step, later));
    Grouped(m.name + ": ", ValueText(m.value, indent, step), Render(later));
  }

  lemma {:induction false} MembersAre(ms: seq<Member>, indent: nat, step: nat, c: Chunks)
    ensures Render(MembersC(ms, indent, step, c)) == MembersText(ms, indent, step) + Render(c)
    decreases ms
  {
    hide ValueC, ValueText, Render;
    if |ms| == 1 {
      ValueIs(ms[0].value, indent, step, c);
      MemberIs(ms[0], indent, step, c);
    } else if ms != [] {
      var others := MembersC(ms[1..], indent, step, c);
      MembersAre(ms[1..], indent, step, c);
      ValueIs(ms[0].value, indent, step, G(", ", others));
      MemberIs(ms[0], indent, step, G(", ", others));
      CommaIs(MembersC(ms, indent, step, c), ms[0].name + ": " + ValueText(ms[0].value, indent, step), others,
              MembersText(ms[1..], indent, step), c);
    } else {
      NothingIs(c);
    }
  }

  lemma NothingIs(c: Chunks)
    ensures Render(c) == "" + Render(c)
  {
  }

  lemma ArgumentsAre(ms: seq<Member>, indent: nat, step: nat, c: Chunks)
    ensures Render(ArgumentsC(ms, indent, step, c)) == ArgumentsText(ms, indent, step) + Render(c)
  {
    hide MembersC, MembersText;
    if ms != [] {
      MembersAre(ms, indent, step, P(")", c));
      BracketedIs("(", MembersC(ms, indent, step, P(")", c)), MembersText(ms, indent, step), ")", c);
    }
  }

  lemma {:induction false} DirectivesAre(ds: seq<Directive>, indent: nat, step: nat, c: Chunks)
    ensures Render(DirectivesC(ds, indent, step, c)) == DirectivesText(ds, indent, step) + Render(c)
  {
    if ds != [] {
      var later := DirectivesC(ds[1..], indent, step, c);
      DirectivesAre(ds[1..], indent, step, c);
      ArgumentsAre(ds[0].arguments, indent, step, later);
      DirectiveIs(ds, indent, step, c);
    }
  }

  lemma DirectiveIs(ds: seq<Directive>, indent: nat, step: nat, c: Chunks)
    requires ds != []
    requires var later := DirectivesC(ds[1..], indent, step, c);
             && Render(later) == DirectivesText(ds[1..], indent, step) + Render(c)
             && Render(ArgumentsC(ds[0].arguments, indent, step, later)) ==
                ArgumentsText(ds[0].arguments, indent, step) + Render(later)
    ensures Render(DirectivesC(ds, indent, step, c)) == DirectivesText(ds, indent, step) + Render(c)
  {
    var name, args := ds[0].name, ArgumentsText(ds[0].arguments, indent, step);
    var others, r := DirectivesText(ds[1..], indent, step), Render(c);
    var arguments := ArgumentsC(ds[0].arguments, indent, step, DirectivesC(ds[1..], indent, step, c));
    hide ArgumentsC, ArgumentsText;
    assert DirectivesC(ds, indent, step, c) == G(" ", P("@", N(name, arguments)));
    assert Render(P("@", N(name, arguments))) == "@" + (name + (args + (others + r)));
    assert DirectivesText(ds, indent, step) == " @" + name + args + others;
    hide *;
    Grouped(" @" + name + args, others, r);
    Grouped(" @" + name, args, others + r);
    Grouped(" @", name, args + (others + r));
    Grouped(" ", "@", name + (args + (others + r)));
    assert " " + "@" == " @";
  }

  lemma {:induction false} TypeIs(t: Type, c: Chunks)
    ensures Render(TypeC(t, c)) == TypeText(t) + Render(c)
  {
    match t
    case NamedType(_) =>
    case ListType(inner) => TypeIs(inner, P("]", c));
    case NonNullType(inner) => TypeIs(inner, P("!", c));
  }

  lemma VariableIs(v: VariableDefinition, step: nat, c: Chunks)
    ensures Render(VariableC(v, step, c)) == VariableText(v, step) + Render(c)
  {
    hide ValueC, ValueText, TypeC, TypeText;
    var end := c;
    if v.defaultValue.Some? {
      ValueIs(v.defaultValue.value, 0, step, c);
      var value := ValueC(v.defaultValue.value, 0, step, c);
      end := G(" ", P("=", G(" ", value)));
      assert Render(P("=", G(" ", value))) == "=" + (" " + Render(value));
      assert Render(end) == " = " + Render(value);
    }
    TypeIs(v.varType, end);
    NamedIs(v.name, TypeC(v.varType, end));
  }

  lemma {:induction false} VariablesAre(vs: seq<VariableDefinition>, step: nat, c: Chunks)
    ensures Render(VariablesC(vs, step, c)) == VariablesText(vs, step) + Render(c)
  {
    hide VariableC, VariableText;
    if vs != [] {
      var later := if |vs| == 1 then c else G(", ", VariablesC(vs[1..], step, c));
      VariableIs(vs[0], step, later);
      VariablesAre(vs[1..], step, c);
    }
  }

  /** The layout stands for `t` and then `end`. */
  predicate Gives(c: Chunks, t: string, end: string) {
    Render(c) == t + end
  }

  lemma InFront(whole: Chunks, part: string, c: Chunks, t: string, end: string)
    requires Render(whole) == part + Render(c) && Gives(c, t, end)
    ensures Gives(whole, part + t, end)
  {
  }

  lemma ChunkInFront(x: Chunk, c: Chunks, t: string, end: string)
    requires Gives(c, t, end)
    ensures Gives(Cons(x, c), TextOf(x) + t, end)
  {
    InFront(Cons(x, c), TextOf(x), c, t, end);
  }

  lemma {:induction false} SelectionIs(s: Selection, indent: nat, step: nat, c: Chunks)
    ensures Gives(SelectionC(s, indent, step, c), SelectionText(s, indent, step), Render(c))
    decreases s, 0
  {
    hide BlockC, SetText, Render;
    match s
    case Field(_, _, _, _, items) =>
      if items != [] {
        SetIs(items, indent, step, c);
      }
      FieldIs(s, indent, step, c);
    case FragmentSpread(name, directives) => SpreadIs(name, directives, indent, step, c);
    case InlineFragment(_, _, items) =>
      SetIs(items, indent, step, c);
      InlineIs(s, indent, step, c);
  }

  lemma LineEndGives(c: Chunks)
    ensures Gives(G("\n", c), "\n", Render(c))
  {
  }

  lemma FieldIs(s: Selection, indent: nat, step: nat, c: Chunks)
    requires s.Field?
    requires var items := s.selectionSet;
             items != [] ==> Gives(BlockC(items, indent, step, c), SetText(items, indent, step), Render(c))
    ensures Gives(SelectionC(s, indent, step, c), SelectionText(s, indent, step), Render(c))
  {
    hide Render, Gives, BlockC, SetText, ArgumentsC, ArgumentsText, DirectivesC, DirectivesText;
    var Field(alias, name, arguments, directives, items) := s;
    var r := Render(c);
    var end := if items != [] then G(" ", BlockC(items, indent, step, c)) else G("\n", c);
    var endText := if items == [] then "\n" else " " + SetText(items, indent, step);
    if items != [] {
      ChunkInFront(Gap(" "), BlockC(items, indent, step, c), SetText(items, indent, step), r);
    } else {
      LineEndGives(c);
    }
    var dirs := DirectivesC(directives, indent, step, end);
    var dirsText := DirectivesText(directives, indent, step) + endText;
    DirectivesAre(directives, indent, step, end);
    InFront(dirs, DirectivesText(directives, indent, step), end, endText, r);
    var args := ArgumentsC(arguments, indent, step, dirs);
    var argsText := ArgumentsText(arguments, indent, step) + dirsText;
    ArgumentsAre(arguments, indent, step, dirs);
    InFront(args, ArgumentsText(arguments, indent, step), dirs, dirsText, r);
    var all, allText := N(name, args), name + argsText;
    ChunkInFront(all.head, args, argsText, r);
    if alias.Some? {
      NamedIs(alias.value, all);
      InFront(N(alias.value, P(":", G(" ", all))), alias.value + ": ", all, allText, r);
      all, allText := N(alias.value, P(":", G(" ", all))), alias.value + ": " + allText;
    }
    BlanksAreSpaces(indent);
    ChunkInFront(Gap(BlockStrings.Spaces(indent)), all, allText, r);
  }

  lemma SpreadIs(name: string, directives: seq<Directive>, indent: nat, step: nat, c: Chunks)
    ensures var s := FragmentSpread(name, directives);
            Gives(SelectionC(s, indent, step, c), SelectionText(s, indent, step), Render(c))
  {
    hide Render, Gives, DirectivesC, DirectivesText;
    var r := Render(c);
    LineEndGives(c);
    var dirs := DirectivesC(directives, indent, step, G("\n", c));
    var dirsText := DirectivesText(directives, indent, step) + "\n";
    DirectivesAre(directives, indent, step, G("\n", c));
    InFront(dirs, DirectivesText(directives, indent, step), G("\n", c), "\n", r);
    var named := N(name, dirs);
    ChunkInFront(named.head, dirs, dirsText, r);
    ChunkInFront(P("...", named).head, named, name + dirsText, r);
    BlanksAreSpaces(indent);
    ChunkInFront(Gap(BlockStrings.Spaces(indent)), P("...", named), "..." + (name + dirsText), r);
  }

  lemma InlineIs(s: Selection, indent: nat, step: nat, c: Chunks)
    requires s.InlineFragment?
    requires Gives(BlockC(s.selectionSet, indent, step, c), SetText(s.selectionSet, indent, step), Render(c))
    ensures Gives(SelectionC(s, indent, step, c), SelectionText(s, indent, step), Render(c))
  {
    hide Render, Gives, BlockC, SetText, DirectivesC, DirectivesText;
    var InlineFragment(condition, directives, items) := s;
    var r := Render(c);
    EndIs(directives, items, indent, step, c);
    var all := DirectivesC(directives, indent, step, G(" ", BlockC(items, indent, step, c)));
    var allText := DirectivesText(directives, indent, step) + (" " + SetText(items, indent, step));
    if condition.Some? {
      OnIs(condition.value, all);
      InFront(G(" ", N("on", G(" ", N(condition.value, all)))), " on " + condition.value, all, allText, r);
      all, allText := G(" ", N("on", G(" ", N(condition.value, all)))), " on " + condition.value + allText;
    }
    ChunkInFront(P("...", all).head, all, allText, r);
    BlanksAreSpaces(indent);
    ChunkInFront(Gap(BlockStrings.Spaces(indent)), P("...", all), "..." + allText, r);
  }

  /** Directives and the selection set, as definitions end. */
  lemma EndIs(directives: seq<Directive>, items: seq<Selection>, indent: nat, step: nat, c: Chunks)
    requires Gives(BlockC(items, indent, step, c), SetText(items, indent, step), Render(c))
    ensures Gives(DirectivesC(directives, indent, step, G(" ", BlockC(items, indent, step, c))),
                  DirectivesText(directives, indent, step) + (" " + SetText(items, indent, step)), Render(c))
  {
    hide Render, Gives, BlockC, SetText, DirectivesC, DirectivesText;
    var block := BlockC(items, indent, step, c);
    ChunkInFront(Gap(" "), block, SetText(items, indent, step), Render(c));
    DirectivesAre(directives, indent, step, G(" ", block));
    InFront(DirectivesC(directives, indent, step, G(" ", block)), DirectivesText(directives, indent, step),
            G(" ", block), " " + SetText(items, indent, step), Render(c));
  }

  lemma OnIs(condition: string, c: Chunks)
    ensures Render(G(" ", N("on", G(" ", N(condition, c))))) == " on " + condition + Render(c)
  {
    var named := G(" ", N(condition, c));
    assert Render(named) == " " + (condition + Render(c));
    assert Render(N("on", named)) == "on" + Render(named);
  }

  lemma {:induction false} SetIs(ss: seq<Selection>, indent: nat, step: nat, c: Chunks)
    ensures Gives(BlockC(ss, indent, step, c), SetText(ss, indent, step), Render(c))
    decreases ss, 1
  {
    hide SelectionsC, SelectionsText;
    BlanksAreSpaces(indent);
    var end := G(BlockStrings.Spaces(indent), P("}", G("\n", c)));
    assert Render(P("}", G("\n", c))) == "}" + ("\n" + Render(c));
    assert Render(end) == Blanks(indent) + "}\n" + Render(c);
    SelectionsAre(ss, indent + step, step, end);
    var inner := SelectionsC(ss, indent + step, step, end);
    assert Render(G("\n", inner)) == "\n" + Render(inner);
    assert Render(BlockC(ss, indent, step, c)) == "{" + ("\n" + Render(inner));
  }

  lemma {:induction false} SelectionsAre(ss: seq<Selection>, indent: nat, step: nat, c: Chunks)
    ensures Render(SelectionsC(ss, indent, step, c)) == SelectionsText(ss, indent, step) + Render(c)
    decreases ss, 0
  {
    hide SelectionC, SelectionText;
    if ss != [] {
      SelectionIs(ss[0], indent, step, SelectionsC(ss[1..], indent, step, c));
      SelectionsAre(ss[1..], indent, step, c);
    }
  }

  lemma OperationIs(d: Definition, step: nat, c: Chunks)
    requires d.Operation?
    ensures Gives(DefinitionC(d, true, step, c), DefinitionText(d, step), Render(c))
  {
    hide Render, Gives, BlockC, SetText, DirectivesC, DirectivesText, VariablesC, VariablesText;
    var Operation(kind, name, variables, directives, items) := d;
    var r := Render(c);
    SetIs(items, 0, step, c);
    EndIs(directives, items, 0, step, c);
    var all := DirectivesC(directives, 0, step, G(" ", BlockC(items, 0, step, c)));
    var allText := DirectivesText(directives, 0, step) + (" " + SetText(items, 0, step));
    if name.Some? {
      if variables != [] {
        ListIs(variables, step, all, allText, r);
        all, allText := P("(", VariablesC(variables, step, P(")", all))),
                        "(" + (VariablesText(variables, step) + (")" + allText));
      }
      var named := N(name.value, all);
      ChunkInFront(named.head, all, allText, r);
      ChunkInFront(Gap(" "), named, name.value + allText, r);
      all, allText := G(" ", named), " " + (name.value + allText);
    }
    ChunkInFront(N(Keyword(kind), all).head, all, allText, r);
  }

  lemma ListIs(variables: seq<VariableDefinition>, step: nat, c: Chunks, t: string, end: string)
    requires Gives(c, t, end)
    ensures Gives(P("(", VariablesC(variables, step, P(")", c))),
                  "(" + (VariablesText(variables, step) + (")" + t)), end)
  {
    hide Render, Gives, VariablesC, VariablesText;
    var close := P(")", c);
    ChunkInFront(close.head, c, t, end);
    VariablesAre(variables, step, close);
    InFront(VariablesC(variables, step, close), VariablesText(variables, step), close, ")" + t, end);
    var inside := VariablesC(variables, step, close);
    ChunkInFront(P("(", inside).head, inside, VariablesText(variables, step) + (")" + t), end);
  }

  lemma FragmentIs(d: Definition, step: nat, c: Chunks)
    requires d.Fragment?
    ensures Gives(DefinitionC(d, true, step, c), DefinitionText(d, step), Render(c))
  {
    hide Render, Gives, BlockC, SetText, DirectivesC, DirectivesText;
    var Fragment(name, condition, directives, items) := d;
    var r := Render(c);
    SetIs(items, 0, step, c);
    EndIs(directives, items, 0, step, c);
    var rest := DirectivesC(directives, 0, step, G(" ", BlockC(items, 0, step, c)));
    var restText := DirectivesText(directives, 0, step) + (" " + SetText(items, 0, step));
    var on := G(" ", N("on", G(" ", N(condition, rest))));
    OnIs(condition, rest);
    InFront(on, " on " + condition, rest, restText, r);
    var named := N(name, on);
    ChunkInFront(named.head, on, " on " + condition + restText, r);
    ChunkInFront(Gap(" "), named, name + (" on " + condition + restText), r);
    ChunkInFront(N("fragment", G(" ", named)).head, G(" ", named), " " + (name + (" on " + condition + restText)), r);
  }

  lemma DefinitionIs(d: Definition, step: nat, c: Chunks)
    ensures Gives(DefinitionC(d, true, step, c), DefinitionText(d, step), Render(c))
  {
    hide Render, BlockC, SetText;
    match d
    case SelectionSet(items) => SetIs(items, 0, step, c);
    case Operation(_, _, _, _, _) => OperationIs(d, step, c);
    case Fragment(_, _, _, _) => FragmentIs(d, step, c);
  }

  lemma MarginIs(d: Definition, step: nat, c: Chunks)
    ensures DefinitionC(d, false, step, c) == G("\n", DefinitionC(d, true, step, c))
  {
  }

  lemma {:induction false} DefinitionsAre(ds: seq<Definition>, first: bool, step: nat)
    ensures Render(DefinitionsC(ds, first, step, Nil)) ==
            (if first || ds == [] then "" else "\n") + DocumentText(ds, step)
  {
    hide DefinitionC, DefinitionText;
    if ds != [] {
      var later := DefinitionsC(ds[1..], false, step, Nil);
      DefinitionIs(ds[0], step, later);
      assert DefinitionC(ds[0], false, step, later) == G("\n", DefinitionC(ds[0], true, step, later)) by {
        MarginIs(ds[0], step, later);
      }
      DefinitionsAre(ds[1..], false, step);
    }
  }

  /** The printed text of any document. */
  lemma FormattedIs(doc: Document, step: nat)
    ensures Format(doc, step) == DocumentText(doc.definitions, step)
  {
    DefinitionsAre(doc.definitions, true, step);
  }
}
