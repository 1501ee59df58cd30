/**
 What the printers of crates/parser/src/query/format.rs write: a list of tokens and of gaps
 between them.  Every function takes the layout of what comes after, so that layouts are
 built from the back without concatenation.
 */
module Layout {
  import opened Lexer
  import opened Ast
  import Numerals
  import opened QuotedStrings
  import opened BlockStrings
  import opened BlockStringRoundTrip

  datatype Chunk = Gap(text: string) | Tok(token: Token)

  datatype Chunks = Nil | Cons(head: Chunk, tail: Chunks)

  function TextOf(c: Chunk): string {
    match c
    case Gap(text) => text
    case Tok(t) => t.value
  }

  /** The text a layout stands for. */
  function Render(c: Chunks): string {
    match c
    case Nil => ""
    case Cons(h, t) => TextOf(h) + Render(t)
  }

  /** The tokens of a layout. */
  function TokensOf(c: Chunks): Input {
    match c
    case Nil => End(EndOfInput)
    case Cons(Gap(_), t) => TokensOf(t)
    case Cons(Tok(k), t) => More(k, TokensOf(t))
  }

  function G(text: string, c: Chunks): Chunks { Cons(Gap(text), c) }

  function P(value: string, c: Chunks): Chunks { Cons(Tok(Token(Punctuator, value)), c) }

  function N(name: string, c: Chunks): Chunks { Cons(Tok(Token(Name, name)), c) }

  // ----- Strings -----

  predicate IsMultiline(s: string) {
    '\n' in s && forall i | 0 <= i < |s| :: IsPrintable(s[i]) || s[i] == '\n'
  }

  function StringToken(s: string, indent: nat, step: nat): Token {
    if IsMultiline(s) then Token(BlockString, BlockQuoted(s, indent, step))
    else Token(StringValue, Quoted(s))
  }

  /** The strings that are read back as they were when printed at `indent`. */
  predicate Quotable(s: string, indent: nat) {
    if IsMultiline(s) then Intact(s, indent) else forall i | 0 <= i < |s| :: Survives(s[i])
  }

  // ----- Values -----

  function ValueC(v: Value, indent: nat, step: nat, c: Chunks): Chunks
    decreases v
  {
    match v
    case Variable(n) => P("$", N(n, c))
    case Int(n) => Cons(Tok(Token(IntValue, Numerals.IntText(n))), c)
    case Float(text) => Cons(Tok(Token(FloatValue, text)), c)
    case String(s) => Cons(Tok(StringToken(s, indent, step)), c)
    case Boolean(b) => N(if b then "true" else "false", c)
    case Null => N("null", c)
    case Enum(n) => N(n, c)
    case List(items) => P("[", ValuesC(items, indent, step, P("]", c)))
    case Object(fields) => P("{", MembersC(fields, indent, step, P("}", c)))
  }

  function ValuesC(vs: seq<Value>, indent: nat, step: nat, c: Chunks): Chunks
    decreases vs
  {
    if vs == [] then c
    else ValueC(vs[0], indent, step, if |vs| == 1 then c else G(", ", ValuesC(vs[1..], indent, step, c)))
  }

  function MembersC(ms: seq<Member>, indent: nat, step: nat, c: Chunks): Chunks
    decreases ms
  {
    if ms == [] then c
    else
      N(ms[0].name, P(":", G(" ", ValueC(ms[0].value, indent, step,
        if |ms| == 1 then c else G(", ", MembersC(ms[1..], indent, step, c))))))
  }

  function ArgumentsC(ms: seq<Member>, indent: nat, step: nat, c: Chunks): Chunks {
    if ms == [] then c else P("(", MembersC(ms, indent, step, P(")", c)))
  }

  function DirectivesC(ds: seq<Directive>, indent: nat, step: nat, c: Chunks): Chunks {
    if ds == [] then c
    else G(" ", P("@", N(ds[0].name, ArgumentsC(ds[0].arguments, indent, step, DirectivesC(ds[1..], indent, step, c)))))
  }

  // ----- Types and variables -----

  function TypeC(t: Type, c: Chunks): Chunks {
    match t
    case NamedType(n) => N(n, c)
    case ListType(inner) => P("[", TypeC(inner, P("]", c)))
    case NonNullType(inner) => TypeC(inner, P("!", c))
  }

  function VariableC(v: VariableDefinition, step: nat, c: Chunks): Chunks {
    P("$", N(v.name, P(":", G(" ", TypeC(v.varType,
      match v.defaultValue
      case None => c
      case Some(d) => G(" ", P("=", G(" ", ValueC(d, 0, step, c)))))))))
  }

  function VariablesC(vs: seq<VariableDefinition>, step: nat, c: Chunks): Chunks {
    if vs == [] then c
    else VariableC(vs[0], step, if |vs| == 1 then c else G(", ", VariablesC(vs[1..], step, c)))
  }

  // ----- Selections -----

  function SelectionC(s: Selection, indent: nat, step: nat, c: Chunks): Chunks
    decreases s, 0
  {
    match s
    case Field(alias, name, arguments, directives, items) =>
      var rest := N(name, ArgumentsC(arguments, indent, step, DirectivesC(directives, indent, step,
        if items != [] then G(" ", BlockC(items, indent, step, c)) else G("\n", c))));
      G(Spaces(indent), if alias.Some? then N(alias.value, P(":", G(" ", rest))) else rest)
    case FragmentSpread(name, directives) =>
      G(Spaces(indent), P("...", N(name, DirectivesC(directives, indent, step, G("\n", c)))))
    case InlineFragment(condition, directives, items) =>
      var rest := DirectivesC(directives, indent, step, G(" ", BlockC(items, indent, step, c)));
      G(Spaces(indent), P("...",
        if condition.Some? then G(" ", N("on", G(" ", N(condition.value, rest)))) else rest))
  }

  /** An indented block in braces, with its line end. */
  function BlockC(items: seq<Selection>, indent: nat, step: nat, c: Chunks): Chunks
    decreases items, 1
  {
    P("{", G("\n", SelectionsC(items, indent + step, step, G(Spaces(indent), P("}", G("\n", c))))))
  }

  function SelectionsC(ss: seq<Selection>, indent: nat, step: nat, c: Chunks): Chunks
    decreases ss, 0
  {
    if ss == [] then c else SelectionC(ss[0], indent, step, SelectionsC(ss[1..], indent, step, c))
  }

  // ----- Definitions -----

  function DefinitionC(d: Definition, first: bool, step: nat, c: Chunks): Chunks {
    var body :=
      match d
      case SelectionSet(items) => BlockC(items, 0, step, c)
      case Operation(kind, name, variables, directives, items) =>
        var rest := DirectivesC(directives, 0, step, G(" ", BlockC(items, 0, step, c)));
        N(Keyword(kind),
          if name.None? then rest
          else G(" ", N(name.value,
            if variables == [] then rest else P("(", VariablesC(variables, step, P(")", rest))))))
      case Fragment(name, condition, directives, items) =>
        var rest := DirectivesC(directives, 0, step, G(" ", BlockC(items, 0, step, c)));
        N("fragment", G(" ", N(name, G(" ", N("on", G(" ", N(condition, rest)))))));
    if first then body else G("\n", body)
  }

  function DefinitionsC(ds: seq<Definition>, first: bool, step: nat, c: Chunks): Chunks {
    if ds == [] then c else DefinitionC(ds[0], first, step, DefinitionsC(ds[1..], false, step, c))
  }

  /** The text `Document::format` gives for a style that indents by `step`. */
  function Format(doc: Document, step: nat): string {
    Render(DefinitionsC(doc.definitions, true, step, Nil))
  }
}
