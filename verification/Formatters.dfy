/**
 The formatter of crates/parser/src/format.rs and the `display` methods of
 crates/parser/src/query/format.rs: a buffer and an indentation, changed in place.

 Each `Display` method takes, as a ghost, the layout of what the caller writes next, and
 promises that what the buffer stands for together with it has not changed.
 */
module Formatters {
  import opened Wrappers
  import opened Lexer
  import opened Ast
  import Numerals
  import opened QuotedStrings
  import opened BlockStrings
  import opened Layout

  /** Text written now, before the text to come. */
  lemma Joined(before: string, s: string, next: string)
    ensures before + s + next == before + (s + next)
  {
  }

  class Formatter {
    var buf: string
    const style: nat
    var indent: nat

    constructor (style: nat)
      ensures buf == "" && this.style == style && indent == 0
    {
      buf := "";
      this.style := style;
      indent := 0;
    }

    method Indent()
      modifies `buf
      ensures buf == old(buf) + Spaces(indent)
    {
      var n := 0;
      while n < indent
        invariant n <= indent
        invariant buf + Spaces(indent - n) == old(buf) + Spaces(indent)
      {
        assert buf + Spaces(indent - n) == buf + " " + Spaces(indent - n - 1);
        buf := buf + " ";
        n := n + 1;
      }
    }

    method Write(s: string)
      modifies `buf
      ensures buf == old(buf) + s
    {
      buf := buf + s;
    }

    method Endline()
      modifies `buf
      ensures buf == old(buf) + "\n"
    {
      buf := buf + "\n";
    }

    method StartBlock()
      modifies this
      ensures buf == old(buf) + "{" + "\n"
      ensures indent == old(indent) + style
    {
      buf := buf + "{";
      Endline();
      indent := indent + style;
    }

    method EndBlock()
      requires indent >= style
      modifies this
      ensures indent == old(indent) - style
      ensures buf == old(buf) + Spaces(indent) + "}" + "\n"
    {
      indent := indent - style;
      Indent();
      buf := buf + "}";
      Endline();
    }

    method Margin()
      modifies `buf
      ensures buf == if old(buf) == "" then "" else old(buf) + "\n"
    {
      if buf != "" {
        buf := buf + "\n";
      }
    }

    method WriteQuoted(s: string)
      modifies this
      ensures indent == old(indent)
      ensures buf == old(buf) + StringToken(s, indent, style).value
    {
      var hasNewline, hasNonprintable := false, false;
      for i := 0 to |s|
        invariant hasNewline <==> '\n' in s[..i]
        invariant hasNonprintable <==> exists j :: 0 <= j < i && !IsPrintable(s[j]) && s[j] != '\n'
      {
        assert s[..i + 1] == s[..i] + [s[i]];
        if s[i] == '\n' {
          hasNewline := true;
        } else if !IsPrintable(s[i]) {
          hasNonprintable := true;
        }
      }
      assert s[..|s|] == s;
      if !hasNewline || hasNonprintable {
        WriteEscaped(s);
      } else {
        WriteBlock(s);
      }
    }

    method WriteEscaped(s: string)
      modifies `buf
      ensures buf == old(buf) + Quoted(s)
    {
      buf := buf + "\"";
      ghost var start := buf;
      for i := 0 to |s|
        invariant buf + EscapeAll(s[i..]) == start + EscapeAll(s)
      {
        assert s[i..][1..] == s[i + 1..];
        assert buf + EscapeAll(s[i..]) == buf + Escape(s[i]) + EscapeAll(s[i + 1..]);
        buf := buf + Escape(s[i]);
      }
      assert buf + EscapeAll(s[|s|..]) == buf;
      buf := buf + "\"";
      assert buf == old(buf) + ("\"" + EscapeAll(s) + "\"");
    }

    method WriteBlock(s: string)
      modifies this
      ensures indent == old(indent)
      ensures buf == old(buf) + BlockQuoted(s, indent, style)
    {
      hide Lines, PrintedLine, JoinLines;
      buf := buf + QUOTES;
      Endline();
      indent := indent + style;
      var lines := Lines(s);
      ghost var start, printed := buf, PrintedLines(lines, indent);
      JoinOfNone();
      for i := 0 to |lines|
        invariant indent == old(indent) + style
        invariant buf == start + JoinLines(printed[..i])
      {
        assert printed[..i + 1] == printed[..i] + [printed[i]];
        JoinLinesSnoc(printed[..i], printed[i]);
        WriteLine(lines[i]);
      }
      assert printed[..|lines|] == printed;
      indent := indent - style;
      Indent();
      buf := buf + QUOTES;
    }

    static lemma JoinOfNone()
      ensures JoinLines([]) == ""
    {
    }

    method WriteLine(line: string)
      modifies `buf
      ensures buf == old(buf) + PrintedLine(line, indent) + "\n"
    {
      TrimIsEmptyIffBlank(line);
      if Trim(line) != "" {
        Indent();
        Write(Replace(line, QUOTES, ESCAPED_QUOTES));
      }
      Endline();
    }

    // ----- Values -----

    method DisplayValue(v: Value, ghost next: Chunks)
      modifies this
      ensures indent == old(indent)
      ensures buf + Render(next) == old(buf) + Render(ValueC(v, indent, style, next))
      ensures |buf| >= |old(buf)|
      decreases v, 1
    {
      match v
      case Variable(n) =>
        Write("$");
        Write(n);
      case Int(n) =>
        Write(Numerals.IntText(n));
      case Float(text) =>
        Write(text);
      case String(s) =>
        WriteQuoted(s);
      case Boolean(b) =>
        Write(if b then "true" else "false");
      case Null =>
        Write("null");
      case Enum(n) =>
        Write(n);
      case List(_) =>
        DisplayList(v, next);
      case Object(_) =>
        DisplayObject(v, next);
    }

    method DisplayList(v: Value, ghost next: Chunks)
      requires v.List?
      modifies this
      ensures indent == old(indent)
      ensures buf + Render(next) == old(buf) + Render(ValueC(v, indent, style, next))
      ensures |buf| >= |old(buf)|
      decreases v, 0
    {
      ghost var close := P("]", next);
      Joined(buf, "[", Render(ValuesC(v.items, indent, style, close)));
      Write("[");
      DisplayValues(v.items, close);
      Joined(buf, "]", Render(next));
      Write("]");
    }

    method DisplayObject(v: Value, ghost next: Chunks)
      requires v.Object?
      modifies this
      ensures indent == old(indent)
      ensures buf + Render(next) == old(buf) + Render(ValueC(v, indent, style, next))
      ensures |buf| >= |old(buf)|
      decreases v, 0
    {
      ghost var close := P("}", next);
      Joined(buf, "{", Render(MembersC(v.fields, indent, style, close)));
      Write("{");
      DisplayMembers(v.fields, close);
      Joined(buf, "}", Render(next));
      Write("}");
    }

    method DisplayValues(items: seq<Value>, ghost next: Chunks)
      modifies this
      ensures indent == old(indent)
      ensures buf + Render(next) == old(buf) + Render(ValuesC(items, indent, style, next))
      ensures |buf| >= |old(buf)|
      decreases items
    {
      if items != [] {
        DisplayValue(items[0], LaterValues(items, 1, indent, style, next));
        var i := 1;
        while i < |items|
          invariant 1 <= i <= |items| && indent == old(indent) && |buf| >= |old(buf)|
          invariant buf + Render(LaterValues(items, i, indent, style, next)) ==
                    old(buf) + Render(ValuesC(items, indent, style, next))
        {
          assert items[i..][1..] == items[i + 1..];
          Joined(buf, ", ", Render(ValuesC(items[i..], indent, style, next)));
          Write(", ");
          DisplayValue(items[i], LaterValues(items, i + 1, indent, style, next));
          i := i + 1;
        }
      }
    }

    /** The part of a comma-separated list from item `i` on, with its comma. */
    static function LaterValues(items: seq<Value>, i: nat, indent: nat, step: nat, next: Chunks): Chunks {
      if i < |items| then G(", ", ValuesC(items[i..], indent, step, next)) else next
    }

    static function LaterMembers(ms: seq<Member>, i: nat, indent: nat, step: nat, next: Chunks): Chunks {
      if i >= |ms| then next
      else if i == 0 then MembersC(ms, indent, step, next)
      else G(", ", MembersC(ms[i..], indent, step, next))
    }

    method DisplayMembers(ms: seq<Member>, ghost next: Chunks)
      modifies this
      ensures indent == old(indent)
      ensures buf + Render(next) == old(buf) + Render(MembersC(ms, indent, style, next))
      ensures |buf| >= |old(buf)|
      decreases ms
    {
      var first := true;
      for i := 0 to |ms|
        invariant indent == old(indent) && |buf| >= |old(buf)| && first == (i == 0)
        invariant buf + Render(LaterMembers(ms, i, indent, style, next)) ==
                  old(buf) + Render(MembersC(ms, indent, style, next))
      {
        ghost var later := LaterMembers(ms, i + 1, indent, style, next);
        assert ms[0..] == ms && ms[i..][1..] == ms[i + 1..];
        ghost var value := ValueC(ms[i].value, indent, style, later);
        ghost var all := N(ms[i].name, P(":", G(" ", value)));
        assert MembersC(ms[i..], indent, style, next) == all;
        if first {
          first := false;
        } else {
          Joined(buf, ", ", Render(all));
          Write(", ");
        }
        NamedValue(buf, ms[i].name, value);
        Write(ms[i].name);
        Write(": ");
        DisplayValue(ms[i].value, later);
      }
    }

    static lemma NamedValue(before: string, name: string, value: Chunks)
      ensures before + name + ": " + Render(value) == before + Render(N(name, P(":", G(" ", value))))
    {
      assert Render(P(":", G(" ", value))) == ":" + Render(G(" ", value)) == ":" + (" " + Render(value));
      assert ":" + (" " + Render(value)) == ": " + Render(value);
      Joined(before + name, ": ", Render(value));
      Joined(before, name, ": " + Render(value));
    }

    method FormatArguments(arguments: seq<Member>, ghost next: Chunks)
      modifies this
      ensures indent == old(indent)
      ensures buf + Render(next) == old(buf) + Render(ArgumentsC(arguments, indent, style, next))
      ensures |buf| >= |old(buf)|
    {
      if arguments != [] {
        ghost var close := P(")", next);
        Joined(buf, "(", Render(MembersC(arguments, indent, style, close)));
        Write("(");
        DisplayMembers(arguments, close);
        Joined(buf, ")", Render(next));
        Write(")");
      }
    }

    // ----- Directives, types and variables -----

    method DisplayDirective(d: Directive, ghost next: Chunks)
      modifies this
      ensures indent == old(indent)
      ensures buf + Render(next) == old(buf) + Render(P("@", N(d.name, ArgumentsC(d.arguments, indent, style, next))))
      ensures |buf| >= |old(buf)|
    {
      ghost var arguments := ArgumentsC(d.arguments, indent, style, next);
      Joined(buf, "@", Render(N(d.name, arguments)));
      Write("@");
      Joined(buf, d.name, Render(arguments));
      Write(d.name);
      FormatArguments(d.arguments, next);
    }

    method FormatDirectives(dirs: seq<Directive>, ghost next: Chunks)
      modifies this
      ensures indent == old(indent)
      ensures buf + Render(next) == old(buf) + Render(DirectivesC(dirs, indent, style, next))
      ensures |buf| >= |old(buf)|
    {
      for i := 0 to |dirs|
        invariant indent == old(indent) && |buf| >= |old(buf)|
        invariant buf + Render(DirectivesC(dirs[i..], indent, style, next)) ==
                  old(buf) + Render(DirectivesC(dirs, indent, style, next))
      {
        ghost var later := DirectivesC(dirs[i + 1..], indent, style, next);
        assert dirs[i..][1..] == dirs[i + 1..];
        Joined(buf, " ", Render(P("@", N(dirs[i].name, ArgumentsC(dirs[i].arguments, indent, style, later)))));
        Write(" ");
        DisplayDirective(dirs[i], later);
      }
    }

    method DisplayType(t: Type, ghost next: Chunks)
      modifies this
      ensures indent == old(indent)
      ensures buf + Render(next) == old(buf) + Render(TypeC(t, next))
      ensures |buf| >= |old(buf)|
      decreases t
    {
      match t
      case NamedType(n) =>
        Write(n);
      case ListType(inner) =>
        ghost var close := P("]", next);
        Joined(buf, "[", Render(TypeC(inner, close)));
        Write("[");
        DisplayType(inner, close);
        Joined(buf, "]", Render(next));
        Write("]");
      case NonNullType(inner) =>
        DisplayType(inner, P("!", next));
        Joined(buf, "!", Render(next));
        Write("!");
    }

    method DisplayVariable(v: VariableDefinition, ghost next: Chunks)
      requires indent == 0
      modifies this
      ensures indent == 0
      ensures buf + Render(next) == old(buf) + Render(VariableC(v, style, next))
      ensures |buf| >= |old(buf)|
    {
      ghost var value := if v.defaultValue.Some? then ValueC(v.defaultValue.value, 0, style, next) else next;
      ghost var default := if v.defaultValue.Some? then G(" ", P("=", G(" ", value))) else next;
      ghost var typed := TypeC(v.varType, default);
      Joined(buf, "$", Render(N(v.name, P(":", G(" ", typed)))));
      Write("$");
      NamedValue(buf, v.name, typed);
      Write(v.name);
      Write(": ");
      DisplayType(v.varType, default);
      if v.defaultValue.Some? {
        EqualsSign(buf, value);
        Write(" = ");
        DisplayValue(v.defaultValue.value, next);
      }
    }

    static lemma EqualsSign(before: string, value: Chunks)
      ensures before + " = " + Render(value) == before + Render(G(" ", P("=", G(" ", value))))
    {
      assert Render(P("=", G(" ", value))) == "=" + Render(G(" ", value)) == "=" + (" " + Render(value));
      assert " " + ("=" + (" " + Render(value))) == " = " + Render(value);
      Joined(before, " = ", Render(value));
    }

    method DisplayVariables(vars: seq<VariableDefinition>, ghost next: Chunks)
      requires indent == 0
      modifies this
      ensures indent == 0
      ensures buf + Render(next) == old(buf) + Render(VariablesC(vars, style, next))
      ensures |buf| >= |old(buf)|
    {
      if vars != [] {
        DisplayVariable(vars[0], LaterVariables(vars, 1, style, next));
        var i := 1;
        while i < |vars|
          invariant 1 <= i <= |vars| && indent == 0 && |buf| >= |old(buf)|
          invariant buf + Render(LaterVariables(vars, i, style, next)) ==
                    old(buf) + Render(VariablesC(vars, style, next))
        {
          assert vars[i..][1..] == vars[i + 1..];
          Joined(buf, ", ", Render(VariablesC(vars[i..], style, next)));
          Write(", ");
          DisplayVariable(vars[i], LaterVariables(vars, i + 1, style, next));
          i := i + 1;
        }
      }
    }

    static function LaterVariables(vars: seq<VariableDefinition>, i: nat, step: nat, next: Chunks): Chunks {
      if i < |vars| then G(", ", VariablesC(vars[i..], step, next)) else next
    }

    // ----- Selections -----

    method DisplaySelection(s: Selection, ghost next: Chunks)
      modifies this
      ensures indent == old(indent)
      ensures buf + Render(next) == old(buf) + Render(SelectionC(s, indent, style, next))
      ensures |buf| >= |old(buf)|
      decreases s, 0
    {
      Joined(buf, Spaces(indent), Render(SelectionC(s, indent, style, next).tail));
      Indent();
      match s
      case Field(alias, name, arguments, directives, items) =>
        ghost var end := if items != [] then G(" ", BlockC(items, indent, style, next)) else G("\n", next);
        ghost var dirs := DirectivesC(directives, indent, style, end);
        ghost var rest := N(name, ArgumentsC(arguments, indent, style, dirs));
        if alias.Some? {
          NamedValue(buf, alias.value, rest);
          Write(alias.value);
          Write(": ");
        }
        Joined(buf, name, Render(rest.tail));
        Write(name);
        FormatArguments(arguments, dirs);
        FormatDirectives(directives, end);
        if items != [] {
          Joined(buf, " ", Render(BlockC(items, indent, style, next)));
          Write(" ");
          DisplayBlock(items, next);
        } else {
          Joined(buf, "\n", Render(next));
          Endline();
        }
      case FragmentSpread(name, directives) =>
        ghost var end := G("\n", next);
        ghost var dirs := DirectivesC(directives, indent, style, end);
        Joined(buf, "...", Render(N(name, dirs)));
        Write("...");
        Joined(buf, name, Render(dirs));
        Write(name);
        FormatDirectives(directives, end);
        Joined(buf, "\n", Render(next));
        Endline();
      case InlineFragment(condition, directives, items) =>
        ghost var end := G(" ", BlockC(items, indent, style, next));
        ghost var dirs := DirectivesC(directives, indent, style, end);
        Joined(buf, "...", Render(if condition.Some? then G(" ", N("on", G(" ", N(condition.value, dirs)))) else dirs));
        Write("...");
        if condition.Some? {
          Joined(buf, " ", Render(N("on", G(" ", N(condition.value, dirs)))));
          Write(" ");
          DisplayCondition(condition.value, dirs);
        }
        FormatDirectives(directives, end);
        Joined(buf, " ", Render(BlockC(items, indent, style, next)));
        Write(" ");
        DisplayBlock(items, next);
    }

    method DisplayCondition(on: string, ghost next: Chunks)
      modifies `buf
      ensures buf + Render(next) == old(buf) + Render(N("on", G(" ", N(on, next))))
      ensures |buf| >= |old(buf)|
    {
      assert Render(G(" ", N(on, next))) == " " + Render(N(on, next));
      assert "on" + (" " + Render(N(on, next))) == "on " + Render(N(on, next));
      Joined(buf, "on ", Render(N(on, next)));
      Write("on ");
      Joined(buf, on, Render(next));
      Write(on);
    }

    /** The statements from `start_block` to `end_block` that every printer of selections shares. */
    method DisplayBlock(items: seq<Selection>, ghost next: Chunks)
      modifies this
      ensures indent == old(indent)
      ensures buf + Render(next) == old(buf) + Render(BlockC(items, indent, style, next))
      ensures |buf| >= |old(buf)| + 1
      decreases items, 1
    {
      ghost var close := G(Spaces(indent), P("}", G("\n", next)));
      ghost var inner := indent + style;
      OpenBlock(buf, SelectionsC(items, inner, style, close));
      StartBlock();
      for i := 0 to |items|
        invariant indent == inner && |buf| >= |old(buf)| + 1
        invariant buf + Render(SelectionsC(items[i..], inner, style, close)) ==
                  old(buf) + Render(BlockC(items, old(indent), style, next))
      {
        assert items[i..][1..] == items[i + 1..];
        DisplaySelection(items[i], SelectionsC(items[i + 1..], inner, style, close));
      }
      CloseBlock(buf, old(indent), next);
      EndBlock();
    }

    static lemma OpenBlock(before: string, items: Chunks)
      ensures before + "{" + "\n" + Render(items) == before + Render(P("{", G("\n", items)))
    {
      assert Render(G("\n", items)) == "\n" + Render(items);
      Joined(before + "{", "\n", Render(items));
      Joined(before, "{", "\n" + Render(items));
    }

    static lemma CloseBlock(before: string, indent: nat, next: Chunks)
      ensures before + Spaces(indent) + "}" + "\n" + Render(next) ==
              before + Render(G(Spaces(indent), P("}", G("\n", next))))
    {
      assert Render(P("}", G("\n", next))) == "}" + Render(G("\n", next)) == "}" + ("\n" + Render(next));
      Joined(before + Spaces(indent) + "}", "\n", Render(next));
      Joined(before + Spaces(indent), "}", "\n" + Render(next));
      Joined(before, Spaces(indent), "}" + ("\n" + Render(next)));
    }

    // ----- Definitions -----

    method DisplayDefinition(d: Definition, ghost next: Chunks)
      requires indent == 0
      modifies this
      ensures indent == 0 && buf != ""
      ensures buf + Render(next) == old(buf) + Render(DefinitionC(d, old(buf) == "", style, next))
    {
      hide DefinitionC;
      ghost var body := DefinitionC(d, true, style, next);
      LaterDefinition(d, style, next);
      Joined(buf, "\n", Render(body));
      Margin();
      assert buf + Render(body) == old(buf) + Render(DefinitionC(d, old(buf) == "", style, next));
      assert buf + Spaces(0) == buf;
      Indent();
      match d
      case SelectionSet(items) =>
        DisplayBlock(items, next);
      case Operation(kind, name, variables, directives, items) =>
        DisplayOperation(kind, name, variables, directives, items, next);
      case Fragment(name, condition, directives, items) =>
        DisplayFragment(name, condition, directives, items, next);
    }

    static lemma LaterDefinition(d: Definition, step: nat, next: Chunks)
      ensures DefinitionC(d, false, step, next) == G("\n", DefinitionC(d, true, step, next))
      ensures d.SelectionSet? ==> DefinitionC(d, true, step, next) == BlockC(d.selectionSet, 0, step, next)
    {
    }

    method DisplayDirectedBlock(directives: seq<Directive>, items: seq<Selection>, ghost next: Chunks)
      modifies this
      ensures indent == old(indent) && |buf| > |old(buf)|
      ensures buf + Render(next) ==
              old(buf) + Render(DirectivesC(directives, indent, style, G(" ", BlockC(items, indent, style, next))))
    {
      FormatDirectives(directives, G(" ", BlockC(items, indent, style, next)));
      Joined(buf, " ", Render(BlockC(items, indent, style, next)));
      Write(" ");
      DisplayBlock(items, next);
    }

    method DisplayOperation(kind: OperationType, name: Option<string>, variables: seq<VariableDefinition>,
                            directives: seq<Directive>, items: seq<Selection>, ghost next: Chunks)
      requires indent == 0
      modifies this
      ensures indent == 0 && buf != ""
      ensures buf + Render(next) ==
              old(buf) + Render(DefinitionC(Operation(kind, name, variables, directives, items), true, style, next))
    {
      ghost var body := DefinitionC(Operation(kind, name, variables, directives, items), true, style, next);
      ghost var dirs := DirectivesC(directives, 0, style, G(" ", BlockC(items, 0, style, next)));
      Joined(buf, Keyword(kind), Render(body.tail));
      Write(Keyword(kind));
      if name.Some? {
        DisplayNameAndVariables(name.value, variables, dirs);
      }
      DisplayDirectedBlock(directives, items, next);
    }

    method DisplayFragment(name: string, condition: string, directives: seq<Directive>, items: seq<Selection>,
                           ghost next: Chunks)
      requires indent == 0
      modifies this
      ensures indent == 0 && buf != ""
      ensures buf + Render(next) ==
              old(buf) + Render(DefinitionC(Fragment(name, condition, directives, items), true, style, next))
    {
      ghost var dirs := DirectivesC(directives, 0, style, G(" ", BlockC(items, 0, style, next)));
      FragmentHead(buf, name, N("on", G(" ", N(condition, dirs))));
      Write("fragment ");
      Write(name);
      Write(" ");
      DisplayCondition(condition, dirs);
      DisplayDirectedBlock(directives, items, next);
    }

    static lemma FragmentHead(before: string, name: string, next: Chunks)
      ensures before + "fragment " + name + " " + Render(next) ==
              before + Render(N("fragment", G(" ", N(name, G(" ", next)))))
    {
      var r := Render(next);
      assert Render(N(name, G(" ", next))) == name + Render(G(" ", next)) == name + (" " + r);
      assert Render(G(" ", N(name, G(" ", next)))) == " " + (name + (" " + r));
      assert "fragment" + (" " + (name + (" " + r))) == "fragment " + (name + (" " + r));
      Joined(before, "fragment ", name + (" " + r));
      Joined(before + "fragment ", name, " " + r);
      Joined(before + "fragment " + name, " ", r);
    }

    method DisplayNameAndVariables(name: string, variables: seq<VariableDefinition>, ghost next: Chunks)
      requires indent == 0
      modifies this
      ensures indent == 0 && |buf| >= |old(buf)|
      ensures buf + Render(next) == old(buf) + Render(G(" ", N(name,
                if variables == [] then next else P("(", VariablesC(variables, style, P(")", next))))))
    {
      ghost var list := if variables == [] then next else P("(", VariablesC(variables, style, P(")", next)));
      Joined(buf, " ", Render(N(name, list)));
      Write(" ");
      Joined(buf, name, Render(list));
      Write(name);
      if variables != [] {
        Joined(buf, "(", Render(VariablesC(variables, style, P(")", next))));
        Write("(");
        DisplayVariables(variables, P(")", next));
        Joined(buf, ")", Render(next));
        Write(")");
      }
    }
  }

  /** `Document::format`: the text collected is the layout of the document. */
  method FormatDocument(doc: Document, style: nat) returns (text: string)
    ensures text == Format(doc, style)
  {
    var f := new Formatter(style);
    ghost var all := DefinitionsC(doc.definitions, true, style, Nil);
    for i := 0 to |doc.definitions|
      invariant f.indent == 0 && fresh(f) && (f.buf == "" <==> i == 0)
      invariant f.style == style
      invariant f.buf + Render(DefinitionsC(doc.definitions[i..], i == 0, style, Nil)) == Render(all)
    {
      assert doc.definitions[i..][1..] == doc.definitions[i + 1..];
      f.DisplayDefinition(doc.definitions[i], DefinitionsC(doc.definitions[i + 1..], false, style, Nil));
    }
    assert f.buf + "" == f.buf;
    return f.buf;
  }
}
