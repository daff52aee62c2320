/** An independent account of which command lines the scanner accepts: those that print a forest of
    plain characters, quoted strings and bracketed groups. */
module TokenGrammar {
  import opened Tokenizer
  import opened Wrappers

  datatype Node = Plain(c: char) | Quoted(text: string) | Group(round: bool, body: seq<Node>)

  predicate WellFormed(node: Node) {
    match node
    case Plain(c) => c !in "\"{}()[]"
    case Quoted(_) => true
    case Group(_, body) => forall i :: 0 <= i < |body| ==> WellFormed(body[i])
  }

  predicate AllWellFormed(nodes: seq<Node>) {
    forall i :: 0 <= i < |nodes| ==> WellFormed(nodes[i])
  }

  function Opener(round: bool): char {
    if round then '(' else '['
  }

  function Closer(round: bool): char {
    if round then ')' else ']'
  }

  function Show(node: Node): string {
    match node
    case Plain(c) => [c]
    case Quoted(text) => Quote(text)
    case Group(round, body) => [Opener(round)] + ShowAll(body) + [Closer(round)]
  }

  function ShowAll(nodes: seq<Node>): string {
    if nodes == [] then "" else ShowAll(nodes[..|nodes| - 1]) + Show(nodes[|nodes| - 1])
  }

  /** The scanner without its cutting. */
  function LexFrom(lex: Lex, line: string): Option<Lex> {
    if line == "" then Some(lex)
    else match LexFrom(lex, line[..|line| - 1])
      case None => None
      case Some(before) => Next(before, line[|line| - 1])
  }

  lemma {:induction false} LexIsScan(line: string)
    ensures LexFrom(TOP, line) == LexOf(line)
  {
    if line != "" {
      LexIsScan(line[..|line| - 1]);
    }
  }

  lemma LexExtend(lex: Lex, text: string, c: char)
    ensures LexFrom(lex, text + [c]) ==
      match LexFrom(lex, text) case None => None case Some(before) => Next(before, c)
  {
  }

  lemma {:induction false} LexJoins(lex: Lex, a: string, b: string)
    ensures LexFrom(lex, a + b) ==
      match LexFrom(lex, a) case None => None case Some(middle) => LexFrom(middle, b)
  {
    if b == "" {
      assert a + b == a;
    } else {
      assert (a + b)[..|a + b| - 1] == a + b[..|b| - 1];
      LexJoins(lex, a, b[..|b| - 1]);
    }
  }

  lemma LexOne(lex: Lex, c: char)
    ensures LexFrom(lex, [c]) == Next(lex, c)
  {
  }

  lemma LexChar(stack: string, c: char)
    ensures LexFrom(Lex(true, false, stack), EscapeChar(c)) == Some(Lex(true, false, stack))
  {
    if c == '\"' || c == '\\' {
      LexOne(Lex(true, false, stack), '\\');
      LexExtend(Lex(true, false, stack), ['\\'], c);
      assert EscapeChar(c) == ['\\'] + [c];
    } else {
      LexOne(Lex(true, false, stack), c);
    }
  }

  lemma {:induction false} LexEscape(stack: string, text: string)
    ensures LexFrom(Lex(true, false, stack), Escape(text)) == Some(Lex(true, false, stack))
  {
    if text != "" {
      var n := |text| - 1;
      LexEscape(stack, text[..n]);
      LexChar(stack, text[n]);
      LexJoins(Lex(true, false, stack), Escape(text[..n]), EscapeChar(text[n]));
    }
  }

  lemma LexQuote(stack: string, text: string)
    ensures LexFrom(Lex(false, false, stack), Quote(text)) == Some(Lex(false, false, stack))
  {
    var inside := Lex(true, false, stack);
    LexOne(Lex(false, false, stack), '\"');
    LexEscape(stack, text);
    LexJoins(Lex(false, false, stack), ['\"'], Escape(text));
    LexExtend(Lex(false, false, stack), ['\"'] + Escape(text), '\"');
  }

  /** Printed forests leave the scanner where it was, inside any brackets. */
  lemma {:induction false} LexShow(stack: string, node: Node)
    requires WellFormed(node)
    ensures LexFrom(Lex(false, false, stack), Show(node)) == Some(Lex(false, false, stack))
    decreases node
  {
    match node
    case Plain(c) => LexOne(Lex(false, false, stack), c);
    case Quoted(text) => LexQuote(stack, text);
    case Group(round, body) =>
      var deeper := stack + [Opener(round)];
      LexOne(Lex(false, false, stack), Opener(round));
      LexShowAll(deeper, body);
      LexJoins(Lex(false, false, stack), [Opener(round)], ShowAll(body));
      LexExtend(Lex(false, false, stack), [Opener(round)] + ShowAll(body), Closer(round));
      assert deeper[..|deeper| - 1] == stack;
  }

  lemma {:induction false} LexShowAll(stack: string, nodes: seq<Node>)
    requires AllWellFormed(nodes)
    ensures LexFrom(Lex(false, false, stack), ShowAll(nodes)) == Some(Lex(false, false, stack))
    decreases nodes
  {
    if nodes != [] {
      var n := |nodes| - 1;
      LexShowAll(stack, nodes[..n]);
      LexShow(stack, nodes[n]);
      LexJoins(Lex(false, false, stack), ShowAll(nodes[..n]), Show(nodes[n]));
    }
  }

  /** The forest read so far, one list for each open bracket and one around them all. */
  function Compose(lists: seq<seq<Node>>, stack: string): string
    requires |lists| == |stack| + 1
  {
    var n := |stack|;
    if n == 0 then ShowAll(lists[0])
    else Compose(lists[..n], stack[..n - 1]) + [stack[n - 1]] + ShowAll(lists[n])
  }

  predicate ListsWellFormed(lists: seq<seq<Node>>) {
    forall i :: 0 <= i < |lists| ==> AllWellFormed(lists[i])
  }

  predicate OnlyBrackets(stack: string) {
    forall i :: 0 <= i < |stack| ==> stack[i] == '(' || stack[i] == '['
  }

  /** The text of a quoted string that is still open. */
  function Open(lex: Lex, text: string): string {
    if lex.escaped then ['\"'] + Escape(text) + ['\\']
    else if lex.quoted then ['\"'] + Escape(text)
    else ""
  }

  predicate Describes(lex: Lex, lists: seq<seq<Node>>, text: string, line: string) {
    && |lists| == |lex.stack| + 1 && ListsWellFormed(lists) && OnlyBrackets(lex.stack)
    && (lex.escaped ==> lex.quoted)
    && line == Compose(lists, lex.stack) + Open(lex, text)
  }

  function AddTo(lists: seq<seq<Node>>, node: Node): seq<seq<Node>>
    requires lists != []
  {
    lists[|lists| - 1 := lists[|lists| - 1] + [node]]
  }

  lemma ShowOneMore(nodes: seq<Node>, node: Node)
    ensures ShowAll(nodes + [node]) == ShowAll(nodes) + Show(node)
  {
  }

  lemma AddToWellFormed(lists: seq<seq<Node>>, node: Node)
    requires lists != [] && ListsWellFormed(lists) && WellFormed(node)
    ensures ListsWellFormed(AddTo(lists, node))
  {
  }

  lemma AddToCompose(lists: seq<seq<Node>>, stack: string, node: Node)
    requires |lists| == |stack| + 1
    ensures Compose(AddTo(lists, node), stack) == Compose(lists, stack) + Show(node)
  {
    var n := |stack|;
    ShowOneMore(lists[n], node);
    if n != 0 {
      AddToInner(lists, stack, node, Compose(lists[..n], stack[..n - 1]) + [stack[n - 1]]);
    }
  }

  lemma AddToInner(lists: seq<seq<Node>>, stack: string, node: Node, outer: string)
    requires 1 < |lists| == |stack| + 1
    requires outer == Compose(lists[..|stack|], stack[..|stack| - 1]) + [stack[|stack| - 1]]
    requires ShowAll(lists[|stack|] + [node]) == ShowAll(lists[|stack|]) + Show(node)
    ensures Compose(AddTo(lists, node), stack) == Compose(lists, stack) + Show(node)
  {
  }

  lemma OpenCompose(lists: seq<seq<Node>>, stack: string, c: char)
    requires |lists| == |stack| + 1
    ensures Compose(lists + [[]], stack + [c]) == Compose(lists, stack) + [c]
  {
  }

  /** Closing a bracket turns the innermost list into a group at the end of the next one. */
  lemma CloseCompose(lists: seq<seq<Node>>, stack: string, round: bool)
    requires |lists| == |stack| + 1
    requires stack != "" && stack[|stack| - 1] == Opener(round)
    ensures var n := |stack|;
      Compose(AddTo(lists[..n], Group(round, lists[n])), stack[..n - 1]) == Compose(lists, stack) + [Closer(round)]
  {
    var n := |stack|;
    AddToCompose(lists[..n], stack[..n - 1], Group(round, lists[n]));
    Regroup(Compose(lists[..n], stack[..n - 1]), [Opener(round)], ShowAll(lists[n]), [Closer(round)]);
  }

  lemma Regroup(a: string, b: string, c: string, d: string)
    ensures a + (b + c + d) == a + b + c + d
  {
  }

  lemma CloseWellFormed(lists: seq<seq<Node>>, n: nat, round: bool)
    requires 0 < n == |lists| - 1 && ListsWellFormed(lists)
    ensures ListsWellFormed(AddTo(lists[..n], Group(round, lists[n])))
  {
  }

  /** One more character of a quoted string that stays open. */
  lemma ReadInside(lex: Lex, lists: seq<seq<Node>>, text: string, line: string, c: char)
    requires Describes(lex, lists, text, line) && lex.quoted && Next(lex, c).Some?
    requires lex.escaped || (c != '\\' && c != '\"')
    ensures Describes(Next(lex, c).value, lists, text + [c], line + [c])
  {
  }

  /** Reading one more character inside a quoted string. */
  lemma ReadQuoted(lex: Lex, lists: seq<seq<Node>>, text: string, line: string, c: char)
    returns (lists': seq<seq<Node>>, text': string)
    requires Describes(lex, lists, text, line) && lex.quoted && Next(lex, c).Some?
    ensures Describes(Next(lex, c).value, lists', text', line + [c])
  {
    lists', text' := lists, text;
    var outer := Compose(lists, lex.stack);
    if lex.escaped || (c != '\\' && c != '\"') {
      ReadInside(lex, lists, text, line, c);
      text' := text + [c];
    } else {
      Associate(outer, ['\"'] + Escape(text), [c]);
      if c == '\"' {
        AddToCompose(lists, lex.stack, Quoted(text));
        AddToWellFormed(lists, Quoted(text));
        lists' := AddTo(lists, Quoted(text));
        assert line + [c] == (outer + Quote(text)) + "";
      }
    }
  }

  /** Reading one more character outside quoted strings. */
  lemma ReadPlain(lex: Lex, lists: seq<seq<Node>>, line: string, c: char) returns (lists': seq<seq<Node>>)
    requires Describes(lex, lists, "", line) && !lex.quoted && Next(lex, c).Some?
    ensures Describes(Next(lex, c).value, lists', "", line + [c])
  {
    assert line == Compose(lists, lex.stack);
    if c == '\"' {
      lists' := lists;
      assert ['\"'] + Escape("") == ['\"'];
    } else if c == '(' || c == '[' {
      OpenCompose(lists, lex.stack, c);
      lists' := lists + [[]];
    } else if c == ')' || c == ']' {
      CloseCompose(lists, lex.stack, c == ')');
      CloseWellFormed(lists, |lex.stack|, c == ')');
      lists' := AddTo(lists[..|lex.stack|], Group(c == ')', lists[|lex.stack|]));
    } else {
      AddToCompose(lists, lex.stack, Plain(c));
      AddToWellFormed(lists, Plain(c));
      lists' := AddTo(lists, Plain(c));
    }
    var next := Next(lex, c).value;
    assert line + [c] == Compose(lists', next.stack) + Open(next, "");
  }

  /** Every prefix the scanner survives is described by the lists it has read. */
  lemma {:induction false} Describable(line: string) returns (lists: seq<seq<Node>>, text: string)
    requires LexFrom(TOP, line).Some?
    ensures Describes(LexFrom(TOP, line).value, lists, text, line)
  {
    if line == "" {
      lists, text := [[]], "";
    } else {
      var init, c := line[..|line| - 1], line[|line| - 1];
      lists, text := Describable(init);
      var lex := LexFrom(TOP, init).value;
      assert init + [c] == line;
      if lex.quoted {
        lists, text := ReadQuoted(lex, lists, text, init, c);
      } else {
        lists := ReadPlain(lex, lists, init, c);
        text := "";
      }
    }
  }

  ghost predicate InGrammar(line: string) {
    exists nodes: seq<Node> :: AllWellFormed(nodes) && ShowAll(nodes) == line
  }

  /** The scanner accepts exactly the control-free lines of the grammar. */
  lemma AcceptsExactlyTheGrammar(line: string)
    ensures Tokens(line).Some? <==> InGrammar(line) && forall i :: 0 <= i < |line| ==> !IsControl(line[i])
  {
    LexIsScan(line);
    if LexFrom(TOP, line) == Some(TOP) {
      var lists, text := Describable(line);
      assert Compose(lists, "") == ShowAll(lists[0]) && line == Compose(lists, "") + "";
      assert AllWellFormed(lists[0]);
    }
    if InGrammar(line) {
      var nodes :| AllWellFormed(nodes) && ShowAll(nodes) == line;
      LexShowAll("", nodes);
    }
  }
}
