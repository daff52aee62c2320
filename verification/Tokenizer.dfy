/** Splitting a protocol command line at its top-level spaces, and quoted mailbox names. */
module Tokenizer {
  import opened Wrappers

  /** Where the scanner stands: inside a quoted string, after a backslash in one, and within which
      open brackets. */
  datatype Lex = Lex(quoted: bool, escaped: bool, stack: string)

  const TOP := Lex(false, false, "")

  predicate IsControl(c: char) {
    c < ' ' || c == 127 as char
  }

  predicate HasControl(line: string) {
    exists i :: 0 <= i < |line| && IsControl(line[i])
  }

  predicate Closes(stack: string, c: char) {
    stack != "" && stack[|stack| - 1] == (if c == ')' then '(' else '[')
  }

  /** One character; None where the scanner rejects the line. */
  function Next(lex: Lex, c: char): Option<Lex> {
    if lex.escaped then
      if c == '\"' || c == '\\' then Some(lex.(escaped := false)) else None
    else if lex.quoted then
      if c == '\\' then Some(lex.(escaped := true))
      else if c == '\"' then Some(lex.(quoted := false))
      else Some(lex)
    else if c == '\"' then Some(lex.(quoted := true))
    else if c == '{' || c == '}' then None
    else if c == '(' || c == '[' then Some(lex.(stack := lex.stack + [c]))
    else if c == ')' || c == ']' then
      if Closes(lex.stack, c) then Some(lex.(stack := lex.stack[..|lex.stack| - 1])) else None
    else Some(lex)
  }

  /** Finished tokens and the text since the last cut. */
  datatype Scan = Scan(lex: Lex, tokens: seq<string>, current: string)

  const START := Scan(TOP, [], "")

  function Cut(scan: Scan): seq<string> {
    if scan.current == "" then scan.tokens else scan.tokens + [scan.current]
  }

  function Step(scan: Scan, c: char): Option<Scan> {
    if scan.lex == TOP && c == ' ' then Some(Scan(TOP, Cut(scan), ""))
    else match Next(scan.lex, c)
      case None => None
      case Some(lex) => Some(Scan(lex, scan.tokens, scan.current + [c]))
  }

  function ScanFrom(scan: Scan, line: string): Option<Scan> {
    if line == "" then Some(scan)
    else match ScanFrom(scan, line[..|line| - 1])
      case None => None
      case Some(before) => Step(before, line[|line| - 1])
  }

  /** The tokens of a line, if it is accepted. */
  function Tokens(line: string): Option<seq<string>> {
    if HasControl(line) then None
    else match ScanFrom(START, line)
      case None => None
      case Some(scan) => if scan.lex == TOP then Some(Cut(scan)) else None
  }

  /** The flags and the stack after one character. */
  method Advance(quoted: bool, escaped: bool, stack: string, c: char)
    returns (ok: bool, quoted': bool, escaped': bool, stack': string)
    ensures Next(Lex(quoted, escaped, stack), c) == if ok then Some(Lex(quoted', escaped', stack')) else None
  {
    ok, quoted', escaped', stack' := true, quoted, escaped, stack;
    if escaped {
      ok := c == '\"' || c == '\\';
      escaped' := false;
    } else if quoted {
      if c == '\\' {
        escaped' := true;
      } else if c == '\"' {
        quoted' := false;
      }
    } else if c == '\"' {
      quoted' := true;
    } else if c == '{' || c == '}' {
      ok := false;
    } else if c == '(' || c == '[' {
      stack' := stack + [c];
    } else if c == ')' || c == ']' {
      if Closes(stack, c) {
        stack' := stack[..|stack| - 1];
      } else {
        ok := false;
      }
    }
  }

  method Tokenize(line: string) returns (r: Option<seq<string>>)
    ensures r == Tokens(line)
  {
    if HasControl(line) {
      return None;
    }
    var tokens: seq<string> := [];
    var start := 0;
    var quoted, escaped := false, false;
    var stack := "";
    for index := 0 to |line|
      invariant 0 <= start <= index
      invariant ScanFrom(START, line[..index]) == Some(Scan(Lex(quoted, escaped, stack), tokens, line[start..index]))
    {
      var c := line[index];
      StepAt(line, start, index, Lex(quoted, escaped, stack), tokens);
      var ok, wasTop := true, !quoted && !escaped && stack == "";
      ok, quoted, escaped, stack := Advance(quoted, escaped, stack, c);
      if !ok {
        Rejects(line, index);
        return None;
      }
      if wasTop && c == ' ' {
        if start < index {
          tokens := tokens + [line[start..index]];
        }
        start := index + 1;
      }
    }
    assert line[..|line|] == line;
    if quoted || escaped || stack != "" {
      return None;
    }
    if start < |line| {
      tokens := tokens + [line[start..]];
    }
    r := Some(tokens);
  }

  /** One step of the scan, with the open piece as a slice of the line. */
  lemma StepAt(line: string, start: nat, index: nat, lex: Lex, tokens: seq<string>)
    requires start <= index < |line|
    requires ScanFrom(START, line[..index]) == Some(Scan(lex, tokens, line[start..index]))
    ensures ScanFrom(START, line[..index + 1]) ==
      if lex == TOP && line[index] == ' ' then
        Some(Scan(TOP, Cut(Scan(lex, tokens, line[start..index])), line[index + 1..index + 1]))
      else match Next(lex, line[index])
        case None => None
        case Some(next) => Some(Scan(next, tokens, line[start..index + 1]))
  {
    assert line[..index + 1] == line[..index] + [line[index]];
    assert line[start..index + 1] == line[start..index] + [line[index]];
    assert line[index + 1..index + 1] == "";
    Extend(START, line[..index], line[index]);
  }

  /** A line is rejected as soon as one of its prefixes is. */
  lemma {:induction false} Rejects(line: string, n: nat)
    requires n < |line| && ScanFrom(START, line[..n + 1]) == None
    ensures ScanFrom(START, line) == None
    decreases |line|
  {
    if n + 1 < |line| {
      assert line[..|line| - 1][..n + 1] == line[..n + 1];
      Rejects(line[..|line| - 1], n);
    } else {
      assert line[..n + 1] == line;
    }
  }

  lemma Extend(scan: Scan, text: string, c: char)
    ensures ScanFrom(scan, text + [c]) ==
      match ScanFrom(scan, text) case None => None case Some(before) => Step(before, c)
  {
  }

  lemma {:induction false} ScanJoins(scan: Scan, a: string, b: string)
    ensures ScanFrom(scan, a + b) ==
      match ScanFrom(scan, a) case None => None case Some(middle) => ScanFrom(middle, b)
  {
    if b == "" {
      assert a + b == a;
    } else {
      assert (a + b)[..|a + b| - 1] == a + b[..|b| - 1];
      ScanJoins(scan, a, b[..|b| - 1]);
    }
  }

  /** A nonempty piece in which quotes and brackets balance and no space stands outside them. */
  predicate Whole(token: string) {
    token != "" && ScanFrom(START, token) == Some(Scan(TOP, [], token))
  }

  predicate Uncut(lex: Lex, text: string) {
    ScanFrom(START, text) == Some(Scan(lex, [], text))
  }

  function Concat(parts: seq<string>): string {
    if parts == [] then "" else Concat(parts[..|parts| - 1]) + parts[|parts| - 1]
  }

  function LexOf(line: string): Option<Lex> {
    match ScanFrom(START, line) case None => None case Some(scan) => Some(scan.lex)
  }

  /** The line without the spaces that stand outside quotes and brackets. */
  function WithoutTopSpaces(line: string): string {
    if line == "" then ""
    else
      var init, c := line[..|line| - 1], line[|line| - 1];
      WithoutTopSpaces(init) + (if LexOf(init) == Some(TOP) && c == ' ' then "" else [c])
  }

  /** Along the scan every finished token is whole and the open text is uncut. */
  lemma {:induction false} ScanInvariant(line: string)
    requires ScanFrom(START, line).Some?
    ensures var scan := ScanFrom(START, line).value;
      && (forall i :: 0 <= i < |scan.tokens| ==> Whole(scan.tokens[i]))
      && Uncut(scan.lex, scan.current)
  {
    if line != "" {
      var init, c := line[..|line| - 1], line[|line| - 1];
      ScanInvariant(init);
      var before := ScanFrom(START, init).value;
      assert (before.current + [c])[..|before.current|] == before.current;
    }
  }

  /** Nothing but top-level spaces is lost. */
  lemma {:induction false} ScanLosesNothing(line: string)
    requires ScanFrom(START, line).Some?
    ensures var scan := ScanFrom(START, line).value;
      Concat(scan.tokens) + scan.current == WithoutTopSpaces(line)
  {
    if line != "" {
      var init, c := line[..|line| - 1], line[|line| - 1];
      ScanLosesNothing(init);
      var before := ScanFrom(START, init).value;
      var scan := ScanFrom(START, line).value;
      if before.lex == TOP && c == ' ' {
        CutConcat(before);
      } else {
        assert Concat(scan.tokens) + scan.current == (Concat(before.tokens) + before.current) + [c];
      }
    }
  }

  lemma CutConcat(scan: Scan)
    ensures Concat(Cut(scan)) == Concat(scan.tokens) + scan.current
  {
  }

  /** On success every token is whole, and the tokens put together are the line without its top-level
      spaces. */
  lemma TokensAreTheLine(line: string)
    requires Tokens(line).Some?
    ensures forall i :: 0 <= i < |Tokens(line).value| ==> Whole(Tokens(line).value[i])
    ensures Concat(Tokens(line).value) == WithoutTopSpaces(line)
  {
    ScanInvariant(line);
    ScanLosesNothing(line);
    var scan := ScanFrom(START, line).value;
    CutConcat(scan);
  }

  function JoinWithSpaces(tokens: seq<string>): string {
    if tokens == [] then ""
    else if |tokens| == 1 then tokens[0]
    else JoinWithSpaces(tokens[..|tokens| - 1]) + " " + tokens[|tokens| - 1]
  }

  /** Earlier tokens do not influence how the rest is scanned. */
  lemma {:induction false} ScanShifts(tokens: seq<string>, lex: Lex, current: string, line: string)
    requires ScanFrom(Scan(lex, [], current), line).Some?
    ensures var scan := ScanFrom(Scan(lex, [], current), line).value;
      ScanFrom(Scan(lex, tokens, current), line) == Some(Scan(scan.lex, tokens + scan.tokens, scan.current))
  {
    if line != "" {
      ScanShifts(tokens, lex, current, line[..|line| - 1]);
      var before := ScanFrom(Scan(lex, [], current), line[..|line| - 1]).value;
      assert tokens + (before.tokens + [before.current]) == (tokens + before.tokens) + [before.current];
    } else {
      assert tokens + [] == tokens;
    }
  }

  lemma SpaceThenWhole(scan: Scan, token: string)
    requires scan.lex == TOP && scan.current != "" && Whole(token)
    ensures ScanFrom(scan, " " + token) == Some(Scan(TOP, scan.tokens + [scan.current], token))
  {
    var cut := scan.tokens + [scan.current];
    ScanJoins(scan, " ", token);
    Extend(scan, "", ' ');
    assert "" + [' '] == " ";
    ScanShifts(cut, TOP, "", token);
    assert cut + [] == cut;
  }

  lemma {:induction false} JoinedScan(tokens: seq<string>)
    requires tokens != [] && forall i :: 0 <= i < |tokens| ==> Whole(tokens[i])
    ensures ScanFrom(START, JoinWithSpaces(tokens)) ==
      Some(Scan(TOP, tokens[..|tokens| - 1], tokens[|tokens| - 1]))
  {
    var n := |tokens| - 1;
    if n == 0 {
      assert tokens[..0] == [];
    } else {
      JoinedScan(tokens[..n]);
      LastBack(tokens[..n]);
      JoinedStep(JoinWithSpaces(tokens[..n]), tokens[..n][..n - 1], tokens[n - 1], tokens[n]);
    }
  }

  lemma LastBack(tokens: seq<string>)
    requires tokens != []
    ensures tokens[..|tokens| - 1] + [tokens[|tokens| - 1]] == tokens
  {
  }

  lemma JoinedStep(head: string, done: seq<string>, current: string, token: string)
    requires ScanFrom(START, head) == Some(Scan(TOP, done, current)) && current != "" && Whole(token)
    ensures ScanFrom(START, head + " " + token) == Some(Scan(TOP, done + [current], token))
  {
    Associate(head, " ", token);
    ScanJoins(START, head, " " + token);
    SpaceThenWhole(Scan(TOP, done, current), token);
  }

  lemma {:induction false} ControlFree(tokens: seq<string>, c: char)
    requires c in JoinWithSpaces(tokens)
    ensures c == ' ' || exists i :: 0 <= i < |tokens| && c in tokens[i]
  {
    if 1 < |tokens| {
      var n := |tokens| - 1;
      if c in JoinWithSpaces(tokens[..n]) {
        ControlFree(tokens[..n], c);
      } else if c != ' ' {
        assert c in tokens[n];
      }
    }
  }

  lemma {:induction false} ConcatHolds(parts: seq<string>, i: nat, c: char)
    requires i < |parts| && c in parts[i]
    ensures c in Concat(parts)
  {
    var n := |parts| - 1;
    if i < n {
      ConcatHolds(parts[..n], i, c);
    }
  }

  lemma {:induction false} StrippedHolds(line: string, c: char)
    requires c in WithoutTopSpaces(line)
    ensures c in line
  {
    if line != "" && c in WithoutTopSpaces(line[..|line| - 1]) {
      StrippedHolds(line[..|line| - 1], c);
    }
  }

  lemma JoinedIsControlFree(line: string, tokens: seq<string>, i: nat)
    requires Tokens(line) == Some(tokens) && i < |JoinWithSpaces(tokens)|
    ensures !IsControl(JoinWithSpaces(tokens)[i])
  {
    var c := JoinWithSpaces(tokens)[i];
    TokensAreTheLine(line);
    ControlFree(tokens, c);
    if c != ' ' {
      var k :| 0 <= k < |tokens| && c in tokens[k];
      ConcatHolds(tokens, k, c);
      StrippedHolds(line, c);
    }
  }

  /** Scanning again the tokens joined by one space gives the same tokens. */
  lemma RetokenizeIsStable(line: string)
    requires Tokens(line).Some?
    ensures Tokens(JoinWithSpaces(Tokens(line).value)) == Tokens(line)
  {
    var tokens := Tokens(line).value;
    var joined := JoinWithSpaces(tokens);
    forall i | 0 <= i < |joined| ensures !IsControl(joined[i]) {
      JoinedIsControlFree(line, tokens, i);
    }
    if tokens == [] {
      AcceptedScan(joined, START);
    } else {
      TokensAreTheLine(line);
      JoinedScan(tokens);
      LastBack(tokens);
      assert Whole(tokens[|tokens| - 1]);
      AcceptedScan(joined, Scan(TOP, tokens[..|tokens| - 1], tokens[|tokens| - 1]));
    }
  }

  lemma AcceptedScan(line: string, scan: Scan)
    requires ScanFrom(START, line) == Some(scan) && scan.lex == TOP
    requires forall i :: 0 <= i < |line| ==> !IsControl(line[i])
    ensures Tokens(line) == Some(Cut(scan))
  {
  }

  function EscapeChar(c: char): string {
    if c == '\"' || c == '\\' then ['\\', c] else [c]
  }

  function Escape(name: string): string {
    if name == "" then "" else Escape(name[..|name| - 1]) + EscapeChar(name[|name| - 1])
  }

  /** A quoted string as section 4.3 of RFC 3501 defines it. */
  function Quote(name: string): string {
    ['\"'] + Escape(name) + ['\"']
  }

  /** Undo escapes: None where the text is not a sequence of plain characters and
      escaped quotes and backslashes. */
  function Unescape(text: string): Option<string> {
    if text == "" then Some("")
    else if text[0] == '\\' then
      if 1 < |text| && (text[1] == '\"' || text[1] == '\\') then Prepend(text[1], Unescape(text[2..])) else None
    else if text[0] == '\"' then None
    else Prepend(text[0], Unescape(text[1..]))
  }

  function Prepend(c: char, rest: Option<string>): Option<string> {
    if rest.None? then None else Some([c] + rest.value)
  }

  predicate IsSpecial(c: char) {
    c in " ()[]\"\\"
  }

  /** The mailbox name a token stands for. */
  function MailboxText(token: string): Option<string> {
    if token != "" && token[0] == '\"' && token[|token| - 1] == '\"' then
      Unescape(if |token| < 2 then "" else token[1..|token| - 1])
    else if token == "" || exists i :: 0 <= i < |token| && IsSpecial(token[i]) then None
    else Some(token)
  }

  lemma {:induction false} EscapeFromLeft(c: char, name: string)
    ensures Escape([c] + name) == EscapeChar(c) + Escape(name)
  {
    if name == "" {
      EscapeAppends("", c);
      assert [c] + name == "" + [c];
    } else {
      var init, d := name[..|name| - 1], name[|name| - 1];
      EscapeFromLeft(c, init);
      EscapeAppends([c] + init, d);
      assert [c] + name == ([c] + init) + [d];
      Associate(EscapeChar(c), Escape(init), EscapeChar(d));
    }
  }

  lemma EscapeAppends(name: string, c: char)
    ensures Escape(name + [c]) == Escape(name) + EscapeChar(c)
  {
    assert (name + [c])[..|name|] == name;
  }

  lemma {:induction false} UnescapeEscape(name: string)
    ensures Unescape(Escape(name)) == Some(name)
  {
    if name != "" {
      assert name == [name[0]] + name[1..];
      EscapeFromLeft(name[0], name[1..]);
      UnescapeEscape(name[1..]);
      var rest := Escape(name[1..]);
      assert (['\\', name[0]] + rest)[2..] == rest && ([name[0]] + rest)[1..] == rest;
    }
  }

  lemma {:induction false} EscapeUnescape(text: string)
    requires Unescape(text).Some?
    ensures Escape(Unescape(text).value) == text
  {
    if text != "" {
      var k := if text[0] == '\\' then 2 else 1;
      EscapeUnescape(text[k..]);
      EscapeFromLeft(text[k - 1], Unescape(text[k..]).value);
      assert text == text[..k] + text[k..];
    }
  }

  const INSIDE := Lex(true, false, "")

  lemma InsideStep(text: string, c: char)
    requires Uncut(INSIDE, text)
    ensures Uncut(INSIDE, text + EscapeChar(c))
  {
    if c == '\"' || c == '\\' {
      Extend(START, text, '\\');
      Extend(START, text + ['\\'], c);
      assert text + EscapeChar(c) == text + ['\\'] + [c];
    } else {
      Extend(START, text, c);
    }
  }

  /** Inside a quoted string an escaped name leaves the scanner inside the quoted string. */
  lemma {:induction false} EscapedScan(name: string)
    ensures Uncut(INSIDE, ['\"'] + Escape(name))
  {
    if name == "" {
      Extend(START, [], '\"');
      assert [] + ['\"'] == ['\"'] + Escape(name);
    } else {
      var init, c := name[..|name| - 1], name[|name| - 1];
      EscapedScan(init);
      InsideStep(['\"'] + Escape(init), c);
      Associate(['\"'], Escape(init), EscapeChar(c));
    }
  }

  lemma Associate(a: string, b: string, c: string)
    ensures (a + b) + c == a + (b + c)
  {
  }

  lemma QuoteIsWhole(name: string)
    ensures Whole(Quote(name))
  {
    EscapedScan(name);
    Extend(START, ['\"'] + Escape(name), '\"');
  }

  lemma {:induction false} EscapeHolds(name: string, c: char)
    requires c in Escape(name)
    ensures c in name || c == '\\'
  {
    if name != "" && c in Escape(name[..|name| - 1]) {
      EscapeHolds(name[..|name| - 1], c);
    }
  }

  lemma Unwrap(inner: string)
    ensures (['\"'] + inner + ['\"'])[1..|inner| + 1] == inner
  {
  }

  lemma QuoteIsControlFree(name: string, i: nat)
    requires forall k :: 0 <= k < |name| ==> !IsControl(name[k])
    requires i < |Quote(name)|
    ensures !IsControl(Quote(name)[i])
  {
    if 0 < i < |Quote(name)| - 1 {
      assert Quote(name)[i] == Escape(name)[i - 1];
      EscapeHolds(name, Quote(name)[i]);
    }
  }

  /** Every name without control characters, once quoted, is exactly one token, and that token stands
      for the name. */
  lemma QuotedNameRoundTrip(name: string)
    requires forall i :: 0 <= i < |name| ==> !IsControl(name[i])
    ensures Tokens(Quote(name)) == Some([Quote(name)])
    ensures MailboxText(Quote(name)) == Some(name)
  {
    QuoteIsWhole(name);
    forall i | 0 <= i < |Quote(name)| ensures !IsControl(Quote(name)[i]) {
      QuoteIsControlFree(name, i);
    }
    assert Cut(Scan(TOP, [], Quote(name))) == [Quote(name)];
    UnescapeEscape(name);
    Unwrap(Escape(name));
  }

  lemma Wrap(token: string)
    requires 1 < |token| && token[0] == '\"' && token[|token| - 1] == '\"'
    ensures token == ['\"'] + token[1..|token| - 1] + ['\"']
  {
  }

  lemma LoneQuoteIsNoToken()
    ensures !Whole(['\"'])
  {
    Extend(START, [], '\"');
    assert [] + ['\"'] == ['\"'];
  }

  /** A token of a scanned line spells the mailbox name it stands for in one of two ways: the name itself
      or its quoted form.  So a name has at most two spellings, and tokens of different names differ. */
  lemma TokenSpellsItsName(line: string, i: nat)
    requires Tokens(line).Some? && i < |Tokens(line).value| && MailboxText(Tokens(line).value[i]).Some?
    ensures var token := Tokens(line).value[i];
      var name := MailboxText(token).value;
      token == name || token == Quote(name)
  {
    var token := Tokens(line).value[i];
    TokensAreTheLine(line);
    LoneQuoteIsNoToken();
    if token[0] == '\"' && token[|token| - 1] == '\"' {
      assert |token| == 1 ==> token == ['\"'];
      EscapeUnescape(token[1..|token| - 1]);
      Wrap(token);
    }
  }
}
