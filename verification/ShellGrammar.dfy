/** What the shell's parser accepts, and as what: a grammar over the tokens of a line. */
module ShellGrammar {
  import opened Shell

  // ---------- tokens ----------

  predicate Blank(s: string) {
    forall k | 0 <= k < |s| :: IsSpace(s[k])
  }

  function TokenText(t: Token): (r: string) {
    match t
    case End => ""
    case Word(w) => w
    case Symbol(c) => [c]
    case Append => ">>"
  }

  lemma {:induction false} SkipsBlanks(s: string) returns (blanks: string)
    ensures s == blanks + Skip(s) && Blank(blanks) && (Skip(s) == [] || !IsSpace(Skip(s)[0]))
  {
    if s != [] && IsSpace(s[0]) {
      var more := SkipsBlanks(s[1..]);
      blanks := [s[0]] + more;
      assert s == [s[0]] + s[1..];
    } else {
      blanks := "";
    }
  }

  lemma TokenFirst(s: string)
    ensures var (tok, rest), t := GetToken(s), Skip(s);
            && TokenText(tok) <= t && rest == Skip(t[|TokenText(tok)|..])
            && (tok.End? ==> t == []) && (tok.Symbol? ==> IsSymbol(tok.c))
  {
    hide IsWordChar, IsSpace;
    var tok, t := GetToken(s).0, Skip(s);
    if t != [] { assert [t[0]] <= t; }
  }

  lemma TokenEnds(s: string)
    ensures var tok, t := GetToken(s).0, Skip(s);
            && (tok.Word? ==> |tok.w| == |t| || (|tok.w| < |t| && !IsWordChar(t[|tok.w|])))
            && (tok == Symbol('>') ==> |t| <= 1 || t[1] != '>')
  {
  }

  /** gettoken splits the text into blanks, the token and the rest without its blanks.  The
      token is a whole one: a word goes up to a blank or symbol, and > is not followed by
      another. */
  lemma TokenIsWhole(s: string) returns (before: string, after: string, blanks: string)
    ensures var (tok, rest) := GetToken(s);
            && s == before + TokenText(tok) + after && Blank(before)
            && after == blanks + rest && Blank(blanks) && (rest == [] || !IsSpace(rest[0]))
            && (tok.End? ==> after == [])
            && (tok.Word? ==> IsWord(tok.w) && (after == [] || !IsWordChar(after[0])))
            && (tok.Symbol? ==> IsSymbol(tok.c))
            && (tok == Symbol('>') ==> after == [] || after[0] != '>')
  {
    hide GetToken, Skip, IsWordChar;
    TokenFirst(s);
    TokenEnds(s);
    before := SkipsBlanks(s);
    var t, tok := Skip(s), GetToken(s).0;
    after := t[|TokenText(tok)|..];
    blanks := SkipsBlanks(after);
    assert t == TokenText(tok) + after;
  }

  /** The tokens of a text. */
  ghost function Tokens(s: string): (r: seq<Token>)
    decreases |s|
  {
    if Skip(s) == [] then [] else [GetToken(s).0] + Tokens(GetToken(s).1)
  }

  lemma SkipTwice(s: string)
    ensures Skip(Skip(s)) == Skip(s) && GetToken(Skip(s)) == GetToken(s) && Tokens(Skip(s)) == Tokens(s)
  {
  }

  /** The next token, and the rest of them. */
  lemma NextToken(s: string)
    ensures GetToken(s).0.End? <==> Tokens(s) == []
    ensures Tokens(s) != [] ==> GetToken(s).0 == Tokens(s)[0] && Tokens(GetToken(s).1) == Tokens(s)[1..]
    ensures Tokens(s) != [] ==> |GetToken(s).1| < |s|
    ensures Tokens(s) != [] && Tokens(s)[0].Word? ==> IsWord(Tokens(s)[0].w)
    ensures Tokens(s) == [] ==> Tokens(GetToken(s).1) == []
  {
  }

  predicate Starts(toks: seq<Token>, chars: string) {
    toks != [] && match toks[0]
                  case Symbol(c) => c in chars
                  case Append => '>' in chars
                  case _ => false
  }

  lemma PeekIs(s: string, chars: string)
    requires forall k | 0 <= k < |chars| :: IsSymbol(chars[k])
    ensures Peek(s, chars) <==> Starts(Tokens(s), chars)
  {
  }

  // ---------- the grammar ----------

  /** A word or a redirection of a simple command. */
  datatype Item = Arg(w: string) | To(tok: Token, file: string)

  predicate IsItem(x: Item) {
    match x
    case Arg(w) => IsWord(w)
    case To(tok, file) => (tok == Symbol('<') || tok == Symbol('>') || tok == Append) && IsWord(file)
  }

  predicate AreItems(items: seq<Item>) {
    forall k | 0 <= k < |items| :: IsItem(items[k])
  }

  predicate AreRedirs(items: seq<Item>) {
    forall k | 0 <= k < |items| :: IsItem(items[k]) && items[k].To?
  }

  function ItemTokens(x: Item): (r: seq<Token>) {
    match x
    case Arg(w) => [Word(w)]
    case To(tok, file) => [tok, Word(file)]
  }

  function ItemsTokens(items: seq<Item>): (r: seq<Token>) {
    if items == [] then [] else ItemTokens(items[0]) + ItemsTokens(items[1..])
  }

  function ItemArgs(x: Item): (r: seq<string>) {
    if x.Arg? then [x.w] else []
  }

  /** Redirection < is of input, > and >> are of output. */
  function ItemTargets(x: Item): (r: seq<Target>) {
    if x.To? then [Target(x.file, x.tok != Symbol('<'))] else []
  }

  /** The arguments, in order. */
  function ArgsOf(items: seq<Item>): (r: seq<string>) {
    if items == [] then [] else ItemArgs(items[0]) + ArgsOf(items[1..])
  }

  /** The redirections, in order. */
  function TargetsOf(items: seq<Item>): (r: seq<Target>) {
    if items == [] then [] else ItemTargets(items[0]) + TargetsOf(items[1..])
  }

  function Height(level: Level): nat {
    match level
    case LineLevel => 3
    case BackLevel => 2
    case PipeLevel => 1
    case ExecLevel => 0
  }

  predicate SymbolAt(toks: seq<Token>, i: int, c: char) {
    0 <= i < |toks| && toks[i] == Symbol(c)
  }

  /** A command in parentheses, with redirections after it. */
  predicate BlockAt(toks: seq<Token>, i: int, items: seq<Item>) {
    0 < i < |toks| && toks[0] == Symbol('(') && toks[i] == Symbol(')') && AreRedirs(items) &&
    toks[i + 1..] == ItemsTokens(items)
  }

  /** The tokens are a way to write command c at a level of the grammar. */
  ghost predicate Spells(c: Cmd, level: Level, toks: seq<Token>)
    decreases |toks|, Height(level)
  {
    match level
    case LineLevel =>
      || Spells(c, BackLevel, toks)
      || (c.List? && exists i :: SymbolAt(toks, i, ';') && Spells(c.left, BackLevel, toks[..i]) &&
                                 Spells(c.right, LineLevel, toks[i + 1..]))
    case BackLevel =>
      || Spells(c, PipeLevel, toks)
      || (c.Back? && SymbolAt(toks, |toks| - 1, '&') && Spells(c.cmd, BackLevel, toks[..|toks| - 1]))
    case PipeLevel =>
      || Spells(c, ExecLevel, toks)
      || (c.Pipe? && exists i :: SymbolAt(toks, i, '|') && Spells(c.left, ExecLevel, toks[..i]) &&
                                 Spells(c.right, PipeLevel, toks[i + 1..]))
    case ExecLevel =>
      || (exists items :: SpellsSimple(c, toks, items))
      || (exists i, items, d :: BlockAt(toks, i, items) && c == Wrap(d, TargetsOf(items)) &&
                                Spells(d, LineLevel, toks[1..i]))
  }

  /** A simple command: words and redirections in any order. */
  predicate SpellsSimple(c: Cmd, toks: seq<Token>, items: seq<Item>) {
    && AreItems(items) && toks == ItemsTokens(items) && |ArgsOf(items)| < MAXARGS
    && c == Wrap(Exec(ArgsOf(items)), TargetsOf(items))
  }

  lemma {:induction false} TokensJoin(a: seq<Item>, b: seq<Item>)
    ensures ItemsTokens(a + b) == ItemsTokens(a) + ItemsTokens(b)
  {
    hide ItemTokens;
    if a == [] {
      assert a + b == b;
    } else {
      assert (a + b)[0] == a[0] && (a + b)[1..] == a[1..] + b;
      TokensJoin(a[1..], b);
    }
  }

  lemma {:induction false} ArgsJoin(a: seq<Item>, b: seq<Item>)
    ensures ArgsOf(a + b) == ArgsOf(a) + ArgsOf(b)
  {
    hide ItemArgs;
    if a == [] {
      assert a + b == b;
    } else {
      assert (a + b)[0] == a[0] && (a + b)[1..] == a[1..] + b;
      ArgsJoin(a[1..], b);
    }
  }

  lemma {:induction false} TargetsJoin(a: seq<Item>, b: seq<Item>)
    ensures TargetsOf(a + b) == TargetsOf(a) + TargetsOf(b)
  {
    hide ItemTargets;
    if a == [] {
      assert a + b == b;
    } else {
      assert (a + b)[0] == a[0] && (a + b)[1..] == a[1..] + b;
      TargetsJoin(a[1..], b);
    }
  }

  /** Redirections, and then other items. */
  lemma RedirsThen(rs: seq<Item>, rest: seq<Item>)
    requires AreRedirs(rs) && AreItems(rest)
    ensures AreItems(rs + rest) && ItemsTokens(rs + rest) == ItemsTokens(rs) + ItemsTokens(rest)
    ensures ArgsOf(rs + rest) == ArgsOf(rest) && TargetsOf(rs + rest) == TargetsOf(rs) + TargetsOf(rest)
  {
    RedirsHaveNoArgs(rs);
    TokensJoin(rs, rest);
    ArgsJoin(rs, rest);
    TargetsJoin(rs, rest);
    assert [] + ArgsOf(rest) == ArgsOf(rest);
  }

  lemma ArgThen(w: string, items: seq<Item>)
    requires IsWord(w) && AreItems(items)
    ensures AreItems([Arg(w)] + items) && ItemsTokens([Arg(w)] + items) == [Word(w)] + ItemsTokens(items)
    ensures ArgsOf([Arg(w)] + items) == [w] + ArgsOf(items) && TargetsOf([Arg(w)] + items) == TargetsOf(items)
  {
    assert ([Arg(w)] + items)[1..] == items;
  }

  lemma {:induction false} RedirsHaveNoArgs(items: seq<Item>)
    requires AreRedirs(items)
    ensures ArgsOf(items) == [] && AreItems(items)
  {
    if items != [] {
      RedirsHaveNoArgs(items[1..]);
    }
  }

  // ---------- what is parsed is spelled ----------

  /** parseredirs has read some redirections. */
  lemma {:induction false} RedirsSound(redirs: seq<Target>, s: string) returns (items: seq<Item>)
    requires ParseRedirs(redirs, s).Ok?
    ensures AreRedirs(items) && ParseRedirs(redirs, s).value == redirs + TargetsOf(items)
    ensures Tokens(s) == ItemsTokens(items) + Tokens(ParseRedirs(redirs, s).rest)
    decreases |s|
  {
    hide Tokens, GetToken, Skip, Peek;
    PeekIs(s, "<>");
    if !Peek(s, "<>") {
      items := [];
      SkipTwice(s);
    } else {
      var (tok, s1) := GetToken(s);
      var (file, s2) := GetToken(s1);
      NextToken(s);
      NextToken(s1);
      var t := Target(file.w, tok != Symbol('<'));
      var more := RedirsSound(redirs + [t], s2);
      items := [To(tok, file.w)] + more;
      assert items[1..] == more;
      assert redirs + [t] + TargetsOf(more) == redirs + TargetsOf(items);
      assert Tokens(s) == [tok] + ([file] + Tokens(s2));
    }
  }

  /** No more arguments follow. */
  predicate ArgsEnd(toks: seq<Token>) {
    toks == [] || Starts(toks, "|)&;")
  }

  /** One round of parseexec's loop, by tokens. */
  lemma ArgsRound(args: seq<string>, redirs: seq<Target>, s: string)
    ensures ArgsEnd(Tokens(s)) ==> ParseArgs(args, redirs, s).Ok? &&
                                   ParseArgs(args, redirs, s).value == Wrap(Exec(args), redirs) &&
                                   Tokens(ParseArgs(args, redirs, s).rest) == Tokens(s)
    ensures !ArgsEnd(Tokens(s)) && !Tokens(s)[0].Word? ==> ParseArgs(args, redirs, s).Err?
    ensures !ArgsEnd(Tokens(s)) && |args| + 1 >= MAXARGS ==> ParseArgs(args, redirs, s).Err?
    ensures !ArgsEnd(Tokens(s)) && Tokens(s)[0].Word? && |args| + 1 < MAXARGS ==>
            ParseArgs(args, redirs, s) == ParseRest(args + [Tokens(s)[0].w], redirs, GetToken(s).1)
  {
    NextToken(s);
    PeekIs(s, "|)&;");
    SkipTwice(s);
    hide Tokens, GetToken, Skip, Peek, Wrap;
  }

  lemma {:induction false} RestSound(args: seq<string>, redirs: seq<Target>, s: string) returns (items: seq<Item>)
    requires ParseRest(args, redirs, s).Ok? && |args| < MAXARGS
    ensures AreItems(items) && |args + ArgsOf(items)| < MAXARGS
    ensures ParseRest(args, redirs, s).value == Wrap(Exec(args + ArgsOf(items)), redirs + TargetsOf(items))
    ensures Tokens(s) == ItemsTokens(items) + Tokens(ParseRest(args, redirs, s).rest)
    decreases |s|, 1
  {
    hide Tokens, GetToken, Skip, Peek, Wrap, ItemsTokens, ArgsOf, TargetsOf, AreItems, AreRedirs, ParseRedirs,
         ParseArgs;
    var more := ParseRedirs(redirs, s);
    var rs := RedirsSound(redirs, s);
    var rest := ArgsSound(args, more.value, more.rest);
    RedirsThen(rs, rest);
    items := rs + rest;
    assert redirs + TargetsOf(rs) + TargetsOf(rest) == redirs + TargetsOf(items);
    assert Tokens(s) == ItemsTokens(items) + Tokens(ParseRest(args, redirs, s).rest);
  }

  lemma {:induction false} ArgsSound(args: seq<string>, redirs: seq<Target>, s: string) returns (items: seq<Item>)
    requires ParseArgs(args, redirs, s).Ok? && |args| < MAXARGS
    ensures AreItems(items) && |args + ArgsOf(items)| < MAXARGS
    ensures ParseArgs(args, redirs, s).value == Wrap(Exec(args + ArgsOf(items)), redirs + TargetsOf(items))
    ensures Tokens(s) == ItemsTokens(items) + Tokens(ParseArgs(args, redirs, s).rest)
    decreases |s|, 0
  {
    hide Tokens, GetToken, Skip, Peek, Wrap, ParseRedirs, ParseArgs, ParseRest;
    ArgsRound(args, redirs, s);
    NextToken(s);
    if ArgsEnd(Tokens(s)) {
      items := [];
      assert args + [] == args && redirs + [] == redirs;
    } else {
      var w, s1 := Tokens(s)[0].w, GetToken(s).1;
      var rest := RestSound(args + [w], redirs, s1);
      ArgThen(w, rest);
      items := [Arg(w)] + rest;
      assert args + [w] + ArgsOf(rest) == args + ArgsOf(items);
      assert Tokens(s) == [Tokens(s)[0]] + Tokens(s1);
    }
  }

  lemma StartsWith(toks: seq<Token>, c: char)
    requires c != '>'
    ensures Starts(toks, [c]) <==> toks != [] && toks[0] == Symbol(c)
  {
  }

  /** The token that peek has seen, and the tokens after it. */
  lemma TakeSymbol(s: string, c: char)
    requires IsSymbol(c) && c != '>'
    ensures Peek(s, [c]) <==> Tokens(s) != [] && Tokens(s)[0] == Symbol(c)
    ensures Peek(s, [c]) ==> Tokens(s) == [Symbol(c)] + Tokens(GetToken(s).1) && |GetToken(s).1| < |s|
  {
    PeekIs(s, [c]);
    StartsWith(Tokens(s), c);
    NextToken(s);
  }

  lemma {:induction false} AmpersandsSound(cmd: Cmd, s: string, before: seq<Token>) returns (toks: seq<Token>)
    requires Spells(cmd, BackLevel, before)
    ensures Spells(ParseAmpersands(cmd, s).0, BackLevel, toks)
    ensures before + Tokens(s) == toks + Tokens(ParseAmpersands(cmd, s).1)
    decreases |s|
  {
    hide Tokens, GetToken, Skip, Peek;
    TakeSymbol(s, '&');
    if Peek(s, "&") {
      var more := before + [Symbol('&')];
      assert more[..|more| - 1] == before;
      toks := AmpersandsSound(Back(cmd), GetToken(s).1, more);
      assert before + Tokens(s) == more + Tokens(GetToken(s).1);
    } else {
      toks := before;
      SkipTwice(s);
    }
  }

  lemma LowerSpelled(c: Cmd, toks: seq<Token>)
    ensures Spells(c, ExecLevel, toks) ==> Spells(c, PipeLevel, toks)
    ensures Spells(c, PipeLevel, toks) ==> Spells(c, BackLevel, toks)
    ensures Spells(c, BackLevel, toks) ==> Spells(c, LineLevel, toks)
  {
  }

  lemma PairSpelled(l: Cmd, r: Cmd, a: seq<Token>, b: seq<Token>)
    ensures Spells(l, BackLevel, a) && Spells(r, LineLevel, b) ==> Spells(List(l, r), LineLevel, a + [Symbol(';')] + b)
    ensures Spells(l, ExecLevel, a) && Spells(r, PipeLevel, b) ==> Spells(Pipe(l, r), PipeLevel, a + [Symbol('|')] + b)
  {
    var t1, t2 := a + [Symbol(';')] + b, a + [Symbol('|')] + b;
    assert t1[..|a|] == a && t1[|a| + 1..] == b && SymbolAt(t1, |a|, ';');
    assert t2[..|a|] == a && t2[|a| + 1..] == b && SymbolAt(t2, |a|, '|');
  }

  lemma BlockSpelled(d: Cmd, inner: seq<Token>, items: seq<Item>)
    requires Spells(d, LineLevel, inner) && AreRedirs(items)
    ensures Spells(Wrap(d, TargetsOf(items)), ExecLevel, [Symbol('(')] + inner + [Symbol(')')] + ItemsTokens(items))
  {
    var toks, i := [Symbol('(')] + inner + [Symbol(')')] + ItemsTokens(items), 1 + |inner|;
    assert toks[1..i] == inner && toks[i + 1..] == ItemsTokens(items);
    assert BlockAt(toks, i, items);
  }

  lemma SimpleSpelled(items: seq<Item>)
    requires AreItems(items) && |ArgsOf(items)| < MAXARGS
    ensures Spells(Wrap(Exec(ArgsOf(items)), TargetsOf(items)), ExecLevel, ItemsTokens(items))
  {
    assert SpellsSimple(Wrap(Exec(ArgsOf(items)), TargetsOf(items)), ItemsTokens(items), items);
  }

  /** Whatever is parsed at a level of the grammar is spelled by the tokens that it took. */
  lemma {:induction false} Sound(s: string, level: Level) returns (toks: seq<Token>)
    requires Parse(s, level).Ok?
    ensures Tokens(s) == toks + Tokens(Parse(s, level).rest)
    ensures Spells(Parse(s, level).value, level, toks)
    decreases |s|, Height(level)
  {
    hide Tokens, GetToken, Skip, Peek, Spells, ParseAmpersands, Wrap, ItemsTokens, ArgsOf, TargetsOf, AreRedirs,
         AreItems;
    match level
    case LineLevel =>
      var r := ParseBacks(s);
      var a := Sound(s, BackLevel);
      TakeSymbol(r.rest, ';');
      if Peek(r.rest, ";") {
        var s1 := GetToken(r.rest).1;
        var b := Sound(s1, LineLevel);
        PairSpelled(r.value, ParseLine(s1).value, a, b);
        toks := a + [Symbol(';')] + b;
      } else {
        toks := a;
        LowerSpelled(r.value, toks);
      }
    case BackLevel =>
      var r := ParsePipe(s);
      var a := Sound(s, PipeLevel);
      LowerSpelled(r.value, a);
      toks := AmpersandsSound(r.value, r.rest, a);
    case PipeLevel =>
      var r := ParseExec(s);
      var a := Sound(s, ExecLevel);
      TakeSymbol(r.rest, '|');
      if Peek(r.rest, "|") {
        var s1 := GetToken(r.rest).1;
        var b := Sound(s1, PipeLevel);
        PairSpelled(r.value, ParsePipe(s1).value, a, b);
        toks := a + [Symbol('|')] + b;
      } else {
        toks := a;
        LowerSpelled(r.value, toks);
      }
    case ExecLevel =>
      TakeSymbol(s, '(');
      if Peek(s, "(") {
        var s1 := GetToken(s).1;
        var r := ParseLine(s1);
        assert ParseExec(s) == ParseBlock(s);
        var inner := Sound(s1, LineLevel);
        TakeSymbol(r.rest, ')');
        var s2 := GetToken(r.rest).1;
        var items := RedirsSound([], s2);
        assert [] + TargetsOf(items) == TargetsOf(items);
        BlockSpelled(r.value, inner, items);
        toks := [Symbol('(')] + inner + [Symbol(')')] + ItemsTokens(items);
      } else {
        assert ParseExec(s) == ParseRest([], [], s);
        var items := RestSound([], [], s);
        assert [] + ArgsOf(items) == ArgsOf(items) && [] + TargetsOf(items) == TargetsOf(items);
        SimpleSpelled(items);
        toks := ItemsTokens(items);
      }
  }

  // ---------- what is spelled is parsed ----------

  lemma {:induction false} RedirsComplete(redirs: seq<Target>, s: string, items: seq<Item>, tail: seq<Token>)
    requires AreRedirs(items) && Tokens(s) == ItemsTokens(items) + tail && ArgsEnd(tail)
    ensures ParseRedirs(redirs, s).Ok? && ParseRedirs(redirs, s).value == redirs + TargetsOf(items)
    ensures Tokens(ParseRedirs(redirs, s).rest) == tail
    decreases |items|
  {
    hide Tokens, GetToken, Skip, Peek;
    PeekIs(s, "<>");
    if items == [] {
      SkipTwice(s);
      assert [] + tail == tail && redirs + [] == redirs;
    } else {
      var s1 := GetToken(s).1;
      var s2 := GetToken(s1).1;
      RedirNext(s, items, tail);
      var t := Target(items[0].file, items[0].tok != Symbol('<'));
      RedirsComplete(redirs + [t], s2, items[1..], tail);
      assert redirs + [t] + TargetsOf(items[1..]) == redirs + TargetsOf(items);
    }
  }

  /** The first item is a redirection. */
  lemma RedirNext(s: string, items: seq<Item>, tail: seq<Token>)
    requires AreItems(items) && items != [] && items[0].To? && Tokens(s) == ItemsTokens(items) + tail
    ensures Peek(s, "<>") && GetToken(s).0 == items[0].tok
    ensures GetToken(GetToken(s).1).0 == Word(items[0].file)
    ensures Tokens(GetToken(GetToken(s).1).1) == ItemsTokens(items[1..]) + tail
  {
    hide Tokens, GetToken, Skip, Peek;
    var x, more := items[0], ItemsTokens(items[1..]) + tail;
    assert Tokens(s) == [x.tok, Word(x.file)] + more;
    PeekIs(s, "<>");
    NextToken(s);
    NextToken(GetToken(s).1);
  }

  /** The first item is a word. */
  lemma ArgNext(s: string, items: seq<Item>, tail: seq<Token>)
    requires AreItems(items) && items != [] && items[0].Arg? && Tokens(s) == ItemsTokens(items) + tail
    ensures !Peek(s, "<>") && !ArgsEnd(Tokens(s)) && Tokens(s)[0] == Word(items[0].w)
    ensures Tokens(GetToken(s).1) == ItemsTokens(items[1..]) + tail
  {
    hide Tokens, GetToken, Skip, Peek;
    var x, more := items[0], ItemsTokens(items[1..]) + tail;
    assert Tokens(s) == [Word(x.w)] + more;
    PeekIs(s, "<>");
    NextToken(s);
  }

  lemma FirstItem(items: seq<Item>)
    requires items != []
    ensures items[0].To? ==>
              ArgsOf(items) == ArgsOf(items[1..]) &&
              TargetsOf(items) == [Target(items[0].file, items[0].tok != Symbol('<'))] + TargetsOf(items[1..])
    ensures items[0].Arg? ==> ArgsOf(items) == [items[0].w] + ArgsOf(items[1..]) &&
                              TargetsOf(items) == TargetsOf(items[1..])
  {
  }

  /** One round of parseexec, its redirections first, by items. */
  lemma RestRound(args: seq<string>, redirs: seq<Target>, s: string, items: seq<Item>, tail: seq<Token>)
    requires AreItems(items) && Tokens(s) == ItemsTokens(items) + tail && ArgsEnd(tail)
    ensures items == [] ==> Parsed(ParseRest(args, redirs, s), Wrap(Exec(args), redirs), tail)
    ensures items != [] && items[0].To? ==>
              ParseRest(args, redirs, s) ==
              ParseRest(args, redirs + [Target(items[0].file, items[0].tok != Symbol('<'))],
                        GetToken(GetToken(s).1).1)
    ensures items != [] && items[0].Arg? && |args| + 1 < MAXARGS ==>
              ParseRest(args, redirs, s) == ParseRest(args + [items[0].w], redirs, GetToken(s).1)
  {
    hide Tokens, GetToken, Skip, Peek, Wrap, ParseArgs;
    PeekIs(s, "<>");
    SkipTwice(s);
    ArgsRound(args, redirs, Skip(s));
    if items == [] {
      assert [] + tail == tail;
    } else if items[0].To? {
      RedirNext(s, items, tail);
    } else {
      ArgNext(s, items, tail);
    }
  }

  lemma {:induction false} RestComplete(args: seq<string>, redirs: seq<Target>, s: string,
                                        items: seq<Item>, tail: seq<Token>)
    requires AreItems(items) && Tokens(s) == ItemsTokens(items) + tail && ArgsEnd(tail)
    requires |args + ArgsOf(items)| < MAXARGS
    ensures Parsed(ParseRest(args, redirs, s), Wrap(Exec(args + ArgsOf(items)), redirs + TargetsOf(items)), tail)
    decreases |items|
  {
    hide Tokens, GetToken, Skip, Peek, Wrap, ParseRest, TargetsOf, ArgsOf, ItemsTokens;
    RestRound(args, redirs, s, items, tail);
    if items == [] {
      NoItems();
      assert redirs + [] == redirs && args + [] == args;
    } else if items[0].To? {
      var t := Target(items[0].file, items[0].tok != Symbol('<'));
      FirstItem(items);
      RedirNext(s, items, tail);
      RestComplete(args, redirs + [t], GetToken(GetToken(s).1).1, items[1..], tail);
      assert redirs + [t] + TargetsOf(items[1..]) == redirs + TargetsOf(items);
    } else {
      var w := items[0].w;
      FirstItem(items);
      ArgNext(s, items, tail);
      RestComplete(args + [w], redirs, GetToken(s).1, items[1..], tail);
      assert args + [w] + ArgsOf(items[1..]) == args + ArgsOf(items);
    }
  }

  lemma NoItems()
    ensures ArgsOf([]) == [] && TargetsOf([]) == [] && ItemsTokens([]) == []
  {
  }

  /** What may come after a command of a level. */
  predicate Ends(tail: seq<Token>, level: Level) {
    tail == [] || Starts(tail, Follow(level))
  }

  ghost predicate Parsed(r: Result<Cmd>, c: Cmd, tail: seq<Token>) {
    r.Ok? && r.value == c && Tokens(r.rest) == tail
  }

  lemma Joined(s: string, toks: seq<Token>, i: int, tail: seq<Token>)
    requires 0 <= i < |toks| && Tokens(s) == toks + tail
    ensures Tokens(s) == toks[..i] + ([toks[i]] + (toks[i + 1..] + tail))
  {
  }

  /** The symbol c is next. */
  lemma SymbolNext(s: string, c: char, more: seq<Token>)
    requires IsSymbol(c) && c != '>' && Tokens(s) == [Symbol(c)] + more
    ensures Peek(s, [c]) && Tokens(GetToken(s).1) == more && |GetToken(s).1| < |s|
  {
    hide Tokens, GetToken, Skip, Peek;
    TakeSymbol(s, c);
    NextToken(s);
  }

  lemma SplitList(c: Cmd, toks: seq<Token>) returns (i: int)
    requires Spells(c, LineLevel, toks) && !Spells(c, BackLevel, toks)
    ensures c.List? && SymbolAt(toks, i, ';')
    ensures Spells(c.left, BackLevel, toks[..i]) && Spells(c.right, LineLevel, toks[i + 1..])
  {
    hide SpellsSimple, BlockAt, Wrap, TargetsOf;
    i :| SymbolAt(toks, i, ';') && Spells(c.left, BackLevel, toks[..i]) && Spells(c.right, LineLevel, toks[i + 1..]);
  }

  lemma SplitPipe(c: Cmd, toks: seq<Token>) returns (i: int)
    requires Spells(c, PipeLevel, toks) && !Spells(c, ExecLevel, toks)
    ensures c.Pipe? && SymbolAt(toks, i, '|')
    ensures Spells(c.left, ExecLevel, toks[..i]) && Spells(c.right, PipeLevel, toks[i + 1..])
  {
    hide SpellsSimple, BlockAt, Wrap, TargetsOf;
    i :| SymbolAt(toks, i, '|') && Spells(c.left, ExecLevel, toks[..i]) && Spells(c.right, PipeLevel, toks[i + 1..]);
  }

  lemma {:induction false} BacksComplete(c: Cmd, toks: seq<Token>, s: string, tail: seq<Token>) returns (u: string)
    requires Spells(c, BackLevel, toks) && Tokens(s) == toks + tail && Ends(tail, PipeLevel)
    ensures ParsePipe(s).Ok? && Tokens(u) == tail
    ensures ParseAmpersands(ParsePipe(s).value, ParsePipe(s).rest) == ParseAmpersands(c, u)
    decreases |toks|, 4
  {
    hide Tokens, GetToken, Skip, Peek, ParsePipe;
    if Spells(c, PipeLevel, toks) {
      Complete(c, PipeLevel, toks, s, tail);
      u := ParsePipe(s).rest;
    } else {
      var i := |toks| - 1;
      Joined(s, toks, i, tail);
      assert [] + tail == tail;
      var u0 := BacksComplete(c.cmd, toks[..i], s, [Symbol('&')] + tail);
      SymbolNext(u0, '&', tail);
      u := GetToken(u0).1;
    }
  }

  lemma {:induction false} LineComplete(c: Cmd, toks: seq<Token>, s: string, tail: seq<Token>)
    requires Spells(c, LineLevel, toks) && Tokens(s) == toks + tail && Ends(tail, LineLevel)
    ensures Parsed(ParseLine(s), c, tail)
    decreases |toks|, 6
  {
    hide Tokens, GetToken, Skip, Peek, ParseBacks, Spells;
    if Spells(c, BackLevel, toks) {
      Complete(c, BackLevel, toks, s, tail);
      TakeSymbol(ParseBacks(s).rest, ';');
    } else {
      var i := SplitList(c, toks);
      Joined(s, toks, i, tail);
      var more := toks[i + 1..] + tail;
      Complete(c.left, BackLevel, toks[..i], s, [Symbol(';')] + more);
      SymbolNext(ParseBacks(s).rest, ';', more);
      LineComplete(c.right, toks[i + 1..], GetToken(ParseBacks(s).rest).1, tail);
    }
  }

  lemma {:induction false} PipeComplete(c: Cmd, toks: seq<Token>, s: string, tail: seq<Token>)
    requires Spells(c, PipeLevel, toks) && Tokens(s) == toks + tail && Ends(tail, PipeLevel)
    ensures Parsed(ParsePipe(s), c, tail)
    decreases |toks|, 2
  {
    hide Tokens, GetToken, Skip, Peek, ParseExec, Spells;
    if Spells(c, ExecLevel, toks) {
      Complete(c, ExecLevel, toks, s, tail);
      TakeSymbol(ParseExec(s).rest, '|');
    } else {
      var i := SplitPipe(c, toks);
      Joined(s, toks, i, tail);
      var more := toks[i + 1..] + tail;
      Complete(c.left, ExecLevel, toks[..i], s, [Symbol('|')] + more);
      SymbolNext(ParseExec(s).rest, '|', more);
      PipeComplete(c.right, toks[i + 1..], GetToken(ParseExec(s).rest).1, tail);
    }
  }

  lemma {:induction false} BlockComplete(d: Cmd, toks: seq<Token>, i: int, items: seq<Item>,
                                         s: string, tail: seq<Token>)
    requires BlockAt(toks, i, items) && Spells(d, LineLevel, toks[1..i])
    requires Tokens(s) == toks + tail && Ends(tail, ExecLevel)
    ensures Parsed(ParseExec(s), Wrap(d, TargetsOf(items)), tail)
    decreases |toks|, 0
  {
    hide Tokens, GetToken, Skip, Peek, ParseLine, ParseRedirs, Spells, Wrap, ItemsTokens, TargetsOf;
    var inner, after := toks[1..i], [Symbol(')')] + (ItemsTokens(items) + tail);
    assert Tokens(s) == [Symbol('(')] + (inner + after);
    SymbolNext(s, '(', inner + after);
    var s1 := GetToken(s).1;
    LineComplete(d, inner, s1, after);
    var r := ParseLine(s1);
    SymbolNext(r.rest, ')', ItemsTokens(items) + tail);
    RedirsComplete([], GetToken(r.rest).1, items, tail);
    assert [] + TargetsOf(items) == TargetsOf(items);
    assert ParseExec(s) == ParseBlock(s);
  }

  /** A simple command does not start with a parenthesis. */
  lemma NoBlock(items: seq<Item>, tail: seq<Token>)
    requires AreItems(items) && Ends(tail, ExecLevel)
    ensures var toks := ItemsTokens(items) + tail; toks == [] || toks[0] != Symbol('(')
  {
    if items != [] { assert IsItem(items[0]); }
  }

  lemma SimpleComplete(c: Cmd, toks: seq<Token>, items: seq<Item>, s: string, tail: seq<Token>)
    requires SpellsSimple(c, toks, items) && Tokens(s) == toks + tail && Ends(tail, ExecLevel)
    ensures Parsed(ParseExec(s), c, tail)
  {
    hide Tokens, GetToken, Skip, Peek, Wrap, ParseArgs, ParseRedirs, ItemsTokens;
    TakeSymbol(s, '(');
    NoBlock(items, tail);
    assert [] + ArgsOf(items) == ArgsOf(items) && [] + TargetsOf(items) == TargetsOf(items);
    RestComplete([], [], s, items, tail);
    assert !Peek(s, "(");
    assert ParseExec(s) == ParseRest([], [], s);
  }

  /** Whatever the tokens spell at a level is what is parsed there. */
  lemma {:induction false} Complete(c: Cmd, level: Level, toks: seq<Token>, s: string, tail: seq<Token>)
    requires Spells(c, level, toks) && Tokens(s) == toks + tail && Ends(tail, level)
    ensures Parsed(Parse(s, level), c, tail)
    decreases |toks|, 2 * Height(level) + 1
  {
    hide Tokens, GetToken, Skip, Peek, ParseLine, ParsePipe, ParseExec, Wrap, ItemsTokens, TargetsOf;
    match level
    case LineLevel => LineComplete(c, toks, s, tail);
    case BackLevel =>
      var u := BacksComplete(c, toks, s, tail);
      TakeSymbol(u, '&');
      SkipTwice(u);
    case PipeLevel => PipeComplete(c, toks, s, tail);
    case ExecLevel =>
      if items :| SpellsSimple(c, toks, items) {
        SimpleComplete(c, toks, items, s, tail);
      } else {
        var i, items, d :| BlockAt(toks, i, items) && c == Wrap(d, TargetsOf(items)) &&
                           Spells(d, LineLevel, toks[1..i]);
        BlockComplete(d, toks, i, items, s, tail);
      }
  }

  // ---------- the parser ----------

  /** parsecmd returns command c exactly if the grammar says that the tokens spell c. */
  lemma ParsesExactly(s: string, c: Cmd)
    ensures ParseCmd(s).Ok? && ParseCmd(s).value == c <==> Spells(c, LineLevel, Tokens(s))
  {
    var toks := Tokens(s);
    hide GetToken, Skip, ParseLine, Spells;
    if ParseCmd(s).Ok? && ParseCmd(s).value == c {
      var t := Sound(s, LineLevel);
      assert t + [] == t;
    }
    if Spells(c, LineLevel, toks) {
      assert toks + [] == toks;
      Complete(c, LineLevel, toks, s, []);
    }
  }

  /** So a line that is refused spells no command, and no line spells two. */
  lemma SpellsOne(s: string, c: Cmd, d: Cmd)
    requires Spells(c, LineLevel, Tokens(s))
    ensures ParseCmd(s).Ok? && (Spells(d, LineLevel, Tokens(s)) ==> c == d)
  {
    ParsesExactly(s, c);
    ParsesExactly(s, d);
  }
}
