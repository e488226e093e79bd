/** The command parser of the shell, sh.c, and a printer for command trees. */
module Shell {

  const MAXARGS: nat := 10

  /** A redirection is of standard output or of standard input; the parser makes no
      difference between > and >>. */
  datatype Cmd =
    | Exec(args: seq<string>)
    | Redir(cmd: Cmd, file: string, output: bool)
    | Pipe(left: Cmd, right: Cmd)
    | List(left: Cmd, right: Cmd)
    | Back(cmd: Cmd)

  /** The exits of the parser by panic. */
  datatype Error = MissingFile | MissingParenthesis | TooManyArgs | Syntax

  datatype Result<T> = Ok(value: T, rest: string) | Err(error: Error)

  // ---------- tokens ----------

  predicate IsSpace(c: char) {
    c == ' ' || c == '\t' || c == '\r' || c == '\n' || c == (11 as char)
  }

  predicate IsSymbol(c: char) {
    c == '<' || c == '|' || c == '>' || c == '&' || c == ';' || c == '(' || c == ')'
  }

  predicate IsWordChar(c: char) {
    !IsSpace(c) && !IsSymbol(c)
  }

  predicate IsWord(w: string) {
    w != [] && forall k | 0 <= k < |w| :: IsWordChar(w[k])
  }

  function Skip(s: string): (r: string)
    ensures |r| <= |s| && (r == [] || !IsSpace(r[0]))
  {
    if s != [] && IsSpace(s[0]) then Skip(s[1..]) else s
  }

  /** The length of the word that s starts with. */
  function WordLength(s: string): (n: nat)
    ensures n <= |s| && (forall k | 0 <= k < n :: IsWordChar(s[k])) && (n < |s| ==> !IsWordChar(s[n]))
  {
    if s != [] && IsWordChar(s[0]) then 1 + WordLength(s[1..]) else 0
  }

  datatype Token = End | Word(w: string) | Symbol(c: char) | Append

  /** gettoken: the token and the text after it. */
  function GetToken(s: string): (r: (Token, string))
    ensures |r.1| <= |s| && (r.0.End? <==> Skip(s) == []) && (!r.0.End? ==> |r.1| < |s|)
    ensures r.0.Word? ==> IsWord(r.0.w)
  {
    var s := Skip(s);
    if s == [] then (End, [])
    else if s[0] == '>' then
      if |s| > 1 && s[1] == '>' then (Append, Skip(s[2..])) else (Symbol('>'), Skip(s[1..]))
    else if IsSymbol(s[0]) then (Symbol(s[0]), Skip(s[1..]))
    else
      var n := WordLength(s);
      (Word(s[..n]), Skip(s[n..]))
  }

  /** peek: whether the next character is one of toks. */
  predicate Peek(s: string, toks: string) {
    Skip(s) != [] && Skip(s)[0] in toks
  }

  // ---------- the parser ----------

  datatype Target = Target(file: string, output: bool)

  function Wrap(cmd: Cmd, redirs: seq<Target>): (r: Cmd) {
    if redirs == [] then cmd
    else Redir(Wrap(cmd, redirs[..|redirs| - 1]), redirs[|redirs| - 1].file, redirs[|redirs| - 1].output)
  }

  /** parseredirs, with the redirections in the order in which they wrap the command. */
  function ParseRedirs(redirs: seq<Target>, s: string): (r: Result<seq<Target>>)
    ensures r.Ok? ==> |r.rest| <= |s|
    decreases |s|
  {
    if !Peek(s, "<>") then Ok(redirs, Skip(s))
    else
      var (tok, s1) := GetToken(s);
      var (file, s2) := GetToken(s1);
      if !file.Word? then Err(MissingFile)
      else ParseRedirs(redirs + [Target(file.w, tok != Symbol('<'))], s2)
  }

  /** parsecmd: the whole text must be used. */
  function ParseCmd(s: string): (r: Result<Cmd>) {
    var r := ParseLine(s);
    if r.Ok? && Skip(r.rest) != [] then Err(Syntax) else r
  }

  function ParseLine(s: string): (r: Result<Cmd>)
    ensures r.Ok? ==> |r.rest| <= |s|
    decreases |s|, 5
  {
    var r := ParseBacks(s);
    if r.Err? || !Peek(r.rest, ";") then r
    else
      var rest := ParseLine(GetToken(r.rest).1);
      if rest.Err? then rest else Ok(List(r.value, rest.value), rest.rest)
  }

  /** parseline up to the semicolon. */
  function ParseBacks(s: string): (r: Result<Cmd>)
    ensures r.Ok? ==> |r.rest| <= |s|
    decreases |s|, 4
  {
    var r := ParsePipe(s);
    if r.Err? then r
    else
      var a := ParseAmpersands(r.value, r.rest);
      Ok(a.0, a.1)
  }

  function ParseAmpersands(cmd: Cmd, s: string): (r: (Cmd, string))
    ensures |r.1| <= |s|
    decreases |s|, 0
  {
    if Peek(s, "&") then ParseAmpersands(Back(cmd), GetToken(s).1) else (cmd, Skip(s))
  }

  function ParsePipe(s: string): (r: Result<Cmd>)
    ensures r.Ok? ==> |r.rest| <= |s|
    decreases |s|, 3
  {
    var r := ParseExec(s);
    if r.Err? || !Peek(r.rest, "|") then r
    else
      var right := ParsePipe(GetToken(r.rest).1);
      if right.Err? then right else Ok(Pipe(r.value, right.value), right.rest)
  }

  function ParseBlock(s: string): (r: Result<Cmd>)
    requires Peek(s, "(")
    ensures r.Ok? ==> |r.rest| <= |s|
    decreases |s|, 1
  {
    var r := ParseLine(GetToken(s).1);
    if r.Err? then r
    else if !Peek(r.rest, ")") then Err(MissingParenthesis)
    else
      var redirs := ParseRedirs([], GetToken(r.rest).1);
      if redirs.Err? then Err(redirs.error) else Ok(Wrap(r.value, redirs.value), redirs.rest)
  }

  function ParseExec(s: string): (r: Result<Cmd>)
    ensures r.Ok? ==> |r.rest| <= |s|
    decreases |s|, 2
  {
    if Peek(s, "(") then ParseBlock(s)
    else
      var redirs := ParseRedirs([], s);
      if redirs.Err? then Err(redirs.error) else ParseArgs([], redirs.value, redirs.rest)
  }

  /** The loop of parseexec, with the arguments and redirections so far. */
  function ParseArgs(args: seq<string>, redirs: seq<Target>, s: string): (r: Result<Cmd>)
    ensures r.Ok? ==> |r.rest| <= |s|
    decreases |s|, 0
  {
    if Peek(s, "|)&;") then Ok(Wrap(Exec(args), redirs), Skip(s))
    else
      var (tok, s1) := GetToken(s);
      if tok.End? then Ok(Wrap(Exec(args), redirs), s1)
      else if !tok.Word? then Err(Syntax)
      else if |args| + 1 >= MAXARGS then Err(TooManyArgs)
      else
        var more := ParseRedirs(redirs, s1);
        if more.Err? then Err(more.error) else ParseArgs(args + [tok.w], more.value, more.rest)
  }

  // ---------- the printer ----------

  function WordsText(args: seq<string>): (r: string) {
    if args == [] then "" else if |args| == 1 then args[0] else args[0] + " " + WordsText(args[1..])
  }

  function TargetText(t: Target): (r: string) {
    (if t.output then ">" else "<") + t.file
  }

  function TargetsText(ts: seq<Target>): (r: string) {
    if ts == [] then "" else TargetText(ts[0]) + TargetsText(ts[1..])
  }

  datatype Level = LineLevel | BackLevel | PipeLevel | ExecLevel

  /** Which level takes a command apart; the others hand it on. */
  function Rank(c: Cmd, level: Level): nat {
    match c
    case List(l, r) => (match level case LineLevel => 0 case ExecLevel => 1 case PipeLevel => 2 case BackLevel => 3)
    case Back(d) => (match level case BackLevel => 0 case LineLevel => 1 case ExecLevel => 2 case PipeLevel => 3)
    case Pipe(l, r) => (match level case PipeLevel => 0 case BackLevel => 1 case LineLevel => 2 case ExecLevel => 3)
    case _ => (match level case ExecLevel => 0 case PipeLevel => 1 case BackLevel => 2 case LineLevel => 3)
  }

  /** The text of a command where the grammar expects the given level: in parentheses where
      the command belongs to a weaker one. */
  function Print(c: Cmd, level: Level): (r: string)
    decreases c, Rank(c, level)
  {
    match level
    case LineLevel =>
      if c.List? then Print(c.left, BackLevel) + ";" + Print(c.right, LineLevel) else Print(c, BackLevel)
    case BackLevel => if c.Back? then Print(c.cmd, BackLevel) + "&" else Print(c, PipeLevel)
    case PipeLevel =>
      if c.Pipe? then Print(c.left, ExecLevel) + "|" + Print(c.right, PipeLevel) else Print(c, ExecLevel)
    case ExecLevel =>
      match c
      case Exec(args) => WordsText(args)
      case Redir(d, file, output) => Print(d, ExecLevel) + TargetText(Target(file, output))
      case _ => "(" + Print(c, LineLevel) + ")"
  }

  /** Words are words, and few enough. */
  predicate WellFormed(c: Cmd) {
    match c
    case Exec(args) => |args| < MAXARGS && forall k | 0 <= k < |args| :: IsWord(args[k])
    case Redir(d, file, output) => IsWord(file) && WellFormed(d)
    case Pipe(l, r) => WellFormed(l) && WellFormed(r)
    case List(l, r) => WellFormed(l) && WellFormed(r)
    case Back(d) => WellFormed(d)
  }

  /** The text ends, or goes on with one of the characters. */
  predicate Follows(rest: string, toks: string) {
    rest == [] || rest[0] in toks
  }

  // ---------- words and redirections ----------

  lemma {:induction false} WordLengthOf(w: string, rest: string)
    requires (forall k | 0 <= k < |w| :: IsWordChar(w[k])) && (rest == [] || !IsWordChar(rest[0]))
    ensures WordLength(w + rest) == |w|
  {
    if w != [] {
      assert (w + rest)[1..] == w[1..] + rest;
      WordLengthOf(w[1..], rest);
    }
  }

  lemma TokenOfWord(w: string, rest: string)
    requires IsWord(w) && (rest == [] || !IsWordChar(rest[0]))
    ensures GetToken(w + rest) == (Word(w), Skip(rest))
    ensures Skip(w + rest) == w + rest
  {
    WordLengthOf(w, rest);
    assert (w + rest)[..|w|] == w && (w + rest)[|w|..] == rest;
  }

  lemma TokenOfSymbol(c: char, rest: string)
    requires IsSymbol(c) && c != '>'
    ensures GetToken([c] + rest) == (Symbol(c), Skip(rest))
    ensures Skip([c] + rest) == [c] + rest
  {
    assert ([c] + rest)[1..] == rest;
  }

  lemma TokenOfTarget(t: Target, rest: string)
    requires IsWord(t.file)
    ensures Skip(TargetText(t) + rest) == TargetText(t) + rest
    ensures GetToken(TargetText(t) + rest) == (Symbol(if t.output then '>' else '<'), t.file + rest)
  {
    var s := TargetText(t) + rest;
    assert s[1..] == t.file + rest;
    assert s[1] == t.file[0];
  }

  lemma RedirsStep(done: seq<Target>, s: string, t: Target, s1: string, s2: string)
    requires Peek(s, "<>") && GetToken(s) == (Symbol(if t.output then '>' else '<'), s1) &&
             GetToken(s1) == (Word(t.file), s2)
    ensures |s2| < |s| && ParseRedirs(done, s) == ParseRedirs(done + [t], s2)
  {
    hide GetToken;
  }

  lemma RedirsStop(done: seq<Target>, rest: string)
    requires Follows(rest, "|)&;") || IsWordStart(rest)
    ensures ParseRedirs(done, rest) == Ok(done, rest)
  {
  }

  predicate IsWordStart(s: string) {
    s != [] && IsWordChar(s[0])
  }

  /** parseredirs reads back a list of redirections. */
  lemma {:induction false} RedirsParse(done: seq<Target>, todo: seq<Target>, rest: string)
    requires (forall k | 0 <= k < |todo| :: IsWord(todo[k].file)) && Follows(rest, "|)&;")
    ensures ParseRedirs(done, TargetsText(todo) + rest) == Ok(done + todo, rest)
    decreases |todo|
  {
    hide GetToken, Skip, ParseRedirs, IsWordChar;
    if todo == [] {
      assert TargetsText(todo) + rest == rest && done + todo == done;
      RedirsStop(done, rest);
    } else {
      var t, more := todo[0], TargetsText(todo[1..]) + rest;
      assert TargetsText(todo) + rest == TargetText(t) + more;
      TokenOfTarget(t, more);
      TextStart(todo[1..], rest);
      SymbolEndsWord(more, "<>|)&;");
      TokenOfWord(t.file, more);
      RedirsStep(done, TargetText(t) + more, t, t.file + more, more);
      RedirsParse(done + [t], todo[1..], rest);
      assert done + [t] + todo[1..] == done + todo;
    }
  }

  lemma SymbolEndsWord(s: string, toks: string)
    requires Follows(s, toks) && forall k | 0 <= k < |toks| :: IsSymbol(toks[k])
    ensures s == [] || !IsWordChar(s[0])
    ensures Skip(s) == s
  {
  }

  lemma TextStart(ts: seq<Target>, rest: string)
    requires Follows(rest, "|)&;")
    ensures Follows(TargetsText(ts) + rest, "<>|)&;") && Skip(TargetsText(ts) + rest) == TargetsText(ts) + rest
  {
    if ts != [] {
      assert TargetsText(ts) + rest == TargetText(ts[0]) + (TargetsText(ts[1..]) + rest);
    } else {
      assert TargetsText(ts) + rest == rest;
    }
  }

  /** parseexec after an argument: its redirections, and the next arguments. */
  function ParseRest(args: seq<string>, redirs: seq<Target>, s: string): (r: Result<Cmd>) {
    var more := ParseRedirs(redirs, s);
    if more.Err? then Err(more.error) else ParseArgs(args, more.value, more.rest)
  }

  lemma ArgsStep(args: seq<string>, s: string, w: string, s1: string)
    requires |args| + 1 < MAXARGS && IsWordStart(s) && GetToken(s) == (Word(w), s1)
    ensures ParseRest(args, [], s) == ParseRest(args + [w], [], s1)
  {
    RedirsStop([], s);
    hide GetToken;
  }

  lemma {:induction false} ArgsParse(done: seq<string>, todo: seq<string>, rest: string)
    requires |done| + |todo| < MAXARGS && (forall k | 0 <= k < |todo| :: IsWord(todo[k])) && Follows(rest, "<>|)&;")
    ensures ParseRest(done, [], WordsText(todo) + rest) == ParseRest(done + todo, [], rest)
    decreases |todo|
  {
    hide GetToken, Skip, ParseRest, IsWordChar;
    if todo == [] {
      assert WordsText(todo) + rest == rest && done + todo == done;
    } else {
      var w, s := todo[0], WordsText(todo) + rest;
      SymbolEndsWord(rest, "<>|)&;");
      if |todo| == 1 {
        assert s == w + rest;
        TokenOfWord(w, rest);
        ArgsStep(done, s, w, rest);
        assert done + todo == done + [w];
      } else {
        var more := WordsText(todo[1..]) + rest;
        assert s == w + ([' '] + more);
        assert more[0] == todo[1][0];
        SpaceSkipped(more);
        TokenOfWord(w, [' '] + more);
        ArgsStep(done, s, w, more);
        ArgsParse(done + [w], todo[1..], rest);
        assert done + [w] + todo[1..] == done + todo;
      }
    }
  }

  lemma SpaceSkipped(s: string)
    requires IsWordStart(s)
    ensures Skip([' '] + s) == s && !IsWordChar(' ')
  {
    assert ([' '] + s)[1..] == s;
  }

  // ---------- commands ----------

  /** A command without its redirections, and those. */
  function Base(c: Cmd): (r: Cmd)
    ensures !r.Redir? && (WellFormed(c) ==> WellFormed(r)) && (c.Redir? ==> r < c)
  {
    if c.Redir? then Base(c.cmd) else c
  }

  function Targets(c: Cmd): (r: seq<Target>)
    ensures WellFormed(c) ==> forall k | 0 <= k < |r| :: IsWord(r[k].file)
  {
    if c.Redir? then Targets(c.cmd) + [Target(c.file, c.output)] else []
  }

  lemma {:induction false} WrapBase(c: Cmd)
    ensures Wrap(Base(c), Targets(c)) == c
    ensures Print(c, ExecLevel) == Print(Base(c), ExecLevel) + TargetsText(Targets(c))
  {
    if c.Redir? {
      WrapBase(c.cmd);
      var t := Target(c.file, c.output);
      assert Targets(c)[..|Targets(c)| - 1] == Targets(c.cmd);
      TextSnoc(Targets(c.cmd), t);
    } else {
      assert Print(c, ExecLevel) + "" == Print(c, ExecLevel);
    }
  }

  lemma {:induction false} TextSnoc(ts: seq<Target>, t: Target)
    ensures TargetsText(ts + [t]) == TargetsText(ts) + TargetText(t)
  {
    if ts == [] {
      assert ts + [t] == [t] && [t][1..] == [];
      assert TargetText(t) + "" == TargetText(t);
    } else {
      assert (ts + [t])[1..] == ts[1..] + [t];
      TextSnoc(ts[1..], t);
    }
  }

  lemma ArgsStop(args: seq<string>, ts: seq<Target>, rest: string)
    requires Follows(rest, "|)&;")
    ensures ParseArgs(args, ts, rest) == Ok(Wrap(Exec(args), ts), rest)
  {
    hide Wrap;
  }

  lemma RestIs(args: seq<string>, redirs: seq<Target>, s: string, ts: seq<Target>, rest: string)
    requires ParseRedirs(redirs, s) == Ok(ts, rest)
    ensures ParseRest(args, redirs, s) == ParseArgs(args, ts, rest)
  {
    hide ParseRedirs, ParseArgs;
  }

  /** Where the arguments and redirections of a command end, parseexec is done. */
  lemma RestEnds(args: seq<string>, ts: seq<Target>, rest: string)
    requires (forall k | 0 <= k < |ts| :: IsWord(ts[k].file)) && Follows(rest, "|)&;")
    ensures ParseRest(args, [], TargetsText(ts) + rest) == Ok(Wrap(Exec(args), ts), rest)
  {
    hide ParseRest, ParseRedirs, ParseArgs, Wrap, IsWord, Follows, TargetsText;
    RedirsParse([], ts, rest);
    assert [] + ts == ts;
    RestIs(args, [], TargetsText(ts) + rest, ts, rest);
    ArgsStop(args, ts, rest);
  }

  lemma ExecIsRest(s: string)
    requires !Peek(s, "(")
    ensures ParseExec(s) == ParseRest([], [], s)
  {
    hide ParseRedirs, ParseArgs, Peek;
  }

  lemma NoParenthesis(s: string)
    requires Follows(s, "<>|)&;") || IsWordStart(s)
    ensures !Peek(s, "(")
  {
  }

  lemma ExecParses(args: seq<string>, ts: seq<Target>, rest: string)
    requires WellFormed(Exec(args)) && (forall k | 0 <= k < |ts| :: IsWord(ts[k].file)) && Follows(rest, "|)&;")
    ensures ParseExec(WordsText(args) + TargetsText(ts) + rest) == Ok(Wrap(Exec(args), ts), rest)
  {
    hide ParseRest, ParseExec, Wrap, Peek, Skip, IsWord, IsWordStart, Follows, TargetsText, WordsText;
    var s := WordsText(args) + TargetsText(ts) + rest;
    var s' := TargetsText(ts) + rest;
    assert s == WordsText(args) + s';
    TextStart(ts, rest);
    ArgsParse([], args, s');
    assert [] + args == args;
    RestEnds(args, ts, rest);
    WordsStart(args, s');
    NoParenthesis(s);
    ExecIsRest(s);
  }

  lemma WordsStart(args: seq<string>, rest: string)
    requires (forall k | 0 <= k < |args| :: IsWord(args[k])) && Follows(rest, "<>|)&;")
    ensures Skip(WordsText(args) + rest) == WordsText(args) + rest
    ensures Follows(WordsText(args) + rest, "<>|)&;") || IsWordStart(WordsText(args) + rest)
  {
    if args == [] {
      assert WordsText(args) + rest == rest;
    } else {
      assert (WordsText(args) + rest)[0] == args[0][0];
    }
  }

  /** Printed commands do not start with a space. */
  lemma {:induction false} PrintStart(c: Cmd, level: Level, rest: string)
    requires WellFormed(c) && Follows(rest, "<>|)&;")
    ensures var s := Print(c, level) + rest; Skip(s) == s && (Follows(s, "<>|)&;(") || IsWordStart(s))
    decreases c, Rank(c, level)
  {
    var s := Print(c, level) + rest;
    match level
    case LineLevel =>
      if c.List? {
        var more := ";" + Print(c.right, LineLevel) + rest;
        assert s == Print(c.left, BackLevel) + more;
        PrintStart(c.left, BackLevel, more);
      } else {
        PrintStart(c, BackLevel, rest);
      }
    case BackLevel =>
      if c.Back? {
        assert s == Print(c.cmd, BackLevel) + ("&" + rest);
        PrintStart(c.cmd, BackLevel, "&" + rest);
      } else {
        PrintStart(c, PipeLevel, rest);
      }
    case PipeLevel =>
      if c.Pipe? {
        var more := "|" + Print(c.right, PipeLevel) + rest;
        assert s == Print(c.left, ExecLevel) + more;
        PrintStart(c.left, ExecLevel, more);
      } else {
        PrintStart(c, ExecLevel, rest);
      }
    case ExecLevel =>
      match c
      case Exec(args) => WordsStart(args, rest);
      case Redir(d, file, output) =>
        var more := TargetText(Target(file, output)) + rest;
        assert s == Print(d, ExecLevel) + more;
        PrintStart(d, ExecLevel, more);
      case _ =>
  }

  function BackBase(c: Cmd): (r: Cmd)
    ensures !r.Back? && (WellFormed(c) ==> WellFormed(r)) && (c.Back? ==> r < c) && (!c.Back? ==> r == c)
  {
    if c.Back? then BackBase(c.cmd) else c
  }

  function BackText(c: Cmd): (r: string) {
    if c.Back? then BackText(c.cmd) + "&" else ""
  }

  lemma {:induction false} BackPrint(c: Cmd)
    ensures Print(c, BackLevel) == Print(BackBase(c), PipeLevel) + BackText(c)
  {
    if c.Back? {
      BackPrint(c.cmd);
    } else {
      assert Print(c, PipeLevel) + "" == Print(c, PipeLevel);
    }
  }

  lemma {:induction false} AmpersandsParse(c: Cmd, rest: string)
    requires Follows(rest, ")&;")
    ensures Follows(BackText(c) + rest, ")&;")
    ensures ParseAmpersands(BackBase(c), BackText(c) + rest) == ParseAmpersands(c, rest)
  {
    if c.Back? {
      assert BackText(c) + rest == BackText(c.cmd) + (['&'] + rest);
      AmpersandsParse(c.cmd, ['&'] + rest);
      TokenOfSymbol('&', rest);
      SymbolEndsWord(rest, ")&;");
    } else {
      assert BackText(c) + rest == rest;
    }
  }

  lemma AmpersandsStop(c: Cmd, rest: string)
    requires Follows(rest, ");")
    ensures ParseAmpersands(c, rest) == (c, rest)
  {
  }

  lemma BacksAre(s: string, c: Cmd, rest: string, c': Cmd, rest': string)
    requires ParsePipe(s) == Ok(c, rest) && ParseAmpersands(c, rest) == (c', rest')
    ensures ParseBacks(s) == Ok(c', rest')
  {
    hide ParsePipe, ParseAmpersands;
  }

  lemma LineIs(s: string, c: Cmd, rest: string, d: Cmd, rest': string)
    requires ParseBacks(s) == Ok(c, [';'] + rest) && Skip(rest) == rest && ParseLine(rest) == Ok(d, rest')
    ensures ParseLine(s) == Ok(List(c, d), rest')
  {
    TokenOfSymbol(';', rest);
    assert Peek([';'] + rest, ";");
    hide ParseBacks, GetToken, Skip, Peek;
  }

  lemma LineEnds(s: string, c: Cmd, rest: string)
    requires ParseBacks(s) == Ok(c, rest) && Follows(rest, ")")
    ensures ParseLine(s) == Ok(c, rest)
  {
    assert !Peek(rest, ";");
    hide ParseBacks, GetToken, Skip, Peek;
  }

  lemma PipeIs(s: string, c: Cmd, rest: string, d: Cmd, rest': string)
    requires ParseExec(s) == Ok(c, ['|'] + rest) && Skip(rest) == rest && ParsePipe(rest) == Ok(d, rest')
    ensures ParsePipe(s) == Ok(Pipe(c, d), rest')
  {
    TokenOfSymbol('|', rest);
    assert Peek(['|'] + rest, "|");
    hide ParseExec, GetToken, Skip, Peek;
  }

  lemma PipeEnds(s: string, c: Cmd, rest: string)
    requires ParseExec(s) == Ok(c, rest) && Follows(rest, ")&;")
    ensures ParsePipe(s) == Ok(c, rest)
  {
    assert !Peek(rest, "|");
    hide ParseExec, GetToken, Skip, Peek;
  }

  lemma BlockIs(s: string, c: Cmd, rest: string, ts: seq<Target>, rest': string)
    requires Skip(s) == s && Skip(rest) == rest && ParseLine(s) == Ok(c, [')'] + rest) &&
             ParseRedirs([], rest) == Ok(ts, rest')
    ensures ParseExec(['('] + s) == Ok(Wrap(c, ts), rest')
  {
    TokenOfSymbol('(', s);
    TokenOfSymbol(')', rest);
    assert Peek(['('] + s, "(") && Peek([')'] + rest, ")");
    hide ParseLine, ParseRedirs, GetToken, Skip, Peek, Wrap;
  }

  /** What may follow a command of a level. */
  function Follow(level: Level): string {
    match level
    case LineLevel => ")"
    case BackLevel => ");"
    case PipeLevel => ")&;"
    case ExecLevel => "|)&;"
  }

  function Parse(s: string, level: Level): (r: Result<Cmd>) {
    match level
    case LineLevel => ParseLine(s)
    case BackLevel => ParseBacks(s)
    case PipeLevel => ParsePipe(s)
    case ExecLevel => ParseExec(s)
  }

  /** Each parse function reads back what the printer writes for its level. */
  lemma {:induction false} PrintParses(c: Cmd, level: Level, rest: string)
    requires WellFormed(c) && Follows(rest, Follow(level))
    ensures Parse(Print(c, level) + rest, level) == Ok(c, rest)
    decreases c, Rank(c, level)
  {
    hide ParseLine, ParseBacks, ParsePipe, ParseExec, Skip;
    match level
    case LineLevel => PrintParsesLine(c, rest);
    case BackLevel =>
      var more := BackText(c) + rest;
      BackPrint(c);
      assert Print(c, BackLevel) + rest == Print(BackBase(c), PipeLevel) + more;
      AmpersandsParse(c, rest);
      AmpersandsStop(c, rest);
      PrintParses(BackBase(c), PipeLevel, more);
      BacksAre(Print(c, BackLevel) + rest, BackBase(c), more, c, rest);
    case PipeLevel => PrintParsesPipe(c, rest);
    case ExecLevel => PrintParsesExec(c, rest);
  }

  lemma {:induction false} PrintParsesLine(c: Cmd, rest: string)
    requires WellFormed(c) && Follows(rest, ")")
    ensures ParseLine(Print(c, LineLevel) + rest) == Ok(c, rest)
    decreases c, Rank(c, LineLevel), 0
  {
    hide ParseLine, ParseBacks, ParsePipe, ParseExec, Skip;
    if c.List? {
      var more := Print(c.right, LineLevel) + rest;
      assert Print(c, LineLevel) + rest == Print(c.left, BackLevel) + ([';'] + more);
      PrintParses(c.left, BackLevel, [';'] + more);
      PrintStart(c.right, LineLevel, rest);
      PrintParses(c.right, LineLevel, rest);
      LineIs(Print(c, LineLevel) + rest, c.left, more, c.right, rest);
    } else {
      PrintParses(c, BackLevel, rest);
      LineEnds(Print(c, LineLevel) + rest, c, rest);
    }
  }

  lemma {:induction false} PrintParsesPipe(c: Cmd, rest: string)
    requires WellFormed(c) && Follows(rest, ")&;")
    ensures ParsePipe(Print(c, PipeLevel) + rest) == Ok(c, rest)
    decreases c, Rank(c, PipeLevel), 0
  {
    hide ParseLine, ParseBacks, ParsePipe, ParseExec, Skip;
    if c.Pipe? {
      var more := Print(c.right, PipeLevel) + rest;
      assert Print(c, PipeLevel) + rest == Print(c.left, ExecLevel) + (['|'] + more);
      PrintParses(c.left, ExecLevel, ['|'] + more);
      PrintStart(c.right, PipeLevel, rest);
      PrintParses(c.right, PipeLevel, rest);
      PipeIs(Print(c, PipeLevel) + rest, c.left, more, c.right, rest);
    } else {
      PrintParses(c, ExecLevel, rest);
      PipeEnds(Print(c, PipeLevel) + rest, c, rest);
    }
  }

  lemma {:induction false} PrintParsesExec(c: Cmd, rest: string)
    requires WellFormed(c) && Follows(rest, "|)&;")
    ensures ParseExec(Print(c, ExecLevel) + rest) == Ok(c, rest)
    decreases c, Rank(c, ExecLevel), 0
  {
    hide ParseLine, ParseBacks, ParsePipe, ParseExec, Skip, ParseRedirs, Wrap, TargetsText, WordsText, Targets, IsWord;
    var b, ts := Base(c), Targets(c);
    WrapBase(c);
    if b.Exec? {
      ExecParses(b.args, ts, rest);
    } else {
      var more := TargetsText(ts) + rest;
      assert Print(c, ExecLevel) + rest == ['('] + (Print(b, LineLevel) + ([')'] + more));
      PrintParses(b, LineLevel, [')'] + more);
      PrintStart(b, LineLevel, [')'] + more);
      TextStart(ts, rest);
      RedirsParse([], ts, rest);
      assert [] + ts == ts;
      BlockIs(Print(b, LineLevel) + ([')'] + more), b, more, ts, rest);
    }
  }

  /** Parsing the text of a command tree gives the tree. */
  lemma RoundTrip(c: Cmd)
    requires WellFormed(c)
    ensures ParseCmd(Print(c, LineLevel)) == Ok(c, "")
  {
    PrintParses(c, LineLevel, "");
    assert Print(c, LineLevel) + "" == Print(c, LineLevel);
  }

  // ---------- what the parser accepts ----------

  predicate WordTargets(ts: seq<Target>) {
    forall k | 0 <= k < |ts| :: IsWord(ts[k].file)
  }

  lemma {:induction false} WrapWellFormed(c: Cmd, ts: seq<Target>)
    requires WellFormed(c) && WordTargets(ts)
    ensures WellFormed(Wrap(c, ts))
  {
    if ts != [] {
      WrapWellFormed(c, ts[..|ts| - 1]);
    }
  }

  lemma {:induction false} RedirsWellFormed(redirs: seq<Target>, s: string)
    requires WordTargets(redirs)
    ensures ParseRedirs(redirs, s).Ok? ==> WordTargets(ParseRedirs(redirs, s).value)
    decreases |s|
  {
    hide Skip;
    if Peek(s, "<>") {
      var (tok, s1) := GetToken(s);
      var (file, s2) := GetToken(s1);
      hide GetToken;
      if file.Word? {
        RedirsWellFormed(redirs + [Target(file.w, tok != Symbol('<'))], s2);
      }
    }
  }

  predicate AllWords(args: seq<string>) {
    |args| < MAXARGS && forall k | 0 <= k < |args| :: IsWord(args[k])
  }

  lemma {:induction false} ArgsWellFormed(args: seq<string>, redirs: seq<Target>, s: string)
    requires AllWords(args) && WordTargets(redirs)
    ensures ParseArgs(args, redirs, s).Ok? ==> WellFormed(ParseArgs(args, redirs, s).value)
    decreases |s|
  {
    WrapWellFormed(Exec(args), redirs);
    hide Skip, ParseRedirs, GetToken, Wrap, Peek;
    var (tok, s1) := GetToken(s);
    if tok.Word? && |args| + 1 < MAXARGS {
      RedirsWellFormed(redirs, s1);
      var more := ParseRedirs(redirs, s1);
      if more.Ok? {
        ArgsWellFormed(args + [tok.w], more.value, more.rest);
      }
    }
  }

  lemma {:induction false} AmpersandsWellFormed(c: Cmd, s: string)
    requires WellFormed(c)
    ensures WellFormed(ParseAmpersands(c, s).0)
    decreases |s|
  {
    hide Skip;
    if Peek(s, "&") {
      AmpersandsWellFormed(Back(c), GetToken(s).1);
    }
  }

  /** Whatever the parser accepts is a tree of words, with fewer than MAXARGS arguments. */
  lemma {:induction false} ParsesWellFormed(s: string, level: Level)
    ensures Parse(s, level).Ok? ==> WellFormed(Parse(s, level).value)
    decreases |s|, match level case LineLevel => 3 case BackLevel => 2 case PipeLevel => 1 case ExecLevel => 0
  {
    hide Skip, Wrap;
    match level
    case LineLevel =>
      ParsesWellFormed(s, BackLevel);
      var r := ParseBacks(s);
      if r.Ok? && Peek(r.rest, ";") { ParsesWellFormed(GetToken(r.rest).1, LineLevel); }
    case BackLevel =>
      ParsesWellFormed(s, PipeLevel);
      var r := ParsePipe(s);
      if r.Ok? { AmpersandsWellFormed(r.value, r.rest); }
    case PipeLevel =>
      ParsesWellFormed(s, ExecLevel);
      var r := ParseExec(s);
      if r.Ok? && Peek(r.rest, "|") { ParsesWellFormed(GetToken(r.rest).1, PipeLevel); }
    case ExecLevel =>
      if Peek(s, "(") {
        assert Parse(s, ExecLevel) == ParseBlock(s);
        ParsesWellFormed(GetToken(s).1, LineLevel);
        assert Parse(GetToken(s).1, LineLevel) == ParseLine(GetToken(s).1);
        BlockWellFormed(s);
      } else {
        RedirsWellFormed([], s);
        var redirs := ParseRedirs([], s);
        if redirs.Ok? { ArgsWellFormed([], redirs.value, redirs.rest); }
      }
  }

  lemma BlockWellFormed(s: string)
    requires Peek(s, "(") && (ParseLine(GetToken(s).1).Ok? ==> WellFormed(ParseLine(GetToken(s).1).value))
    ensures ParseBlock(s).Ok? ==> WellFormed(ParseBlock(s).value)
  {
    hide Skip, Wrap, ParseLine;
    var r := ParseLine(GetToken(s).1);
    if r.Ok? && Peek(r.rest, ")") {
      RedirsWellFormed([], GetToken(r.rest).1);
      var redirs := ParseRedirs([], GetToken(r.rest).1);
      if redirs.Ok? { WrapWellFormed(r.value, redirs.value); }
    }
  }

  /** Every text that the parser accepts means the same as the printed form of its tree. */
  lemma Reprint(s: string)
    requires ParseCmd(s).Ok?
    ensures ParseCmd(Print(ParseCmd(s).value, LineLevel)) == Ok(ParseCmd(s).value, "")
  {
    ParsesWellFormed(s, LineLevel);
    hide ParseLine, Print;
    RoundTrip(ParseCmd(s).value);
  }

  // ---------- the loops of gettoken and peek ----------

  /** The cursor moves over white space from ps on. */
  method SkipFrom(s: string, ps: nat) returns (i: nat)
    requires ps <= |s|
    ensures ps <= i <= |s| && s[i..] == Skip(s[ps..])
  {
    i := ps;
    while i < |s| && IsSpace(s[i])
      invariant ps <= i <= |s| && Skip(s[i..]) == Skip(s[ps..])
    {
      assert s[i..][1..] == s[i + 1..];
      i := i + 1;
    }
  }

  method PeekFrom(s: string, ps: nat, toks: string) returns (found: bool, ps': nat)
    requires ps <= |s|
    ensures ps' <= |s| && s[ps'..] == Skip(s[ps..]) && found == Peek(s[ps..], toks)
  {
    ps' := SkipFrom(s, ps);
    found := ps' < |s| && s[ps'] in toks;
  }

  /** The end of the word at q. */
  method WordEnd(s: string, q: nat) returns (eq: nat)
    requires q <= |s|
    ensures q <= eq <= |s| && eq - q == WordLength(s[q..])
  {
    eq := q;
    while eq < |s| && !IsSpace(s[eq]) && !IsSymbol(s[eq])
      invariant q <= eq <= |s| && WordLength(s[q..]) == eq - q + WordLength(s[eq..])
    {
      assert s[eq..][1..] == s[eq + 1..];
      eq := eq + 1;
    }
  }

  lemma Slices(s: string, q: nat, eq: nat)
    requires q <= eq <= |s|
    ensures s[q..][eq - q..] == s[eq..] && s[q..][..eq - q] == s[q..eq]
  {
  }

  /** What gettoken makes of the text from q on, where there is no space, and where the
      token ends. */
  method ScanToken(s: string, q: nat) returns (tok: Token, eq: nat)
    requires q <= |s| && Skip(s[q..]) == s[q..]
    ensures q <= eq <= |s| && GetToken(s[q..]) == (tok, Skip(s[eq..]))
    ensures tok.Word? ==> tok.w == s[q..eq]
  {
    eq := q;
    if q == |s| {
      tok := End;
    } else if s[q] == '>' {
      eq, tok := q + 1, Symbol('>');
      if eq < |s| && s[eq] == '>' {
        assert s[q..][1] == '>';
        eq, tok := q + 2, Append;
      }
    } else if IsSymbol(s[q]) {
      eq, tok := q + 1, Symbol(s[q]);
    } else {
      eq := WordEnd(s, q);
      tok := Word(s[q..eq]);
    }
    Slices(s, q, eq);
  }

  lemma TokenAfterSpace(s: string, r: string)
    requires r == Skip(s)
    ensures Skip(r) == r && GetToken(r) == GetToken(s)
  {
  }

  /** gettoken: the token starts at q and ends before eq, and the cursor goes to ps'. */
  method GetTokenFrom(s: string, ps: nat) returns (tok: Token, q: nat, eq: nat, ps': nat)
    requires ps <= |s|
    ensures q <= eq <= ps' <= |s| && (tok, s[ps'..]) == GetToken(s[ps..])
    ensures tok.Word? ==> tok.w == s[q..eq]
  {
    hide *;
    q := SkipFrom(s, ps);
    TokenAfterSpace(s[ps..], s[q..]);
    tok, eq := ScanToken(s, q);
    ps' := SkipFrom(s, eq);
  }
}
