/**
 The grammar of xv6/sh.c on its own: which sequences of tokens spell which commands.  The parser accepts exactly
 the lines whose tokens spell a command, and returns that command.
 */
module ShellGrammar {
  import opened Basics
  import opened Folding
  import opened Shell

  /** The tokens of a line. */
  function Tokens(s: string): seq<Token>
    decreases |s|
  {
    var (tok, rest) := GetToken(s);
    if tok.End? then [] else [tok] + Tokens(rest)
  }

  /** Arguments and redirections, in order. */
  datatype Items = Nil | Arg(word: string, rest: Items) | Mark(op: Token, file: string, rest: Items)

  /** A command as it is written: arguments and redirections in any order, a line in parentheses with redirections
      after it, or two commands with | between them, a command with & after it, two commands with ; between them. */
  datatype Spelling =
    | Simple(items: Items)
    | Block(inner: Spelling, marks: Items)
    | Bar(left: Spelling, right: Spelling)
    | Amp(inner: Spelling)
    | Semi(left: Spelling, right: Spelling)

  predicate IsRedirection(tok: Token) {
    tok == Symbol('<') || tok == Symbol('>') || tok == Append
  }

  /** Every redirection has a sign for one. */
  predicate Signed(x: Items) {
    match x
    case Nil => true
    case Arg(_, rest) => Signed(rest)
    case Mark(op, _, rest) => IsRedirection(op) && Signed(rest)
  }

  predicate NoArg(x: Items) {
    match x
    case Nil => true
    case Arg(_, _) => false
    case Mark(_, _, rest) => NoArg(rest)
  }

  /** How tightly it binds. */
  function Rank(p: Spelling): nat {
    match p
    case Semi(_, _) => 0
    case Amp(_) => 1
    case Bar(_, _) => 2
    case _ => 3
  }

  predicate Grammatical(p: Spelling) {
    match p
    case Simple(items) => Signed(items) && |ArgsIn(items)| < 10
    case Block(inner, marks) => Grammatical(inner) && Signed(marks) && NoArg(marks)
    case Bar(left, right) => Grammatical(left) && Grammatical(right) && Rank(left) == 3 && Rank(right) >= 2
    case Amp(inner) => Grammatical(inner) && Rank(inner) >= 1
    case Semi(left, right) => Grammatical(left) && Grammatical(right) && Rank(left) >= 1
  }

  function ItemTokens(x: Items): seq<Token> {
    match x
    case Nil => []
    case Arg(word, rest) => [Word(word)] + ItemTokens(rest)
    case Mark(op, file, rest) => [op] + ([Word(file)] + ItemTokens(rest))
  }

  function ArgsIn(x: Items): seq<string> {
    match x
    case Nil => []
    case Arg(word, rest) => [word] + ArgsIn(rest)
    case Mark(_, _, rest) => ArgsIn(rest)
  }

  function MarksIn(x: Items): seq<Redirection> {
    match x
    case Nil => []
    case Arg(_, rest) => MarksIn(rest)
    case Mark(op, file, rest) => [Redirection(file, op != Symbol('<'))] + MarksIn(rest)
  }

  /** How it is written ... */
  function Spelled(p: Spelling): seq<Token> {
    match p
    case Simple(items) => ItemTokens(items)
    case Block(inner, marks) => [Symbol('(')] + (Spelled(inner) + ([Symbol(')')] + ItemTokens(marks)))
    case Bar(left, right) => Spelled(left) + ([Symbol('|')] + Spelled(right))
    case Amp(inner) => Spelled(inner) + [Symbol('&')]
    case Semi(left, right) => Spelled(left) + ([Symbol(';')] + Spelled(right))
  }

  /** ... and what it means: a command with redirections around it, the last one outermost. */
  function Means(p: Spelling): Cmd {
    match p
    case Simple(items) => Wrap(Exec(ArgsIn(items)), MarksIn(items))
    case Block(inner, marks) => Wrap(Means(inner), MarksIn(marks))
    case Bar(left, right) => Pipe(Means(left), Means(right))
    case Amp(inner) => Back(Means(inner))
    case Semi(left, right) => List(Means(left), Means(right))
  }

  // ----- Tokens, and the parser one step at a time -----

  ghost predicate AreTokens(s: string, ts: seq<Token>) {
    forall u :: Show(Lexing, u) ==> ts == Tokens(s)
  }

  /** The tokens of a line, folded. */
  ghost function Toks(s: string): (ts: seq<Token>)
    ensures AreTokens(s, ts)
  {
    assert AreTokens(s, Tokens(s));
    var ts :| AreTokens(s, ts);
    ts
  }

  ghost predicate IsNext(s: string, r: string) {
    forall u :: Show(Lexing, u) ==> r == GetToken(s).1
  }

  /** The line after its first token. */
  ghost function Next(s: string): (r: string)
    ensures IsNext(s, r)
  {
    assert IsNext(s, GetToken(s).1);
    var r :| IsNext(s, r);
    r
  }

  lemma NextToken(s: string)
    ensures Toks(s) != [] ==> |Next(s)| < |s| && Toks(s) == [Toks(s)[0]] + Toks(Next(s))
  {
    assert Show(Lexing, 0);
  }

  lemma TokenThen(s: string, tok: Token, ts: seq<Token>)
    requires Toks(s) == [tok] + ts
    ensures Toks(Next(s)) == ts
  {
    NextToken(s);
    assert Toks(s)[1..] == ts && ([tok] + Toks(Next(s)))[1..] == Toks(Next(s));
  }

  lemma {:induction false} SkipTwice(s: string)
    ensures Skip(Skip(s)) == Skip(s)
  {
    if s != "" && IsSpace(s[0]) {
      SkipTwice(s[1..]);
    }
  }

  lemma ToksSkip(s: string)
    ensures Toks(Skip(s)) == Toks(s)
  {
    assert Show(Lexing, 0);
    SkipTwice(s);
  }

  /** The line goes on with this symbol. */
  ghost predicate At(s: string, c: char) {
    Toks(s) != [] && Toks(s)[0] == Symbol(c)
  }

  predicate Closes(tok: Token) {
    tok == Symbol('|') || tok == Symbol(')') || tok == Symbol('&') || tok == Symbol(';')
  }

  lemma PeekIs(s: string, c: char)
    requires IsSymbol(c) && c != '>'
    ensures Peek(s, {c}) <==> At(s, c)
  {
    assert Show(Lexing, 0);
  }

  lemma PeekRedirection(s: string)
    ensures Peek(s, {'<', '>'}) <==> Toks(s) != [] && IsRedirection(Toks(s)[0])
  {
    assert Show(Lexing, 0);
  }

  lemma PeekCloses(s: string)
    ensures Peek(s, {'|', ')', '&', ';'}) <==> Toks(s) != [] && Closes(Toks(s)[0])
  {
    assert Show(Lexing, 0);
  }

  // The parser's functions, folded.

  ghost predicate IsRedirs(rs: seq<Redirection>, s: string, r: Redirections) {
    forall u :: Show(Parsing, u) ==> r == ParseRedirs(rs, s)
  }

  ghost function Redirs(rs: seq<Redirection>, s: string): (r: Redirections)
    ensures IsRedirs(rs, s, r) && (r.Redirections? ==> |r.rest| <= |s|)
  {
    assert IsRedirs(rs, s, ParseRedirs(rs, s));
    var r: Redirections :| IsRedirs(rs, s, r) && (r.Redirections? ==> |r.rest| <= |s|);
    r
  }

  ghost predicate IsArgsFrom(argv: seq<string>, rs: seq<Redirection>, s: string, r: Result) {
    forall u :: Show(Parsing, u) ==> r == ParseArgs(argv, rs, s)
  }

  ghost function ArgsFrom(argv: seq<string>, rs: seq<Redirection>, s: string): (r: Result)
    ensures IsArgsFrom(argv, rs, s, r) && (r.Ok? ==> |r.rest| <= |s|)
  {
    assert IsArgsFrom(argv, rs, s, ParseArgs(argv, rs, s));
    var r: Result :| IsArgsFrom(argv, rs, s, r) && (r.Ok? ==> |r.rest| <= |s|);
    r
  }

  ghost predicate IsExecFrom(s: string, r: Result) {
    forall u :: Show(Parsing, u) ==> r == ParseExec(s)
  }

  ghost function ExecFrom(s: string): (r: Result)
    ensures IsExecFrom(s, r) && (r.Ok? ==> |r.rest| <= |s|)
  {
    assert IsExecFrom(s, ParseExec(s));
    var r: Result :| IsExecFrom(s, r) && (r.Ok? ==> |r.rest| <= |s|);
    r
  }

  ghost predicate IsPipeFrom(s: string, r: Result) {
    forall u :: Show(Parsing, u) ==> r == ParsePipe(s)
  }

  ghost function PipeFrom(s: string): (r: Result)
    ensures IsPipeFrom(s, r) && (r.Ok? ==> |r.rest| <= |s|)
  {
    assert IsPipeFrom(s, ParsePipe(s));
    var r: Result :| IsPipeFrom(s, r) && (r.Ok? ==> |r.rest| <= |s|);
    r
  }

  ghost predicate IsBacksFrom(c: Cmd, s: string, r: (Cmd, string)) {
    forall u :: Show(Parsing, u) ==> r == ParseBacks(c, s)
  }

  ghost function BacksFrom(c: Cmd, s: string): (r: (Cmd, string))
    ensures IsBacksFrom(c, s, r) && |r.1| <= |s|
  {
    assert IsBacksFrom(c, s, ParseBacks(c, s));
    var r: (Cmd, string) :| IsBacksFrom(c, s, r) && |r.1| <= |s|;
    r
  }

  ghost predicate IsLineFrom(s: string, r: Result) {
    forall u :: Show(Parsing, u) ==> r == ParseLine(s)
  }

  ghost function LineFrom(s: string): (r: Result)
    ensures IsLineFrom(s, r) && (r.Ok? ==> |r.rest| <= |s|)
  {
    assert IsLineFrom(s, ParseLine(s));
    var r: Result :| IsLineFrom(s, r) && (r.Ok? ==> |r.rest| <= |s|);
    r
  }

  lemma RedirsStep(rs: seq<Redirection>, s: string)
    ensures Toks(s) == [] || !IsRedirection(Toks(s)[0]) ==>
      var r := Redirs(rs, s); r.Redirections? && r.rs == rs && Toks(r.rest) == Toks(s)
    ensures Toks(s) != [] && IsRedirection(Toks(s)[0]) ==>
      if Toks(Next(s)) == [] || !Toks(Next(s))[0].Word? then Redirs(rs, s).BadRedirection?
      else Redirs(rs, s) == Redirs(rs + [Redirection(Toks(Next(s))[0].text, Toks(s)[0] != Symbol('<'))], Next(Next(s)))
  {
    PeekRedirection(s);
    ToksSkip(s);
    assert Show(Lexing, 0) && Show(Parsing, 0);
  }

  lemma ArgsStep(argv: seq<string>, rs: seq<Redirection>, s: string)
    ensures Toks(s) == [] || Closes(Toks(s)[0]) ==>
      var r := ArgsFrom(argv, rs, s); r.Ok? && r.cmd == Wrap(Exec(argv), rs) && Toks(r.rest) == Toks(s)
    ensures Toks(s) != [] && !Closes(Toks(s)[0]) ==>
      var more := Redirs(rs, Next(s));
      if !Toks(s)[0].Word? || |argv| + 1 >= MAXARGS || more.BadRedirection? then ArgsFrom(argv, rs, s).Panic?
      else ArgsFrom(argv, rs, s) == ArgsFrom(argv + [Toks(s)[0].text], more.rs, more.rest)
  {
    PeekCloses(s);
    ToksSkip(s);
    assert Show(Lexing, 0) && Show(Parsing, 0);
  }

  lemma SimpleStep(s: string)
    requires !At(s, '(')
    ensures var rs := Redirs([], s);
      if rs.BadRedirection? then ExecFrom(s).Panic? else ExecFrom(s) == ArgsFrom([], rs.rs, rs.rest)
  {
    PeekIs(s, '(');
    assert Show(Parsing, 0);
  }

  lemma BlockStep(s: string)
    requires At(s, '(')
    ensures var inner := LineFrom(Next(s));
      if inner.Panic? || !At(inner.rest, ')') then ExecFrom(s).Panic?
      else
        var rs := Redirs([], Next(inner.rest));
        if rs.BadRedirection? then ExecFrom(s).Panic? else ExecFrom(s) == Ok(Wrap(inner.cmd, rs.rs), rs.rest)
  {
    PeekIs(s, '(');
    assert Show(Parsing, 0);
    assert ExecFrom(s) == ParseBlock(s);
    assert Next(s) == GetToken(s).1 by {
      assert Show(Lexing, 0);
    }
    var inner := ParseLine(Next(s));
    assert inner == LineFrom(Next(s));
    if inner.Ok? {
      PeekIs(inner.rest, ')');
      assert Next(inner.rest) == GetToken(inner.rest).1 by {
        assert Show(Lexing, 0);
      }
    }
  }

  lemma PipeStep(s: string)
    ensures var left := ExecFrom(s);
      if left.Panic? then PipeFrom(s).Panic?
      else if !At(left.rest, '|') then
        PipeFrom(s).Ok? && PipeFrom(s).cmd == left.cmd && Toks(PipeFrom(s).rest) == Toks(left.rest)
      else
        var right := PipeFrom(Next(left.rest));
        if right.Panic? then PipeFrom(s).Panic? else PipeFrom(s) == Ok(Pipe(left.cmd, right.cmd), right.rest)
  {
    assert Show(Parsing, 0);
    var left := ExecFrom(s);
    if left.Ok? {
      PeekIs(left.rest, '|');
      ToksSkip(left.rest);
      assert Show(Lexing, 0);
    }
  }

  lemma BacksStep(c: Cmd, s: string)
    ensures if At(s, '&') then BacksFrom(c, s) == BacksFrom(Back(c), Next(s))
      else BacksFrom(c, s).0 == c && Toks(BacksFrom(c, s).1) == Toks(s)
  {
    PeekIs(s, '&');
    ToksSkip(s);
    assert Show(Lexing, 0) && Show(Parsing, 0);
  }

  lemma LineStep(s: string)
    ensures var first := PipeFrom(s);
      if first.Panic? then LineFrom(s).Panic?
      else
        var (c, rest) := BacksFrom(first.cmd, first.rest);
        if !At(rest, ';') then LineFrom(s).Ok? && LineFrom(s).cmd == c && Toks(LineFrom(s).rest) == Toks(rest)
        else
          var more := LineFrom(Next(rest));
          if more.Panic? then LineFrom(s).Panic? else LineFrom(s) == Ok(List(c, more.cmd), more.rest)
  {
    assert Show(Parsing, 0);
    var first := PipeFrom(s);
    if first.Ok? {
      var rest := BacksFrom(first.cmd, first.rest).1;
      PeekIs(rest, ';');
      ToksSkip(rest);
      assert Show(Lexing, 0);
    }
  }

  // ----- Items -----

  lemma Assoc<T>(a: seq<T>, b: seq<T>, c: seq<T>)
    ensures (a + b) + c == a + (b + c)
  {
  }

  /** Redirections, then the items x. */
  function Join(marks: Items, x: Items): Items {
    match marks
    case Nil => x
    case Arg(word, rest) => Arg(word, Join(rest, x))
    case Mark(op, file, rest) => Mark(op, file, Join(rest, x))
  }

  lemma {:induction false} JoinTokens(marks: Items, x: Items)
    requires NoArg(marks)
    ensures ItemTokens(Join(marks, x)) == ItemTokens(marks) + ItemTokens(x)
  {
    match marks
    case Nil =>
    case Mark(op, file, rest) =>
      JoinTokens(rest, x);
      Assoc([op], [Word(file)] + ItemTokens(rest), ItemTokens(x));
      Assoc([Word(file)], ItemTokens(rest), ItemTokens(x));
  }

  lemma {:induction false} JoinMarks(marks: Items, x: Items)
    requires NoArg(marks)
    ensures MarksIn(Join(marks, x)) == MarksIn(marks) + MarksIn(x)
  {
    match marks
    case Nil =>
    case Mark(op, file, rest) =>
      JoinMarks(rest, x);
      Assoc([Redirection(file, op != Symbol('<'))], MarksIn(rest), MarksIn(x));
  }

  lemma {:induction false} JoinSigned(marks: Items, x: Items)
    requires NoArg(marks) && Signed(marks) && Signed(x)
    ensures Signed(Join(marks, x)) && ArgsIn(Join(marks, x)) == ArgsIn(x)
  {
    match marks
    case Nil =>
    case Mark(_, _, rest) =>
      JoinSigned(rest, x);
  }

  // ----- What the parser returns is spelled by the line -----

  lemma {:induction false} RedirsSound(rs: seq<Redirection>, s: string) returns (marks: Items)
    requires Redirs(rs, s).Redirections?
    ensures var r := Redirs(rs, s);
      && Signed(marks) && NoArg(marks) && r.rs == rs + MarksIn(marks) && Toks(s) == ItemTokens(marks) + Toks(r.rest)
    decreases |s|
  {
    RedirsStep(rs, s);
    NextToken(s);
    marks := Nil;
    if Toks(s) != [] && IsRedirection(Toks(s)[0]) {
      NextToken(Next(s));
      var op, file := Toks(s)[0], Toks(Next(s))[0].text;
      var x := Redirection(file, op != Symbol('<'));
      var more := RedirsSound(rs + [x], Next(Next(s)));
      marks := Mark(op, file, more);
      Assoc(rs, [x], MarksIn(more));
      Assoc([Word(file)], ItemTokens(more), Toks(Redirs(rs, s).rest));
      Assoc([op], [Word(file)] + ItemTokens(more), Toks(Redirs(rs, s).rest));
    } else {
      assert rs + [] == rs;
    }
  }

  /** The loop of parseexec, after the arguments argv and the redirections rs. */
  lemma {:induction false} ArgsSound(argv: seq<string>, rs: seq<Redirection>, s: string) returns (items: Items)
    requires ArgsFrom(argv, rs, s).Ok? && |argv| < MAXARGS
    ensures var r := ArgsFrom(argv, rs, s);
      && Signed(items) && |argv + ArgsIn(items)| < MAXARGS
      && r.cmd == Wrap(Exec(argv + ArgsIn(items)), rs + MarksIn(items))
      && Toks(s) == ItemTokens(items) + Toks(r.rest)
    decreases |s|
  {
    ArgsStep(argv, rs, s);
    NextToken(s);
    items := Nil;
    if Toks(s) == [] || Closes(Toks(s)[0]) {
      assert argv + [] == argv && rs + [] == rs;
    } else {
      var w := Toks(s)[0].text;
      var marks := RedirsSound(rs, Next(s));
      var more := Redirs(rs, Next(s));
      var rest := ArgsSound(argv + [w], more.rs, more.rest);
      items := ArgThen(w, marks, rest, argv, rs, Toks(ArgsFrom(argv, rs, s).rest));
    }
  }

  /** An argument, the redirections after it, and the rest of the items. */
  lemma ArgThen(w: string, marks: Items, rest: Items, argv: seq<string>, rs: seq<Redirection>, ts: seq<Token>)
    returns (items: Items)
    requires Signed(marks) && NoArg(marks) && Signed(rest)
    ensures Signed(items)
    ensures argv + ArgsIn(items) == (argv + [w]) + ArgsIn(rest)
    ensures rs + MarksIn(items) == (rs + MarksIn(marks)) + MarksIn(rest)
    ensures ItemTokens(items) + ts == [Word(w)] + (ItemTokens(marks) + (ItemTokens(rest) + ts))
  {
    var x := Join(marks, rest);
    JoinTokens(marks, rest);
    JoinMarks(marks, rest);
    JoinSigned(marks, rest);
    items := Arg(w, x);
    Assoc(argv, [w], ArgsIn(rest));
    Assoc(rs, MarksIn(marks), MarksIn(rest));
    Assoc([Word(w)], ItemTokens(x), ts);
    Assoc(ItemTokens(marks), ItemTokens(rest), ts);
  }

  ghost predicate Sound(s: string, r: Result, p: Spelling) {
    r.Ok? && Grammatical(p) && r.cmd == Means(p) && Toks(s) == Spelled(p) + Toks(r.rest)
  }

  lemma SimpleSound(s: string) returns (p: Spelling)
    requires ExecFrom(s).Ok? && !At(s, '(')
    ensures Sound(s, ExecFrom(s), p) && Rank(p) == 3
  {
    SimpleStep(s);
    var marks := RedirsSound([], s);
    var rs := Redirs([], s);
    var more := ArgsSound([], rs.rs, rs.rest);
    var items := Join(marks, more);
    JoinTokens(marks, more);
    JoinMarks(marks, more);
    JoinSigned(marks, more);
    assert [] + ArgsIn(more) == ArgsIn(more) && [] + MarksIn(marks) == MarksIn(marks);
    Assoc(ItemTokens(marks), ItemTokens(more), Toks(ExecFrom(s).rest));
    p := Simple(items);
  }

  lemma BlockSound(s: string, q: Spelling) returns (p: Spelling)
    requires ExecFrom(s).Ok? && At(s, '(') && Sound(Next(s), LineFrom(Next(s)), q)
    ensures Sound(s, ExecFrom(s), p) && Rank(p) == 3
  {
    BlockStep(s);
    NextToken(s);
    var inner := LineFrom(Next(s));
    NextToken(inner.rest);
    var marks := RedirsSound([], Next(inner.rest));
    p := Block(q, marks);
    assert [] + MarksIn(marks) == MarksIn(marks);
    BlockText(Spelled(q), ItemTokens(marks), Toks(ExecFrom(s).rest));
  }

  lemma BlockText(line: seq<Token>, marks: seq<Token>, rest: seq<Token>)
    ensures ([Symbol('(')] + (line + ([Symbol(')')] + marks))) + rest ==
      [Symbol('(')] + (line + ([Symbol(')')] + (marks + rest)))
  {
    Assoc([Symbol('(')], line + ([Symbol(')')] + marks), rest);
    Assoc(line, [Symbol(')')] + marks, rest);
    Assoc([Symbol(')')], marks, rest);
  }

  lemma {:induction false} ExecSound(s: string) returns (p: Spelling)
    requires ExecFrom(s).Ok?
    ensures Sound(s, ExecFrom(s), p) && Rank(p) == 3
    decreases |s|, 0
  {
    if At(s, '(') {
      BlockStep(s);
      NextToken(s);
      var q := LineSound(Next(s));
      p := BlockSound(s, q);
    } else {
      p := SimpleSound(s);
    }
  }

  lemma Between(left: seq<Token>, tok: Token, right: seq<Token>, rest: seq<Token>)
    ensures (left + ([tok] + right)) + rest == left + ([tok] + (right + rest))
  {
    Assoc(left, [tok] + right, rest);
    Assoc([tok], right, rest);
  }

  lemma {:induction false} PipeSound(s: string) returns (p: Spelling)
    requires PipeFrom(s).Ok?
    ensures Sound(s, PipeFrom(s), p) && Rank(p) >= 2
    decreases |s|, 1
  {
    PipeStep(s);
    p := ExecSound(s);
    var left := ExecFrom(s);
    if At(left.rest, '|') {
      NextToken(left.rest);
      var right := PipeSound(Next(left.rest));
      Between(Spelled(p), Symbol('|'), Spelled(right), Toks(PipeFrom(s).rest));
      p := Bar(p, right);
    }
  }

  lemma {:induction false} BacksSound(q: Spelling, s: string) returns (p: Spelling, marks: seq<Token>)
    requires Grammatical(q) && Rank(q) >= 1
    ensures Grammatical(p) && Rank(p) >= 1 && Means(p) == BacksFrom(Means(q), s).0
    ensures Spelled(p) == Spelled(q) + marks && Toks(s) == marks + Toks(BacksFrom(Means(q), s).1)
    decreases |s|
  {
    BacksStep(Means(q), s);
    NextToken(s);
    p, marks := q, [];
    if At(s, '&') {
      p, marks := BacksSound(Amp(q), Next(s));
      Assoc(Spelled(q), [Symbol('&')], marks);
      Assoc([Symbol('&')], marks, Toks(BacksFrom(Means(q), s).1));
      marks := [Symbol('&')] + marks;
    }
  }

  lemma {:induction false} LineSound(s: string) returns (p: Spelling)
    requires LineFrom(s).Ok?
    ensures Sound(s, LineFrom(s), p)
    decreases |s|, 2
  {
    LineStep(s);
    var q := PipeSound(s);
    var first := PipeFrom(s);
    var marks;
    p, marks := BacksSound(q, first.rest);
    var rest := BacksFrom(first.cmd, first.rest).1;
    Assoc(Spelled(q), marks, Toks(rest));
    if At(rest, ';') {
      NextToken(rest);
      var right := LineSound(Next(rest));
      Between(Spelled(p), Symbol(';'), Spelled(right), Toks(LineFrom(s).rest));
      p := Semi(p, right);
    }
  }

  // ----- A line that spells a command is read as that command -----

  /** What may come after a command that binds with rank k. */
  predicate Follows(k: nat, ts: seq<Token>) {
    || ts == [] || ts[0] == Symbol(')')
    || (k >= 1 && (ts[0] == Symbol(';') || ts[0] == Symbol('&')))
    || (k >= 3 && ts[0] == Symbol('|'))
  }

  ghost predicate Read(r: Result, c: Cmd, ts: seq<Token>) {
    r.Ok? && r.cmd == c && Toks(r.rest) == ts
  }

  /** The items after the redirections at the start, and these. */
  function AfterMarks(x: Items): Items {
    if x.Mark? then AfterMarks(x.rest) else x
  }

  function LeadMarks(x: Items): seq<Redirection> {
    if x.Mark? then [Redirection(x.file, x.op != Symbol('<'))] + LeadMarks(x.rest) else []
  }

  lemma {:induction false} LeadAfter(x: Items)
    ensures MarksIn(x) == LeadMarks(x) + MarksIn(AfterMarks(x)) && ArgsIn(AfterMarks(x)) == ArgsIn(x)
    ensures !AfterMarks(x).Mark? && (Signed(x) ==> Signed(AfterMarks(x)))
  {
    if x.Mark? {
      LeadAfter(x.rest);
      Assoc([Redirection(x.file, x.op != Symbol('<'))], LeadMarks(x.rest), MarksIn(AfterMarks(x)));
    }
  }

  lemma {:induction false} OnlyMarks(x: Items)
    requires NoArg(x)
    ensures AfterMarks(x) == Nil && LeadMarks(x) == MarksIn(x)
  {
    if x.Mark? {
      OnlyMarks(x.rest);
    }
  }

  lemma {:induction false} RedirsComplete(rs: seq<Redirection>, x: Items, s: string, ts: seq<Token>)
    requires Signed(x) && Toks(s) == ItemTokens(x) + ts && (ts != [] ==> !IsRedirection(ts[0]))
    ensures var r := Redirs(rs, s);
      r.Redirections? && r.rs == rs + LeadMarks(x) && Toks(r.rest) == ItemTokens(AfterMarks(x)) + ts
    decreases x
  {
    RedirsStep(rs, s);
    if x.Mark? {
      var mark := Redirection(x.file, x.op != Symbol('<'));
      Assoc([x.op], [Word(x.file)] + ItemTokens(x.rest), ts);
      Assoc([Word(x.file)], ItemTokens(x.rest), ts);
      TokenThen(s, x.op, [Word(x.file)] + (ItemTokens(x.rest) + ts));
      TokenThen(Next(s), Word(x.file), ItemTokens(x.rest) + ts);
      RedirsComplete(rs + [mark], x.rest, Next(Next(s)), ts);
      Assoc(rs, [mark], LeadMarks(x.rest));
    } else {
      assert rs + [] == rs;
    }
  }

  lemma {:induction false} ArgsComplete(argv: seq<string>, rs: seq<Redirection>, x: Items, s: string, ts: seq<Token>)
    requires Signed(x) && !x.Mark? && |argv + ArgsIn(x)| < MAXARGS && Toks(s) == ItemTokens(x) + ts && Follows(3, ts)
    ensures Read(ArgsFrom(argv, rs, s), Wrap(Exec(argv + ArgsIn(x)), rs + MarksIn(x)), ts)
    decreases x
  {
    ArgsStep(argv, rs, s);
    if x.Nil? {
      assert Toks(s) == ts && argv + [] == argv && rs + [] == rs;
    } else {
      Assoc([Word(x.word)], ItemTokens(x.rest), ts);
      TokenThen(s, Word(x.word), ItemTokens(x.rest) + ts);
      RedirsComplete(rs, x.rest, Next(s), ts);
      LeadAfter(x.rest);
      var more, rest := Redirs(rs, Next(s)), AfterMarks(x.rest);
      Smaller(x.rest);
      Assoc(argv, [x.word], ArgsIn(rest));
      Assoc(rs, LeadMarks(x.rest), MarksIn(rest));
      ArgsComplete(argv + [x.word], more.rs, rest, more.rest, ts);
    }
  }

  lemma {:induction false} Smaller(x: Items)
    ensures AfterMarks(x) == x || AfterMarks(x) < x
  {
    if x.Mark? {
      Smaller(x.rest);
    }
  }

  lemma SimpleComplete(x: Items, s: string, ts: seq<Token>)
    requires Grammatical(Simple(x)) && Toks(s) == ItemTokens(x) + ts && Follows(3, ts)
    ensures Read(ExecFrom(s), Means(Simple(x)), ts)
  {
    SimpleStep(s);
    RedirsComplete([], x, s, ts);
    LeadAfter(x);
    var rs := Redirs([], s);
    assert [] + ArgsIn(x) == ArgsIn(x) && [] + LeadMarks(x) == LeadMarks(x);
    ArgsComplete([], rs.rs, AfterMarks(x), rs.rest, ts);
  }

  lemma BlockComplete(inner: Spelling, marks: Items, s: string, ts: seq<Token>)
    requires Grammatical(Block(inner, marks)) && At(s, '(') && Follows(3, ts)
    requires Read(LineFrom(Next(s)), Means(inner), [Symbol(')')] + (ItemTokens(marks) + ts))
    ensures Read(ExecFrom(s), Means(Block(inner, marks)), ts)
  {
    BlockStep(s);
    var r := LineFrom(Next(s));
    TokenThen(r.rest, Symbol(')'), ItemTokens(marks) + ts);
    RedirsComplete([], marks, Next(r.rest), ts);
    OnlyMarks(marks);
    assert [] + MarksIn(marks) == MarksIn(marks) && [] + ts == ts;
  }

  lemma {:induction false} ExecComplete(p: Spelling, s: string, ts: seq<Token>)
    requires Grammatical(p) && Rank(p) == 3 && Toks(s) == Spelled(p) + ts && Follows(3, ts)
    ensures Read(ExecFrom(s), Means(p), ts)
    decreases p, 0
  {
    match p
    case Simple(items) =>
      SimpleComplete(items, s, ts);
    case Block(inner, marks) =>
      var close := [Symbol(')')] + (ItemTokens(marks) + ts);
      BlockText(Spelled(inner), ItemTokens(marks), ts);
      TokenThen(s, Symbol('('), Spelled(inner) + close);
      LineComplete(inner, Next(s), close);
      BlockComplete(inner, marks, s, ts);
  }

  lemma {:induction false} PipeComplete(p: Spelling, s: string, ts: seq<Token>)
    requires Grammatical(p) && Rank(p) >= 2 && Toks(s) == Spelled(p) + ts && Follows(2, ts)
    ensures Read(PipeFrom(s), Means(p), ts)
    decreases p, 1
  {
    PipeStep(s);
    if p.Bar? {
      var bar := [Symbol('|')] + (Spelled(p.right) + ts);
      Between(Spelled(p.left), Symbol('|'), Spelled(p.right), ts);
      ExecComplete(p.left, s, bar);
      var left := ExecFrom(s);
      TokenThen(left.rest, Symbol('|'), Spelled(p.right) + ts);
      PipeComplete(p.right, Next(left.rest), ts);
    } else {
      ExecComplete(p, s, ts);
    }
  }

  /** The loop of parseline gets to the command p spells, with the line x to go. */
  lemma {:induction false} HeadComplete(p: Spelling, s: string, ts: seq<Token>) returns (x: string)
    requires Grammatical(p) && Rank(p) >= 1 && Toks(s) == Spelled(p) + ts && Follows(1, ts)
    ensures var r := PipeFrom(s); r.Ok? && BacksFrom(r.cmd, r.rest) == BacksFrom(Means(p), x) && Toks(x) == ts
    decreases p, 2
  {
    if p.Amp? {
      Assoc(Spelled(p.inner), [Symbol('&')], ts);
      var y := HeadComplete(p.inner, s, [Symbol('&')] + ts);
      BacksStep(Means(p.inner), y);
      TokenThen(y, Symbol('&'), ts);
      x := Next(y);
    } else {
      PipeComplete(p, s, ts);
      x := PipeFrom(s).rest;
    }
  }

  lemma {:induction false} LineComplete(p: Spelling, s: string, ts: seq<Token>)
    requires Grammatical(p) && Toks(s) == Spelled(p) + ts && Follows(0, ts)
    ensures Read(LineFrom(s), Means(p), ts)
    decreases p, 3
  {
    LineStep(s);
    if p.Semi? {
      var semi := [Symbol(';')] + (Spelled(p.right) + ts);
      Between(Spelled(p.left), Symbol(';'), Spelled(p.right), ts);
      var x := HeadComplete(p.left, s, semi);
      BacksStep(Means(p.left), x);
      var rest := BacksFrom(Means(p.left), x).1;
      TokenThen(rest, Symbol(';'), Spelled(p.right) + ts);
      LineComplete(p.right, Next(rest), ts);
    } else {
      var x := HeadComplete(p, s, ts);
      BacksStep(Means(p), x);
    }
  }

  // ----- The parser and the grammar -----

  ghost predicate Spells(s: string, c: Cmd, p: Spelling) {
    Grammatical(p) && Spelled(p) == Tokens(s) && Means(p) == c
  }

  lemma {:induction false} NothingLeft(s: string)
    ensures Toks(s) == [] <==> Skip(s) == ""
  {
    assert Show(Lexing, 0);
  }

  /** The parser returns a command exactly if the tokens of the line spell it: it drops nothing, invents nothing, and
      refuses no line of the grammar. */
  lemma ParseIff(s: string, c: Cmd)
    ensures Parse(s) == Some(c) <==> exists p :: Spells(s, c, p)
  {
    assert Tokens(s) == Toks(s) by {
      assert Show(Lexing, 0);
    }
    assert ParseLine(s) == LineFrom(s) by {
      assert Show(Parsing, 0);
    }
    if Parse(s) == Some(c) {
      var p := LineSound(s);
      NothingLeft(LineFrom(s).rest);
      assert Spells(s, c, p);
    }
    if p :| Spells(s, c, p) {
      assert Toks(s) == Spelled(p) + [];
      LineComplete(p, s, []);
      NothingLeft(LineFrom(s).rest);
    }
  }

  /** The grammar is unambiguous. */
  lemma OneMeaning(p: Spelling, q: Spelling, s: string)
    requires Grammatical(p) && Grammatical(q) && Spelled(p) == Spelled(q) == Tokens(s)
    ensures Means(p) == Means(q)
  {
    assert Spells(s, Means(p), p) && Spells(s, Means(q), q);
    ParseIff(s, Means(p));
    ParseIff(s, Means(q));
  }
}
