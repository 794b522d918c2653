/**
 The command parser of xv6/sh.c.  The functions give the grammar on the rest of the line; the class
 is the parser itself, with its cursor.
 */
module Shell {
  import opened Basics

  const MAXARGS: nat := 10

  /** Redir sends standard output to `file` if `out`, else takes standard input from it. */
  datatype Cmd =
    | Exec(argv: seq<string>)
    | Redir(cmd: Cmd, file: string, out: bool)
    | Pipe(left: Cmd, right: Cmd)
    | List(left: Cmd, right: Cmd)
    | Back(cmd: Cmd)

  datatype Token = End | Symbol(c: char) | Append | Word(text: string)

  /** A panic, or a command and what is left of the line. */
  datatype Result = Panic | Ok(cmd: Cmd, rest: string)

  predicate IsSpace(c: char) {
    c == ' ' || c == '\t' || c == '\r' || c == '\n' || c == '\U{000B}'
  }

  predicate IsSymbol(c: char) {
    c == '<' || c == '|' || c == '>' || c == '&' || c == ';' || c == '(' || c == ')'
  }

  predicate InWord(c: char) {
    !IsSpace(c) && !IsSymbol(c)
  }

  function Skip(s: string): (r: string)
    ensures |r| <= |s| && (r != "" ==> !IsSpace(r[0]))
  {
    if s != "" && IsSpace(s[0]) then Skip(s[1..]) else s
  }

  /** Length of the word at the start of s. */
  function WordLength(s: string): (n: nat)
    ensures n <= |s| && forall k :: 0 <= k < n ==> InWord(s[k])
    ensures n < |s| ==> !InWord(s[n])
  {
    if s != "" && InWord(s[0]) then 1 + WordLength(s[1..]) else 0
  }

  /** The token at the start of t, which is not a space, and what is left. */
  function Lex(t: string): (r: (Token, string))
    requires t != "" ==> !IsSpace(t[0])
    ensures |r.1| <= |t| && (!r.0.End? ==> |r.1| < |t|)
  {
    if t == "" then (End, t)
    else if t[0] == '>' && |t| > 1 && t[1] == '>' then (Append, t[2..])
    else if IsSymbol(t[0]) then (Symbol(t[0]), t[1..])
    else (Word(t[..WordLength(t)]), t[WordLength(t)..])
  }

  /** gettoken: the next token and the line after it. */
  function GetToken(s: string): (r: (Token, string))
    ensures |r.1| <= |s| && (!r.0.End? ==> |r.1| < |s|)
  {
    var (tok, rest) := Lex(Skip(s));
    (tok, Skip(rest))
  }

  predicate Peek(s: string, toks: set<char>) {
    var t := Skip(s);
    t != "" && t[0] in toks
  }

  datatype Redirection = Redirection(file: string, out: bool)

  datatype Redirections = BadRedirection | Redirections(rs: seq<Redirection>, rest: string)

  /** parseredirs, without the command it is for. */
  function ParseRedirs(rs: seq<Redirection>, s: string): (r: Redirections)
    ensures r.Redirections? ==> |r.rest| <= |s|
    decreases |s|
  {
    if !Peek(s, {'<', '>'}) then Redirections(rs, Skip(s)) else
      var (tok, s1) := GetToken(s);
      var (file, s2) := GetToken(s1);
      if !file.Word? then BadRedirection else ParseRedirs(rs + [Redirection(file.text, tok != Symbol('<'))], s2)
  }

  /** The command with its redirections, the last one outermost. */
  function Wrap(cmd: Cmd, rs: seq<Redirection>): Cmd {
    if rs == [] then cmd else
      var r := rs[|rs| - 1];
      Redir(Wrap(cmd, rs[..|rs| - 1]), r.file, r.out)
  }

  /** The loop of parseexec: arguments and redirections may be mixed. */
  function ParseArgs(argv: seq<string>, rs: seq<Redirection>, s: string): (r: Result)
    ensures r.Ok? ==> |r.rest| <= |s|
    decreases |s|
  {
    if Peek(s, {'|', ')', '&', ';'}) then Ok(Wrap(Exec(argv), rs), Skip(s)) else
      var (tok, s1) := GetToken(s);
      if tok.End? then Ok(Wrap(Exec(argv), rs), s1)
      else if !tok.Word? || |argv| + 1 >= MAXARGS then Panic
      else
        var more := ParseRedirs(rs, s1);
        if more.BadRedirection? then Panic else ParseArgs(argv + [tok.text], more.rs, more.rest)
  }

  function ParseExec(s: string): (r: Result)
    ensures r.Ok? ==> |r.rest| <= |s|
    decreases |s|, 1
  {
    if Peek(s, {'('}) then ParseBlock(s) else
      var rs := ParseRedirs([], s);
      if rs.BadRedirection? then Panic else ParseArgs([], rs.rs, rs.rest)
  }

  function ParseBlock(s: string): (r: Result)
    requires Peek(s, {'('})
    ensures r.Ok? ==> |r.rest| <= |s|
    decreases |s|, 0
  {
    var inner := ParseLine(GetToken(s).1);
    if inner.Panic? || !Peek(inner.rest, {')'}) then Panic else
      var rs := ParseRedirs([], GetToken(inner.rest).1);
      if rs.BadRedirection? then Panic else Ok(Wrap(inner.cmd, rs.rs), rs.rest)
  }

  function ParsePipe(s: string): (r: Result)
    ensures r.Ok? ==> |r.rest| <= |s|
    decreases |s|, 2
  {
    var left := ParseExec(s);
    if left.Panic? then Panic else if !Peek(left.rest, {'|'}) then Ok(left.cmd, Skip(left.rest)) else
      var right := ParsePipe(GetToken(left.rest).1);
      if right.Panic? then Panic else Ok(Pipe(left.cmd, right.cmd), right.rest)
  }

  /** The loop of parseline. */
  function ParseBacks(cmd: Cmd, s: string): (r: (Cmd, string))
    ensures |r.1| <= |s|
    decreases |s|
  {
    if Peek(s, {'&'}) then ParseBacks(Back(cmd), GetToken(s).1) else (cmd, Skip(s))
  }

  function ParseLine(s: string): (r: Result)
    ensures r.Ok? ==> |r.rest| <= |s|
    decreases |s|, 3
  {
    var first := ParsePipe(s);
    if first.Panic? then Panic else
      var (cmd, rest) := ParseBacks(first.cmd, first.rest);
      if !Peek(rest, {';'}) then Ok(cmd, Skip(rest)) else
        var more := ParseLine(GetToken(rest).1);
        if more.Panic? then Panic else Ok(List(cmd, more.cmd), more.rest)
  }

  /** parsecmd: the whole line, or None for a panic. */
  function Parse(s: string): Option<Cmd> {
    var r := ParseLine(s);
    if r.Panic? || Skip(r.rest) != "" then None else Some(r.cmd)
  }

  // ----- Tokens, in terms of the characters of the line -----

  /** The characters that separate words ... */
  predicate Blank(c: char) {
    c in {' ', '\t', '\r', '\n', '\U{000B}'}
  }

  /** ... and those that are tokens. */
  predicate Sign(c: char) {
    c in {'<', '|', '>', '&', ';', '(', ')'}
  }

  predicate Blanks(g: string) {
    forall k :: 0 <= k < |g| ==> Blank(g[k])
  }

  predicate Plain(w: string) {
    w != "" && forall k :: 0 <= k < |w| ==> !Blank(w[k]) && !Sign(w[k])
  }

  /** A token as it is written. */
  function Lettering(tok: Token): string {
    match tok
    case End => ""
    case Symbol(c) => [c]
    case Append => ">>"
    case Word(text) => text
  }

  predicate Writable(tok: Token) {
    match tok
    case End => false
    case Symbol(c) => Sign(c)
    case Append => true
    case Word(text) => Plain(text)
  }

  /** The token ends where the text goes on with this. */
  predicate Apart(tok: Token, text: string) {
    text == "" ||
      match tok
      case Symbol(c) => c != '>' || text[0] != '>'
      case Word(_) => Blank(text[0]) || Sign(text[0])
      case _ => true
  }

  ghost predicate Parted(s: string, g: string, tok: Token, h: string, rest: string) {
    && Blanks(g) && Blanks(h) && (rest != "" ==> !Blank(rest[0]))
    && Writable(tok) && Apart(tok, h + rest) && s == g + (Lettering(tok) + (h + rest))
  }

  /** The first token of the line s is tok, and rest is the line after it and the blanks that follow. */
  ghost predicate Scans(s: string, tok: Token, rest: string) {
    if tok.End? then Blanks(s) && rest == "" else exists g, h :: Parted(s, g, tok, h, rest)
  }

  lemma {:induction false} SkipBlanks(g: string, t: string)
    requires Blanks(g) && (t != "" ==> !Blank(t[0]))
    ensures Skip(g + t) == t
  {
    if g == "" {
      assert g + t == t;
    } else {
      assert (g + t)[1..] == g[1..] + t;
      SkipBlanks(g[1..], t);
    }
  }

  lemma {:induction false} SkippedBlanks(s: string) returns (g: string)
    ensures Blanks(g) && s == g + Skip(s) && (Skip(s) != "" ==> !Blank(Skip(s)[0]))
  {
    if s != "" && IsSpace(s[0]) {
      var h := SkippedBlanks(s[1..]);
      g := [s[0]] + h;
    } else {
      g := "";
    }
  }

  lemma {:induction false} WordAt(w: string, rest: string)
    requires Plain(w) && (rest != "" ==> !InWord(rest[0]))
    ensures WordLength(w + rest) == |w|
  {
    assert (w + rest)[1..] == w[1..] + rest;
    if |w| > 1 {
      WordAt(w[1..], rest);
    }
  }

  lemma LexReads(tok: Token, text: string)
    requires Writable(tok) && Apart(tok, text)
    ensures var t := Lettering(tok) + text; t != "" && !Blank(t[0]) && Lex(t) == (tok, text)
  {
    var t := Lettering(tok) + text;
    match tok
    case Symbol(c) =>
      assert t[0] == c && t[1..] == text && (text != "" ==> t[1] == text[0]);
    case Append =>
      assert t[0] == '>' && t[1] == '>' && t[2..] == text;
    case Word(w) =>
      WordAt(w, text);
      assert t[0] == w[0] && t[..|w|] == w && t[|w|..] == text;
  }

  lemma LexWrites(t: string)
    requires t != "" && !Blank(t[0])
    ensures var (tok, text) := Lex(t); Writable(tok) && Apart(tok, text) && t == Lettering(tok) + text
  {
    if IsSymbol(t[0]) {
      assert t == [t[0]] + t[1..] && (|t| > 1 ==> t == [t[0], t[1]] + t[2..]);
    } else {
      assert t == t[..WordLength(t)] + t[WordLength(t)..];
    }
  }

  /** What gettoken returns, said in characters: it reads blanks, the longest token there is, and blanks. */
  lemma TokenIff(s: string, tok: Token, rest: string)
    ensures GetToken(s) == (tok, rest) <==> Scans(s, tok, rest)
  {
    if GetToken(s) == (tok, rest) {
      var g := SkippedBlanks(s);
      if Skip(s) == "" {
        assert s == g;
      } else {
        LexWrites(Skip(s));
        var h := SkippedBlanks(Lex(Skip(s)).1);
        assert Parted(s, g, tok, h, rest);
      }
    }
    if Scans(s, tok, rest) {
      if tok.End? {
        SkipBlanks(s, "");
        assert s + "" == s;
      } else {
        var g, h :| Parted(s, g, tok, h, rest);
        LexReads(tok, h + rest);
        SkipBlanks(g, Lettering(tok) + (h + rest));
        SkipBlanks(h, rest);
      }
    }
  }

  lemma WordIs(line: string, q: nat, e: nat)
    requires q < e <= |line| && InWord(line[q]) && (forall k :: q <= k < e ==> InWord(line[k]))
    requires (e < |line| ==> !InWord(line[e]))
    ensures Lex(line[q..]) == (Word(line[q..e]), line[e..])
  {
    var t := line[q..];
    var n := WordLength(t);
    assert forall k :: 0 <= k < |t| ==> t[k] == line[q + k];
    assert n == e - q;
    assert t[..n] == line[q..e] && t[n..] == line[e..];
  }

  /** The parser with its cursor s; ok == false is a panic. */
  class Parser {
    const line: string
    var s: nat

    constructor (line: string)
      ensures this.line == line && s == 0
    {
      this.line, s := line, 0;
    }

    ghost function Rest(): string
      requires s <= |line|
      reads `s
    {
      line[s..]
    }

    method SkipSpaces()
      requires s <= |line|
      modifies `s
      ensures old(s) <= s <= |line| && Rest() == Skip(old(Rest()))
    {
      while s < |line| && IsSpace(line[s])
        invariant old(s) <= s <= |line| && Skip(Rest()) == Skip(old(Rest()))
      {
        assert Rest()[1..] == line[s + 1..];
        s := s + 1;
      }
      assert s < |line| ==> Rest()[0] == line[s];
    }

    method PeekAt(toks: set<char>) returns (b: bool)
      requires s <= |line|
      modifies `s
      ensures old(s) <= s <= |line| && Rest() == Skip(old(Rest())) && b == Peek(old(Rest()), toks)
    {
      SkipSpaces();
      b := s < |line| && line[s] in toks;
    }

    method ReadWord() returns (w: string)
      requires s < |line| && InWord(line[s])
      modifies `s
      ensures s <= |line| && Lex(old(Rest())) == (Word(w), Rest())
    {
      var q := s;
      ghost var t := Rest();
      while s < |line| && InWord(line[s])
        invariant q <= s <= |line| && forall k :: q <= k < s ==> InWord(line[k])
      {
        s := s + 1;
      }
      w := line[q..s];
      WordIs(line, q, s);
    }

    method ReadSymbol() returns (tok: Token)
      requires s < |line| && IsSymbol(line[s])
      modifies `s
      ensures s <= |line| && Lex(old(Rest())) == (tok, Rest())
    {
      ghost var t := Rest();
      assert t[1..] == line[s + 1..] && (|t| > 1 ==> t[2..] == line[s + 2..]);
      tok := Symbol(line[s]);
      s := s + 1;
      if tok.c == '>' && s < |line| && line[s] == '>' {
        tok := Append;
        s := s + 1;
      }
    }

    method NextToken() returns (tok: Token)
      requires s <= |line|
      modifies `s
      ensures s <= |line| && GetToken(old(Rest())) == (tok, Rest()) && Scans(old(Rest()), tok, Rest())
    {
      ghost var all := Rest();
      SkipSpaces();
      if s == |line| {
        tok := End;
      } else if IsSymbol(line[s]) {
        tok := ReadSymbol();
      } else {
        var w := ReadWord();
        tok := Word(w);
      }
      SkipSpaces();
      TokenIff(all, tok, Rest());
    }
  
    method ParseRedirections(rs0: seq<Redirection>) returns (ok: bool, rs: seq<Redirection>)
      requires s <= |line|
      modifies `s
      ensures s <= |line| && var r := ParseRedirs(rs0, old(Rest()));
        if ok then r == Redirections(rs, Rest()) else r.BadRedirection?
    {
      rs := rs0;
      ghost var r := ParseRedirs(rs0, Rest());
      var more := PeekAt({'<', '>'});
      while more
        invariant s <= |line| && r == ParseRedirs(rs, Rest())
        invariant more == Peek(Rest(), {'<', '>'}) && Skip(Rest()) == Rest()
        decreases |line| - s
      {
        var tok := NextToken();
        var file := NextToken();
        if !file.Word? { return false, rs; }
        rs := rs + [Redirection(file.text, tok != Symbol('<'))];
        more := PeekAt({'<', '>'});
      }
      ok := true;
    }
  
    /** What a parsing method does: it reads what the grammar says. */
    ghost predicate Reads(r: Result, ok: bool, cmd: Cmd)
      requires s <= |line|
      reads `s
    {
      if ok then r == Ok(cmd, Rest()) else r.Panic?
    }

    /** The loop of parseexec. */
    method ParseArguments(rs0: seq<Redirection>) returns (ok: bool, cmd: Cmd)
      requires s <= |line|
      modifies `s
      ensures s <= |line| && Reads(ParseArgs([], rs0, old(Rest())), ok, cmd)
    {
      var argv: seq<string> := [];
      var rs := rs0;
      ghost var r := ParseArgs([], rs0, Rest());
      cmd := Exec([]);
      var stop := PeekAt({'|', ')', '&', ';'});
      while !stop
        invariant s <= |line| && r == ParseArgs(argv, rs, Rest())
        invariant stop == Peek(Rest(), {'|', ')', '&', ';'}) && Skip(Rest()) == Rest()
        decreases |line| - s
      {
        var tok := NextToken();
        if tok.End? { break; }
        if !tok.Word? { return false, cmd; }
        argv := argv + [tok.text];
        if |argv| >= MAXARGS { return false, cmd; }
        ok, rs := ParseRedirections(rs);
        if !ok { return false, cmd; }
        stop := PeekAt({'|', ')', '&', ';'});
      }
      return true, Wrap(Exec(argv), rs);
    }

    method ParseExecCmd() returns (ok: bool, cmd: Cmd)
      requires s <= |line|
      modifies `s
      ensures s <= |line| && Reads(ParseExec(old(Rest())), ok, cmd)
      decreases |line| - s, 1
    {
      var block := PeekAt({'('});
      if block {
        ok, cmd := ParseBlockCmd();
      } else {
        var rs: seq<Redirection>;
        ok, rs := ParseRedirections([]);
        if !ok { return false, Exec([]); }
        ok, cmd := ParseArguments(rs);
      }
    }

    method ParseBlockCmd() returns (ok: bool, cmd: Cmd)
      requires s <= |line| && Peek(Rest(), {'('})
      modifies `s
      ensures s <= |line| && Reads(ParseBlock(old(Rest())), ok, cmd)
      decreases |line| - s, 0
    {
      var _ := NextToken();
      ok, cmd := ParseLineCmd();
      if !ok { return; }
      var close := PeekAt({')'});
      if !close { return false, cmd; }
      var _ := NextToken();
      var rs: seq<Redirection>;
      ok, rs := ParseRedirections([]);
      if ok { cmd := Wrap(cmd, rs); }
    }

    method ParsePipeCmd() returns (ok: bool, cmd: Cmd)
      requires s <= |line|
      modifies `s
      ensures s <= |line| && Reads(ParsePipe(old(Rest())), ok, cmd)
      decreases |line| - s, 2
    {
      ok, cmd := ParseExecCmd();
      if !ok { return; }
      var more := PeekAt({'|'});
      if more {
        var _ := NextToken();
        var right: Cmd;
        ok, right := ParsePipeCmd();
        cmd := Pipe(cmd, right);
      }
    }

    method ParseLineCmd() returns (ok: bool, cmd: Cmd)
      requires s <= |line|
      modifies `s
      ensures s <= |line| && Reads(ParseLine(old(Rest())), ok, cmd)
      decreases |line| - s, 3
    {
      ok, cmd := ParsePipeCmd();
      if !ok { return; }
      ghost var first := ParsePipe(old(Rest()));
      var back := PeekAt({'&'});
      while back
        invariant old(s) <= s <= |line| && ParseBacks(first.cmd, first.rest) == ParseBacks(cmd, Rest())
        invariant back == Peek(Rest(), {'&'}) && Skip(Rest()) == Rest()
        decreases |line| - s
      {
        var _ := NextToken();
        cmd := Back(cmd);
        back := PeekAt({'&'});
      }
      var more := PeekAt({';'});
      if more {
        var _ := NextToken();
        var right: Cmd;
        ok, right := ParseLineCmd();
        cmd := List(cmd, right);
      }
    }

    method ParseCmd() returns (ok: bool, cmd: Cmd)
      requires s == 0
      modifies `s
      ensures s <= |line| && Parse(line) == if ok then Some(cmd) else None
    {
      assert Rest() == line;
      ok, cmd := ParseLineCmd();
      if ok {
        var _ := PeekAt({});
        ok := s == |line|;
      }
    }
  }
}
