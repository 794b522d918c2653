/**
 The language of xv6/sh.c in characters: a line parses to a command exactly if it is a spelling of the command,
 written with blanks around its tokens.  Which blanks, how many of them, and which of the spellings make no difference.
 */
module ShellText {
  import opened Basics
  import opened Shell
  import opened ShellGrammar

  /** Tokens, each with the blanks after it. */
  datatype Pieces = Blankness | Piece(tok: Token, gap: string, rest: Pieces)

  function Text(x: Pieces): string {
    match x
    case Blankness => ""
    case Piece(tok, gap, rest) => Lettering(tok) + (gap + Text(rest))
  }

  function TokensIn(x: Pieces): seq<Token> {
    match x
    case Blankness => []
    case Piece(tok, _, rest) => [tok] + TokensIn(rest)
  }

  /** Only blanks are between tokens, and where there are none the tokens do not run into one another. */
  predicate Legal(x: Pieces) {
    match x
    case Blankness => true
    case Piece(tok, gap, rest) => Writable(tok) && Blanks(gap) && Apart(tok, gap + Text(rest)) && Legal(rest)
  }

  lemma Start(x: Pieces)
    requires Legal(x)
    ensures Text(x) != "" ==> !Blank(Text(x)[0])
  {
    match x
    case Blankness =>
    case Piece(tok, gap, rest) =>
      LexReads(tok, gap + Text(rest));
  }

  lemma {:induction false} TokensOfText(g: string, x: Pieces)
    requires Blanks(g) && Legal(x)
    ensures Tokens(g + Text(x)) == TokensIn(x)
    decreases x
  {
    var s := g + Text(x);
    match x
    case Blankness =>
      TokenIff(s, End, "");
    case Piece(tok, gap, rest) =>
      Start(rest);
      assert Parted(s, g, tok, gap, Text(rest));
      TokenIff(s, tok, Text(rest));
      TokensOfText("", rest);
      assert "" + Text(rest) == Text(rest);
  }

  lemma {:induction false} TextOfTokens(s: string) returns (g: string, x: Pieces)
    ensures Blanks(g) && Legal(x) && s == g + Text(x) && TokensIn(x) == Tokens(s)
    decreases |s|
  {
    var (tok, rest) := GetToken(s);
    TokenIff(s, tok, rest);
    if tok.End? {
      g, x := s, Blankness;
    } else {
      var h;
      g, h :| Parted(s, g, tok, h, rest);
      var none, y := TextOfTokens(rest);
      assert none == "";
      assert rest == Text(y);
      x := Piece(tok, h, y);
    }
  }

  ghost predicate Writes(s: string, c: Cmd, p: Spelling, g: string, x: Pieces) {
    && Grammatical(p) && Means(p) == c && Blanks(g) && Legal(x) && TokensIn(x) == Spelled(p) && s == g + Text(x)
  }

  /** A line parses to a command exactly if it is some spelling of it, written out with blanks. */
  lemma ParsesIffWritten(s: string, c: Cmd)
    ensures Parse(s) == Some(c) <==> exists p, g, x :: Writes(s, c, p, g, x)
  {
    ParseIff(s, c);
    if Parse(s) == Some(c) {
      var p :| Spells(s, c, p);
      var g, x := TextOfTokens(s);
      assert Writes(s, c, p, g, x);
    }
    if p, g, x :| Writes(s, c, p, g, x) {
      TokensOfText(g, x);
      assert Spells(s, c, p);
    }
  }

  // ----- Blanks -----

  lemma SameTokens(s: string, t: string)
    requires Tokens(s) == Tokens(t)
    ensures Parse(s) == Parse(t)
  {
    forall c
      ensures Parse(s) == Some(c) <==> Parse(t) == Some(c)
    {
      ParseIff(s, c);
      ParseIff(t, c);
      assert forall p :: Spells(s, c, p) <==> Spells(t, c, p);
    }
    if Parse(s).Some? {
      assert Parse(s) == Some(Parse(s).value);
    } else if Parse(t).Some? {
      assert Parse(t) == Some(Parse(t).value);
    }
  }

  /** The lines differ at most in which blanks they have. */
  predicate Alike(s: string, t: string) {
    |s| == |t| && forall k :: 0 <= k < |s| ==> s[k] == t[k] || (Blank(s[k]) && Blank(t[k]))
  }

  lemma AlikeParts(a: string, b: string, t: string)
    requires Alike(a + b, t)
    ensures |a| <= |t| && t == t[..|a|] + t[|a|..] && Alike(a, t[..|a|]) && Alike(b, t[|a|..])
  {
    assert forall k :: 0 <= k < |b| ==> (a + b)[|a| + k] == b[k];
    assert forall k :: 0 <= k < |a| ==> (a + b)[k] == a[k];
  }

  lemma TokenAlike(tok: Token, t: string)
    requires Writable(tok) && Alike(Lettering(tok), t)
    ensures t == Lettering(tok)
  {
    var a := Lettering(tok);
    assert forall k :: 0 <= k < |a| ==> !Blank(a[k]);
  }

  lemma {:induction false} Reblank(x: Pieces, t: string) returns (y: Pieces)
    requires Legal(x) && Alike(Text(x), t)
    ensures Legal(y) && Text(y) == t && TokensIn(y) == TokensIn(x)
    decreases x
  {
    match x
    case Blankness =>
      y := Blankness;
    case Piece(tok, gap, rest) =>
      var n := |Lettering(tok)|;
      AlikeParts(Lettering(tok), gap + Text(rest), t);
      TokenAlike(tok, t[..n]);
      var u := t[n..];
      AlikeParts(gap, Text(rest), u);
      var z := Reblank(rest, u[|gap|..]);
      y := Piece(tok, u[..|gap|], z);
  }

  /** A blank is as good as another: space, tab, carriage return, newline or vertical tab. */
  lemma BlanksAlike(s: string, t: string)
    requires Alike(s, t)
    ensures Parse(s) == Parse(t)
  {
    var g, x := TextOfTokens(s);
    AlikeParts(g, Text(x), t);
    var y := Reblank(x, t[|g|..]);
    TokensOfText(t[..|g|], y);
    SameTokens(s, t);
  }

  lemma {:induction false} BlanksAfter(x: Pieces, h: string) returns (y: Pieces)
    requires Legal(x) && Blanks(h) && x.Piece?
    ensures Legal(y) && Text(y) == Text(x) + h && TokensIn(y) == TokensIn(x)
  {
    var a, b := Lettering(x.tok), x.gap + Text(x.rest);
    Assoc(a, b, h);
    Assoc(x.gap, Text(x.rest), h);
    ApartAfter(x.tok, b, h);
    if x.rest.Blankness? {
      y := Piece(x.tok, x.gap + h, Blankness);
      assert b == x.gap && (x.gap + h) + "" == x.gap + h;
    } else {
      var z := BlanksAfter(x.rest, h);
      y := Piece(x.tok, x.gap, z);
    }
  }

  lemma ApartAfter(tok: Token, text: string, h: string)
    requires Apart(tok, text) && Blanks(h)
    ensures Apart(tok, text + h)
  {
    if text == "" {
      assert text + h == h;
    } else {
      assert (text + h)[0] == text[0];
    }
  }

  /** Blanks before and after a line, such as the newline it ends with, make no difference. */
  lemma BlanksAround(g: string, s: string, h: string)
    requires Blanks(g) && Blanks(h)
    ensures Parse(g + s + h) == Parse(s)
  {
    var g1, x := TextOfTokens(s);
    if x.Blankness? {
      assert g + s + h == (g + g1 + h) + Text(x);
      TokensOfText(g + g1 + h, x);
    } else {
      var y := BlanksAfter(x, h);
      assert g + s + h == (g + g1) + Text(y);
      TokensOfText(g + g1, y);
    }
    SameTokens(g + s + h, s);
  }

  lemma {:induction false} TextsJoin(x: Pieces, h: string, y: Pieces) returns (z: Pieces)
    requires Legal(x) && Legal(y) && Blanks(h) && h != "" && x.Piece?
    ensures Legal(z) && Text(z) == Text(x) + (h + Text(y)) && TokensIn(z) == TokensIn(x) + TokensIn(y)
  {
    var a, b, c := Lettering(x.tok), x.gap + Text(x.rest), h + Text(y);
    Assoc(a, b, c);
    Assoc(x.gap, Text(x.rest), c);
    ApartBefore(x.tok, b, c);
    if x.rest.Blankness? {
      z := Piece(x.tok, x.gap + h, y);
      assert b == x.gap;
      Assoc(x.gap, h, Text(y));
    } else {
      var w := TextsJoin(x.rest, h, y);
      z := Piece(x.tok, x.gap, w);
      Assoc([x.tok], TokensIn(x.rest), TokensIn(y));
    }
  }

  lemma ApartBefore(tok: Token, text: string, c: string)
    requires Apart(tok, text) && c != "" && Blank(c[0])
    ensures Apart(tok, text + c)
  {
    if text == "" {
      assert text + c == c;
    } else {
      assert (text + c)[0] == text[0];
    }
  }

  /** Blanks part a line: it has the tokens of what is before them and then those of what is after them. */
  lemma BlanksPart(a: string, h: string, b: string)
    requires Blanks(h) && h != ""
    ensures Tokens(a + h + b) == Tokens(a) + Tokens(b)
  {
    var g1, x := TextOfTokens(a);
    var g2, y := TextOfTokens(b);
    Regroup(g1, Text(x), h, g2, Text(y));
    if x.Blankness? {
      assert Text(x) == "" && TokensIn(x) == [];
      TokensOfText(g1 + (h + g2), y);
    } else {
      var z := TextsJoin(x, h + g2, y);
      TokensOfText(g1, z);
    }
  }

  lemma Regroup(g: string, t: string, h: string, g': string, u: string)
    ensures (g + t) + h + (g' + u) == g + (t + ((h + g') + u))
    ensures t == "" ==> (g + t) + h + (g' + u) == (g + (h + g')) + u
  {
    Assoc(g + t, h, g' + u);
    Assoc(g, t, h + (g' + u));
    Assoc(h, g', u);
    if t == "" {
      assert t + ((h + g') + u) == (h + g') + u;
      Assoc(g, h + g', u);
    }
  }

  /** How many blanks there are makes no difference either. */
  lemma BlanksBetween(a: string, g: string, h: string, b: string)
    requires Blanks(g) && Blanks(h) && g != "" && h != ""
    ensures Parse(a + g + b) == Parse(a + h + b)
  {
    BlanksPart(a, g, b);
    BlanksPart(a, h, b);
    SameTokens(a + g + b, a + h + b);
  }

  /** parsecmd gets the line with its newline. */
  lemma NewlineAfter(s: string)
    ensures Parse(s + "\n") == Parse(s)
  {
    BlanksAround("", s, "\n");
    assert "" + s == s;
  }

  // ----- Printing -----

  predicate PlainWords(ws: seq<string>) {
    forall k :: 0 <= k < |ws| ==> Plain(ws[k])
  }

  /** Words that can be read, and fewer than 10 arguments. */
  ghost predicate Printable(c: Cmd) {
    match c
    case Exec(argv) => |argv| < 10 && PlainWords(argv)
    case Redir(cmd, file, _) => Printable(cmd) && Plain(file)
    case Pipe(left, right) => Printable(left) && Printable(right)
    case List(left, right) => Printable(left) && Printable(right)
    case Back(cmd) => Printable(cmd)
  }

  /** Which parts are written in parentheses that they do not need, and which output redirections with >>. */
  datatype Style = Style(extra: Cmd -> bool, twice: Redirection -> bool)

  /** The command that a chain of redirections is written after. */
  function Core(c: Cmd, style: Style): (d: Cmd)
    requires c.Redir?
    ensures d < c
  {
    if c.cmd.Redir? && !style.extra(c.cmd) then Core(c.cmd, style) else c.cmd
  }

  function Chain(c: Cmd, style: Style): seq<Redirection>
    requires c.Redir?
  {
    (if c.cmd.Redir? && !style.extra(c.cmd) then Chain(c.cmd, style) else []) + [Redirection(c.file, c.out)]
  }

  /** How tightly a command binds: a list, a line of background marks, a pipe, or a single command. */
  function Level(c: Cmd): nat {
    if c.List? then 0 else if c.Back? then 1 else if c.Pipe? then 2 else 3
  }

  function MarkItems(rs: seq<Redirection>, style: Style): Items {
    if rs == [] then Nil else
      var sign := if !rs[0].out then Symbol('<') else if style.twice(rs[0]) then Append else Symbol('>');
      Mark(sign, rs[0].file, MarkItems(rs[1..], style))
  }

  function ArgItems(argv: seq<string>, marks: Items): Items {
    if argv == [] then marks else Arg(argv[0], ArgItems(argv[1..], marks))
  }

  function Spell(c: Cmd, style: Style): Spelling
    decreases c, 0
  {
    match c
    case Exec(argv) => Simple(ArgItems(argv, Nil))
    case Redir(_, _, _) =>
      var core, marks := Core(c, style), MarkItems(Chain(c, style), style);
      if core.Exec? && !style.extra(core) then Simple(ArgItems(core.argv, marks)) else Block(Spell(core, style), marks)
    case Pipe(left, right) => Bar(SpellPart(left, 3, style), SpellPart(right, 2, style))
    case List(left, right) => Semi(SpellPart(left, 1, style), SpellPart(right, 0, style))
    case Back(cmd) => Amp(SpellPart(cmd, 1, style))
  }

  /** A part where only commands of level k may be without parentheses. */
  function SpellPart(c: Cmd, k: nat, style: Style): Spelling
    decreases c, 1
  {
    if style.extra(c) || Level(c) < k then Block(Spell(c, style), Nil) else Spell(c, style)
  }

  lemma {:induction false} MarkItemsMean(rs: seq<Redirection>, style: Style)
    ensures var x := MarkItems(rs, style); Signed(x) && NoArg(x) && MarksIn(x) == rs && ArgsIn(x) == []
  {
    if rs != [] {
      MarkItemsMean(rs[1..], style);
      assert rs == [rs[0]] + rs[1..];
    }
  }

  lemma {:induction false} ArgItemsMean(argv: seq<string>, marks: Items)
    requires Signed(marks) && ArgsIn(marks) == []
    ensures var x := ArgItems(argv, marks); Signed(x) && MarksIn(x) == MarksIn(marks) && ArgsIn(x) == argv
  {
    if argv != [] {
      ArgItemsMean(argv[1..], marks);
      assert argv == [argv[0]] + argv[1..];
    }
  }

  lemma WrapLast(c: Cmd, rs: seq<Redirection>, r: Redirection)
    ensures Wrap(c, rs + [r]) == Redir(Wrap(c, rs), r.file, r.out)
  {
    assert (rs + [r])[..|rs|] == rs;
  }

  /** A chain of redirections around its core. */
  lemma {:induction false} Unchain(c: Cmd, style: Style)
    requires c.Redir? && Printable(c)
    ensures Wrap(Core(c, style), Chain(c, style)) == c && Printable(Core(c, style))
  {
    var r := Redirection(c.file, c.out);
    if c.cmd.Redir? && !style.extra(c.cmd) {
      Unchain(c.cmd, style);
      WrapLast(Core(c, style), Chain(c.cmd, style), r);
    } else {
      WrapLast(c.cmd, [], r);
    }
  }

  lemma {:induction false} SpellMeans(c: Cmd, style: Style)
    requires Printable(c)
    ensures var p := Spell(c, style); Grammatical(p) && Means(p) == c && Rank(p) == Level(c)
    decreases c, 0
  {
    match c
    case Exec(argv) =>
      ArgItemsMean(argv, Nil);
    case Redir(_, _, _) =>
      Unchain(c, style);
      var core, rs := Core(c, style), Chain(c, style);
      MarkItemsMean(rs, style);
      if core.Exec? && !style.extra(core) {
        ArgItemsMean(core.argv, MarkItems(rs, style));
      } else {
        SpellMeans(core, style);
      }
    case Pipe(left, right) =>
      PartMeans(left, 3, style);
      PartMeans(right, 2, style);
    case List(left, right) =>
      PartMeans(left, 1, style);
      PartMeans(right, 0, style);
    case Back(cmd) =>
      PartMeans(cmd, 1, style);
  }

  lemma {:induction false} PartMeans(c: Cmd, k: nat, style: Style)
    requires Printable(c) && k <= 3
    ensures var p := SpellPart(c, k, style); Grammatical(p) && Means(p) == c && Rank(p) >= k
    decreases c, 1
  {
    SpellMeans(c, style);
  }

  /** A spelling of a command, with any blanks around its tokens, parses to the command. */
  lemma SpellingParses(c: Cmd, style: Style, g: string, x: Pieces)
    requires Printable(c) && Blanks(g) && Legal(x) && TokensIn(x) == Spelled(Spell(c, style))
    ensures Parse(g + Text(x)) == Some(c)
  {
    SpellMeans(c, style);
    assert Writes(g + Text(x), c, Spell(c, style), g, x);
    ParsesIffWritten(g + Text(x), c);
  }

  predicate AllWritable(ts: seq<Token>) {
    forall k :: 0 <= k < |ts| ==> Writable(ts[k])
  }

  /** Tokens with blanks after each of them: gaps(n) where n more tokens follow. */
  function Laid(ts: seq<Token>, gaps: nat -> string): Pieces {
    if ts == [] then Blankness else Piece(ts[0], gaps(|ts| - 1), Laid(ts[1..], gaps))
  }

  ghost predicate AllBlank(gaps: nat -> string) {
    forall n :: Blanks(gaps(n)) && gaps(n) != ""
  }

  lemma {:induction false} LaidLegal(ts: seq<Token>, gaps: nat -> string)
    requires AllWritable(ts) && AllBlank(gaps)
    ensures Legal(Laid(ts, gaps)) && TokensIn(Laid(ts, gaps)) == ts
  {
    if ts != [] {
      LaidLegal(ts[1..], gaps);
      assert ts == [ts[0]] + ts[1..];
    }
  }

  // ----- The tokens of printable commands can be written, and those are the commands the parser returns -----

  ghost predicate PlainFiles(rs: seq<Redirection>) {
    forall k :: 0 <= k < |rs| ==> Plain(rs[k].file)
  }

  lemma JoinWritable(a: seq<Token>, b: seq<Token>)
    ensures AllWritable(a + b) <==> AllWritable(a) && AllWritable(b)
  {
    if AllWritable(a + b) {
      assert forall k :: 0 <= k < |a| ==> a[k] == (a + b)[k];
      assert forall k :: 0 <= k < |b| ==> b[k] == (a + b)[|a| + k];
    }
  }

  lemma JoinPlain(w: string, ws: seq<string>)
    ensures PlainWords([w] + ws) <==> Plain(w) && PlainWords(ws)
  {
    if PlainWords([w] + ws) {
      assert ([w] + ws)[0] == w && forall k :: 0 <= k < |ws| ==> ws[k] == ([w] + ws)[1 + k];
    }
  }

  lemma JoinFiles(r: Redirection, rs: seq<Redirection>)
    ensures PlainFiles([r] + rs) <==> Plain(r.file) && PlainFiles(rs)
  {
    if PlainFiles([r] + rs) {
      assert ([r] + rs)[0] == r && forall k :: 0 <= k < |rs| ==> rs[k] == ([r] + rs)[1 + k];
    }
  }

  lemma {:induction false} ItemsWritable(x: Items)
    requires Signed(x)
    ensures AllWritable(ItemTokens(x)) <==> PlainWords(ArgsIn(x)) && PlainFiles(MarksIn(x))
  {
    match x
    case Nil =>
    case Arg(word, rest) =>
      ItemsWritable(rest);
      JoinWritable([Word(word)], ItemTokens(rest));
      assert AllWritable([Word(word)]) <==> Plain(word) by {
        assert [Word(word)][0] == Word(word);
      }
      JoinPlain(word, ArgsIn(rest));
    case Mark(op, file, rest) =>
      ItemsWritable(rest);
      JoinWritable([op], [Word(file)] + ItemTokens(rest));
      JoinWritable([Word(file)], ItemTokens(rest));
      assert AllWritable([op]) && (AllWritable([Word(file)]) <==> Plain(file)) by {
        assert [Word(file)][0] == Word(file);
      }
      JoinFiles(Redirection(file, op != Symbol('<')), MarksIn(rest));
  }

  lemma {:induction false} WrapPrintable(c: Cmd, rs: seq<Redirection>)
    ensures Printable(Wrap(c, rs)) <==> Printable(c) && PlainFiles(rs)
  {
    if rs != [] {
      var n := |rs| - 1;
      WrapPrintable(c, rs[..n]);
      assert PlainFiles(rs) <==> PlainFiles(rs[..n]) && Plain(rs[n].file);
    }
  }

  /** The tokens of a spelling can be written exactly if the command can be printed. */
  lemma {:induction false} WritableIff(p: Spelling)
    requires Grammatical(p)
    ensures AllWritable(Spelled(p)) <==> Printable(Means(p))
  {
    match p
    case Simple(items) =>
      ItemsWritable(items);
      WrapPrintable(Exec(ArgsIn(items)), MarksIn(items));
    case Block(inner, marks) =>
      WritableIff(inner);
      ItemsWritable(marks);
      NoArgs(marks);
      WrapPrintable(Means(inner), MarksIn(marks));
      JoinWritable([Symbol('(')], Spelled(inner) + ([Symbol(')')] + ItemTokens(marks)));
      JoinWritable(Spelled(inner), [Symbol(')')] + ItemTokens(marks));
      JoinWritable([Symbol(')')], ItemTokens(marks));
    case Bar(left, right) =>
      WritableIff(left);
      WritableIff(right);
      JoinWritable(Spelled(left), [Symbol('|')] + Spelled(right));
      JoinWritable([Symbol('|')], Spelled(right));
    case Amp(inner) =>
      WritableIff(inner);
      JoinWritable(Spelled(inner), [Symbol('&')]);
    case Semi(left, right) =>
      WritableIff(left);
      WritableIff(right);
      JoinWritable(Spelled(left), [Symbol(';')] + Spelled(right));
      JoinWritable([Symbol(';')], Spelled(right));
  }

  lemma {:induction false} NoArgs(x: Items)
    requires NoArg(x)
    ensures ArgsIn(x) == []
  {
    if x.Mark? {
      NoArgs(x.rest);
    }
  }

  /** The line for a command: blanks, and its tokens with blanks after each. */
  function Print(c: Cmd, style: Style, g: string, gaps: nat -> string): string {
    g + Text(Laid(Spelled(Spell(c, style)), gaps))
  }

  /** Parsing undoes printing, with all parentheses, only the needed ones, or any in between; with > or >>; and with
      any blanks between the tokens and at both ends. */
  lemma RoundTrip(c: Cmd, style: Style, g: string, gaps: nat -> string)
    requires Printable(c) && Blanks(g) && AllBlank(gaps)
    ensures Parse(Print(c, style, g, gaps)) == Some(c)
  {
    SpellMeans(c, style);
    WritableIff(Spell(c, style));
    LaidLegal(Spelled(Spell(c, style)), gaps);
    SpellingParses(c, style, g, Laid(Spelled(Spell(c, style)), gaps));
  }

  lemma {:induction false} LegalWritable(x: Pieces)
    requires Legal(x)
    ensures AllWritable(TokensIn(x))
  {
    if x.Piece? {
      LegalWritable(x.rest);
    }
  }

  /** Every command the parser returns can be printed, as a line with the same meaning. */
  lemma PrintParses(s: string, style: Style, g: string, gaps: nat -> string)
    requires Parse(s).Some? && Blanks(g) && AllBlank(gaps)
    ensures Parse(Print(Parse(s).value, style, g, gaps)) == Parse(s)
  {
    var c := Parse(s).value;
    ParseIff(s, c);
    var p :| Spells(s, c, p);
    var g1, x := TextOfTokens(s);
    LegalWritable(x);
    WritableIff(p);
    RoundTrip(c, style, g, gaps);
  }
}
