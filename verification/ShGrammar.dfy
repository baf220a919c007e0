/** The language of the shell's command lines, without reference to the parser: lines, their
    lexemes and their meaning. The parser of Sh accepts a line exactly when its lexemes are
    those of a line of the grammar, and gives it the grammar's meaning. */
module ShGrammar {
  import opened Options
  import opened Sh

  // ---------- lexemes ----------

  datatype Lexeme = WordL(text: string) | SymL(c: char) | AppendL

  function LexemeOf(s: string, t: Token): Lexeme
    requires t.kind != Eof
  {
    match t.kind
    case Symbol(c) => SymL(c)
    case Append => AppendL
    case Word => WordL(Text(s, t.at))
  }

  /** All that gettoken finds from i on. */
  function Lex(s: string, i: nat): seq<Lexeme>
    requires i <= |s|
    decreases |s| - i
  {
    var t := GetToken(s, i);
    if t.kind == Eof then [] else [LexemeOf(s, t)] + Lex(s, t.next)
  }

  // ---------- the grammar ----------

  datatype Op = Less | Greater | GreaterGreater

  datatype Redirect = Redirect(op: Op, file: string)

  datatype Item = Arg(text: string) | Red(r: Redirect)

  datatype Command =
    | Simple(items: seq<Item>)                        // words and redirections in any order
    | Block(line: Line, redirects: seq<Redirect>)     // ( line ) and redirections

  datatype Pipeline = Single(c: Command) | Piped(c: Command, rest: Pipeline)

  datatype Line =
    | Final(p: Pipeline, marks: nat)                  // marks is the number of '&'
    | Then(p: Pipeline, marks: nat, rest: Line)       // ... ';' rest

  function OpLexeme(op: Op): Lexeme {
    match op
    case Less => SymL('<')
    case Greater => SymL('>')
    case GreaterGreater => AppendL
  }

  function RedirectLexemes(rs: seq<Redirect>): seq<Lexeme> {
    if rs == [] then [] else [OpLexeme(rs[0].op), WordL(rs[0].file)] + RedirectLexemes(rs[1..])
  }

  function ItemLexemes(items: seq<Item>): seq<Lexeme> {
    if items == [] then []
    else
      (match items[0]
       case Arg(w) => [WordL(w)]
       case Red(r) => [OpLexeme(r.op), WordL(r.file)]) + ItemLexemes(items[1..])
  }

  function Marks(n: nat): seq<Lexeme> { seq(n, _ => SymL('&')) }

  function CommandLexemes(c: Command): seq<Lexeme>
    decreases c, 0
  {
    match c
    case Simple(items) => ItemLexemes(items)
    case Block(line, rs) => [SymL('(')] + (LineLexemes(line) + ([SymL(')')] + RedirectLexemes(rs)))
  }

  function PipelineLexemes(p: Pipeline): seq<Lexeme>
    decreases p, 1
  {
    match p
    case Single(c) => CommandLexemes(c)
    case Piped(c, rest) => CommandLexemes(c) + ([SymL('|')] + PipelineLexemes(rest))
  }

  function LineLexemes(line: Line): seq<Lexeme>
    decreases line, 2
  {
    match line
    case Final(p, n) => PipelineLexemes(p) + Marks(n)
    case Then(p, n, rest) => PipelineLexemes(p) + (Marks(n) + ([SymL(';')] + LineLexemes(rest)))
  }

  // ---------- its meaning ----------

  function Args(items: seq<Item>): seq<string> {
    if items == [] then [] else (if items[0].Arg? then [items[0].text] else []) + Args(items[1..])
  }

  function Reds(items: seq<Item>): seq<Redirect> {
    if items == [] then [] else (if items[0].Red? then [items[0].r] else []) + Reds(items[1..])
  }

  /** The redirections around a command, the first innermost. */
  function Redirected(t: Tree, rs: seq<Redirect>): Tree
    decreases |rs|
  {
    if rs == [] then t else Redirected(TRedir(t, rs[0].file, rs[0].op != Less), rs[1..])
  }

  function Marked(t: Tree, n: nat): Tree
    decreases n
  {
    if n == 0 then t else Marked(TBack(t), n - 1)
  }

  function CommandTree(c: Command): Tree
    decreases c, 0
  {
    match c
    case Simple(items) => Redirected(TExec(Args(items)), Reds(items))
    case Block(line, rs) => Redirected(LineTree(line), rs)
  }

  /** A pipeline is nested to the right. */
  function PipelineTree(p: Pipeline): Tree
    decreases p, 1
  {
    match p
    case Single(c) => CommandTree(c)
    case Piped(c, rest) => TPipe(CommandTree(c), PipelineTree(rest))
  }

  /** The marks apply to the whole pipeline before them, and a list is nested to the right. */
  function LineTree(line: Line): Tree
    decreases line, 2
  {
    match line
    case Final(p, n) => Marked(PipelineTree(p), n)
    case Then(p, n, rest) => TList(Marked(PipelineTree(p), n), LineTree(rest))
  }

  /** No simple command has more arguments than argv has room for. */
  predicate FitsCommand(c: Command)
    decreases c, 0
  {
    match c
    case Simple(items) => |Args(items)| < MAXARGS
    case Block(line, rs) => FitsLine(line)
  }

  predicate FitsPipeline(p: Pipeline)
    decreases p, 1
  {
    FitsCommand(p.c) && (p.Piped? ==> FitsPipeline(p.rest))
  }

  predicate FitsLine(line: Line)
    decreases line, 2
  {
    FitsPipeline(line.p) && (line.Then? ==> FitsLine(line.rest))
  }

  // ---------- positions and lexemes ----------

  function Head(l: Lexeme): char {
    match l
    case SymL(c) => c
    case AppendL => '>'
    case WordL(w) => if w == "" then ' ' else w[0]
  }

  lemma LexStep(s: string, i: nat)
    requires i <= |s|
    ensures var t := GetToken(s, i);
      Lex(s, i) == if t.kind == Eof then [] else [LexemeOf(s, t)] + Lex(s, t.next)
  {
  }

  lemma LexSkip(s: string, i: nat)
    requires i <= |s|
    ensures Lex(s, Skip(s, i)) == Lex(s, i)
  {
    SkipTwice(s, i);
  }

  /** peek looks at the first character of the next lexeme. */
  lemma PeekHead(s: string, i: nat, toks: string)
    requires i <= |s|
    ensures PeekAt(s, i, toks) <==> Lex(s, i) != [] && Head(Lex(s, i)[0]) in toks
  {
    var t := GetToken(s, i);
    if t.kind == Word { assert Text(s, t.at)[0] == s[t.at.q]; }
  }

  /** What kind of lexeme starts with a symbol. */
  lemma HeadKind(s: string, i: nat)
    requires i <= |s| && Lex(s, i) != []
    ensures var t, l := GetToken(s, i), Lex(s, i)[0];
      && t.kind != Eof && l == LexemeOf(s, t) && (l.WordL? <==> t.kind == Word) && (IsSymbol(Head(l)) <==> !l.WordL?)
      && (Head(l) != '>' && !l.WordL? ==> l == SymL(Head(l))) && Lex(s, t.next) == Lex(s, i)[1..]
  {
    var t := GetToken(s, i);
    if t.kind == Word { assert Text(s, t.at)[0] == s[t.at.q]; }
  }

  // ---------- redirections ----------

  /** The spans that parseredirs found say rs. */
  ghost predicate SameRedirects(s: string, sp: seq<Redirection>, rs: seq<Redirect>) {
    |sp| == |rs| &&
    forall i :: 0 <= i < |rs| ==> Text(s, sp[i].file) == rs[i].file && sp[i].out == (rs[i].op != Less)
  }

  lemma Assoc<T>(a: seq<T>, b: seq<T>, c: seq<T>)
    ensures a + b + c == a + (b + c)
  {
  }

  lemma SameConcat(s: string, a: seq<Redirection>, b: seq<Redirection>, x: seq<Redirect>, y: seq<Redirect>)
    requires SameRedirects(s, a, x) && SameRedirects(s, b, y)
    ensures SameRedirects(s, a + b, x + y)
  {
    hide Text;
  }

  lemma {:induction false} RedirectConcat(x: seq<Redirect>, y: seq<Redirect>)
    ensures RedirectLexemes(x + y) == RedirectLexemes(x) + RedirectLexemes(y)
    decreases |x|
  {
    if x == [] {
      assert x + y == y;
    } else {
      assert (x + y)[1..] == x[1..] + y;
      RedirectConcat(x[1..], y);
    }
  }

  /** parseredirs by its first redirection, in lexemes. */
  lemma FirstRedirect(s: string, i: nat) returns (op: Op, w: Token)
    requires i <= |s| && PeekAt(s, i, "<>")
    ensures var t := GetToken(s, i);
      w == GetToken(s, t.next) && w.next <= |s| && |s| - w.next < |s| - i && (op != Less <==> t.kind != Symbol('<'))
    ensures w.kind == Word ==> Lex(s, i) == [OpLexeme(op), WordL(Text(s, w.at))] + Lex(s, w.next)
    ensures Lex(s, i)[0] == OpLexeme(op) && (Lex(s, i)[1..] == [] || !Lex(s, i)[1].WordL? <==> w.kind != Word)
  {
    hide GetToken, PeekAt, Lex, Text;
    PeekHead(s, i, "<>");
    HeadKind(s, i);
    var t := GetToken(s, i);
    op := if t.kind == Symbol('<') then Less else if t.kind == Append then GreaterGreater else Greater;
    w := GetToken(s, t.next);
    LexStep(s, i);
    LexStep(s, t.next);
  }

  lemma {:induction false} RedirsSound(s: string, i: nat) returns (rs: seq<Redirect>)
    requires i <= |s| && Redirs(s, i).Ok?
    ensures Lex(s, i) == RedirectLexemes(rs) + Lex(s, Redirs(s, i).pos) && SameRedirects(s, Redirs(s, i).value, rs)
    decreases |s| - i
  {
    hide GetToken, PeekAt, Skip, Lex, Text;
    if PeekAt(s, i, "<>") {
      var op, w := FirstRedirect(s, i);
      RedirsFirst(s, i);
      var more := RedirsSound(s, w.next);
      rs := [Redirect(op, Text(s, w.at))] + more;
      assert rs[1..] == more;
    } else {
      rs := [];
      LexSkip(s, i);
    }
  }

  ghost predicate NoRedirect(ls: seq<Lexeme>) { ls == [] || Head(ls[0]) !in "<>" }

  lemma RedirectHead(rs: seq<Redirect>, rest: seq<Lexeme>, l: seq<Lexeme>)
    requires rs != [] && l == RedirectLexemes(rs) + rest
    ensures |l| >= 2 && l[0] == OpLexeme(rs[0].op) && l[1] == WordL(rs[0].file)
    ensures l[2..] == RedirectLexemes(rs[1..]) + rest && Head(l[0]) in "<>"
  {
  }

  lemma OpDiffers(a: Op, b: Op)
    requires OpLexeme(a) == OpLexeme(b)
    ensures a == b
  {
  }

  lemma SameFirst(s: string, a: Redirection, b: seq<Redirection>, rs: seq<Redirect>)
    requires rs != [] && SameRedirects(s, b, rs[1..])
    requires Text(s, a.file) == rs[0].file && a.out == (rs[0].op != Less)
    ensures SameRedirects(s, [a] + b, rs)
  {
  }

  lemma {:induction false} RedirsComplete(s: string, i: nat, rs: seq<Redirect>, rest: seq<Lexeme>)
    requires i <= |s| && Lex(s, i) == RedirectLexemes(rs) + rest && NoRedirect(rest)
    ensures var r := Redirs(s, i); r.Ok? && Lex(s, r.pos) == rest && SameRedirects(s, r.value, rs)
    decreases |rs|
  {
    hide GetToken, PeekAt, Skip, Lex, Text, RedirectLexemes, OpLexeme, SameRedirects, Redirs;
    PeekHead(s, i, "<>");
    if rs == [] {
      NoneComplete(s, i, rest);
    } else {
      RedirectHead(rs, rest, Lex(s, i));
      var op, w := FirstRedirect(s, i);
      OpDiffers(op, rs[0].op);
      TwoOff(OpLexeme(op), WordL(Text(s, w.at)), Lex(s, w.next));
      RedirsComplete(s, w.next, rs[1..], rest);
      RedirsFirst(s, i);
      SameFirst(s, To(w.at, GetToken(s, i).kind != Symbol('<')), Redirs(s, w.next).value, rs);
    }
  }

  lemma TwoOff(a: Lexeme, b: Lexeme, l: seq<Lexeme>)
    ensures ([a, b] + l)[2..] == l && ([a, b] + l)[1] == b
  {
  }

  lemma NoneComplete(s: string, i: nat, rest: seq<Lexeme>)
    requires i <= |s| && Lex(s, i) == RedirectLexemes([]) + rest && NoRedirect(rest)
    ensures var r := Redirs(s, i); r.Ok? && Lex(s, r.pos) == rest && SameRedirects(s, r.value, [])
  {
    assert Lex(s, i) == rest;
    PeekHead(s, i, "<>");
    LexSkip(s, i);
  }

  // ---------- simple commands ----------

  function AsItems(rs: seq<Redirect>): seq<Item> { seq(|rs|, i requires 0 <= i < |rs| => Red(rs[i])) }

  lemma ItemsRed(r: Redirect, items: seq<Item>)
    ensures ItemLexemes([Red(r)] + items) == [OpLexeme(r.op), WordL(r.file)] + ItemLexemes(items)
    ensures Args([Red(r)] + items) == Args(items) && Reds([Red(r)] + items) == [r] + Reds(items)
  {
    assert ([Red(r)] + items)[1..] == items;
  }

  lemma {:induction false} ItemsAfter(rs: seq<Redirect>, items: seq<Item>)
    ensures ItemLexemes(AsItems(rs) + items) == RedirectLexemes(rs) + ItemLexemes(items)
    ensures Args(AsItems(rs) + items) == Args(items) && Reds(AsItems(rs) + items) == rs + Reds(items)
    decreases |rs|
  {
    hide ItemLexemes, Args, Reds, OpLexeme;
    if rs == [] {
      assert AsItems(rs) + items == items;
    } else {
      var x := AsItems(rs[1..]) + items;
      assert AsItems(rs) + items == [Red(rs[0])] + x;
      ItemsAfter(rs[1..], items);
      ItemsRed(rs[0], x);
      assert rs == [rs[0]] + rs[1..];
      Assoc([OpLexeme(rs[0].op), WordL(rs[0].file)], RedirectLexemes(rs[1..]), ItemLexemes(items));
      Assoc([rs[0]], rs[1..], Reds(items));
    }
  }

  lemma ItemsFirst(w: string, items: seq<Item>)
    ensures ItemLexemes([Arg(w)] + items) == [WordL(w)] + ItemLexemes(items)
    ensures Args([Arg(w)] + items) == [w] + Args(items) && Reds([Arg(w)] + items) == Reds(items)
  {
    assert ([Arg(w)] + items)[1..] == items;
  }

  /** What parseexec's loop has read from i on: the spans of the arguments and redirections of
      items, up to pos. */
  ghost predicate ReadItems(s: string, i: nat, pos: nat, items: seq<Item>, ws: seq<Span>, ms: seq<Redirection>) {
    && i <= |s| && pos <= |s| && Lex(s, i) == ItemLexemes(items) + Lex(s, pos)
    && Texts(s, ws) == Args(items) && SameRedirects(s, ms, Reds(items))
  }

  lemma ReadMore(s: string, i: nat, t: Token, rs: seq<Redirect>, sp: seq<Redirection>, k: nat, pos: nat,
                 items: seq<Item>, ws: seq<Span>, ms: seq<Redirection>)
    requires i <= |s| && k <= |s| && t == GetToken(s, i) && t.kind == Word && t.next <= |s|
    requires Lex(s, t.next) == RedirectLexemes(rs) + Lex(s, k) && SameRedirects(s, sp, rs)
    requires ReadItems(s, k, pos, items, ws, ms)
    ensures ReadItems(s, i, pos, [Arg(Text(s, t.at))] + (AsItems(rs) + items), [t.at] + ws, sp + ms)
  {
    LexStep(s, i);
    hide GetToken, Lex, ItemLexemes, RedirectLexemes, Text, SameRedirects, Args, Reds;
    ItemsAfter(rs, items);
    ItemsFirst(Text(s, t.at), AsItems(rs) + items);
    TextsCons(s, t.at, ws);
    SameConcat(s, sp, ms, rs, Reds(items));
    Assoc(RedirectLexemes(rs), ItemLexemes(items), Lex(s, pos));
    Assoc([WordL(Text(s, t.at))], RedirectLexemes(rs) + ItemLexemes(items), Lex(s, pos));
  }

  lemma {:induction false} ExecSound(s: string, i: nat, args: seq<Span>, rs: seq<Redirection>)
    returns (items: seq<Item>, ws: seq<Span>, ms: seq<Redirection>)
    requires i <= |s| && ExecFrom(s, i, args, rs).Ok? && |args| < MAXARGS
    ensures ReadItems(s, i, ExecFrom(s, i, args, rs).pos, items, ws, ms) && |args| + |ws| < MAXARGS
    ensures ExecFrom(s, i, args, rs).value == Wrap(Exec(args + ws), rs + ms)
    decreases |s| - i
  {
    hide GetToken, PeekAt, Skip, Lex, Text, ReadItems, Redirs;
    var t := GetToken(s, i);
    if PeekAt(s, i, "|)&;") || t.kind == Eof {
      items, ws, ms := [], [], [];
      ReadNone(s, i);
      assert args + ws == args && rs + ms == rs;
    } else {
      var r := RedirsSound(s, t.next);
      var next := Redirs(s, t.next);
      items, ws, ms := ExecSound(s, next.pos, args + [t.at], rs + next.value);
      ReadMore(s, i, t, r, next.value, next.pos, ExecFrom(s, i, args, rs).pos, items, ws, ms);
      Assoc(args, [t.at], ws);
      Assoc(rs, next.value, ms);
      items, ws, ms := [Arg(Text(s, t.at))] + (AsItems(r) + items), [t.at] + ws, next.value + ms;
    }
  }

  lemma ReadNone(s: string, i: nat)
    requires i <= |s|
    ensures ReadItems(s, i, Skip(s, i), [], [], [])
    ensures GetToken(s, i).kind == Eof ==> ReadItems(s, i, GetToken(s, i).next, [], [], [])
  {
    LexSkip(s, i);
    LexStep(s, i);
    LexStep(s, GetToken(s, i).next);
  }

  /** Where a command ends. */
  ghost predicate AtEnd(ls: seq<Lexeme>) { ls == [] || (ls[0].SymL? && ls[0].c in "|)&;") }

  /** Leading redirections and what follows them. */
  lemma {:induction false} SplitItems(items: seq<Item>) returns (rs: seq<Redirect>, tail: seq<Item>)
    ensures items == AsItems(rs) + tail && (tail == [] || tail[0].Arg?) && |tail| <= |items|
    decreases |items|
  {
    if items == [] || items[0].Arg? {
      rs, tail := [], items;
    } else {
      rs, tail := SplitItems(items[1..]);
      rs := [items[0].r] + rs;
    }
  }

  /** A word does not start with a symbol. */
  predicate LegalHead(w: string) { w != "" && !IsSymbol(w[0]) }

  lemma {:induction false} WordHeads(s: string, i: nat, j: nat)
    requires i <= |s| && j < |Lex(s, i)| && Lex(s, i)[j].WordL?
    ensures LegalHead(Lex(s, i)[j].text)
    decreases |s| - i
  {
    var t := GetToken(s, i);
    LexStep(s, i);
    if j == 0 {
      assert Text(s, t.at)[0] == s[t.at.q];
    } else {
      WordHeads(s, t.next, j - 1);
    }
  }

  /** No redirection follows, where an argument or the end of the command does. */
  lemma TailHead(s: string, i: nat, rs: seq<Redirect>, tail: seq<Item>, rest: seq<Lexeme>)
    requires i <= |s| && Lex(s, i) == RedirectLexemes(rs) + (ItemLexemes(tail) + rest)
    requires (tail == [] || tail[0].Arg?) && AtEnd(rest)
    ensures NoRedirect(ItemLexemes(tail) + rest)
  {
    hide Lex;
    if tail != [] {
      var j := |RedirectLexemes(rs)|;
      assert Lex(s, i)[j] == (ItemLexemes(tail) + rest)[0] == WordL(tail[0].text);
      WordHeads(s, i, j);
    }
  }

  lemma ExecStops(s: string, i: nat, args: seq<Span>, rs: seq<Redirection>)
    requires i <= |s| && AtEnd(Lex(s, i))
    ensures var r := ExecFrom(s, i, args, rs); r.Ok? && Lex(s, r.pos) == Lex(s, i) && r.value == Wrap(Exec(args), rs)
  {
    PeekHead(s, i, "|)&;");
    LexStep(s, i);
    LexSkip(s, i);
    LexStep(s, GetToken(s, i).next);
    hide Lex, Skip, Wrap, PeekAt;
  }

  /** One argument and the redirections behind it. */
  lemma ArgStep(s: string, i: nat, items: seq<Item>, rest: seq<Lexeme>) returns (rs: seq<Redirect>, tail: seq<Item>)
    requires i <= |s| && Lex(s, i) == ItemLexemes(items) + rest && AtEnd(rest) && items != [] && items[0].Arg?
    ensures var t := GetToken(s, i);
      && t.kind == Word && Text(s, t.at) == items[0].text && !PeekAt(s, i, "|)&;")
      && |tail| < |items| && items == [Arg(items[0].text)] + (AsItems(rs) + tail) && (tail == [] || tail[0].Arg?)
      && var r := Redirs(s, t.next); r.Ok? && Lex(s, r.pos) == ItemLexemes(tail) + rest && SameRedirects(s, r.value, rs)
  {
    hide GetToken, PeekAt, Skip, Lex, Text, RedirectLexemes, SameRedirects, Redirs, Args, Reds, ItemLexemes, AsItems;
    hide IsSymbol, Head, AtEnd, NoRedirect;
    var w := items[0].text;
    rs, tail := SplitItems(items[1..]);
    var more := RedirectLexemes(rs) + (ItemLexemes(tail) + rest);
    ArgLexemes(items, w, rs, tail, rest);
    OneOff(WordL(w), more);
    HeadKind(s, i);
    WordStarts(s, i);
    var t := GetToken(s, i);
    TailHead(s, t.next, rs, tail, rest);
    RedirsComplete(s, t.next, rs, ItemLexemes(tail) + rest);
  }

  lemma ArgLexemes(items: seq<Item>, w: string, rs: seq<Redirect>, tail: seq<Item>, rest: seq<Lexeme>)
    requires items != [] && items[0] == Arg(w) && items[1..] == AsItems(rs) + tail
    ensures items == [Arg(w)] + (AsItems(rs) + tail)
    ensures ItemLexemes(items) + rest == [WordL(w)] + (RedirectLexemes(rs) + (ItemLexemes(tail) + rest))
  {
    hide ItemLexemes, RedirectLexemes, Args, Reds, AsItems;
    assert items == [Arg(w)] + items[1..];
    ItemsFirst(w, AsItems(rs) + tail);
    ItemsAfter(rs, tail);
    Assoc([WordL(w)], RedirectLexemes(rs) + ItemLexemes(tail), rest);
    Assoc(RedirectLexemes(rs), ItemLexemes(tail), rest);
  }

  lemma OneOff(a: Lexeme, l: seq<Lexeme>)
    ensures ([a] + l)[0] == a && ([a] + l)[1..] == l
  {
  }

  /** No command ends at a word. */
  lemma WordStarts(s: string, i: nat)
    requires i <= |s| && Lex(s, i) != [] && Lex(s, i)[0].WordL?
    ensures !PeekAt(s, i, "|)&;")
  {
    hide Lex;
    PeekHead(s, i, "|)&;");
    WordHeads(s, i, 0);
  }

  lemma {:induction false} ExecComplete(s: string, i: nat, args: seq<Span>, rs: seq<Redirection>, items: seq<Item>,
                                        rest: seq<Lexeme>)
    returns (ws: seq<Span>, ms: seq<Redirection>)
    requires i <= |s| && Lex(s, i) == ItemLexemes(items) + rest && AtEnd(rest) && (items == [] || items[0].Arg?)
    requires |args| + |Args(items)| < MAXARGS
    ensures var r := ExecFrom(s, i, args, rs);
      r.Ok? && Lex(s, r.pos) == rest && r.value == Wrap(Exec(args + ws), rs + ms)
    ensures Texts(s, ws) == Args(items) && SameRedirects(s, ms, Reds(items))
    decreases |items|
  {
    hide GetToken, PeekAt, Skip, Lex, Text, RedirectLexemes, Redirs, Wrap;
    if items == [] {
      ws, ms := [], [];
      assert Lex(s, i) == rest && args + ws == args && rs + ms == rs;
      ExecStops(s, i, args, rs);
    } else {
      var r, tail := ArgStep(s, i, items, rest);
      hide ItemLexemes, SameRedirects;
      var t := GetToken(s, i);
      var next := Redirs(s, t.next);
      ItemsFirst(items[0].text, AsItems(r) + tail);
      ItemsAfter(r, tail);
      hide Args, Reds;
      ws, ms := ExecComplete(s, next.pos, args + [t.at], rs + next.value, tail, rest);
      ExecStep(s, i, args, rs);
      Assoc(args, [t.at], ws);
      Assoc(rs, next.value, ms);
      TextsCons(s, t.at, ws);
      SameConcat(s, next.value, ms, r, Reds(tail));
      ws, ms := [t.at] + ws, next.value + ms;
    }
  }

  // ---------- whatever parses is a line of the grammar ----------

  lemma {:induction false} WrapValue(s: string, cmd: Cmd, sp: seq<Redirection>, rs: seq<Redirect>)
    requires SameRedirects(s, sp, rs)
    ensures Value(s, Wrap(cmd, sp)) == Redirected(Value(s, cmd), rs)
    decreases |rs|
  {
    if rs != [] { WrapValue(s, Redir(cmd, sp[0].file, sp[0].out), sp[1..], rs[1..]); }
  }

  /** A symbol, and the position behind it. */
  lemma SymbolFirst(s: string, i: nat, c: char)
    requires i <= |s| && PeekAt(s, i, [c]) && IsSymbol(c) && c != '>'
    ensures var t := GetToken(s, i); i < t.next <= |s| && Lex(s, i) == [SymL(c)] + Lex(s, t.next)
  {
    PeekHead(s, i, [c]);
    HeadKind(s, i);
    LexStep(s, i);
  }

  /** The same from the lexemes. */
  lemma SymbolNext(s: string, i: nat, c: char, rest: seq<Lexeme>)
    requires i <= |s| && Lex(s, i) == [SymL(c)] + rest && IsSymbol(c) && c != '>'
    ensures PeekAt(s, i, [c]) && i < GetToken(s, i).next <= |s| && Lex(s, GetToken(s, i).next) == rest
  {
    PeekHead(s, i, [c]);
    SymbolFirst(s, i, c);
    assert ([SymL(c)] + rest)[1..] == rest;
  }

  lemma {:induction false} BacksSound(cmd: Cmd, s: string, i: nat) returns (n: nat)
    requires i <= |s|
    ensures var (c, k) := Backs(cmd, s, i);
      k <= |s| && Lex(s, i) == Marks(n) + Lex(s, k) && Value(s, c) == Marked(Value(s, cmd), n)
    decreases |s| - i
  {
    hide GetToken, Skip, Lex;
    if PeekAt(s, i, "&") {
      SymbolFirst(s, i, '&');
      n := BacksSound(Back(cmd), s, GetToken(s, i).next);
      n := n + 1;
      assert Marks(n) == [SymL('&')] + Marks(n - 1);
    } else {
      n := 0;
      LexSkip(s, i);
    }
  }

  ghost predicate ReadsCommand(s: string, i: nat, r: Result<Cmd>, c: Command)
    requires i <= |s|
  {
    r.Ok? && r.pos <= |s| && Lex(s, i) == CommandLexemes(c) + Lex(s, r.pos) && Value(s, r.value) == CommandTree(c) &&
    FitsCommand(c)
  }

  lemma SimpleSound(s: string, i: nat) returns (c: Command)
    requires i <= |s| && !PeekAt(s, i, "(") && ParseExec(s, i).Ok?
    ensures ReadsCommand(s, i, ParseExec(s, i), c)
  {
    hide GetToken, PeekAt, Skip, Lex, ExecFrom, Redirs, ParseExec, Wrap;
    ExecParts(s, i);
    var r := RedirsSound(s, i);
    var first := Redirs(s, i);
    var items, ws, ms := ExecSound(s, first.pos, [], first.value);
    c := Simple(AsItems(r) + items);
    assert [] + ws == ws;
    ItemsAfter(r, items);
    hide ItemLexemes, RedirectLexemes, Args, Reds, AsItems;
    SameConcat(s, first.value, ms, r, Reds(items));
    WrapValue(s, Exec(ws), first.value + ms, r + Reds(items));
    Assoc(RedirectLexemes(r), ItemLexemes(items), Lex(s, ParseExec(s, i).pos));
  }

  lemma {:induction false} CommandSound(s: string, i: nat) returns (c: Command)
    requires i <= |s| && ParseExec(s, i).Ok?
    ensures ReadsCommand(s, i, ParseExec(s, i), c)
    decreases |s| - i, 1
  {
    if PeekAt(s, i, "(") {
      c := BlockSound(s, i);
    } else {
      c := SimpleSound(s, i);
    }
  }

  lemma BlockSound(s: string, i: nat) returns (c: Command)
    requires i <= |s| && PeekAt(s, i, "(") && ParseExec(s, i).Ok?
    ensures ReadsCommand(s, i, ParseExec(s, i), c)
    decreases |s| - i, 0
  {
    hide GetToken, PeekAt, Skip, Lex, Redirs, ParseLine, Wrap, LineLexemes, RedirectLexemes, Redirected;
    hide LineTree, Value;
    SymbolFirst(s, i, '(');
    var t := GetToken(s, i);
    var inner := ParseLine(s, t.next);
    var line := LineSound(s, t.next);
    SymbolFirst(s, inner.pos, ')');
    var k := GetToken(s, inner.pos).next;
    var rs := RedirsSound(s, k);
    c := Block(line, rs);
    WrapValue(s, inner.value, Redirs(s, k).value, rs);
    BlockLexemes(line, rs, Lex(s, Redirs(s, k).pos));
  }

  lemma BlockLexemes(line: Line, rs: seq<Redirect>, rest: seq<Lexeme>)
    ensures CommandLexemes(Block(line, rs)) + rest ==
            [SymL('(')] + (LineLexemes(line) + ([SymL(')')] + (RedirectLexemes(rs) + rest)))
  {
    var l, m := LineLexemes(line), RedirectLexemes(rs);
    hide LineLexemes, RedirectLexemes;
    Assoc([SymL('(')], l + ([SymL(')')] + m), rest);
    Assoc(l, [SymL(')')] + m, rest);
    Assoc([SymL(')')], m, rest);
  }

  ghost predicate ReadsPipeline(s: string, i: nat, r: Result<Cmd>, p: Pipeline)
    requires i <= |s|
  {
    r.Ok? && r.pos <= |s| && Lex(s, i) == PipelineLexemes(p) + Lex(s, r.pos) && Value(s, r.value) == PipelineTree(p) &&
    FitsPipeline(p)
  }

  lemma {:induction false} PipeSound(s: string, i: nat) returns (p: Pipeline)
    requires i <= |s| && ParsePipe(s, i).Ok?
    ensures ReadsPipeline(s, i, ParsePipe(s, i), p)
    decreases |s| - i, 2
  {
    hide GetToken, PeekAt, Skip, Lex, ParseExec, CommandLexemes, CommandTree;
    var c := CommandSound(s, i);
    var first := ParseExec(s, i);
    if PeekAt(s, first.pos, "|") {
      SymbolFirst(s, first.pos, '|');
      var rest := PipeSound(s, GetToken(s, first.pos).next);
      p := Piped(c, rest);
      var l := Lex(s, ParsePipe(s, i).pos);
      Assoc(CommandLexemes(c), [SymL('|')] + PipelineLexemes(rest), l);
      Assoc([SymL('|')], PipelineLexemes(rest), l);
    } else {
      p := Single(c);
      LexSkip(s, first.pos);
    }
  }

  ghost predicate ReadsLine(s: string, i: nat, r: Result<Cmd>, line: Line)
    requires i <= |s|
  {
    r.Ok? && r.pos <= |s| && Lex(s, i) == LineLexemes(line) + Lex(s, r.pos) && Value(s, r.value) == LineTree(line) &&
    FitsLine(line)
  }

  lemma {:induction false} LineSound(s: string, i: nat) returns (line: Line)
    requires i <= |s| && ParseLine(s, i).Ok?
    ensures ReadsLine(s, i, ParseLine(s, i), line)
    decreases |s| - i, 3
  {
    hide GetToken, PeekAt, Skip, Lex, ParsePipe, PipelineLexemes, PipelineTree, Backs;
    var p := PipeSound(s, i);
    var first := ParsePipe(s, i);
    var n := BacksSound(first.value, s, first.pos);
    var k := Backs(first.value, s, first.pos).1;
    if PeekAt(s, k, ";") {
      SymbolFirst(s, k, ';');
      var rest := LineSound(s, GetToken(s, k).next);
      line := Then(p, n, rest);
      var l := Lex(s, ParseLine(s, i).pos);
      Assoc(PipelineLexemes(p), Marks(n) + ([SymL(';')] + LineLexemes(rest)), l);
      Assoc(Marks(n), [SymL(';')] + LineLexemes(rest), l);
      Assoc([SymL(';')], LineLexemes(rest), l);
    } else {
      line := Final(p, n);
      Assoc(PipelineLexemes(p), Marks(n), Lex(s, k));
    }
  }

  // ---------- and every line of the grammar parses ----------

  lemma SimpleComplete(s: string, i: nat, items: seq<Item>, rest: seq<Lexeme>)
    requires i <= |s| && Lex(s, i) == ItemLexemes(items) + rest && AtEnd(rest) && |Args(items)| < MAXARGS
    ensures var r := ParseExec(s, i); ReadsCommand(s, i, r, Simple(items)) && Lex(s, r.pos) == rest
  {
    hide GetToken, PeekAt, Skip, Lex, ExecFrom, Redirs, ParseExec, Wrap;
    var rs, tail := SplitItems(items);
    ItemsAfter(rs, tail);
    SimpleHead(s, i, items, rest);
    hide RedirectLexemes, Reds, AsItems;
    Assoc(RedirectLexemes(rs), ItemLexemes(tail), rest);
    TailHead(s, i, rs, tail, rest);
    hide ItemLexemes;
    RedirsComplete(s, i, rs, ItemLexemes(tail) + rest);
    var first := Redirs(s, i);
    var ws, ms := ExecComplete(s, first.pos, [], first.value, tail, rest);
    ExecParts(s, i);
    assert [] + ws == ws;
    SameConcat(s, first.value, ms, rs, Reds(tail));
    WrapValue(s, Exec(ws), first.value + ms, rs + Reds(tail));
  }

  /** A simple command does not start with a parenthesis. */
  lemma SimpleHead(s: string, i: nat, items: seq<Item>, rest: seq<Lexeme>)
    requires i <= |s| && Lex(s, i) == ItemLexemes(items) + rest && AtEnd(rest)
    ensures !PeekAt(s, i, "(")
  {
    hide Lex;
    PeekHead(s, i, "(");
    if items != [] && items[0].Arg? { WordHeads(s, i, 0); }
  }

  lemma {:induction false} CommandComplete(s: string, i: nat, c: Command, rest: seq<Lexeme>)
    requires i <= |s| && Lex(s, i) == CommandLexemes(c) + rest && AtEnd(rest) && FitsCommand(c)
    ensures var r := ParseExec(s, i); ReadsCommand(s, i, r, c) && Lex(s, r.pos) == rest
    decreases c, 0
  {
    match c
    case Simple(items) => SimpleComplete(s, i, items, rest);
    case Block(line, rs) => BlockComplete(s, i, line, rs, rest);
  }

  lemma BlockComplete(s: string, i: nat, line: Line, rs: seq<Redirect>, rest: seq<Lexeme>)
    requires i <= |s| && Lex(s, i) == CommandLexemes(Block(line, rs)) + rest && AtEnd(rest) && FitsLine(line)
    ensures var r := ParseExec(s, i); ReadsCommand(s, i, r, Block(line, rs)) && Lex(s, r.pos) == rest
    decreases line, 3
  {
    hide GetToken, PeekAt, Skip, Lex, Redirs, ParseLine, ParseExec, ParseBlock, Wrap, Value;
    hide LineLexemes, RedirectLexemes, CommandLexemes, Redirected, LineTree, FitsLine, SameRedirects;
    BlockLexemes(line, rs, rest);
    var after := [SymL(')')] + (RedirectLexemes(rs) + rest);
    SymbolNext(s, i, '(', LineLexemes(line) + after);
    var t := GetToken(s, i);
    LineComplete(s, t.next, line, after);
    var inner := ParseLine(s, t.next);
    SymbolNext(s, inner.pos, ')', RedirectLexemes(rs) + rest);
    var k := GetToken(s, inner.pos).next;
    EndsRedirects(rest);
    RedirsComplete(s, k, rs, rest);
    WrapValue(s, inner.value, Redirs(s, k).value, rs);
    BlockParts(s, i);
  }

  lemma EndsRedirects(rest: seq<Lexeme>)
    requires AtEnd(rest)
    ensures NoRedirect(rest)
  {
  }

  /** parseblock by its parts. */
  lemma BlockParts(s: string, i: nat)
    requires i <= |s| && PeekAt(s, i, "(") && ParseLine(s, GetToken(s, i).next).Ok?
    requires PeekAt(s, ParseLine(s, GetToken(s, i).next).pos, ")")
    ensures var inner := ParseLine(s, GetToken(s, i).next);
      var r := Redirs(s, GetToken(s, inner.pos).next);
      r.Ok? ==> ParseExec(s, i) == Ok(Wrap(inner.value, r.value), r.pos)
  {
    hide GetToken, Redirs, ParseLine, Wrap;
  }

  /** Where a pipeline ends, and where a line does. */
  ghost predicate AfterPipeline(ls: seq<Lexeme>) { ls == [] || (ls[0].SymL? && ls[0].c in ")&;") }

  ghost predicate AfterLine(ls: seq<Lexeme>) { ls == [] || ls[0] == SymL(')') }

  lemma {:induction false} PipeComplete(s: string, i: nat, p: Pipeline, rest: seq<Lexeme>)
    requires i <= |s| && Lex(s, i) == PipelineLexemes(p) + rest && AfterPipeline(rest) && FitsPipeline(p)
    ensures var r := ParsePipe(s, i); ReadsPipeline(s, i, r, p) && Lex(s, r.pos) == rest
    decreases p, 1
  {
    hide GetToken, PeekAt, Skip, Lex, ParseExec, CommandLexemes, CommandTree;
    match p
    case Single(c) =>
      CommandComplete(s, i, c, rest);
      var first := ParseExec(s, i);
      PeekHead(s, first.pos, "|");
      LexSkip(s, first.pos);
    case Piped(c, more) =>
      var l := PipelineLexemes(more);
      Assoc(CommandLexemes(c), [SymL('|')] + l, rest);
      Assoc([SymL('|')], l, rest);
      CommandComplete(s, i, c, [SymL('|')] + (l + rest));
      var first := ParseExec(s, i);
      SymbolNext(s, first.pos, '|', l + rest);
      PipeComplete(s, GetToken(s, first.pos).next, more, rest);
  }

  lemma {:induction false} BacksComplete(cmd: Cmd, s: string, i: nat, n: nat, rest: seq<Lexeme>)
    requires i <= |s| && Lex(s, i) == Marks(n) + rest && (rest == [] || Head(rest[0]) != '&')
    ensures var (c, k) := Backs(cmd, s, i); Lex(s, k) == rest && Value(s, c) == Marked(Value(s, cmd), n)
    decreases n
  {
    hide GetToken, Skip, Lex;
    if n == 0 {
      assert Lex(s, i) == rest;
      PeekHead(s, i, "&");
      LexSkip(s, i);
    } else {
      assert Marks(n) + rest == [SymL('&')] + (Marks(n - 1) + rest);
      SymbolNext(s, i, '&', Marks(n - 1) + rest);
      BacksComplete(Back(cmd), s, GetToken(s, i).next, n - 1, rest);
    }
  }

  lemma {:induction false} LineComplete(s: string, i: nat, line: Line, rest: seq<Lexeme>)
    requires i <= |s| && Lex(s, i) == LineLexemes(line) + rest && AfterLine(rest) && FitsLine(line)
    ensures var r := ParseLine(s, i); ReadsLine(s, i, r, line) && Lex(s, r.pos) == rest
    decreases line, 2
  {
    hide GetToken, PeekAt, Skip, Lex, ParsePipe, PipelineLexemes, PipelineTree, Backs;
    var more := if line.Final? then rest else [SymL(';')] + (LineLexemes(line.rest) + rest);
    LineSplit(line, rest);
    MarksHead(line.marks, more);
    PipeComplete(s, i, line.p, Marks(line.marks) + more);
    var first := ParsePipe(s, i);
    BacksComplete(first.value, s, first.pos, line.marks, more);
    var k := Backs(first.value, s, first.pos).1;
    if line.Final? {
      PeekHead(s, k, ";");
    } else {
      SymbolNext(s, k, ';', LineLexemes(line.rest) + rest);
      LineComplete(s, GetToken(s, k).next, line.rest, rest);
    }
  }

  lemma LineSplit(line: Line, rest: seq<Lexeme>)
    ensures LineLexemes(line) + rest == PipelineLexemes(line.p) + (Marks(line.marks) +
            if line.Final? then rest else [SymL(';')] + (LineLexemes(line.rest) + rest))
  {
    hide PipelineLexemes, Marks;
    var a, m := PipelineLexemes(line.p), Marks(line.marks);
    if line.Final? {
      Assoc(a, m, rest);
    } else {
      var l := LineLexemes(line.rest);
      Assoc(a, m + ([SymL(';')] + l), rest);
      Assoc(m, [SymL(';')] + l, rest);
      Assoc([SymL(';')], l, rest);
    }
  }

  lemma MarksHead(n: nat, more: seq<Lexeme>)
    requires AfterLine(more) || more[0] == SymL(';')
    ensures AfterPipeline(Marks(n) + more)
  {
    if n > 0 { assert (Marks(n) + more)[0] == SymL('&'); } else { assert Marks(n) + more == more; }
  }

  /** The shell accepts a command line exactly when its lexemes are those of a line of the
      grammar, and then the tree is what that line means. */
  lemma ParserExact(s: string)
    ensures ParseCmd(s).Ok? <==> exists line :: FitsLine(line) && LineLexemes(line) == Lex(s, 0)
    ensures forall line :: FitsLine(line) && LineLexemes(line) == Lex(s, 0) ==>
      ParseCmd(s).Ok? && Value(s, ParseCmd(s).value) == LineTree(line)
  {
    hide Lex, ParseLine, LineLexemes, FitsLine, Value;
    if ParseCmd(s).Ok? {
      var line := LineSound(s, 0);
      AllRead(s, ParseLine(s, 0).pos);
      assert LineLexemes(line) + [] == LineLexemes(line);
    }
    forall line | FitsLine(line) && LineLexemes(line) == Lex(s, 0)
      ensures ParseCmd(s).Ok? && Value(s, ParseCmd(s).value) == LineTree(line)
    {
      assert LineLexemes(line) + [] == LineLexemes(line);
      LineComplete(s, 0, line, []);
      AllRead(s, ParseLine(s, 0).pos);
    }
  }

  /** Nothing but white space is left exactly when no lexeme is. */
  lemma AllRead(s: string, k: nat)
    requires k <= |s|
    ensures Lex(s, k) == [] <==> Skip(s, k) == |s|
  {
  }

  // ---------- how lexemes are written ----------

  function Spell(l: Lexeme): string {
    match l
    case WordL(w) => w
    case SymL(c) => [c]
    case AppendL => ">>"
  }

  const BLANKS := " \t\r\n\U{0B}"
  const SYMBOLS := "<|>&;()"

  ghost predicate LegalLexeme(l: Lexeme) {
    match l
    case WordL(w) =>
      w != "" && forall j :: 0 <= j < |w| ==> w[j] !in BLANKS && w[j] !in SYMBOLS && w[j] != '\0'
    case SymL(c) => c in SYMBOLS
    case AppendL => true
  }

  /** The characters that the parser tells apart. */
  lemma Alphabet(c: char)
    ensures IsSpace(c) <==> c in BLANKS
    ensures IsSymbol(c) <==> c in SYMBOLS
  {
  }

  lemma LegalText(l: Lexeme)
    requires LegalLexeme(l)
    ensures l.WordL? ==> LegalWord(l.text)
    ensures l.SymL? ==> IsSymbol(l.c)
  {
    if l.WordL? {
      forall j | 0 <= j < |l.text| ensures IsWord(l.text[j]) { Alphabet(l.text[j]); }
    } else if l.SymL? {
      Alphabet(l.c);
    }
  }

  /** White space is needed only between two words, and between '>' and a following '>'. */
  predicate NeedsGap(a: Lexeme, b: Lexeme) { (a.WordL? && b.WordL?) || (a == SymL('>') && Head(b) == '>') }

  ghost predicate White(g: string) { forall j :: 0 <= j < |g| ==> g[j] in BLANKS }

  /** A text with these lexemes: gaps[k] stands before the k-th, the last one at the end. */
  function Laid(ls: seq<Lexeme>, gaps: seq<string>): string
    requires |gaps| == |ls| + 1
    decreases |ls|
  {
    if ls == [] then gaps[0] else gaps[0] + (Spell(ls[0]) + Laid(ls[1..], gaps[1..]))
  }

  ghost predicate Spaced(ls: seq<Lexeme>, gaps: seq<string>) {
    && |gaps| == |ls| + 1 && (forall k :: 0 <= k < |gaps| ==> White(gaps[k]))
    && (forall k :: 0 <= k < |ls| ==> LegalLexeme(ls[k]))
    && (forall k :: 0 < k < |ls| && NeedsGap(ls[k - 1], ls[k]) ==> gaps[k] != "")
  }

  lemma {:induction false} SkipWhite(s: string, i: nat, n: nat)
    requires i + n <= |s| && (forall j :: i <= j < i + n ==> IsSpace(s[j])) && (i + n < |s| ==> !IsSpace(s[i + n]))
    ensures Skip(s, i) == i + n
    decreases n
  {
    if n > 0 { SkipWhite(s, i + 1, n - 1); }
  }

  /** The gap before a lexeme is skipped. */
  lemma SkipGap(s: string, i: nat, g: string)
    requires At(s, i, g) && White(g) && (i + |g| < |s| ==> !IsSpace(s[i + |g|]))
    ensures Skip(s, i) == i + |g|
  {
    forall j | i <= j < i + |g| ensures IsSpace(s[j]) {
      assert s[i + (j - i)] == g[j - i];
      Alphabet(s[j]);
    }
    SkipWhite(s, i, |g|);
  }

  /** What may follow a lexeme directly. */
  ghost predicate Follows(s: string, l: Lexeme, e: nat) {
    && (l.WordL? && e < |s| ==> IsSpace(s[e]) || IsSymbol(s[e])) && (l == SymL('>') && e < |s| ==> s[e] != '>')
  }

  /** gettoken reads a lexeme where it stands. */
  lemma ReadLexeme(s: string, q: nat, l: Lexeme)
    requires LegalLexeme(l) && At(s, q, Spell(l)) && Follows(s, l, q + |Spell(l)|)
    ensures q < |s| && !IsSpace(s[q])
    ensures GetToken(s, q) == Token(if l.WordL? then Word else if l.AppendL? then Append else Symbol(l.c),
                                    Span(q, q + |Spell(l)|), Skip(s, q + |Spell(l)|))
    ensures LexemeOf(s, GetToken(s, q)) == l
  {
    hide GetToken, Skip, LegalLexeme, LegalWord, At, Text, IsSpace, IsSymbol, Follows;
    LegalText(l);
    match l
    case WordL(w) => ReadWord(s, q, w);
    case SymL(c) => ReadSymbol(s, q, c);
    case AppendL => ReadAppend(s, q);
  }

  lemma ReadWord(s: string, q: nat, w: string)
    requires LegalWord(w) && At(s, q, w) && Follows(s, WordL(w), q + |w|)
    ensures q < |s| && !IsSpace(s[q]) && GetToken(s, q) == Token(Word, Span(q, q + |w|), Skip(s, q + |w|))
    ensures Text(s, Span(q, q + |w|)) == w
  {
    hide GetToken, Skip;
    WordAt(s, q, w);
    AtText(s, q, w);
  }

  lemma ReadSymbol(s: string, q: nat, c: char)
    requires IsSymbol(c) && At(s, q, [c]) && Follows(s, SymL(c), q + 1)
    ensures q < |s| && !IsSpace(s[q]) && GetToken(s, q) == Token(Symbol(c), Span(q, q + 1), Skip(s, q + 1))
  {
    hide GetToken, Skip;
    assert s[q + 0] == [c][0];
    SymbolToken(s, q);
  }

  lemma ReadAppend(s: string, q: nat)
    requires At(s, q, ">>")
    ensures q + 1 < |s| && !IsSpace(s[q]) && GetToken(s, q) == Token(Append, Span(q, q + 2), Skip(s, q + 2))
  {
    assert s[q + 0] == ">>"[0] && s[q + 1] == ">>"[1];
  }

  lemma LexHere(s: string, i: nat, q: nat, l: Lexeme)
    requires i <= |s| && Skip(s, i) == q && LegalLexeme(l) && At(s, q, Spell(l)) && Follows(s, l, q + |Spell(l)|)
    ensures q + |Spell(l)| <= |s| && Lex(s, i) == [l] + Lex(s, q + |Spell(l)|)
  {
    hide GetToken, Skip, Lex;
    ReadLexeme(s, q, l);
    SkipTwice(s, i);
    LexStep(s, i);
    LexSkip(s, q + |Spell(l)|);
  }

  /** The start of a text: white space, or the first lexeme. */
  lemma LaidStart(s: string, i: nat, ls: seq<Lexeme>, gaps: seq<string>)
    requires Spaced(ls, gaps) && At(s, i, Laid(ls, gaps)) && i + |Laid(ls, gaps)| == |s|
    ensures At(s, i, gaps[0])
    ensures if ls == [] then i + |gaps[0]| == |s|
      else
        var e := i + |gaps[0]| + |Spell(ls[0])|;
        && At(s, i + |gaps[0]|, Spell(ls[0]))
        && At(s, e, Laid(ls[1..], gaps[1..])) && e + |Laid(ls[1..], gaps[1..])| == |s|
  {
    if ls != [] {
      var rest := Laid(ls[1..], gaps[1..]);
      AtConcat(s, i, gaps[0], Spell(ls[0]) + rest);
      AtConcat(s, i + |gaps[0]|, Spell(ls[0]), rest);
    }
  }

  lemma SpacedRest(ls: seq<Lexeme>, gaps: seq<string>)
    requires Spaced(ls, gaps) && ls != []
    ensures Spaced(ls[1..], gaps[1..])
  {
    var l, g := ls[1..], gaps[1..];
    forall k | 0 < k < |l| && NeedsGap(l[k - 1], l[k]) ensures g[k] != "" { assert NeedsGap(ls[k], ls[k + 1]); }
  }

  /** The first character of a legal lexeme. */
  lemma SpellHead(s: string, q: nat, l: Lexeme)
    requires LegalLexeme(l) && At(s, q, Spell(l))
    ensures q < |s| && s[q] == Head(l) && !IsSpace(s[q]) && (!l.WordL? ==> IsSymbol(s[q]))
  {
    hide LegalLexeme;
    LegalText(l);
    assert s[q + 0] == Spell(l)[0];
    if l.WordL? { assert IsWord(l.text[0]); }
  }

  /** What stands behind a lexeme: a gap, the next lexeme or the end. */
  lemma LaidFollows(s: string, e: nat, l: Lexeme, ls: seq<Lexeme>, gaps: seq<string>)
    requires Spaced(ls, gaps) && At(s, e, Laid(ls, gaps)) && e + |Laid(ls, gaps)| == |s| && LegalLexeme(l)
    requires ls != [] && NeedsGap(l, ls[0]) ==> gaps[0] != ""
    ensures Follows(s, l, e)
  {
    LaidStart(s, e, ls, gaps);
    hide Laid;
    if gaps[0] != "" {
      assert s[e + 0] == gaps[0][0];
      Alphabet(s[e]);
    } else if ls != [] {
      SpellHead(s, e, ls[0]);
    }
  }

  /** However lexemes are laid out, gettoken finds them. */
  lemma {:induction false} LexLaid(s: string, i: nat, ls: seq<Lexeme>, gaps: seq<string>)
    requires Spaced(ls, gaps) && At(s, i, Laid(ls, gaps)) && i + |Laid(ls, gaps)| == |s|
    ensures Lex(s, i) == ls
    decreases |ls|
  {
    hide Lex, Skip, Spaced, Laid, GetToken;
    SpacedFacts(ls, gaps);
    LaidStart(s, i, ls, gaps);
    if ls == [] {
      SkipGap(s, i, gaps[0]);
      AllRead(s, i);
    } else {
      var q := i + |gaps[0]|;
      var e := q + |Spell(ls[0])|;
      SpellHead(s, q, ls[0]);
      SkipGap(s, i, gaps[0]);
      SpacedRest(ls, gaps);
      LaidFollows(s, e, ls[0], ls[1..], gaps[1..]);
      LexHere(s, i, q, ls[0]);
      LexLaid(s, e, ls[1..], gaps[1..]);
    }
  }

  lemma SpacedFacts(ls: seq<Lexeme>, gaps: seq<string>)
    requires Spaced(ls, gaps)
    ensures |gaps| == |ls| + 1 && White(gaps[0]) && (ls != [] ==> LegalLexeme(ls[0]))
    ensures |ls| > 1 && NeedsGap(ls[0], ls[1]) ==> gaps[1] != ""
  {
  }

  /** Every line of the grammar, in whatever layout, is parsed as what it means. */
  lemma LinesMean(line: Line, gaps: seq<string>)
    requires FitsLine(line) && Spaced(LineLexemes(line), gaps)
    ensures var r := ParseCmd(Laid(LineLexemes(line), gaps));
      r.Ok? && Value(Laid(LineLexemes(line), gaps), r.value) == LineTree(line)
  {
    hide Lex, LineLexemes, FitsLine, Laid, Spaced, ParseCmd, Value, LineTree;
    SpacedFacts(LineLexemes(line), gaps);
    var s := Laid(LineLexemes(line), gaps);
    assert At(s, 0, s);
    LexLaid(s, 0, LineLexemes(line), gaps);
    ParserExact(s);
  }

  // ---------- a line of legal words can always be written ----------

  ghost predicate LegalItems(items: seq<Item>) {
    forall k :: 0 <= k < |items| ==> LegalLexeme(WordL(if items[k].Arg? then items[k].text else items[k].r.file))
  }

  ghost predicate LegalRedirects(rs: seq<Redirect>) {
    forall k :: 0 <= k < |rs| ==> LegalLexeme(WordL(rs[k].file))
  }

  ghost predicate LegalCommand(c: Command)
    decreases c, 0
  {
    match c
    case Simple(items) => LegalItems(items)
    case Block(line, rs) => LegalLine(line) && LegalRedirects(rs)
  }

  ghost predicate LegalPipeline(p: Pipeline)
    decreases p, 1
  {
    LegalCommand(p.c) && (p.Piped? ==> LegalPipeline(p.rest))
  }

  ghost predicate LegalLine(line: Line)
    decreases line, 2
  {
    LegalPipeline(line.p) && (line.Then? ==> LegalLine(line.rest))
  }

  ghost predicate AllLegal(ls: seq<Lexeme>) { forall k :: 0 <= k < |ls| ==> LegalLexeme(ls[k]) }

  lemma {:induction false} ItemsLegal(items: seq<Item>)
    requires LegalItems(items)
    ensures AllLegal(ItemLexemes(items))
    decreases |items|
  {
    hide LegalLexeme;
    if items != [] {
      ItemsLegal(items[1..]);
      if items[0].Red? { OpLegal(items[0].r.op); }
    }
  }

  lemma OpLegal(op: Op)
    ensures LegalLexeme(OpLexeme(op))
  {
  }

  lemma SignsLegal()
    ensures LegalLexeme(SymL('(')) && LegalLexeme(SymL(')')) && LegalLexeme(SymL('|'))
    ensures LegalLexeme(SymL('&')) && LegalLexeme(SymL(';'))
  {
  }

  lemma {:induction false} RedirectsLegal(rs: seq<Redirect>)
    requires LegalRedirects(rs)
    ensures AllLegal(RedirectLexemes(rs))
    decreases |rs|
  {
    hide LegalLexeme;
    if rs != [] {
      RedirectsLegal(rs[1..]);
      OpLegal(rs[0].op);
    }
  }

  lemma {:induction false} CommandLegal(c: Command)
    requires LegalCommand(c)
    ensures AllLegal(CommandLexemes(c))
    decreases c, 0
  {
    hide LegalLexeme;
    SignsLegal();
    match c
    case Simple(items) => ItemsLegal(items);
    case Block(line, rs) => LineLegal(line); RedirectsLegal(rs);
  }

  lemma {:induction false} PipelineLegal(p: Pipeline)
    requires LegalPipeline(p)
    ensures AllLegal(PipelineLexemes(p))
    decreases p, 1
  {
    hide LegalLexeme;
    SignsLegal();
    CommandLegal(p.c);
    if p.Piped? { PipelineLegal(p.rest); }
  }

  lemma {:induction false} LineLegal(line: Line)
    requires LegalLine(line)
    ensures AllLegal(LineLexemes(line))
    decreases line, 2
  {
    hide LegalLexeme;
    SignsLegal();
    PipelineLegal(line.p);
    if line.Then? { LineLegal(line.rest); }
  }

  /** With a blank around every lexeme, every line of legal words that fits is parsed as what
      it means. */
  lemma BlanksSuffice(line: Line)
    requires FitsLine(line) && LegalLine(line)
    ensures var s := Laid(LineLexemes(line), seq(|LineLexemes(line)| + 1, _ => " "));
      ParseCmd(s).Ok? && Value(s, ParseCmd(s).value) == LineTree(line)
  {
    hide LineLexemes, Laid, ParseCmd, Value, LineTree, FitsLine, LegalLine, LegalLexeme;
    LineLegal(line);
    var gaps := seq(|LineLexemes(line)| + 1, _ => " ");
    assert Spaced(LineLexemes(line), gaps);
    LinesMean(line, gaps);
  }
}
