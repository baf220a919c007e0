/** The shell's parser (user/sh.c). Positions are indices into the command line; the
    pointers argv/eargv and file/efile are spans of it. */
module Sh {
  import opened Options

  const MAXARGS := 10

  predicate IsSpace(c: char) { c == ' ' || c == '\t' || c == '\r' || c == '\n' || c == '\U{0B}' }
  predicate IsSymbol(c: char) { c in "<|>&;()" }
  predicate IsWord(c: char) { !IsSpace(c) && !IsSymbol(c) && c != '\0' }

  predicate NoNul(s: string) { forall i :: 0 <= i < |s| ==> s[i] != '\0' }

  // ---------- tokens ----------

  function Skip(s: string, i: nat): (k: nat)
    requires i <= |s|
    ensures i <= k <= |s| && (k < |s| ==> !IsSpace(s[k]))
    ensures forall j :: i <= j < k ==> IsSpace(s[j])
    decreases |s| - i
  {
    if i < |s| && IsSpace(s[i]) then Skip(s, i + 1) else i
  }

  function WordEnd(s: string, i: nat): (k: nat)
    requires i <= |s|
    ensures i <= k <= |s| && (k < |s| ==> IsSpace(s[k]) || IsSymbol(s[k]))
    ensures forall j :: i <= j < k ==> !IsSpace(s[j]) && !IsSymbol(s[j])
    decreases |s| - i
  {
    if i < |s| && !IsSpace(s[i]) && !IsSymbol(s[i]) then WordEnd(s, i + 1) else i
  }

  datatype Kind = Eof | Symbol(c: char) | Append | Word

  datatype Span = Span(q: nat, eq: nat)

  /** What gettoken finds: the token, its span, and the position after it. */
  datatype Token = Token(kind: Kind, at: Span, next: nat)

  function GetToken(s: string, i: nat): (t: Token)
    requires i <= |s|
    ensures i <= t.at.q <= t.at.eq <= t.next <= |s|
    ensures t.kind != Eof ==> t.at.q < t.at.eq
    ensures NoNul(s) && t.kind == Word ==> IsWordAt(s, t.at)
  {
    var q := Skip(s, i);
    if q == |s| then Token(Eof, Span(q, q), q)
    else if s[q] == '>' && q + 1 < |s| && s[q + 1] == '>' then Token(Append, Span(q, q + 2), Skip(s, q + 2))
    else if IsSymbol(s[q]) then Token(Symbol(s[q]), Span(q, q + 1), Skip(s, q + 1))
    else
      var eq := WordEnd(s, q);
      Token(Word, Span(q, eq), Skip(s, eq))
  }

  /** The span holds a maximal word: a delimiter or the end of the line follows. */
  ghost predicate IsWordAt(s: string, w: Span) {
    && w.q < w.eq <= |s| && (forall j :: w.q <= j < w.eq ==> IsWord(s[j]))
    && (w.eq < |s| ==> !IsWord(s[w.eq]))
  }

  predicate PeekAt(s: string, i: nat, toks: string)
    requires i <= |s|
  {
    Skip(s, i) < |s| && s[Skip(s, i)] in toks
  }

  // ---------- commands ----------

  datatype Cmd =
    | Exec(args: seq<Span>)
    | Redir(cmd: Cmd, file: Span, out: bool)
    | Pipe(left: Cmd, right: Cmd)
    | List(left: Cmd, right: Cmd)
    | Back(cmd: Cmd)

  datatype Redirection = To(file: Span, out: bool)

  datatype Result<T> = Ok(value: T, pos: nat) | Panic

  /** The redirections rs around cmd, the first innermost. */
  function Wrap(cmd: Cmd, rs: seq<Redirection>): Cmd
    decreases |rs|
  {
    if rs == [] then cmd else Wrap(Redir(cmd, rs[0].file, rs[0].out), rs[1..])
  }

  /** The redirections that parseredirs reads from position i on. */
  function Redirs(s: string, i: nat): (r: Result<seq<Redirection>>)
    requires i <= |s|
    ensures r.Ok? ==> i <= r.pos <= |s|
    decreases |s| - i
  {
    if !PeekAt(s, i, "<>") then Ok([], Skip(s, i))
    else
      var t := GetToken(s, i);
      var w := GetToken(s, t.next);
      if w.kind != Word then Panic
      else
        match Redirs(s, w.next)
        case Panic => Panic
        case Ok(rs, k) => Ok([To(w.at, t.kind != Symbol('<'))] + rs, k)
  }

  /** parseexec's loop, with the arguments and redirections read so far. */
  function ExecFrom(s: string, i: nat, args: seq<Span>, rs: seq<Redirection>): (r: Result<Cmd>)
    requires i <= |s|
    ensures r.Ok? ==> i <= r.pos <= |s|
    decreases |s| - i
  {
    if PeekAt(s, i, "|)&;") then Ok(Wrap(Exec(args), rs), Skip(s, i))
    else
      var t := GetToken(s, i);
      if t.kind == Eof then Ok(Wrap(Exec(args), rs), t.next)
      else if t.kind != Word || |args| + 1 >= MAXARGS then Panic
      else
        match Redirs(s, t.next)
        case Panic => Panic
        case Ok(more, k) => ExecFrom(s, k, args + [t.at], rs + more)
  }

  function ParseExec(s: string, i: nat): (r: Result<Cmd>)
    requires i <= |s|
    ensures r.Ok? ==> i <= r.pos <= |s|
    decreases |s| - i, 1
  {
    if PeekAt(s, i, "(") then ParseBlock(s, i)
    else
      match Redirs(s, i)
      case Panic => Panic
      case Ok(rs, k) => ExecFrom(s, k, [], rs)
  }

  function ParseBlock(s: string, i: nat): (r: Result<Cmd>)
    requires i <= |s| && PeekAt(s, i, "(")
    ensures r.Ok? ==> i <= r.pos <= |s|
    decreases |s| - i, 0
  {
    var t := GetToken(s, i);
    match ParseLine(s, t.next)
    case Panic => Panic
    case Ok(cmd, k) =>
      if !PeekAt(s, k, ")") then Panic
      else
        match Redirs(s, GetToken(s, k).next)
        case Panic => Panic
        case Ok(rs, n) => Ok(Wrap(cmd, rs), n)
  }

  function ParsePipe(s: string, i: nat): (r: Result<Cmd>)
    requires i <= |s|
    ensures r.Ok? ==> i <= r.pos <= |s|
    decreases |s| - i, 2
  {
    match ParseExec(s, i)
    case Panic => Panic
    case Ok(cmd, k) =>
      if !PeekAt(s, k, "|") then Ok(cmd, Skip(s, k))
      else
        match ParsePipe(s, GetToken(s, k).next)
        case Panic => Panic
        case Ok(right, n) => Ok(Pipe(cmd, right), n)
  }

  /** parseline's loop over '&'. */
  function Backs(cmd: Cmd, s: string, i: nat): (r: (Cmd, nat))
    requires i <= |s|
    ensures i <= r.1 <= |s|
    decreases |s| - i
  {
    if PeekAt(s, i, "&") then Backs(Back(cmd), s, GetToken(s, i).next) else (cmd, Skip(s, i))
  }

  function ParseLine(s: string, i: nat): (r: Result<Cmd>)
    requires i <= |s|
    ensures r.Ok? ==> i <= r.pos <= |s|
    decreases |s| - i, 3
  {
    match ParsePipe(s, i)
    case Panic => Panic
    case Ok(cmd, k) =>
      var (left, n) := Backs(cmd, s, k);
      if !PeekAt(s, n, ";") then Ok(left, n)
      else
        match ParseLine(s, GetToken(s, n).next)
        case Panic => Panic
        case Ok(right, e) => Ok(List(left, right), e)
  }

  /** parsecmd without nulterminate; anything left over is a syntax error. */
  function ParseCmd(s: string): (r: Result<Cmd>)
    ensures r.Ok? ==> r.pos == |s|
  {
    match ParseLine(s, 0)
    case Panic => Panic
    case Ok(cmd, k) => if Skip(s, k) != |s| then Panic else Ok(cmd, |s|)
  }

  // ---------- every pointer marks a word, and argv has room for its terminator ----------

  ghost predicate WordsOf(s: string, cmd: Cmd) {
    match cmd
    case Exec(args) => |args| < MAXARGS && forall i :: 0 <= i < |args| ==> IsWordAt(s, args[i])
    case Redir(c, file, out) => WordsOf(s, c) && IsWordAt(s, file)
    case Pipe(l, r) => WordsOf(s, l) && WordsOf(s, r)
    case List(l, r) => WordsOf(s, l) && WordsOf(s, r)
    case Back(c) => WordsOf(s, c)
  }

  ghost predicate FilesOf(s: string, rs: seq<Redirection>) {
    forall i :: 0 <= i < |rs| ==> IsWordAt(s, rs[i].file)
  }

  lemma {:induction false} WrapWords(s: string, cmd: Cmd, rs: seq<Redirection>)
    requires WordsOf(s, cmd) && FilesOf(s, rs)
    ensures WordsOf(s, Wrap(cmd, rs))
    decreases |rs|
  {
    if rs != [] {
      assert FilesOf(s, rs[1..]);
      WrapWords(s, Redir(cmd, rs[0].file, rs[0].out), rs[1..]);
    }
  }

  lemma {:induction false} RedirWords(s: string, i: nat)
    requires NoNul(s) && i <= |s|
    ensures Redirs(s, i).Ok? ==> FilesOf(s, Redirs(s, i).value)
    decreases |s| - i
  {
    if PeekAt(s, i, "<>") {
      var w := GetToken(s, GetToken(s, i).next);
      if w.kind == Word { RedirWords(s, w.next); }
    }
  }

  lemma {:induction false} ExecWords(s: string, i: nat, args: seq<Span>, rs: seq<Redirection>)
    requires NoNul(s) && i <= |s| && WordsOf(s, Exec(args)) && FilesOf(s, rs)
    ensures ExecFrom(s, i, args, rs).Ok? ==> WordsOf(s, ExecFrom(s, i, args, rs).value)
    decreases |s| - i
  {
    WrapWords(s, Exec(args), rs);
    var t := GetToken(s, i);
    if !PeekAt(s, i, "|)&;") && t.kind == Word && |args| + 1 < MAXARGS {
      RedirWords(s, t.next);
      var more := Redirs(s, t.next);
      if more.Ok? {
        assert FilesOf(s, rs + more.value);
        ExecWords(s, more.pos, args + [t.at], rs + more.value);
      }
    }
  }

  lemma {:induction false} BackWords(cmd: Cmd, s: string, i: nat)
    requires i <= |s| && WordsOf(s, cmd)
    ensures WordsOf(s, Backs(cmd, s, i).0)
    decreases |s| - i
  {
    if PeekAt(s, i, "&") { BackWords(Back(cmd), s, GetToken(s, i).next); }
  }

  /** Whatever parses, every argv and file pointer of the tree marks a whole word. */
  lemma {:induction false} LineWords(s: string, i: nat)
    requires NoNul(s) && i <= |s|
    ensures ParseLine(s, i).Ok? ==> WordsOf(s, ParseLine(s, i).value)
    decreases |s| - i, 3
  {
    PipeWords(s, i);
    match ParsePipe(s, i)
    case Panic =>
    case Ok(cmd, k) =>
      BackWords(cmd, s, k);
      var n := Backs(cmd, s, k).1;
      if PeekAt(s, n, ";") { LineWords(s, GetToken(s, n).next); }
  }

  lemma {:induction false} PipeWords(s: string, i: nat)
    requires NoNul(s) && i <= |s|
    ensures ParsePipe(s, i).Ok? ==> WordsOf(s, ParsePipe(s, i).value)
    decreases |s| - i, 2
  {
    CommandWords(s, i);
    match ParseExec(s, i)
    case Panic =>
    case Ok(cmd, k) =>
      if PeekAt(s, k, "|") { PipeWords(s, GetToken(s, k).next); }
  }

  lemma {:induction false} CommandWords(s: string, i: nat)
    requires NoNul(s) && i <= |s|
    ensures ParseExec(s, i).Ok? ==> WordsOf(s, ParseExec(s, i).value)
    decreases |s| - i, 1
  {
    if PeekAt(s, i, "(") {
      var t := GetToken(s, i);
      LineWords(s, t.next);
      match ParseLine(s, t.next)
      case Panic =>
      case Ok(cmd, k) =>
        if PeekAt(s, k, ")") {
          var n := GetToken(s, k).next;
          RedirWords(s, n);
          if Redirs(s, n).Ok? { WrapWords(s, cmd, Redirs(s, n).value); }
        }
    } else {
      RedirWords(s, i);
      match Redirs(s, i)
      case Panic =>
      case Ok(rs, k) => ExecWords(s, k, [], rs);
    }
  }

  // ---------- nulterminate ----------

  /** The positions at which nulterminate writes. */
  function Ends(cmd: Cmd): set<nat> {
    match cmd
    case Exec(args) => set i | 0 <= i < |args| :: args[i].eq
    case Redir(c, file, out) => Ends(c) + {file.eq}
    case Pipe(l, r) => Ends(l) + Ends(r)
    case List(l, r) => Ends(l) + Ends(r)
    case Back(c) => Ends(c)
  }

  ghost predicate IsSpanOf(cmd: Cmd, w: Span) {
    match cmd
    case Exec(args) => w in args
    case Redir(c, file, out) => IsSpanOf(c, w) || w == file
    case Pipe(l, r) => IsSpanOf(l, w) || IsSpanOf(r, w)
    case List(l, r) => IsSpanOf(l, w) || IsSpanOf(r, w)
    case Back(c) => IsSpanOf(c, w)
  }

  /** The C string at position q of a buffer. */
  function CString(b: seq<char>, q: nat): string
    requires q <= |b|
    decreases |b| - q
  {
    if q == |b| || b[q] == '\0' then "" else [b[q]] + CString(b, q + 1)
  }

  /** The line with its NUL, and NULs at the positions of a set. */
  function Terminated(s: string, ends: set<nat>): seq<char> {
    seq(|s| + 1, i requires 0 <= i <= |s| => if i == |s| || i in ends then '\0' else s[i])
  }

  lemma {:induction false} EndsAreDelimiters(s: string, cmd: Cmd)
    requires WordsOf(s, cmd)
    ensures forall e :: e in Ends(cmd) ==> e <= |s| && (e < |s| ==> !IsWord(s[e]))
  {
    match cmd
    case Exec(args) =>
    case Redir(c, file, out) => EndsAreDelimiters(s, c);
    case Pipe(l, r) => EndsAreDelimiters(s, l); EndsAreDelimiters(s, r);
    case List(l, r) => EndsAreDelimiters(s, l); EndsAreDelimiters(s, r);
    case Back(c) => EndsAreDelimiters(s, c);
  }

  lemma {:induction false} SpanFacts(s: string, cmd: Cmd, w: Span)
    requires WordsOf(s, cmd) && IsSpanOf(cmd, w)
    ensures IsWordAt(s, w) && w.eq in Ends(cmd)
  {
    match cmd
    case Exec(args) =>
      var i :| 0 <= i < |args| && args[i] == w;
    case Redir(c, file, out) => if IsSpanOf(c, w) { SpanFacts(s, c, w); }
    case Pipe(l, r) => if IsSpanOf(l, w) { SpanFacts(s, l, w); } else { SpanFacts(s, r, w); }
    case List(l, r) => if IsSpanOf(l, w) { SpanFacts(s, l, w); } else { SpanFacts(s, r, w); }
    case Back(c) => SpanFacts(s, c, w);
  }

  lemma {:induction false} CStringWord(s: string, ends: set<nat>, q: nat, e: nat)
    requires q <= e <= |s| && (e == |s| || e in ends)
    requires forall j :: q <= j < e ==> s[j] != '\0' && j !in ends
    ensures CString(Terminated(s, ends), q) == s[q..e]
    decreases e - q
  {
    var b := Terminated(s, ends);
    if q == e {
      assert b[q] == '\0';
    } else {
      assert b[q] == s[q];
      CStringWord(s, ends, q + 1, e);
      assert s[q..e] == [s[q]] + s[q + 1..e];
    }
  }

  /** After nulterminate every pointer of the tree reads as exactly its own word: no NUL
      lands inside another. */
  lemma PointersRead(s: string, cmd: Cmd, w: Span)
    requires NoNul(s) && ParseCmd(s) == Ok(cmd, |s|) && IsSpanOf(cmd, w)
    ensures w.q < w.eq <= |s| && CString(Terminated(s, Ends(cmd)), w.q) == s[w.q..w.eq]
  {
    LineWords(s, 0);
    SpanFacts(s, cmd, w);
    EndsAreDelimiters(s, cmd);
    CStringWord(s, Ends(cmd), w.q, w.eq);
  }

  // ---------- printing and parsing again ----------

  datatype Tree =
    | TExec(words: seq<string>)
    | TRedir(cmd: Tree, file: string, out: bool)
    | TPipe(left: Tree, right: Tree)
    | TList(left: Tree, right: Tree)
    | TBack(cmd: Tree)

  function Text(s: string, w: Span): string { if w.q <= w.eq <= |s| then s[w.q..w.eq] else "" }

  function Texts(s: string, ws: seq<Span>): seq<string> { seq(|ws|, i requires 0 <= i < |ws| => Text(s, ws[i])) }

  /** What a tree of pointers into the line says. */
  function Value(s: string, cmd: Cmd): Tree {
    match cmd
    case Exec(args) => TExec(Texts(s, args))
    case Redir(c, file, out) => TRedir(Value(s, c), Text(s, file), out)
    case Pipe(l, r) => TPipe(Value(s, l), Value(s, r))
    case List(l, r) => TList(Value(s, l), Value(s, r))
    case Back(c) => TBack(Value(s, c))
  }

  ghost predicate LegalWord(w: string) { w != "" && forall i :: 0 <= i < |w| ==> IsWord(w[i]) }

  ghost predicate LegalWords(ws: seq<string>) { forall i :: 0 <= i < |ws| ==> LegalWord(ws[i]) }

  ghost predicate Legal(t: Tree) {
    match t
    case TExec(ws) => |ws| < MAXARGS && LegalWords(ws)
    case TRedir(c, file, out) => Legal(c) && LegalWord(file)
    case TPipe(l, r) => Legal(l) && Legal(r)
    case TList(l, r) => Legal(l) && Legal(r)
    case TBack(c) => Legal(c)
  }

  function Join(ws: seq<string>): string {
    if ws == [] then "" else if |ws| == 1 then ws[0] else ws[0] + " " + Join(ws[1..])
  }

  /** Fully parenthesised. */
  function Print(t: Tree): string
    decreases t, 1
  {
    if t.TExec? then Join(t.words) else "(" + Print(FirstPart(t)) + AfterFirst(t)
  }

  /** The operator of a printed tree and what follows its first command. */
  function AfterFirst(t: Tree): string
    requires !t.TExec?
    decreases t, 0
  {
    match t
    case TRedir(c, file, out) => (if out then ")>" else ")<") + file
    case TPipe(l, r) => ")|" + ("(" + Print(r) + ")")
    case TList(l, r) => ");" + ("(" + Print(r) + ")")
    case TBack(c) => ")&"
  }

  function FirstPart(t: Tree): (u: Tree)
    requires !t.TExec?
    ensures u < t
  {
    if t.TPipe? || t.TList? then t.left else t.cmd
  }

  predicate Stops(s: string, e: nat) { e == |s| || (e < |s| && s[e] == ')') }

  lemma WordToken(s: string, i: nat, e: nat)
    requires i < e <= |s| && (forall j :: i <= j < e ==> IsWord(s[j])) && (e < |s| ==> IsSpace(s[e]) || IsSymbol(s[e]))
    ensures GetToken(s, i) == Token(Word, Span(i, e), Skip(s, e))
  {
    assert IsWord(s[i]);
    assert WordEnd(s, i) == e;
  }

  lemma SymbolToken(s: string, i: nat)
    requires i < |s| && IsSymbol(s[i]) && (s[i] == '>' && i + 1 < |s| ==> s[i + 1] != '>')
    ensures GetToken(s, i) == Token(Symbol(s[i]), Span(i, i + 1), Skip(s, i + 1))
  {
  }

  lemma NoRedirs(s: string, i: nat)
    requires i <= |s| && (i < |s| ==> !IsSpace(s[i]) && s[i] !in "<>")
    ensures Redirs(s, i) == Ok([], i)
  {
  }

  /** The text x stands at position i. */
  ghost predicate At(s: string, i: nat, x: string) {
    i + |x| <= |s| && forall j {:trigger x[j]} :: 0 <= j < |x| ==> s[i + j] == x[j]
  }

  lemma AtConcat(s: string, i: nat, x: string, y: string)
    ensures At(s, i, x + y) <==> At(s, i, x) && At(s, i + |x|, y)
  {
    if At(s, i, x + y) {
      assert forall j :: 0 <= j < |x| ==> (x + y)[j] == x[j];
      forall j | 0 <= j < |y| ensures s[i + |x| + j] == y[j] { assert (x + y)[|x| + j] == y[j]; }
    }
    if At(s, i, x) && At(s, i + |x|, y) {
      forall j | 0 <= j < |x + y| ensures s[i + j] == (x + y)[j] {
        assert if j < |x| then s[i + j] == x[j] else s[i + |x| + (j - |x|)] == y[j - |x|];
      }
    }
  }

  lemma AtText(s: string, i: nat, x: string)
    requires At(s, i, x)
    ensures Text(s, Span(i, i + |x|)) == x
  {
    assert s[i..i + |x|] == x;
  }

  /** A legal word, with a delimiter or the end after it. */
  lemma WordAt(s: string, i: nat, w: string)
    requires LegalWord(w) && At(s, i, w) && (i + |w| < |s| ==> IsSpace(s[i + |w|]) || IsSymbol(s[i + |w|]))
    ensures i < |s| && IsWord(s[i])
    ensures GetToken(s, i) == Token(Word, Span(i, i + |w|), Skip(s, i + |w|))
  {
    forall j | i <= j < i + |w| ensures IsWord(s[j]) { assert s[i + (j - i)] == w[j - i]; }
    WordToken(s, i, i + |w|);
  }

  lemma JoinParts(s: string, i: nat, ws: seq<string>)
    requires |ws| > 1
    ensures At(s, i, Join(ws)) <==> At(s, i, ws[0]) && At(s, i + |ws[0]|, " ") && At(s, i + |ws[0]| + 1, Join(ws[1..]))
    ensures |Join(ws)| == |ws[0]| + 1 + |Join(ws[1..])|
  {
    AtConcat(s, i, ws[0] + " ", Join(ws[1..]));
    AtConcat(s, i, ws[0], " ");
  }

  /** A printed command line starts with a word. */
  lemma FirstChar(s: string, i: nat, ws: seq<string>)
    requires At(s, i, Join(ws)) && ws != [] && LegalWord(ws[0])
    ensures i < |s| && IsWord(s[i])
  {
    if |ws| > 1 { JoinParts(s, i, ws); }
    assert s[i + 0] == ws[0][0];
  }

  lemma ExecStop(s: string, e: nat, args: seq<Span>)
    requires Stops(s, e)
    ensures ExecFrom(s, e, args, []) == Ok(Exec(args), e)
  {
  }

  lemma ExecNext(s: string, i: nat, k: nat, next: nat, args: seq<Span>)
    requires i < next <= |s| && GetToken(s, i) == Token(Word, Span(i, k), next) && IsWord(s[i]) && |args| + 1 < MAXARGS
    requires next < |s| ==> !IsSpace(s[next]) && s[next] !in "<>"
    ensures ExecFrom(s, i, args, []) == ExecFrom(s, next, args + [Span(i, k)], [])
  {
    NoRedirs(s, next);
    assert Skip(s, i) == i;
    var none: seq<Redirection> := [];
    assert none + none == none;
  }

  /** The first word of a printed command line, and where the next begins. */
  lemma FirstWord(s: string, i: nat, ws: seq<string>) returns (next: nat)
    requires At(s, i, Join(ws)) && Stops(s, i + |Join(ws)|) && ws != []
    requires LegalWords(ws)
    ensures i < next <= |s| && At(s, next, Join(ws[1..])) && next + |Join(ws[1..])| == i + |Join(ws)|
    ensures IsWord(s[i]) && GetToken(s, i) == Token(Word, Span(i, i + |ws[0]|), next)
    ensures Text(s, Span(i, i + |ws[0]|)) == ws[0]
    ensures next < |s| ==> !IsSpace(s[next]) && s[next] !in "<>"
  {
    var k := i + |ws[0]|;
    if |ws| > 1 {
      JoinParts(s, i, ws);
      assert s[k + 0] == " "[0];
      assert LegalWord(ws[1]);
      FirstChar(s, k + 1, ws[1..]);
      next := k + 1;
    } else {
      next := k;
    }
    hide Join;
    AtText(s, i, ws[0]);
    WordAt(s, i, ws[0]);
  }

  lemma TextsCons(s: string, w: Span, ws: seq<Span>)
    ensures Texts(s, [w] + ws) == [Text(s, w)] + Texts(s, ws)
  {
  }

  /** The words of a simple command, with args before them. */
  lemma {:induction false} ExecTrip(s: string, i: nat, ws: seq<string>, args: seq<Span>) returns (sp: seq<Span>)
    requires At(s, i, Join(ws)) && Stops(s, i + |Join(ws)|) && |args| + |ws| < MAXARGS
    requires LegalWords(ws)
    ensures ExecFrom(s, i, args, []) == Ok(Exec(args + sp), i + |Join(ws)|) && Texts(s, sp) == ws
    decreases |ws|, 1
  {
    hide ExecFrom, GetToken, Join, At, LegalWords, Texts, Text, Stops, IsWord;
    if ws == [] {
      sp := [];
      ExecNone(s, i, args);
    } else {
      var next := FirstWord(s, i, ws);
      sp := ExecRest(s, i, ws, args, next);
    }
  }

  lemma ExecNone(s: string, i: nat, args: seq<Span>)
    requires Stops(s, i + |Join([])|)
    ensures ExecFrom(s, i, args, []) == Ok(Exec(args + []), i + |Join([])|) && Texts(s, []) == []
  {
    ExecStop(s, i, args);
    assert args + [] == args;
  }

  lemma ExecRest(s: string, i: nat, ws: seq<string>, args: seq<Span>, next: nat) returns (sp: seq<Span>)
    requires ws != [] && LegalWords(ws) && |args| + |ws| < MAXARGS && Stops(s, i + |Join(ws)|)
    requires i < next <= |s| && At(s, next, Join(ws[1..])) && next + |Join(ws[1..])| == i + |Join(ws)|
    requires IsWord(s[i]) && GetToken(s, i) == Token(Word, Span(i, i + |ws[0]|), next)
    requires Text(s, Span(i, i + |ws[0]|)) == ws[0]
    requires next < |s| ==> !IsSpace(s[next]) && s[next] !in "<>"
    ensures ExecFrom(s, i, args, []) == Ok(Exec(args + sp), i + |Join(ws)|) && Texts(s, sp) == ws
    decreases |ws|, 0
  {
    hide ExecFrom, GetToken, Join, At, LegalWords, Texts, Text, Stops, IsWord, IsSpace;
    var w := Span(i, i + |ws[0]|);
    FewerWords(ws);
    ExecNext(s, i, i + |ws[0]|, next, args);
    var rest := ExecTrip(s, next, ws[1..], args + [w]);
    sp := [w] + rest;
    Assoc(args, w, rest);
    TextsCons(s, w, rest);
    HeadTail(ws);
  }

  lemma Assoc(a: seq<Span>, w: Span, b: seq<Span>)
    ensures a + [w] + b == a + ([w] + b)
  {
  }

  lemma HeadTail(ws: seq<string>)
    requires ws != []
    ensures [ws[0]] + ws[1..] == ws
  {
  }

  // ---------- parenthesised lines ----------

  /** "(" at i and ")" at k enclose a line that parses as c. */
  ghost predicate Enclosed(s: string, i: nat, k: nat, c: Cmd) {
    && i < k < |s| && s[i] == '(' && s[k] == ')' && !IsSpace(s[i + 1]) && ParseLine(s, i + 1) == Ok(c, k)
  }

  lemma BlockRest(s: string, i: nat, k: nat, c: Cmd, rs: seq<Redirection>, n: nat)
    requires Enclosed(s, i, k, c) && (k + 1 < |s| ==> !IsSpace(s[k + 1])) && Redirs(s, k + 1) == Ok(rs, n)
    ensures ParseExec(s, i) == Ok(Wrap(c, rs), n)
  {
    SymbolToken(s, i);
    SymbolToken(s, k);
    assert Skip(s, i) == i && Skip(s, i + 1) == i + 1 && Skip(s, k) == k && Skip(s, k + 1) == k + 1;
    assert PeekAt(s, i, "(") && PeekAt(s, k, ")");
    hide GetToken, Redirs, Skip, ParseLine;
  }

  lemma BlockPlain(s: string, i: nat, k: nat, c: Cmd)
    requires Enclosed(s, i, k, c) && (k + 1 < |s| ==> !IsSpace(s[k + 1]) && s[k + 1] !in "<>")
    ensures ParseExec(s, i) == Ok(c, k + 1)
  {
    NoRedirs(s, k + 1);
    BlockRest(s, i, k, c, [], k + 1);
  }

  /** A command before a delimiter that is not '|'. */
  lemma PipeEnds(s: string, i: nat, c: Cmd, k: nat)
    requires i <= k <= |s| && ParseExec(s, i) == Ok(c, k) && (k < |s| ==> !IsSpace(s[k]) && s[k] != '|')
    ensures ParsePipe(s, i) == Ok(c, k)
  {
    assert Skip(s, k) == k;
    hide ParseExec;
  }

  /** A pipeline before the end of a line. */
  lemma LineEnds(s: string, i: nat, c: Cmd, k: nat)
    requires i <= k && Stops(s, k) && ParsePipe(s, i) == Ok(c, k)
    ensures ParseLine(s, i) == Ok(c, k)
  {
    assert Skip(s, k) == k;
    assert Backs(c, s, k) == (c, k);
    hide ParsePipe;
  }

  lemma ParenLine(s: string, i: nat, k: nat, c: Cmd)
    requires Enclosed(s, i, k, c) && Stops(s, k + 1)
    ensures ParsePipe(s, i) == Ok(c, k + 1) && ParseLine(s, i) == Ok(c, k + 1)
  {
    hide ParseExec, ParsePipe, ParseLine;
    BlockPlain(s, i, k, c);
    PipeEnds(s, i, c, k + 1);
    LineEnds(s, i, c, k + 1);
  }

  lemma ExecLine(s: string, i: nat, ws: seq<string>) returns (c: Cmd)
    requires At(s, i, Join(ws)) && Stops(s, i + |Join(ws)|) && LegalWords(ws) && |ws| < MAXARGS
    ensures ParseLine(s, i) == Ok(c, i + |Join(ws)|) && Value(s, c) == TExec(ws)
  {
    hide ParseExec, ParsePipe, ParseLine, Join, At, LegalWords, ExecFrom, Redirs, PeekAt, Skip, Texts;
    ExecStart(s, i, ws);
    var sp := ExecTrip(s, i, ws, []);
    assert [] + sp == sp;
    c := Exec(sp);
    ExecBegins(s, i);
    StopsHere(s, i + |Join(ws)|);
    PipeEnds(s, i, c, i + |Join(ws)|);
    LineEnds(s, i, c, i + |Join(ws)|);
  }

  /** A plain command starts with neither a parenthesis nor a redirection. */
  lemma ExecStart(s: string, i: nat, ws: seq<string>)
    requires At(s, i, Join(ws)) && Stops(s, i + |Join(ws)|) && LegalWords(ws)
    ensures i <= |s| && !PeekAt(s, i, "(") && Redirs(s, i) == Ok([], i)
  {
    hide ParseExec;
    if ws != [] { FirstChar(s, i, ws); }
    NoRedirs(s, i);
  }

  lemma ExecBegins(s: string, i: nat)
    requires i <= |s| && !PeekAt(s, i, "(") && Redirs(s, i) == Ok([], i)
    ensures ParseExec(s, i) == ExecFrom(s, i, [], [])
  {
    hide ExecFrom, PeekAt;
  }

  lemma StopsHere(s: string, e: nat)
    requires Stops(s, e)
    ensures e <= |s| && (e < |s| ==> !IsSpace(s[e]) && s[e] != '|')
  {
  }

  lemma BackLine(s: string, i: nat, k: nat, c: Cmd)
    requires Enclosed(s, i, k, c) && k + 1 < |s| && s[k + 1] == '&' && Stops(s, k + 2)
    ensures ParseLine(s, i) == Ok(Back(c), k + 2)
  {
    hide ParseExec, ParsePipe, GetToken;
    BlockPlain(s, i, k, c);
    PipeEnds(s, i, c, k + 1);
    SymbolToken(s, k + 1);
    assert Skip(s, k + 1) == k + 1 && Skip(s, k + 2) == k + 2;
    assert Backs(Back(c), s, k + 2) == (Back(c), k + 2);
    assert Backs(c, s, k + 1) == (Back(c), k + 2);
  }

  lemma PipeLine(s: string, i: nat, k: nat, c: Cmd, n: nat, d: Cmd)
    requires Enclosed(s, i, k, c) && Enclosed(s, k + 2, n, d) && s[k + 1] == '|' && Stops(s, n + 1)
    ensures ParseLine(s, i) == Ok(Pipe(c, d), n + 1)
  {
    hide ParseExec, ParseLine, GetToken;
    BlockPlain(s, i, k, c);
    SymbolToken(s, k + 1);
    ParenLine(s, k + 2, n, d);
    assert Skip(s, k + 1) == k + 1 && Skip(s, k + 2) == k + 2;
    assert PeekAt(s, k + 1, "|");
    assert ParsePipe(s, i) == Ok(Pipe(c, d), n + 1);
    LineEnds(s, i, Pipe(c, d), n + 1);
  }

  lemma ListLine(s: string, i: nat, k: nat, c: Cmd, n: nat, d: Cmd)
    requires Enclosed(s, i, k, c) && Enclosed(s, k + 2, n, d) && s[k + 1] == ';' && Stops(s, n + 1)
    ensures ParseLine(s, i) == Ok(List(c, d), n + 1)
  {
    hide ParseExec, ParsePipe, GetToken;
    BlockPlain(s, i, k, c);
    PipeEnds(s, i, c, k + 1);
    SymbolToken(s, k + 1);
    ParenLine(s, k + 2, n, d);
    assert Skip(s, k + 1) == k + 1 && Skip(s, k + 2) == k + 2;
    assert Backs(c, s, k + 1) == (c, k + 1);
    assert PeekAt(s, k + 1, ";");
  }

  lemma SkipHere(s: string, i: nat)
    requires i < |s| && !IsSpace(s[i])
    ensures Skip(s, i) == i
  {
  }

  lemma FileToken(s: string, i: nat, file: string)
    requires LegalWord(file) && At(s, i, file) && Stops(s, i + |file|)
    ensures i < |s| && IsWord(s[i]) && GetToken(s, i) == Token(Word, Span(i, i + |file|), i + |file|)
  {
    WordAt(s, i, file);
  }

  lemma RedirsOne(s: string, k: nat, t: Token, w: Token)
    requires k < |s| && s[k] in "<>" && !IsSpace(s[k]) && t.next <= |s| && w.next <= |s|
    requires GetToken(s, k) == t && GetToken(s, t.next) == w && w.kind == Word && Redirs(s, w.next) == Ok([], w.next)
    ensures Redirs(s, k) == Ok([To(w.at, t.kind != Symbol('<'))], w.next)
  {
    SkipHere(s, k);
    hide GetToken, Skip;
    var rs := [To(w.at, t.kind != Symbol('<'))];
    assert rs + [] == rs;
  }

  /** One redirection, and nothing after it. */
  lemma OneRedir(s: string, k: nat, file: string, out: bool)
    requires k < |s| && s[k] == (if out then '>' else '<')
    requires LegalWord(file) && At(s, k + 1, file) && Stops(s, k + 1 + |file|)
    ensures Redirs(s, k) == Ok([To(Span(k + 1, k + 1 + |file|), out)], k + 1 + |file|)
  {
    var e := k + 1 + |file|;
    FileToken(s, k + 1, file);
    SymbolToken(s, k);
    SkipHere(s, k);
    SkipHere(s, k + 1);
    NoRedirs(s, e);
    hide GetToken, At, IsWord, IsSpace, IsSymbol, LegalWord, Skip, Redirs;
    RedirsOne(s, k, Token(Symbol(s[k]), Span(k, k + 1), k + 1), Token(Word, Span(k + 1, e), e));
  }

  lemma WrapSingle(c: Cmd, file: Span, out: bool)
    ensures Wrap(c, [To(file, out)]) == Redir(c, file, out)
  {
    assert [To(file, out)][1..] == [];
  }

  lemma EnclosedRedir(s: string, i: nat, k: nat, c: Cmd)
    requires Enclosed(s, i, k, c) && k + 1 < |s| && (s[k + 1] == '<' || s[k + 1] == '>')
    ensures i < k && !IsSpace(s[k + 1])
  {
  }

  lemma RedirLine(s: string, i: nat, k: nat, c: Cmd, file: string, out: bool)
    requires Enclosed(s, i, k, c) && k + 1 < |s| && s[k + 1] == (if out then '>' else '<')
    requires LegalWord(file) && At(s, k + 2, file) && Stops(s, k + 2 + |file|)
    ensures ParseLine(s, i) == Ok(Redir(c, Span(k + 2, k + 2 + |file|), out), k + 2 + |file|)
  {
    hide ParseExec, ParsePipe, ParseLine, Redirs, LegalWord, At, IsSpace, Wrap, Enclosed, Stops;
    EnclosedRedir(s, i, k, c);
    StopsHere(s, k + 2 + |file|);
    OneRedir(s, k + 1, file, out);
    var e := k + 2 + |file|;
    var rs := [To(Span(k + 2, e), out)];
    BlockRest(s, i, k, c, rs, e);
    var d := Redir(c, Span(k + 2, e), out);
    WrapSingle(c, Span(k + 2, e), out);
    PipeEnds(s, i, d, e);
    LineEnds(s, i, d, e);
  }

  // ---------- the round trip ----------

  lemma AtParen(s: string, i: nat, x: string, rest: string)
    requires At(s, i, "(" + x + rest)
    ensures i < |s| && s[i] == '(' && At(s, i + 1, x) && At(s, i + 1 + |x|, rest)
  {
    AtConcat(s, i, "(" + x, rest);
    AtConcat(s, i, "(", x);
    assert s[i + 0] == "("[0];
  }

  lemma AtTwo(s: string, i: nat, x: string)
    requires At(s, i, x)
    ensures |x| > 0 ==> i < |s| && s[i] == x[0]
    ensures |x| > 1 ==> i + 1 < |s| && s[i + 1] == x[1]
    ensures |x| > 2 ==> i + 2 < |s| && s[i + 2] == x[2]
  {
    if |x| > 0 { assert s[i + 0] == x[0]; }
  }

  /** A printed line does not start with white space. */
  lemma PrintStart(s: string, i: nat, t: Tree)
    requires Legal(t) && At(s, i, Print(t)) && i + |Print(t)| < |s| && s[i + |Print(t)|] == ')'
    ensures i < |s| && !IsSpace(s[i])
  {
    if t.TExec? {
      if t.words != [] { FirstChar(s, i, t.words); }
    } else {
      assert Print(t)[0] == '(';
      AtTwo(s, i, Print(t));
    }
  }

  /** "(" + the printed form of t + rest, where rest starts with ")". */
  lemma Opened(s: string, i: nat, t: Tree, rest: string) returns (c: Cmd)
    requires Legal(t) && At(s, i, "(" + Print(t) + rest) && rest != "" && rest[0] == ')'
    ensures Enclosed(s, i, i + 1 + |Print(t)|, c) && Value(s, c) == t && At(s, i + 1 + |Print(t)|, rest)
    decreases t, 2
  {
    hide Print, At, Legal, ParseLine, IsSpace;
    var k := i + 1 + |Print(t)|;
    AtParen(s, i, Print(t), rest);
    AtTwo(s, k, rest);
    PrintStart(s, i + 1, t);
    c := LineTrip(s, i + 1, t);
  }

  /** The printed form of a tree, wherever it stands as a line, parses as that tree. */
  lemma {:induction false} LineTrip(s: string, i: nat, t: Tree) returns (c: Cmd)
    requires Legal(t) && At(s, i, Print(t)) && Stops(s, i + |Print(t)|)
    ensures ParseLine(s, i) == Ok(c, i + |Print(t)|) && Value(s, c) == t
    decreases t, 1
  {
    hide ParseLine, Join;
    match t
    case TExec(ws) => c := ExecLine(s, i, ws);
    case TRedir(u, file, out) => c := RedirTrip(s, i, t);
    case TPipe(l, r) => c := PairTrip(s, i, t);
    case TList(l, r) => c := PairTrip(s, i, t);
    case TBack(u) =>
      PrintParts(t);
      var d := Opened(s, i, u, ")&");
      var k := i + 1 + |Print(u)|;
      AtTwo(s, k, ")&");
      BackLine(s, i, k, d);
      c := Back(d);
  }

  lemma PrintParts(t: Tree)
    requires !t.TExec?
    ensures Print(t) == "(" + Print(FirstPart(t)) + AfterFirst(t)
    ensures |AfterFirst(t)| > 0 && AfterFirst(t)[0] == ')'
  {
  }

  lemma RedirTrip(s: string, i: nat, t: Tree) returns (c: Cmd)
    requires t.TRedir? && Legal(t) && At(s, i, Print(t)) && Stops(s, i + |Print(t)|)
    ensures ParseLine(s, i) == Ok(c, i + |Print(t)|) && Value(s, c) == t
    decreases t, 0
  {
    hide ParseLine, Print, At, LegalWord, Enclosed;
    PrintParts(t);
    var d := Opened(s, i, t.cmd, AfterFirst(t));
    var k := i + 1 + |Print(t.cmd)|;
    var op := if t.out then ")>" else ")<";
    AtConcat(s, k, op, t.file);
    AtTwo(s, k, op);
    AtText(s, k + 2, t.file);
    RedirLine(s, i, k, d, t.file, t.out);
    c := Redir(d, Span(k + 2, k + 2 + |t.file|), t.out);
  }

  lemma PairTrip(s: string, i: nat, t: Tree) returns (c: Cmd)
    requires (t.TPipe? || t.TList?) && Legal(t) && At(s, i, Print(t)) && Stops(s, i + |Print(t)|)
    ensures ParseLine(s, i) == Ok(c, i + |Print(t)|) && Value(s, c) == t
    decreases t, 0
  {
    hide ParseLine, Print, At, Enclosed;
    PrintParts(t);
    var a := Opened(s, i, t.left, AfterFirst(t));
    var k := i + 1 + |Print(t.left)|;
    var op := if t.TPipe? then ")|" else ");";
    AtConcat(s, k, op, "(" + Print(t.right) + ")");
    AtTwo(s, k, op);
    var b := Opened(s, k + 2, t.right, ")");
    var n := k + 3 + |Print(t.right)|;
    if t.TPipe? {
      PipeLine(s, i, k, a, n, b);
      c := Pipe(a, b);
    } else {
      ListLine(s, i, k, a, n, b);
      c := List(a, b);
    }
  }

  /** Every legal tree is what the shell makes of its printed form. */
  lemma RoundTrip(t: Tree)
    requires Legal(t)
    ensures var r := ParseCmd(Print(t)); r.Ok? && Value(Print(t), r.value) == t
  {
    hide ParseLine, Print, Value, Legal;
    var s := Print(t);
    assert At(s, 0, s);
    var c := LineTrip(s, 0, t);
    assert Skip(s, |s|) == |s|;
  }

  /** The tree read through its pointers as C strings of the buffer b. */
  function CValue(b: seq<char>, cmd: Cmd): Tree {
    match cmd
    case Exec(args) => TExec(seq(|args|, i requires 0 <= i < |args| => CText(b, args[i].q)))
    case Redir(c, file, out) => TRedir(CValue(b, c), CText(b, file.q), out)
    case Pipe(l, r) => TPipe(CValue(b, l), CValue(b, r))
    case List(l, r) => TList(CValue(b, l), CValue(b, r))
    case Back(c) => TBack(CValue(b, c))
  }

  function CText(b: seq<char>, q: nat): string { if q <= |b| then CString(b, q) else "" }

  ghost predicate Delimiters(s: string, ends: set<nat>) {
    forall e :: e in ends ==> e <= |s| && (e < |s| ==> !IsWord(s[e]))
  }

  lemma ReadsSpan(s: string, ends: set<nat>, w: Span)
    requires IsWordAt(s, w) && Delimiters(s, ends) && w.eq in ends
    ensures CText(Terminated(s, ends), w.q) == Text(s, w)
  {
    CStringWord(s, ends, w.q, w.eq);
  }

  lemma {:induction false} ReadsTree(s: string, ends: set<nat>, cmd: Cmd)
    requires WordsOf(s, cmd) && Delimiters(s, ends) && Ends(cmd) <= ends
    ensures CValue(Terminated(s, ends), cmd) == Value(s, cmd)
  {
    match cmd
    case Exec(args) =>
      forall i | 0 <= i < |args| ensures CText(Terminated(s, ends), args[i].q) == Text(s, args[i]) {
        assert args[i].eq in Ends(cmd);
        ReadsSpan(s, ends, args[i]);
      }
    case Redir(c, file, out) =>
      ReadsTree(s, ends, c);
      ReadsSpan(s, ends, file);
    case Pipe(l, r) =>
      ReadsTree(s, ends, l);
      ReadsTree(s, ends, r);
    case List(l, r) =>
      ReadsTree(s, ends, l);
      ReadsTree(s, ends, r);
    case Back(c) => ReadsTree(s, ends, c);
  }

  /** For every line that parses, the terminated buffer holds the tree that was parsed. */
  lemma TerminatedReads(s: string, cmd: Cmd)
    requires NoNul(s) && ParseCmd(s) == Ok(cmd, |s|)
    ensures CValue(Terminated(s, Ends(cmd)), cmd) == Value(s, cmd)
  {
    LineWords(s, 0);
    EndsAreDelimiters(s, cmd);
    ReadsTree(s, Ends(cmd), cmd);
  }

  // ---------- when a simple command is refused ----------

  /** How many arguments stand in the simple command from i on, read token by token: a word is
      one, a redirection and the word after it are none. None is any other token on the way, or
      a redirection without a word. */
  function ArgCount(s: string, i: nat): Option<nat>
    requires i <= |s|
    decreases |s| - i
  {
    if PeekAt(s, i, "|)&;") then Some(0)
    else
      var t := GetToken(s, i);
      if t.kind == Eof then Some(0)
      else if t.kind == Word then
        match ArgCount(s, t.next)
        case None => None
        case Some(n) => Some(n + 1)
      else if PeekAt(s, i, "<>") && GetToken(s, t.next).kind == Word then ArgCount(s, GetToken(s, t.next).next)
      else None
  }

  lemma CountSkip(s: string, i: nat)
    requires i <= |s|
    ensures ArgCount(s, Skip(s, i)) == ArgCount(s, i) && (PeekAt(s, Skip(s, i), "<>") <==> PeekAt(s, i, "<>"))
  {
    SkipTwice(s, i);
  }

  /** parseredirs reads what does not count. */
  lemma {:induction false} RedirsCount(s: string, i: nat)
    requires i <= |s|
    ensures match Redirs(s, i)
            case Panic => ArgCount(s, i) == None
            case Ok(rs, k) => ArgCount(s, k) == ArgCount(s, i) && !PeekAt(s, k, "<>")
    decreases |s| - i
  {
    if PeekAt(s, i, "<>") {
      RedirToken(s, i);
      var w := GetToken(s, GetToken(s, i).next);
      if w.kind == Word { RedirsCount(s, w.next); }
    } else {
      CountSkip(s, i);
    }
  }

  lemma RedirToken(s: string, i: nat)
    requires i <= |s| && PeekAt(s, i, "<>")
    ensures !PeekAt(s, i, "|)&;") && GetToken(s, i).kind != Eof && GetToken(s, i).kind != Word
  {
  }

  /** The arguments of a simple command inside its redirections. */
  function Arity(cmd: Cmd): nat {
    match cmd
    case Exec(args) => |args|
    case Redir(c, _, _) => Arity(c)
    case _ => 0
  }

  lemma {:induction false} WrapArity(cmd: Cmd, rs: seq<Redirection>)
    ensures Arity(Wrap(cmd, rs)) == Arity(cmd)
    decreases |rs|
  {
    if rs != [] { WrapArity(Redir(cmd, rs[0].file, rs[0].out), rs[1..]); }
  }

  lemma {:induction false} ExecCount(s: string, i: nat, args: seq<Span>, rs: seq<Redirection>)
    requires i <= |s| && !PeekAt(s, i, "<>") && |args| < MAXARGS
    ensures var n, r := ArgCount(s, i), ExecFrom(s, i, args, rs);
      && (r == Panic <==> n == None || |args| + n.value >= MAXARGS)
      && (r.Ok? ==> Arity(r.value) == |args| + n.value)
    decreases |s| - i
  {
    WrapArity(Exec(args), rs);
    var t := GetToken(s, i);
    if !PeekAt(s, i, "|)&;") && t.kind == Word && |args| + 1 < MAXARGS {
      RedirsCount(s, t.next);
      var more := Redirs(s, t.next);
      if more.Ok? { ExecCount(s, more.pos, args + [t.at], rs + more.value); }
    }
  }

  /** A simple command is refused exactly when its tokens are not words and redirections, or
      when MAXARGS words or more stand in it, whatever redirections lie between them; when it
      is accepted, each of these words is an argument. */
  lemma TooManyArgs(s: string, i: nat)
    requires i <= |s| && !PeekAt(s, i, "(")
    ensures var n, r := ArgCount(s, i), ParseExec(s, i);
      && (r == Panic <==> n == None || n.value >= MAXARGS)
      && (r.Ok? ==> Arity(r.value) == n.value)
  {
    RedirsCount(s, i);
    var rs := Redirs(s, i);
    if rs.Ok? { ExecCount(s, rs.pos, [], rs.value); }
    hide ArgCount, Redirs, ExecFrom, Arity, Skip;
  }

  /** Printed words are counted one by one. */
  lemma {:induction false} JoinCount(s: string, i: nat, ws: seq<string>)
    requires At(s, i, Join(ws)) && Stops(s, i + |Join(ws)|) && LegalWords(ws)
    ensures i <= |s| && ArgCount(s, i) == Some(|ws|)
    decreases |ws|
  {
    hide ArgCount, GetToken, Join, At, LegalWords, IsWord, Stops;
    if ws == [] {
      NoWords(s, i);
    } else {
      var next := FirstWord(s, i, ws);
      FewerWords(ws);
      WordCount(s, i);
      JoinCount(s, next, ws[1..]);
    }
  }

  lemma NoWords(s: string, i: nat)
    requires Stops(s, i + |Join([])|)
    ensures i <= |s| && ArgCount(s, i) == Some(0)
  {
  }

  lemma FewerWords(ws: seq<string>)
    requires LegalWords(ws) && ws != []
    ensures LegalWords(ws[1..])
  {
  }

  lemma WordCount(s: string, i: nat)
    requires i < |s| && IsWord(s[i])
    ensures var t := GetToken(s, i);
      t.kind == Word && ArgCount(s, t.next).Some? ==> ArgCount(s, i) == Some(ArgCount(s, t.next).value + 1)
  {
    assert Skip(s, i) == i;
  }

  // ---------- the parser as code ----------

  lemma {:induction false} WrapConcat(cmd: Cmd, a: seq<Redirection>, b: seq<Redirection>)
    ensures Wrap(Wrap(cmd, a), b) == Wrap(cmd, a + b)
    decreases |a|
  {
    if a == [] {
      assert a + b == b;
    } else {
      assert (a + b)[1..] == a[1..] + b;
      WrapConcat(Redir(cmd, a[0].file, a[0].out), a[1..], b);
    }
  }

  lemma WrapOne(cmd: Cmd, rs: seq<Redirection>, file: Span, out: bool)
    ensures Wrap(cmd, rs + [To(file, out)]) == Redir(Wrap(cmd, rs), file, out)
  {
    WrapConcat(cmd, rs, [To(file, out)]);
    assert [To(file, out)][1..] == [];
  }

  /** The execcmd below its redirections with its arguments filled in. */
  function Fill(cmd: Cmd, args: seq<Span>): Cmd {
    match cmd
    case Redir(c, file, out) => Redir(Fill(c, args), file, out)
    case _ => Exec(args)
  }

  lemma {:induction false} FillWrap(cmd: Cmd, rs: seq<Redirection>, args: seq<Span>)
    requires cmd.Exec? || cmd.Redir?
    ensures Fill(Wrap(cmd, rs), args) == Wrap(Fill(cmd, args), rs)
    decreases |rs|
  {
    if rs != [] { FillWrap(Redir(cmd, rs[0].file, rs[0].out), rs[1..], args); }
  }

  /** What a method returned, and its cursor, against the specification. */
  ghost predicate Agrees(r: Option<Cmd>, ps: nat, spec: Result<Cmd>) {
    match spec
    case Panic => r == None
    case Ok(cmd, k) => r == Some(cmd) && ps == k
  }

  /** Skipping white space first changes nothing. */
  lemma SkipTwice(s: string, i: nat)
    requires i <= |s|
    ensures Skip(s, Skip(s, i)) == Skip(s, i) && GetToken(s, Skip(s, i)) == GetToken(s, i)
  {
  }

  lemma SkipRedirs(s: string, i: nat)
    requires i <= |s|
    ensures Redirs(s, Skip(s, i)) == Redirs(s, i)
  {
    SkipTwice(s, i);
  }

  lemma SkipBlock(s: string, i: nat)
    requires i <= |s| && PeekAt(s, i, "(")
    ensures PeekAt(s, Skip(s, i), "(") && ParseBlock(s, Skip(s, i)) == ParseBlock(s, i)
  {
    SkipTwice(s, i);
  }

  /** The redirections from i on are rs and those from k on. */
  ghost predicate RedirsVia(s: string, i: nat, rs: seq<Redirection>, k: nat)
    requires i <= |s| && k <= |s|
  {
    match Redirs(s, k)
    case Panic => Redirs(s, i) == Panic
    case Ok(more, n) => Redirs(s, i) == Ok(rs + more, n)
  }

  lemma RedirStart(s: string, i: nat)
    requires i <= |s|
    ensures RedirsVia(s, i, [], i)
  {
    var none: seq<Redirection> := [];
    assert forall rs: seq<Redirection> :: none + rs == rs;
  }

  lemma RedirEnd(s: string, i: nat, rs: seq<Redirection>, k: nat)
    requires i <= |s| && k <= |s| && RedirsVia(s, i, rs, k) && !PeekAt(s, k, "<>")
    ensures Redirs(s, i) == Ok(rs, Skip(s, k))
  {
    assert rs + [] == rs;
  }

  /** One round of parseredirs' loop. */
  lemma RedirStep(s: string, i: nat, rs: seq<Redirection>, k: nat)
    requires i <= |s| && k <= |s| && RedirsVia(s, i, rs, k) && PeekAt(s, k, "<>")
    ensures var t := GetToken(s, k); var w := GetToken(s, t.next);
      if w.kind != Word then Redirs(s, i) == Panic
      else RedirsVia(s, i, rs + [To(w.at, t.kind != Symbol('<'))], w.next)
  {
    hide Redirs, GetToken, PeekAt, Skip;
    var t := GetToken(s, k);
    var w := GetToken(s, t.next);
    var one := [To(w.at, t.kind != Symbol('<'))];
    RedirsFirst(s, k);
    if w.kind == Word && Redirs(s, w.next).Ok? {
      assert rs + (one + Redirs(s, w.next).value) == rs + one + Redirs(s, w.next).value;
    }
  }

  /** parseredirs by its first redirection. */
  lemma RedirsFirst(s: string, k: nat)
    requires k <= |s| && PeekAt(s, k, "<>")
    ensures var t := GetToken(s, k); var w := GetToken(s, t.next);
      && (w.kind != Word || Redirs(s, w.next) == Panic ==> Redirs(s, k) == Panic)
      && (w.kind == Word && Redirs(s, w.next).Ok? ==>
            Redirs(s, k) == Ok([To(w.at, t.kind != Symbol('<'))] + Redirs(s, w.next).value, Redirs(s, w.next).pos))
  {
    hide GetToken, Skip;
  }

  /** The first steps of parseexec. */
  lemma ExecParts(s: string, i: nat)
    requires i <= |s|
    ensures PeekAt(s, i, "(") ==> ParseExec(s, i) == ParseBlock(s, i)
    ensures !PeekAt(s, i, "(") && Redirs(s, i) == Panic ==> ParseExec(s, i) == Panic
    ensures !PeekAt(s, i, "(") && Redirs(s, i).Ok? ==>
      ParseExec(s, i) == ExecFrom(s, Redirs(s, i).pos, [], Redirs(s, i).value)
  {
  }

  /** The ways out of parseexec's loop. */
  lemma ExecDone(s: string, i: nat, args: seq<Span>, rs: seq<Redirection>)
    requires i <= |s|
    ensures PeekAt(s, i, "|)&;") ==> ExecFrom(s, i, args, rs) == Ok(Wrap(Exec(args), rs), Skip(s, i))
    ensures !PeekAt(s, i, "|)&;") ==>
      var t := GetToken(s, i);
      && (t.kind == Eof ==> ExecFrom(s, i, args, rs) == Ok(Wrap(Exec(args), rs), t.next))
      && (t.kind != Eof && (t.kind != Word || |args| + 1 >= MAXARGS) ==> ExecFrom(s, i, args, rs) == Panic)
  {
  }

  /** One round of parseexec's loop. */
  lemma ExecStep(s: string, i: nat, args: seq<Span>, rs: seq<Redirection>)
    requires i <= |s| && !PeekAt(s, i, "|)&;") && GetToken(s, i).kind == Word && |args| + 1 < MAXARGS
    ensures var t := GetToken(s, i); var r := Redirs(s, t.next);
      ExecFrom(s, i, args, rs) == if r.Panic? then Panic else ExecFrom(s, r.pos, args + [t.at], rs + r.value)
  {
  }

  class Parser {
    const buf: array<char>
    const es: nat
    var ps: nat

    constructor (line: string)
      requires NoNul(line)
      ensures Valid() && ps == 0 && Line() == line && fresh(buf)
    {
      buf := new char[|line| + 1](i requires 0 <= i <= |line| => if i < |line| then line[i] else '\0');
      es, ps := |line|, 0;
      new;
      assert buf[..es] == line;
    }

    ghost predicate Valid()
      reads this, buf
    {
      buf.Length == es + 1 && buf[es] == '\0' && NoNul(buf[..es]) && ps <= es
    }

    ghost function Line(): string
      requires es <= buf.Length
      reads this, buf
    {
      buf[..es]
    }

    /** The loop that skips white space. */
    method SkipFrom(i: nat) returns (k: nat)
      requires Valid() && i <= es
      ensures k == Skip(Line(), i)
    {
      k := i;
      while k < es && IsSpace(buf[k])
        invariant i <= k <= es && Skip(Line(), k) == Skip(Line(), i)
      {
        k := k + 1;
      }
    }

    method WordFrom(q: nat) returns (s: nat)
      requires Valid() && q <= es
      ensures s == WordEnd(Line(), q)
    {
      s := q;
      while s < es && !IsSpace(buf[s]) && !IsSymbol(buf[s])
        invariant q <= s <= es && WordEnd(Line(), s) == WordEnd(Line(), q)
      {
        s := s + 1;
      }
    }

    method Gettoken() returns (kind: Kind, at: Span)
      requires Valid()
      modifies this`ps
      ensures Valid() && Token(kind, at, ps) == GetToken(Line(), old(ps))
    {
      hide Skip, WordEnd, NoNul;
      var s := SkipFrom(ps);
      var q := s;
      if buf[s] == '\0' {
        kind := Eof;
      } else if buf[s] == '>' && buf[s + 1] == '>' {
        kind := Append;
        s := s + 2;
      } else if IsSymbol(buf[s]) {
        kind := Symbol(buf[s]);
        s := s + 1;
      } else {
        kind := Word;
        s := WordFrom(q);
      }
      at := Span(q, s);
      ps := SkipFrom(s);
    }

    method Peek(toks: string) returns (b: bool)
      requires Valid() && '\0' !in toks
      modifies this`ps
      ensures Valid() && ps == Skip(Line(), old(ps)) && b == PeekAt(Line(), old(ps), toks)
    {
      ps := SkipFrom(ps);
      b := buf[ps] in toks;
    }

    /** None is a panic. */
    method Parseredirs(cmd: Cmd) returns (r: Option<Cmd>)
      requires Valid()
      modifies this`ps
      ensures Valid()
      ensures match Redirs(Line(), old(ps))
              case Panic => r == None
              case Ok(rs, k) => r == Some(Wrap(cmd, rs)) && ps == k
    {
      ghost var s, i := Line(), ps;
      ghost var rs: seq<Redirection> := [];
      var c := cmd;
      RedirStart(s, i);
      assert Wrap(cmd, rs) == cmd;
      hide Redirs, GetToken, Skip, Wrap, RedirsVia;
      while true
        invariant Valid() && Line() == s && i <= ps && c == Wrap(cmd, rs) && RedirsVia(s, i, rs, ps)
        decreases es - ps
      {
        ghost var k := ps;
        SkipTwice(s, k);
        var redir := Peek("<>");
        if !redir {
          RedirEnd(s, i, rs, k);
          return Some(c);
        }
        RedirStep(s, i, rs, k);
        var tok, op := Gettoken();
        var kind, at := Gettoken();
        if kind != Word { return None; }
        c := Redir(c, at, tok != Symbol('<'));
        WrapOne(cmd, rs, at, tok != Symbol('<'));
        rs := rs + [To(at, tok != Symbol('<'))];
      }
    }

    method Parseexec() returns (r: Option<Cmd>)
      requires Valid()
      modifies this`ps
      ensures Valid() && Agrees(r, ps, ParseExec(Line(), old(ps)))
      decreases es - ps, 1
    {
      hide ParseExec, ParseBlock, ExecFrom, Redirs, GetToken, Skip, PeekAt, Wrap;
      ghost var s, i := Line(), ps;
      ExecParts(s, i);
      var block := Peek("(");
      if block {
        SkipBlock(s, i);
        r := Parseblock();
        return;
      }
      SkipRedirs(s, i);
      r := Parseredirs(Exec([]));
      if r.None? { return; }
      ghost var rs := Redirs(s, i).value;
      var ret, args := r.value, [];
      while true
        invariant Valid() && Line() == s && i <= ps && |args| < MAXARGS
        invariant ret == Wrap(Exec([]), rs) && ParseExec(s, i) == ExecFrom(s, ps, args, rs)
        decreases es - ps
      {
        ghost var k := ps;
        SkipTwice(s, k);
        FillWrap(Exec([]), rs, args);
        ExecDone(s, k, args, rs);
        var stop := Peek("|)&;");
        if stop { return Some(Fill(ret, args)); }
        var tok, at := Gettoken();
        if tok == Eof { return Some(Fill(ret, args)); }
        if tok != Word { return None; }
        if |args| + 1 >= MAXARGS { return None; }
        ExecStep(s, k, args, rs);
        ghost var n := ps;
        var next := Parseredirs(ret);
        if next.None? { return None; }
        WrapConcat(Exec([]), rs, Redirs(s, n).value);
        rs := rs + Redirs(s, n).value;
        ret, args := next.value, args + [at];
      }
    }

    method Parseblock() returns (r: Option<Cmd>)
      requires Valid() && PeekAt(Line(), ps, "(")
      modifies this`ps
      ensures Valid() && Agrees(r, ps, ParseBlock(Line(), old(ps)))
      decreases es - ps, 0
    {
      ghost var s, i := Line(), ps;
      SkipTwice(s, i);
      var open := Peek("(");
      var tok1, at1 := Gettoken();
      r := Parseline();
      if r.None? { return; }
      ghost var k := ps;
      SkipTwice(s, k);
      var close := Peek(")");
      if !close { return None; }
      var tok2, at2 := Gettoken();
      r := Parseredirs(r.value);
    }

    method Parsepipe() returns (r: Option<Cmd>)
      requires Valid()
      modifies this`ps
      ensures Valid() && Agrees(r, ps, ParsePipe(Line(), old(ps)))
      decreases es - ps, 2
    {
      ghost var s, i := Line(), ps;
      r := Parseexec();
      if r.None? { return; }
      SkipTwice(s, ps);
      var left := r.value;
      var bar := Peek("|");
      if bar {
        var tok3, at3 := Gettoken();
        r := Parsepipe();
        if r.Some? { r := Some(Pipe(left, r.value)); }
      }
    }

    method Parseline() returns (r: Option<Cmd>)
      requires Valid()
      modifies this`ps
      ensures Valid() && Agrees(r, ps, ParseLine(Line(), old(ps)))
      decreases es - ps, 3
    {
      ghost var s, i := Line(), ps;
      r := Parsepipe();
      if r.None? { return; }
      var cmd := r.value;
      ghost var c0, k0 := cmd, ps;
      while true
        invariant Valid() && Line() == s && k0 <= ps && Backs(cmd, s, ps) == Backs(c0, s, k0)
        decreases es - ps
      {
        SkipTwice(s, ps);
        var amp := Peek("&");
        if !amp { break; }
        var tok4, at4 := Gettoken();
        cmd := Back(cmd);
      }
      SkipTwice(s, ps);
      var semi := Peek(";");
      if !semi { return Some(cmd); }
      var tok5, at5 := Gettoken();
      r := Parseline();
      if r.Some? { r := Some(List(cmd, r.value)); }
    }

    /** The parse, then the NULs. */
    method Parsecmd() returns (r: Option<Cmd>)
      requires Valid() && ps == 0
      modifies this`ps, buf
      ensures match ParseCmd(old(Line()))
              case Panic => r == None && buf[..] == old(buf[..])
              case Ok(cmd, k) =>
                && r == Some(cmd) && buf[..] == Terminated(old(Line()), Ends(cmd))
                && CValue(buf[..], cmd) == Value(old(Line()), cmd)
    {
      ghost var s := Line();
      r := Parseline();
      if r.None? { return; }
      SkipTwice(s, ps);
      var none := Peek("");
      if ps != es { return None; }
      LineWords(s, 0);
      EndsAreDelimiters(s, r.value);
      TerminatedReads(s, r.value);
      Nulterminate(r.value);
      assert buf[..] == Terminated(s, Ends(r.value));
    }

    method Nulterminate(cmd: Cmd)
      requires forall e :: e in Ends(cmd) ==> e < buf.Length
      modifies buf
      ensures forall i :: 0 <= i < buf.Length ==> buf[i] == if i in Ends(cmd) then '\0' else old(buf[i])
      decreases cmd
    {
      match cmd
      case Exec(args) =>
        for i := 0 to |args|
          invariant forall k :: 0 <= k < buf.Length ==>
            buf[k] == if exists j :: 0 <= j < i && args[j].eq == k then '\0' else old(buf[k])
        {
          assert args[i].eq in Ends(cmd);
          buf[args[i].eq] := '\0';
        }
      case Redir(c, file, out) =>
        assert Ends(cmd) == Ends(c) + {file.eq} && file.eq in Ends(cmd);
        Nulterminate(c);
        buf[file.eq] := '\0';
      case Pipe(l, r) =>
        assert Ends(cmd) == Ends(l) + Ends(r);
        Nulterminate(l);
        Nulterminate(r);
      case List(l, r) =>
        assert Ends(cmd) == Ends(l) + Ends(r);
        Nulterminate(l);
        Nulterminate(r);
      case Back(c) =>
        assert Ends(cmd) == Ends(c);
        Nulterminate(c);
    }
  }
}
