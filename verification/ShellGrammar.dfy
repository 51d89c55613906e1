/** The shell's grammar, and that its parser accepts exactly the lines of that grammar
    (sh.c). A line is read as a list of lexemes; a derivation says how the grammar
    yields them. */
module ShellGrammar {
  import opened Shell
  import opened ShellParser

  // --------------------------------------------------------------- the grammar

  /** A word of the line, or an operator; '+' stands for >>. */
  datatype Lexeme = Sym(c: char) | Word(w: Span)

  /** A part of a simple command. */
  datatype Piece = Arg(w: Span) | Dir(op: char, file: Span)

  /** The rules, with operators in quotes:
        line: back, or back ";" line            back: pipe, or back "&"
        pipe: exec, or exec "|" pipe            exec: pieces, or "(" line ")" redirections */
  datatype Deriv =
    | Simple(pieces: seq<Piece>)
    | Block(line: Deriv, dirs: seq<Piece>)
    | Piped(left: Deriv, right: Deriv)
    | Amp(sub: Deriv)
    | Semi(left: Deriv, right: Deriv)

  /** The rule a derivation starts with: 0 for line, 1 for back, 2 for pipe, 3 for exec. */
  function Rank(d: Deriv): nat {
    match d
    case Semi(_, _) => 0
    case Amp(_) => 1
    case Piped(_, _) => 2
    case _ => 3
  }

  predicate GoodPiece(p: Piece) { p.Dir? ==> p.op in "<>+" }

  predicate GoodPieces(ps: seq<Piece>) { forall i :: 0 <= i < |ps| ==> GoodPiece(ps[i]) }

  predicate AllDirs(ps: seq<Piece>) { forall i :: 0 <= i < |ps| ==> ps[i].Dir? && GoodPiece(ps[i]) }

  /** A derivation from the rule of the given level, with fewer than MAXARGS arguments
      to each command. */
  predicate Derives(level: nat, d: Deriv)
    decreases d
  {
    && level <= Rank(d)
    && match d
       case Simple(ps) => |ArgsOf(ps)| < MAXARGS && GoodPieces(ps)
       case Block(line, dirs) => Derives(0, line) && AllDirs(dirs)
       case Piped(left, right) => Derives(3, left) && Derives(2, right)
       case Amp(sub) => Derives(1, sub)
       case Semi(left, right) => Derives(1, left) && Derives(0, right)
  }

  function PieceYield(p: Piece): seq<Lexeme> { if p.Arg? then [Word(p.w)] else [Sym(p.op), Word(p.file)] }

  function Flat(ps: seq<Piece>): seq<Lexeme> { if ps == [] then [] else PieceYield(ps[0]) + Flat(ps[1..]) }

  function Yield(d: Deriv): seq<Lexeme> {
    match d
    case Simple(ps) => Flat(ps)
    case Block(line, dirs) => [Sym('(')] + Yield(line) + [Sym(')')] + Flat(dirs)
    case Piped(left, right) => Yield(left) + [Sym('|')] + Yield(right)
    case Amp(sub) => Yield(sub) + [Sym('&')]
    case Semi(left, right) => Yield(left) + [Sym(';')] + Yield(right)
  }

  function ArgsOf(ps: seq<Piece>): seq<Span> {
    if ps == [] then [] else if ps[0].Arg? then [ps[0].w] + ArgsOf(ps[1..]) else ArgsOf(ps[1..])
  }

  function DirOf(p: Piece): (Span, Mode)
    requires p.Dir?
  {
    (p.file, if p.op == '<' then Input else Output)
  }

  function DirsOf(ps: seq<Piece>): seq<(Span, Mode)> {
    if ps == [] then [] else if ps[0].Dir? then [DirOf(ps[0])] + DirsOf(ps[1..]) else DirsOf(ps[1..])
  }

  /** The command a derivation stands for. */
  function Tree(d: Deriv): Cmd<Span> {
    match d
    case Simple(ps) => Wrap(Exec(ArgsOf(ps)), DirsOf(ps))
    case Block(line, dirs) => Wrap(Tree(line), DirsOf(dirs))
    case Piped(left, right) => Pipe(Tree(left), Tree(right))
    case Amp(sub) => Back(Tree(sub))
    case Semi(left, right) => List(Tree(left), Tree(right))
  }

  // ------------------------------------------------------------------ lexemes

  function LexemeOf(t: Token): Lexeme { if t.kind == 'a' then Word(Span(t.q, t.eq)) else Sym(t.kind) }

  /** The lexemes of the line from i on. */
  function Lexemes(s: string, i: nat): seq<Lexeme>
    requires i <= |s|
    decreases |s| - i
  {
    var t := Gettoken(s, i);
    if t.q == |s| then [] else [LexemeOf(t)] + Lexemes(s, t.next)
  }

  /** What a token is of the text: only white space lies before and behind it, and it is
      as much of a word, or of >>, as there is. */
  lemma TokenText(s: string, i: nat)
    requires i <= |s|
    ensures var t := Gettoken(s, i);
            && (forall k :: i <= k < t.q ==> IsSpace(s[k])) && (forall k :: t.eq <= k < t.next ==> IsSpace(s[k]))
            && (t.kind == NUL <==> t.q == |s|) && (t.kind == 'a' ==> IsWord(s, Span(t.q, t.eq)))
            && (t.kind == '+' ==> s[t.q..t.eq] == ">>")
            && (t.kind !in [NUL, 'a', '+'] ==>
                  && IsSymbol(t.kind) && s[t.q..t.eq] == [t.kind]
                  && (t.kind == '>' ==> t.eq == |s| || s[t.eq] != '>'))
  {
    var t := Gettoken(s, i);
    if t.kind != NUL && t.kind != 'a' {
      assert s[t.q..t.eq] == if t.kind == '+' then [s[t.q], s[t.q + 1]] else [s[t.q]];
    }
  }

  predicate Heads(ls: seq<Lexeme>, cs: string) { ls != [] && ls[0].Sym? && ls[0].c in cs }

  lemma LexSkip(s: string, i: nat)
    requires i <= |s|
    ensures Lexemes(s, Skip(s, i)) == Lexemes(s, i)
  {
    SkipTwice(s, i);
  }

  lemma LexNext(s: string, i: nat)
    requires i <= |s|
    ensures var t := Gettoken(s, i);
            && (Lexemes(s, i) == [] <==> t.kind == NUL)
            && (Lexemes(s, i) != [] ==>
                  i < t.next && Lexemes(s, i)[0] == LexemeOf(t) && Lexemes(s, t.next) == Lexemes(s, i)[1..])
  {
  }

  lemma PeekHeads(s: string, i: nat, toks: string)
    requires i <= |s| && forall k :: 0 <= k < |toks| ==> IsSymbol(toks[k]) && toks[k] != '>'
    ensures Peek(s, i, toks) <==> Heads(Lexemes(s, i), toks)
  {
  }

  lemma PeekRedir(s: string, i: nat)
    requires i <= |s|
    ensures Peek(s, i, "<>") <==> Heads(Lexemes(s, i), "<>+")
  {
  }

  lemma Peeks(s: string, i: nat)
    requires i <= |s|
    ensures Peek(s, i, "(") <==> Heads(Lexemes(s, i), "(")
    ensures Peek(s, i, ")") <==> Heads(Lexemes(s, i), ")")
    ensures Peek(s, i, "|") <==> Heads(Lexemes(s, i), "|")
    ensures Peek(s, i, "&") <==> Heads(Lexemes(s, i), "&")
    ensures Peek(s, i, ";") <==> Heads(Lexemes(s, i), ";")
    ensures Peek(s, i, "|)&;") <==> Heads(Lexemes(s, i), "|)&;")
    ensures Peek(s, i, "<>") <==> Heads(Lexemes(s, i), "<>+")
  {
    hide Peek;
    hide Lexemes;
    PeekHeads(s, i, "(");
    PeekHeads(s, i, ")");
    PeekHeads(s, i, "|");
    PeekHeads(s, i, "&");
    PeekHeads(s, i, ";");
    PeekHeads(s, i, "|)&;");
    PeekRedir(s, i);
  }

  // ------------------------------------------------------- lists of pieces

  lemma Assoc<T>(a: seq<T>, b: seq<T>, c: seq<T>)
    ensures a + b + c == a + (b + c)
  {
  }

  lemma FlatCons(p: Piece, ps: seq<Piece>)
    ensures Flat([p] + ps) == PieceYield(p) + Flat(ps)
    ensures ArgsOf([p] + ps) == if p.Arg? then [p.w] + ArgsOf(ps) else ArgsOf(ps)
    ensures DirsOf([p] + ps) == if p.Dir? then [DirOf(p)] + DirsOf(ps) else DirsOf(ps)
  {
    assert ([p] + ps)[1..] == ps;
  }

  lemma {:induction false} Cat(ps: seq<Piece>, qs: seq<Piece>)
    ensures Flat(ps + qs) == Flat(ps) + Flat(qs)
    ensures ArgsOf(ps + qs) == ArgsOf(ps) + ArgsOf(qs)
    ensures DirsOf(ps + qs) == DirsOf(ps) + DirsOf(qs)
  {
    hide Flat;
    hide ArgsOf;
    hide DirsOf;
    if ps == [] {
      assert ps + qs == qs;
      NoPieces();
    } else {
      var p, rest := ps[0], ps[1..];
      Cat(rest, qs);
      Assoc([p], rest, qs);
      assert ps == [p] + rest;
      FlatCons(p, rest);
      FlatCons(p, rest + qs);
      Assoc(PieceYield(p), Flat(rest), Flat(qs));
      if p.Arg? {
        Assoc([p.w], ArgsOf(rest), ArgsOf(qs));
      } else {
        Assoc([DirOf(p)], DirsOf(rest), DirsOf(qs));
      }
    }
  }

  lemma NoPieces()
    ensures Flat([]) == [] && ArgsOf([]) == [] && DirsOf([]) == []
  {
  }

  lemma {:induction false} DirsHaveNoArgs(ps: seq<Piece>)
    requires AllDirs(ps)
    ensures ArgsOf(ps) == []
  {
    if ps != [] { DirsHaveNoArgs(ps[1..]); }
  }

  // ----------------------------------------- what the parser accepts is derived

  lemma RedirSteps(s: string, done: seq<(Span, Mode)>, i: nat) returns (p: Piece, j: nat)
    requires i <= |s| && Peek(s, i, "<>") && ParseRedirs(s, done, i).Ok?
    ensures i < j <= |s| && p.Dir? && GoodPiece(p) && ParseRedirs(s, done, i) == ParseRedirs(s, done + [DirOf(p)], j)
    ensures Lexemes(s, i) == PieceYield(p) + Lexemes(s, j)
  {
    hide Lexemes;
    hide Gettoken;
    hide Peek;
    Peeks(s, i);
    var tok := Gettoken(s, i);
    LexNext(s, i);
    var file := Gettoken(s, tok.next);
    LexNext(s, tok.next);
    p, j := Dir(tok.kind, Span(file.q, file.eq)), file.next;
    assert Lexemes(s, i) == [Sym(tok.kind)] + Lexemes(s, tok.next);
    assert Lexemes(s, tok.next) == [Word(p.file)] + Lexemes(s, j);
  }

  lemma {:induction false} RedirsSound(s: string, done: seq<(Span, Mode)>, i: nat) returns (dirs: seq<Piece>)
    requires i <= |s| && ParseRedirs(s, done, i).Ok?
    ensures var r := ParseRedirs(s, done, i);
            && AllDirs(dirs) && r.value == done + DirsOf(dirs)
            && Lexemes(s, i) == Flat(dirs) + Lexemes(s, r.next) && !Heads(Lexemes(s, r.next), "<>+")
    decreases |s| - i
  {
    hide Lexemes;
    hide Gettoken;
    hide Peek;
    hide Flat;
    hide DirsOf;
    if Peek(s, i, "<>") {
      var p, j := RedirSteps(s, done, i);
      var rest := RedirsSound(s, done + [DirOf(p)], j);
      dirs := [p] + rest;
      FlatCons(p, rest);
      Assoc(done, [DirOf(p)], DirsOf(rest));
      Assoc(PieceYield(p), Flat(rest), Lexemes(s, ParseRedirs(s, done, i).next));
    } else {
      Peeks(s, i);
      LexSkip(s, i);
      NoPieces();
      dirs := [];
      assert done + [] == done;
    }
  }

  /** An argument, the redirections after it, and more pieces. */
  lemma ArgPieces(w: Span, dirs: seq<Piece>, more: seq<Piece>) returns (ps: seq<Piece>)
    requires AllDirs(dirs) && GoodPieces(more)
    ensures GoodPieces(ps) && Flat(ps) == [Word(w)] + Flat(dirs) + Flat(more)
    ensures ArgsOf(ps) == [w] + ArgsOf(more) && DirsOf(ps) == DirsOf(dirs) + DirsOf(more)
  {
    hide Flat;
    hide ArgsOf;
    hide DirsOf;
    ps := [Arg(w)] + (dirs + more);
    FlatCons(Arg(w), dirs + more);
    Cat(dirs, more);
    DirsHaveNoArgs(dirs);
    Assoc([Word(w)], Flat(dirs), Flat(more));
    assert [] + ArgsOf(more) == ArgsOf(more);
  }

  predicate EndsExec(ls: seq<Lexeme>) { ls == [] || Heads(ls, "|)&;") }

  lemma {:induction false} ArgsSound(s: string, args: seq<Span>, redirs: seq<(Span, Mode)>, i: nat)
    returns (ps: seq<Piece>)
    requires i <= |s| && |args| < MAXARGS && ParseArgs(s, args, redirs, i).Ok?
    ensures var r := ParseArgs(s, args, redirs, i);
            && GoodPieces(ps) && |args| + |ArgsOf(ps)| < MAXARGS
            && r.value == Wrap(Exec(args + ArgsOf(ps)), redirs + DirsOf(ps))
            && Lexemes(s, i) == Flat(ps) + Lexemes(s, r.next) && EndsExec(Lexemes(s, r.next))
    decreases |s| - i
  {
    hide Lexemes;
    hide Gettoken;
    hide Peek;
    hide ParseRedirs;
    hide Wrap;
    hide Flat;
    hide ArgsOf;
    hide DirsOf;
    Peeks(s, i);
    LexNext(s, i);
    var tok := Gettoken(s, i);
    if Peek(s, i, "|)&;") || tok.kind == NUL {
      ps := [];
      NoPieces();
      assert args + [] == args && redirs + [] == redirs;
      ArgsEnd(s, args, redirs, i);
    } else {
      var w, r := Span(tok.q, tok.eq), ParseRedirs(s, redirs, tok.next);
      var dirs := RedirsSound(s, redirs, tok.next);
      var more := ArgsSound(s, args + [w], r.value, r.next);
      ps := ArgPieces(w, dirs, more);
      Assoc(args, [w], ArgsOf(more));
      Assoc(redirs, DirsOf(dirs), DirsOf(more));
      var last := Lexemes(s, ParseArgs(s, args, redirs, i).next);
      assert Lexemes(s, i) == [Word(w)] + Lexemes(s, tok.next);
      Assoc(Flat(dirs), Flat(more), last);
      Assoc([Word(w)], Flat(dirs) + Flat(more), last);
      Assoc([Word(w)], Flat(dirs), Flat(more));
    }
  }

  lemma ArgsEnd(s: string, args: seq<Span>, redirs: seq<(Span, Mode)>, i: nat)
    requires i <= |s| && (Peek(s, i, "|)&;") || Gettoken(s, i).kind == NUL)
    ensures ParseArgs(s, args, redirs, i).Ok? && ParseArgs(s, args, redirs, i).value == Wrap(Exec(args), redirs)
    ensures Lexemes(s, ParseArgs(s, args, redirs, i).next) == Lexemes(s, i)
  {
    LexSkip(s, i);
  }

  /** A derivation that yields what lies between i and j. */
  ghost predicate Read(s: string, level: nat, d: Deriv, i: nat, j: nat) {
    i <= |s| && j <= |s| && Derives(level, d) && Lexemes(s, i) == Yield(d) + Lexemes(s, j)
  }

  /** Two readings with an operator between them. */
  lemma Joined(s: string, a: seq<Lexeme>, c: char, b: seq<Lexeme>, i: nat, j: nat, k: nat, e: nat)
    requires i <= |s| && j <= |s| && k <= |s| && e <= |s|
    requires Lexemes(s, i) == a + Lexemes(s, j) && Lexemes(s, j) == [Sym(c)] + Lexemes(s, k)
    requires Lexemes(s, k) == b + Lexemes(s, e)
    ensures Lexemes(s, i) == a + [Sym(c)] + b + Lexemes(s, e)
  {
    hide Lexemes;
    Assoc(a, [Sym(c)], b + Lexemes(s, e));
    Assoc(a + [Sym(c)], b, Lexemes(s, e));
  }

  /** The operator that the parser sees next. */
  lemma Operator(s: string, i: nat, c: char) returns (j: nat)
    requires i <= |s| && Heads(Lexemes(s, i), [c])
    ensures j == Gettoken(s, i).next && i < j <= |s| && Lexemes(s, i) == [Sym(c)] + Lexemes(s, j)
  {
    hide Lexemes;
    LexNext(s, i);
    j := Gettoken(s, i).next;
  }

  lemma {:induction false} ExecSound(s: string, i: nat) returns (d: Deriv)
    requires i <= |s| && ParseExec(s, i).Ok?
    ensures var r := ParseExec(s, i); r.value == Tree(d) && Read(s, 3, d, i, r.next)
    decreases |s| - i, 1
  {
    hide Lexemes;
    hide Gettoken;
    hide Peek;
    hide ParseRedirs;
    hide ParseArgs;
    hide ParseLine;
    hide Wrap;
    hide Flat;
    hide ArgsOf;
    hide DirsOf;
    if Peek(s, i, "(") {
      d := BlockSound(s, i);
    } else {
      var r := ParseRedirs(s, [], i);
      var dirs := RedirsSound(s, [], i);
      var more := ArgsSound(s, [], r.value, r.next);
      d := Simple(dirs + more);
      Cat(dirs, more);
      DirsHaveNoArgs(dirs);
      assert [] + ArgsOf(more) == ArgsOf(more) && [] + DirsOf(dirs) == DirsOf(dirs);
      Assoc(Flat(dirs), Flat(more), Lexemes(s, ParseExec(s, i).next));
    }
  }

  lemma {:induction false} BlockSound(s: string, i: nat) returns (d: Deriv)
    requires i <= |s| && Peek(s, i, "(") && ParseBlock(s, i).Ok?
    ensures var r := ParseBlock(s, i); r.value == Tree(d) && Read(s, 3, d, i, r.next)
    decreases |s| - i, 0
  {
    hide Lexemes;
    hide Gettoken;
    hide Peek;
    hide ParseRedirs;
    hide ParseLine;
    hide Wrap;
    hide Flat;
    hide DirsOf;
    Peeks(s, i);
    var open := Operator(s, i, '(');
    var r := ParseLine(s, open);
    var line := LineSound(s, open);
    Peeks(s, r.next);
    var close := Operator(s, r.next, ')');
    var dirs := RedirsSound(s, [], close);
    d := Block(line, dirs);
    assert [] + DirsOf(dirs) == DirsOf(dirs);
    var end := ParseBlock(s, i).next;
    Joined(s, Yield(line), ')', Flat(dirs), open, r.next, close, end);
    var inner := Yield(line) + [Sym(')')] + Flat(dirs);
    Assoc([Sym('(')], inner, Lexemes(s, end));
    Assoc([Sym('(')], Yield(line) + [Sym(')')], Flat(dirs));
    Assoc([Sym('(')], Yield(line), [Sym(')')]);
  }

  lemma {:induction false} PipeSound(s: string, i: nat) returns (d: Deriv)
    requires i <= |s| && ParsePipe(s, i).Ok?
    ensures var r := ParsePipe(s, i); r.value == Tree(d) && Read(s, 2, d, i, r.next)
    decreases |s| - i, 2
  {
    hide Lexemes;
    hide Gettoken;
    hide Peek;
    hide ParseExec;
    var r := ParseExec(s, i);
    d := ExecSound(s, i);
    Peeks(s, r.next);
    if Peek(s, r.next, "|") {
      var bar := Operator(s, r.next, '|');
      var right := PipeSound(s, bar);
      Joined(s, Yield(d), '|', Yield(right), i, r.next, bar, ParsePipe(s, bar).next);
      d := Piped(d, right);
    } else {
      LexSkip(s, r.next);
    }
  }

  lemma {:induction false} LineSound(s: string, i: nat) returns (d: Deriv)
    requires i <= |s| && ParseLine(s, i).Ok?
    ensures var r := ParseLine(s, i); r.value == Tree(d) && Read(s, 0, d, i, r.next)
    decreases |s| - i, 3
  {
    hide ParsePipe;
    hide ParseBacks;
    var r := ParsePipe(s, i);
    var first := PipeSound(s, i);
    d := BacksSound(s, i, first, r.next);
  }

  lemma {:induction false} BacksSound(s: string, start: nat, d: Deriv, i: nat) returns (e: Deriv)
    requires start <= i <= |s| && Read(s, 1, d, start, i) && ParseBacks(s, Tree(d), i).Ok?
    ensures var r := ParseBacks(s, Tree(d), i); r.value == Tree(e) && Read(s, 0, e, start, r.next)
    decreases |s| - i, 0
  {
    hide Lexemes;
    hide Gettoken;
    hide Peek;
    hide ParseLine;
    Peeks(s, i);
    if Peek(s, i, "&") {
      var next := Operator(s, i, '&');
      Assoc(Yield(d), [Sym('&')], Lexemes(s, next));
      e := BacksSound(s, start, Amp(d), next);
    } else if Peek(s, i, ";") {
      var next := Operator(s, i, ';');
      var rest := LineSound(s, next);
      Joined(s, Yield(d), ';', Yield(rest), start, i, next, ParseLine(s, next).next);
      e := Semi(d, rest);
    } else {
      LexSkip(s, i);
      e := d;
    }
  }

  // ----------------------------------------- what is derived the parser accepts

  /** The next lexeme is a word. */
  lemma NextWord(s: string, i: nat, w: Span, rest: seq<Lexeme>)
    requires i <= |s| && Lexemes(s, i) == [Word(w)] + rest
    ensures var t := Gettoken(s, i);
            t.kind == 'a' && Span(t.q, t.eq) == w && i < t.next && Lexemes(s, t.next) == rest
    ensures !Peek(s, i, "|)&;") && !Peek(s, i, "(")
  {
    hide Lexemes;
    hide Peek;
    LexNext(s, i);
    Peeks(s, i);
  }

  lemma RedirTaken(s: string, done: seq<(Span, Mode)>, i: nat, p: Piece, rest: seq<Lexeme>) returns (j: nat)
    requires i <= |s| && p.Dir? && GoodPiece(p) && Lexemes(s, i) == PieceYield(p) + rest
    ensures i < j <= |s| && ParseRedirs(s, done, i) == ParseRedirs(s, done + [DirOf(p)], j) && Lexemes(s, j) == rest
  {
    hide Lexemes;
    hide Gettoken;
    hide Peek;
    Peeks(s, i);
    LexNext(s, i);
    var tok := Gettoken(s, i);
    assert Lexemes(s, i) == [Sym(p.op)] + ([Word(p.file)] + rest);
    assert LexemeOf(tok) == Sym(p.op);
    NextWord(s, tok.next, p.file, rest);
    j := Gettoken(s, tok.next).next;
  }

  lemma {:induction false} DirsComplete(s: string, done: seq<(Span, Mode)>, i: nat, dirs: seq<Piece>,
                                        rest: seq<Lexeme>) returns (j: nat)
    requires i <= |s| && AllDirs(dirs) && Lexemes(s, i) == Flat(dirs) + rest && !Heads(rest, "<>+")
    ensures i <= j <= |s| && ParseRedirs(s, done, i) == Ok(done + DirsOf(dirs), j) && Lexemes(s, j) == rest
    decreases |dirs|
  {
    hide Lexemes;
    hide Peek;
    hide Flat;
    hide DirsOf;
    if dirs == [] {
      NoPieces();
      assert [] + rest == rest && done + [] == done;
      Peeks(s, i);
      LexSkip(s, i);
      j := Skip(s, i);
    } else {
      var p, more := dirs[0], dirs[1..];
      assert dirs == [p] + more;
      FlatCons(p, more);
      Assoc(PieceYield(p), Flat(more), rest);
      var k := RedirTaken(s, done, i, p, Flat(more) + rest);
      j := DirsComplete(s, done + [DirOf(p)], k, more, rest);
      Assoc(done, [DirOf(p)], DirsOf(more));
    }
  }

  /** The redirections that pieces begin with, and the rest of them. */
  lemma {:induction false} LeadingDirs(ps: seq<Piece>) returns (dirs: seq<Piece>, more: seq<Piece>)
    requires GoodPieces(ps)
    ensures ps == dirs + more && AllDirs(dirs) && GoodPieces(more) && (more == [] || more[0].Arg?)
  {
    if ps == [] || ps[0].Arg? {
      dirs, more := [], ps;
    } else {
      dirs, more := LeadingDirs(ps[1..]);
      dirs := [ps[0]] + dirs;
    }
  }

  /** Pieces that begin with an argument, or none, do not go on with a redirection. */
  lemma ArgsHead(ps: seq<Piece>, rest: seq<Lexeme>)
    requires (ps == [] || ps[0].Arg?) && EndsExec(rest)
    ensures !Heads(Flat(ps) + rest, "<>+")
  {
    if ps == [] { assert Flat(ps) + rest == rest; }
  }

  lemma {:induction false} ArgsComplete(s: string, args: seq<Span>, redirs: seq<(Span, Mode)>, i: nat,
                                        ps: seq<Piece>, rest: seq<Lexeme>) returns (j: nat)
    requires i <= |s| && GoodPieces(ps) && (ps == [] || ps[0].Arg?) && |args| + |ArgsOf(ps)| < MAXARGS
    requires EndsExec(rest) && Lexemes(s, i) == Flat(ps) + rest
    ensures i <= j <= |s| && Lexemes(s, j) == rest
    ensures ParseArgs(s, args, redirs, i) == Ok(Wrap(Exec(args + ArgsOf(ps)), redirs + DirsOf(ps)), j)
    decreases |ps|
  {
    hide Lexemes;
    hide Gettoken;
    hide Peek;
    hide ParseRedirs;
    hide Wrap;
    hide Flat;
    hide ArgsOf;
    hide DirsOf;
    hide EndsExec;
    if ps == [] {
      NoPieces();
      assert [] + rest == rest && args + [] == args && redirs + [] == redirs;
      ArgsStop(s, i);
      ArgsEnd(s, args, redirs, i);
      j := ParseArgs(s, args, redirs, i).next;
    } else {
      var w := ps[0].w;
      var dirs, more := LeadingDirs(ps[1..]);
      assert ps == [Arg(w)] + (dirs + more);
      var ts := Flat(more) + rest;
      ArgFirst(w, dirs, more, rest);
      NextWord(s, i, w, Flat(dirs) + ts);
      ArgsHead(more, rest);
      var k := DirsComplete(s, redirs, Gettoken(s, i).next, dirs, ts);
      j := ArgsComplete(s, args + [w], redirs + DirsOf(dirs), k, more, rest);
      Assoc(args, [w], ArgsOf(more));
      Assoc(redirs, DirsOf(dirs), DirsOf(more));
    }
  }

  lemma ArgsStop(s: string, i: nat)
    requires i <= |s| && EndsExec(Lexemes(s, i))
    ensures Peek(s, i, "|)&;") || Gettoken(s, i).kind == NUL
  {
    hide Lexemes;
    hide Peek;
    Peeks(s, i);
    LexNext(s, i);
  }

  lemma ArgFirst(w: Span, dirs: seq<Piece>, more: seq<Piece>, rest: seq<Lexeme>)
    requires AllDirs(dirs)
    ensures var ps := [Arg(w)] + (dirs + more);
            && Flat(ps) + rest == [Word(w)] + (Flat(dirs) + (Flat(more) + rest))
            && ArgsOf(ps) == [w] + ArgsOf(more) && DirsOf(ps) == DirsOf(dirs) + DirsOf(more)
  {
    hide Flat;
    hide ArgsOf;
    hide DirsOf;
    FlatCons(Arg(w), dirs + more);
    Cat(dirs, more);
    DirsHaveNoArgs(dirs);
    assert [] + ArgsOf(more) == ArgsOf(more);
    Assoc([Word(w)], Flat(dirs) + Flat(more), rest);
    Assoc(Flat(dirs), Flat(more), rest);
  }

  lemma SimpleComplete(s: string, i: nat, ps: seq<Piece>, rest: seq<Lexeme>) returns (j: nat)
    requires i <= |s| && Derives(3, Simple(ps)) && EndsExec(rest) && Lexemes(s, i) == Flat(ps) + rest
    ensures i <= j <= |s| && ParseExec(s, i) == Ok(Tree(Simple(ps)), j) && Lexemes(s, j) == rest
  {
    hide Lexemes;
    hide Peek;
    hide ParseRedirs;
    hide ParseArgs;
    hide Wrap;
    hide Flat;
    hide ArgsOf;
    hide DirsOf;
    var dirs, more := LeadingDirs(ps);
    Cat(dirs, more);
    DirsHaveNoArgs(dirs);
    assert [] + ArgsOf(more) == ArgsOf(more) && [] + DirsOf(dirs) == DirsOf(dirs);
    Assoc(Flat(dirs), Flat(more), rest);
    ArgsHead(more, rest);
    NoParen(ps, rest);
    Peeks(s, i);
    var k := DirsComplete(s, [], i, dirs, Flat(more) + rest);
    j := ArgsComplete(s, [], DirsOf(dirs), k, more, rest);
  }

  lemma NoParen(ps: seq<Piece>, rest: seq<Lexeme>)
    requires GoodPieces(ps) && EndsExec(rest)
    ensures !Heads(Flat(ps) + rest, "(")
  {
    if ps == [] { assert Flat(ps) + rest == rest; }
  }

  /** A line that is over: nothing follows, or a closing parenthesis. */
  predicate EndsLine(ls: seq<Lexeme>) { ls == [] || Heads(ls, ")") }

  predicate EndsPipe(ls: seq<Lexeme>) { ls == [] || Heads(ls, ")&;") }

  lemma {:induction false} ExecComplete(s: string, i: nat, d: Deriv, rest: seq<Lexeme>) returns (j: nat)
    requires i <= |s| && Derives(3, d) && EndsExec(rest) && Lexemes(s, i) == Yield(d) + rest
    ensures i <= j <= |s| && ParseExec(s, i) == Ok(Tree(d), j) && Lexemes(s, j) == rest
    decreases d, 1
  {
    hide Lexemes;
    hide Peek;
    hide Gettoken;
    hide ParseRedirs;
    hide ParseArgs;
    hide ParseLine;
    hide Wrap;
    hide Flat;
    hide ArgsOf;
    hide DirsOf;
    if d.Simple? {
      j := SimpleComplete(s, i, d.pieces, rest);
    } else {
      var after := [Sym(')')] + (Flat(d.dirs) + rest);
      BlockYield(d, rest);
      Peeks(s, i);
      var open := OperatorTaken(s, i, '(', Yield(d.line) + after);
      var k := LineComplete(s, open, d.line, after);
      Peeks(s, k);
      var close := OperatorTaken(s, k, ')', Flat(d.dirs) + rest);
      j := DirsComplete(s, [], close, d.dirs, rest);
      assert [] + DirsOf(d.dirs) == DirsOf(d.dirs);
    }
  }

  lemma BlockYield(d: Deriv, rest: seq<Lexeme>)
    requires d.Block?
    ensures Yield(d) + rest == [Sym('(')] + (Yield(d.line) + ([Sym(')')] + (Flat(d.dirs) + rest)))
  {
    hide Flat;
    var a, b, c, e := [Sym('(')], Yield(d.line), [Sym(')')], Flat(d.dirs);
    Assoc(a + b + c, e, rest);
    Assoc(a + b, c, e + rest);
    Assoc(a, b, c + (e + rest));
  }

  lemma OperatorTaken(s: string, i: nat, c: char, rest: seq<Lexeme>) returns (j: nat)
    requires i <= |s| && Lexemes(s, i) == [Sym(c)] + rest
    ensures j == Gettoken(s, i).next && i < j <= |s| && Lexemes(s, j) == rest
  {
    hide Lexemes;
    hide Gettoken;
    j := Operator(s, i, c);
    assert Lexemes(s, j) == ([Sym(c)] + Lexemes(s, j))[1..] == ([Sym(c)] + rest)[1..] == rest;
  }

  lemma OperatorYield(a: seq<Lexeme>, c: char, b: seq<Lexeme>, rest: seq<Lexeme>)
    ensures a + [Sym(c)] + b + rest == a + ([Sym(c)] + (b + rest))
  {
    Assoc(a + [Sym(c)], b, rest);
    Assoc(a, [Sym(c)], b + rest);
  }

  lemma {:induction false} PipeComplete(s: string, i: nat, d: Deriv, rest: seq<Lexeme>) returns (j: nat)
    requires i <= |s| && Derives(2, d) && EndsPipe(rest) && Lexemes(s, i) == Yield(d) + rest
    ensures i <= j <= |s| && ParsePipe(s, i) == Ok(Tree(d), j) && Lexemes(s, j) == rest
    decreases d, 2
  {
    hide Lexemes;
    hide Peek;
    hide Gettoken;
    hide ParseExec;
    hide Flat;
    if d.Piped? {
      OperatorYield(Yield(d.left), '|', Yield(d.right), rest);
      var k := ExecComplete(s, i, d.left, [Sym('|')] + (Yield(d.right) + rest));
      Peeks(s, k);
      var bar := OperatorTaken(s, k, '|', Yield(d.right) + rest);
      j := PipeComplete(s, bar, d.right, rest);
    } else {
      var k := ExecComplete(s, i, d, rest);
      Peeks(s, k);
      LexSkip(s, k);
      j := Skip(s, k);
    }
  }

  /** Up to what & may follow, parseline has read d and goes on from j. */
  lemma {:induction false} BackComplete(s: string, i: nat, d: Deriv, rest: seq<Lexeme>) returns (j: nat)
    requires i <= |s| && Derives(1, d) && EndsPipe(rest) && Lexemes(s, i) == Yield(d) + rest
    ensures i <= j <= |s| && ParseLine(s, i) == ParseBacks(s, Tree(d), j) && Lexemes(s, j) == rest
    decreases d, 3
  {
    hide Lexemes;
    hide Peek;
    hide Gettoken;
    hide ParsePipe;
    hide Flat;
    if d.Amp? {
      Assoc(Yield(d.sub), [Sym('&')], rest);
      var k := BackComplete(s, i, d.sub, [Sym('&')] + rest);
      Peeks(s, k);
      j := OperatorTaken(s, k, '&', rest);
    } else {
      j := PipeComplete(s, i, d, rest);
    }
  }

  lemma {:induction false} LineComplete(s: string, i: nat, d: Deriv, rest: seq<Lexeme>) returns (j: nat)
    requires i <= |s| && Derives(0, d) && EndsLine(rest) && Lexemes(s, i) == Yield(d) + rest
    ensures i <= j <= |s| && ParseLine(s, i) == Ok(Tree(d), j) && Lexemes(s, j) == rest
    decreases d, 4
  {
    hide Lexemes;
    hide Peek;
    hide Gettoken;
    hide ParseLine;
    hide Flat;
    if d.Semi? {
      OperatorYield(Yield(d.left), ';', Yield(d.right), rest);
      var k := BackComplete(s, i, d.left, [Sym(';')] + (Yield(d.right) + rest));
      Peeks(s, k);
      var next := OperatorTaken(s, k, ';', Yield(d.right) + rest);
      j := LineComplete(s, next, d.right, rest);
    } else {
      var k := BackComplete(s, i, d, rest);
      Peeks(s, k);
      LexSkip(s, k);
      j := Skip(s, k);
    }
  }

  // ------------------------------------------------------------ the language

  /** d derives the whole line s. */
  ghost predicate DerivesLine(s: string, d: Deriv) { Derives(0, d) && Yield(d) == Lexemes(s, 0) }

  /** A line that is derived is parsed, and to the command of its derivation. */
  lemma DerivedIsParsed(s: string, d: Deriv)
    requires DerivesLine(s, d)
    ensures ParseCmd(s) == Ok(Tree(d), |s|)
  {
    hide ParseLine;
    hide Lexemes;
    assert Yield(d) + [] == Yield(d);
    var j := LineComplete(s, 0, d, []);
    AtEnd(s, j);
  }

  lemma AtEnd(s: string, j: nat)
    requires j <= |s|
    ensures Lexemes(s, j) == [] <==> Skip(s, j) == |s|
  {
  }

  /** The parser accepts exactly the lines of the grammar; every other line is an error. */
  lemma AcceptsExactly(s: string)
    ensures ParseCmd(s).Ok? <==> exists d :: DerivesLine(s, d)
  {
    hide ParseLine;
    hide Lexemes;
    if ParseCmd(s).Ok? {
      var d := LineSound(s, 0);
      AtEnd(s, ParseLine(s, 0).next);
      assert Yield(d) + [] == Yield(d);
      assert DerivesLine(s, d);
    } else if d :| DerivesLine(s, d) {
      DerivedIsParsed(s, d);
    }
  }
}
