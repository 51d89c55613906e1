/** Printing a command and parsing it again (sh.c). */
module ShellRoundTrip {
  import opened Shell
  import opened ShellParser

  // -------------------------------------------------------------- printing

  datatype Tok = Sym(c: char) | Word(w: string)

  predicate GoodWord(w: string) { w != "" && forall i :: 0 <= i < |w| ==> IsWordChar(w[i]) && w[i] != NUL }

  predicate GoodTok(t: Tok) {
    match t
    case Sym(c) => IsSymbol(c)
    case Word(w) => GoodWord(w)
  }

  predicate GoodToks(ts: seq<Tok>) { forall i :: 0 <= i < |ts| ==> GoodTok(ts[i]) }

  function Text(t: Tok): string { if t.Sym? then [t.c] else t.w }

  /** Each token followed by a space. */
  function Render(ts: seq<Tok>): string {
    if ts == [] then "" else Text(ts[0]) + " " + Render(ts[1..])
  }

  function Level(c: Cmd): nat {
    match c
    case List(_, _) => 0
    case Back(_) => 1
    case Pipe(_, _) => 2
    case _ => 3
  }

  function RedirTok(m: Mode): Tok { Sym(if m.Input? then '<' else '>') }

  function WordToks(args: seq<string>): (ts: seq<Tok>)
    ensures |ts| == |args| && forall i :: 0 <= i < |args| ==> ts[i] == Word(args[i])
  {
    seq(|args|, i requires 0 <= i < |args| => Word(args[i]))
  }

  /** The tokens of c as an operand of the given level: a line, what & may follow, a
      pipeline or a simple command. An operator of a lower level goes in parentheses. */
  function Toks(level: nat, c: Cmd<string>): seq<Tok>
    decreases c
  {
    var inner := match c
      case List(left, right) => Toks(1, left) + [Sym(';')] + Toks(0, right)
      case Back(sub) => Toks(1, sub) + [Sym('&')]
      case Pipe(left, right) => Toks(3, left) + [Sym('|')] + Toks(2, right)
      case Exec(args) => WordToks(args)
      case Redir(sub, file, mode) => Toks(3, sub) + [RedirTok(mode), Word(file)];
    if level > Level(c) then [Sym('(')] + inner + [Sym(')')] else inner
  }

  function Print(c: Cmd<string>): string { Render(Toks(0, c)) }

  /** Valid words, and fewer than MAXARGS arguments to each command. */
  predicate Printable(c: Cmd<string>) {
    match c
    case Exec(args) => |args| < MAXARGS && forall i :: 0 <= i < |args| ==> GoodWord(args[i])
    case Redir(sub, file, _) => Printable(sub) && GoodWord(file)
    case Pipe(left, right) => Printable(left) && Printable(right)
    case List(left, right) => Printable(left) && Printable(right)
    case Back(sub) => Printable(sub)
  }

  // ------------------------------------------------- what the parser's tree says

  function Slice(s: string, w: Span): string { if w.q <= w.eq <= |s| then s[w.q..w.eq] else "" }

  function View(s: string, c: Cmd<Span>): Cmd<string> {
    match c
    case Exec(args) => Exec(Slices(s, args))
    case Redir(sub, file, mode) => Redir(View(s, sub), Slice(s, file), mode)
    case Pipe(left, right) => Pipe(View(s, left), View(s, right))
    case List(left, right) => List(View(s, left), View(s, right))
    case Back(sub) => Back(View(s, sub))
  }

  function Slices(s: string, args: seq<Span>): (r: seq<string>)
    ensures |r| == |args|
  {
    seq(|args|, i requires 0 <= i < |args| => Slice(s, args[i]))
  }

  function RedirSlices(s: string, redirs: seq<(Span, Mode)>): (r: seq<(string, Mode)>)
    ensures |r| == |redirs|
  {
    seq(|redirs|, i requires 0 <= i < |redirs| => (Slice(s, redirs[i].0), redirs[i].1))
  }

  lemma {:induction false} ViewWrap(s: string, c: Cmd<Span>, redirs: seq<(Span, Mode)>)
    ensures View(s, Wrap(c, redirs)) == Wrap(View(s, c), RedirSlices(s, redirs))
    decreases |redirs|
  {
    if redirs != [] {
      var n := |redirs| - 1;
      ViewWrap(s, c, redirs[..n]);
      assert RedirSlices(s, redirs)[..n] == RedirSlices(s, redirs[..n]);
    }
  }

  // ------------------------------------------------------------ scanning

  /** What is left of s from i on is the rendering of ts. */
  ghost predicate At(s: string, i: nat, ts: seq<Tok>) {
    i <= |s| && s[i..] == Render(ts) && GoodToks(ts)
  }

  lemma NoSpaceFirst(s: string, i: nat, ts: seq<Tok>)
    requires At(s, i, ts)
    ensures Skip(s, i) == i
    ensures ts == [] <==> i == |s|
  {
    if ts != [] {
      assert GoodTok(ts[0]);
      assert s[i] == s[i..][0] == Text(ts[0])[0];
    }
  }

  function KindOf(t: Tok): char { if t.Sym? then t.c else 'a' }

  lemma {:induction false} WordRuns(s: string, i: nat, j: nat)
    requires i <= j < |s| && !IsWordChar(s[j]) && forall k :: i <= k < j ==> IsWordChar(s[k])
    ensures WordEnd(s, i) == j
    decreases j - i
  {
    if i < j {
      WordRuns(s, i + 1, j);
    }
  }

  lemma HeadText(s: string, i: nat, t: Tok, ts: seq<Tok>)
    requires At(s, i, [t] + ts)
    ensures var j := i + |Text(t)|;
            i < j < |s| && s[i..j] == Text(t) && s[j] == ' ' && At(s, j + 1, ts) && GoodTok(t)
  {
    hide GoodTok;
    var j, all := i + |Text(t)|, [t] + ts;
    assert all[0] == t && all[1..] == ts;
    var tail := s[i..];
    assert tail == Text(t) + " " + Render(ts);
    assert s[i..j] == tail[..|Text(t)|] && s[j] == tail[|Text(t)|];
    assert s[j + 1..] == tail[|Text(t)| + 1..];
    assert forall k :: 0 <= k < |ts| ==> ts[k] == all[k + 1];
    TextNotEmpty(t);
  }

  lemma TextNotEmpty(t: Tok)
    requires GoodTok(t)
    ensures Text(t) != ""
  {
  }

  /** The end of a token that a space follows. */
  lemma TokenEnds(s: string, i: nat, t: Tok)
    requires GoodTok(t) && i + |Text(t)| < |s| && s[i..i + |Text(t)|] == Text(t) && s[i + |Text(t)|] == ' '
    ensures TokenEnd(s, i) == i + |Text(t)| && KindAt(s, i) == KindOf(t)
  {
    var j := i + |Text(t)|;
    TextNotEmpty(t);
    assert s[i] == s[i..j][0];
    if t.Word? {
      forall k | i <= k < j
        ensures IsWordChar(s[k])
      {
        assert s[k] == s[i..j][k - i];
      }
      WordRuns(s, i, j);
    }
  }

  lemma OneSpace(s: string, j: nat, ts: seq<Tok>)
    requires j < |s| && s[j] == ' ' && At(s, j + 1, ts)
    ensures Skip(s, j) == j + 1
  {
    NoSpaceFirst(s, j + 1, ts);
  }

  /** gettoken takes exactly the next token. */
  lemma HeadToken(s: string, i: nat, t: Tok, ts: seq<Tok>)
    requires At(s, i, [t] + ts)
    ensures var j := i + |Text(t)|;
            && i < j < |s| && s[i..j] == Text(t) && At(s, j + 1, ts)
            && Gettoken(s, i) == Token(KindOf(t), i, j, j + 1)
  {
    hide At;
    hide TokenEnd;
    hide KindAt;
    hide Skip;
    HeadText(s, i, t, ts);
    TokenEnds(s, i, t);
    OneSpace(s, i + |Text(t)|, ts);
    NoSpaceFirst(s, i, [t] + ts);
  }

  /** peek looks at the next token's first character. */
  lemma HeadPeek(s: string, i: nat, ts: seq<Tok>, toks: string)
    requires At(s, i, ts) && forall k :: 0 <= k < |toks| ==> IsSymbol(toks[k])
    ensures Peek(s, i, toks) <==> ts != [] && ts[0].Sym? && ts[0].c in toks
  {
    NoSpaceFirst(s, i, ts);
    if ts != [] {
      assert GoodTok(ts[0]);
      assert s[i] == s[i..][0] == Text(ts[0])[0];
    }
  }

  // -------------------------------------------------------- simple commands

  function RedirToks(redirs: seq<(string, Mode)>): seq<Tok> {
    if redirs == [] then [] else [RedirTok(redirs[0].1), Word(redirs[0].0)] + RedirToks(redirs[1..])
  }

  /** The tokens end here or go on with one of the given symbols. */
  predicate Follows(rest: seq<Tok>, symbols: string) { rest == [] || (rest[0].Sym? && rest[0].c in symbols) }

  lemma ParsesRedir(s: string, i: nat, done: seq<(Span, Mode)>, tok: Token, file: Token)
    requires i <= |s| && Peek(s, i, "<>") && Gettoken(s, i) == tok && Gettoken(s, tok.next) == file && file.kind == 'a'
    ensures ParseRedirs(s, done, i) ==
              ParseRedirs(s, done + [(Span(file.q, file.eq), if tok.kind == '<' then Input else Output)], file.next)
  {
    hide Peek;
    hide Gettoken;
  }

  lemma RedirHead(s: string, i: nat, done: seq<(Span, Mode)>, file: string, mode: Mode, ts: seq<Tok>)
    returns (w: Span, j: nat)
    requires At(s, i, [RedirTok(mode), Word(file)] + ts)
    ensures i < j <= |s| && At(s, j, ts) && Slice(s, w) == file
    ensures ParseRedirs(s, done, i) == ParseRedirs(s, done + [(w, mode)], j)
  {
    hide At;
    hide Peek;
    hide Gettoken;
    hide ParseRedirs;
    var first, second := RedirTok(mode), Word(file);
    assert [first, second] + ts == [first] + ([second] + ts);
    AtBound(s, i, [first] + ([second] + ts));
    HeadPeek(s, i, [first] + ([second] + ts), "<>");
    HeadToken(s, i, first, [second] + ts);
    HeadToken(s, i + 2, second, ts);
    w, j := Span(i + 2, i + 2 + |file|), i + 2 + |file| + 1;
    ParsesRedir(s, i, done, Token(first.c, i, i + 1, i + 2), Token('a', i + 2, i + 2 + |file|, j));
  }

  lemma RedirsStop(s: string, i: nat, done: seq<(Span, Mode)>, rest: seq<Tok>)
    requires At(s, i, rest) && Follows(rest, "|)&;(")
    ensures ParseRedirs(s, done, i) == Ok(done, i)
  {
    HeadPeek(s, i, rest, "<>");
    NoSpaceFirst(s, i, rest);
  }

  lemma RedirSlicesCons(s: string, w: Span, m: Mode, more: seq<(Span, Mode)>)
    ensures RedirSlices(s, [(w, m)] + more) == [(Slice(s, w), m)] + RedirSlices(s, more)
  {
  }

  lemma {:induction false} RedirsBack(s: string, i: nat, done: seq<(Span, Mode)>, redirs: seq<(string, Mode)>,
                                      rest: seq<Tok>)
    returns (out: seq<(Span, Mode)>, j: nat)
    requires At(s, i, RedirToks(redirs) + rest) && Follows(rest, "|)&;(")
    ensures i <= j <= |s| && ParseRedirs(s, done, i) == Ok(done + out, j) && At(s, j, rest)
            && RedirSlices(s, out) == redirs
    decreases |redirs|
  {
    hide ParseRedirs;
    hide At;
    hide Follows;
    hide Peek;
    AtBound(s, i, RedirToks(redirs) + rest);
    if redirs == [] {
      assert RedirToks(redirs) + rest == rest;
      RedirsStop(s, i, done, rest);
      out, j := [], i;
      assert done + out == done;
    } else {
      var head, tail := redirs[0], redirs[1..];
      assert RedirToks(redirs) + rest == [RedirTok(head.1), Word(head.0)] + (RedirToks(tail) + rest);
      var w, k := RedirHead(s, i, done, head.0, head.1, RedirToks(tail) + rest);
      var more;
      more, j := RedirsBack(s, k, done + [(w, head.1)], tail, rest);
      out := [(w, head.1)] + more;
      assert done + [(w, head.1)] + more == done + out;
      RedirSlicesCons(s, w, head.1, more);
    }
  }

  lemma AtBound(s: string, i: nat, ts: seq<Tok>)
    requires At(s, i, ts)
    ensures i <= |s|
  {
  }

  /** A word is next, so there is no redirection here. */
  lemma NoRedirs(s: string, i: nat, done: seq<(Span, Mode)>, w: string, ts: seq<Tok>)
    requires At(s, i, [Word(w)] + ts)
    ensures ParseRedirs(s, done, i) == Ok(done, i) && !Peek(s, i, "(") && !Peek(s, i, "|)&;")
  {
    var all := [Word(w)] + ts;
    HeadPeek(s, i, all, "<>");
    HeadPeek(s, i, all, "(");
    HeadPeek(s, i, all, "|)&;");
    NoSpaceFirst(s, i, all);
  }

  lemma ArgsStop(s: string, i: nat, args: seq<Span>, redirs: seq<(Span, Mode)>, rest: seq<Tok>)
    requires At(s, i, rest) && Follows(rest, "|)&;")
    ensures ParseArgs(s, args, redirs, i) == Ok(Wrap(Exec(args), redirs), i)
  {
    HeadPeek(s, i, rest, "|)&;");
    NoSpaceFirst(s, i, rest);
  }

  lemma ArgsHead(s: string, i: nat, done: seq<Span>, w: string, ts: seq<Tok>) returns (span: Span, k: nat)
    requires At(s, i, [Word(w)] + ts) && |done| + 1 < MAXARGS
    ensures i < k <= |s| && At(s, k, ts) && Slice(s, span) == w
    ensures var more := ParseRedirs(s, [], k);
            more.Ok? ==> ParseArgs(s, done, [], i) == ParseArgs(s, done + [span], more.value, more.next)
  {
    hide At;
    hide ParseRedirs;
    hide Peek;
    hide Gettoken;
    AtBound(s, i, [Word(w)] + ts);
    NoRedirs(s, i, [], w, ts);
    HeadToken(s, i, Word(w), ts);
    span, k := Span(i, i + |w|), i + |w| + 1;
  }

  lemma WordsCons(words: seq<string>, ts: seq<Tok>, rest: seq<Tok>)
    requires words != []
    ensures WordToks(words) + ts + rest == [Word(words[0])] + (WordToks(words[1..]) + ts + rest)
  {
    assert WordToks(words) == [Word(words[0])] + WordToks(words[1..]);
  }

  lemma SlicesCons(s: string, w: Span, more: seq<Span>)
    ensures Slices(s, [w] + more) == [Slice(s, w)] + Slices(s, more)
  {
  }

  lemma {:induction false} ArgsBack(s: string, i: nat, done: seq<Span>, words: seq<string>,
                                    redirs: seq<(string, Mode)>, rest: seq<Tok>)
    returns (out: seq<Span>, more: seq<(Span, Mode)>, j: nat)
    requires words != [] && |done| + |words| < MAXARGS && Follows(rest, "|)&;")
    requires At(s, i, WordToks(words) + RedirToks(redirs) + rest)
    ensures i <= j <= |s| && ParseArgs(s, done, [], i) == Ok(Wrap(Exec(done + out), more), j) && At(s, j, rest)
    ensures Slices(s, out) == words && RedirSlices(s, more) == redirs
    decreases |words|
  {
    hide At;
    hide RedirToks;
    hide ParseRedirs;
    hide ParseArgs;
    hide Wrap;
    hide Slice;
    AtBound(s, i, WordToks(words) + RedirToks(redirs) + rest);
    var w, ws := words[0], words[1..];
    var ts := WordToks(ws) + RedirToks(redirs) + rest;
    WordsCons(words, RedirToks(redirs), rest);
    var span, k := ArgsHead(s, i, done, w, ts);
    var tail := [];
    if ws == [] {
      assert ts == RedirToks(redirs) + rest;
      more, j := RedirsBack(s, k, [], redirs, rest);
      assert [] + more == more;
      ArgsStop(s, j, done + [span], more, rest);
      assert done + [span] + tail == done + [span];
    } else {
      WordsCons(ws, RedirToks(redirs), rest);
      NoRedirs(s, k, [], ws[0], WordToks(ws[1..]) + RedirToks(redirs) + rest);
      tail, more, j := ArgsBack(s, k, done + [span], ws, redirs, rest);
    }
    out := [span] + tail;
    assert done + [span] + tail == done + out;
    SlicesCons(s, span, tail);
  }

  /** A command without parentheses, its arguments first and then its redirections. */
  lemma SimpleBack(s: string, i: nat, args: seq<string>, redirs: seq<(string, Mode)>, rest: seq<Tok>)
    returns (c: Cmd<Span>, j: nat)
    requires |args| < MAXARGS && Follows(rest, "|)&;") && At(s, i, WordToks(args) + RedirToks(redirs) + rest)
    ensures i <= j <= |s| && ParseExec(s, i) == Ok(c, j) && At(s, j, rest) && View(s, c) == Wrap(Exec(args), redirs)
  {
    hide At;
    hide ParseRedirs;
    hide ParseArgs;
    hide Peek;
    AtBound(s, i, WordToks(args) + RedirToks(redirs) + rest);
    var out: seq<Span>, more: seq<(Span, Mode)>;
    if args == [] {
      assert WordToks(args) + RedirToks(redirs) + rest == RedirToks(redirs) + rest;
      NoParen(s, i, redirs, rest);
      more, j := RedirsBack(s, i, [], redirs, rest);
      assert [] + more == more;
      out := [];
      ArgsStop(s, j, out, more, rest);
    } else {
      var ts := WordToks(args[1..]) + RedirToks(redirs) + rest;
      WordsCons(args, RedirToks(redirs), rest);
      NoRedirs(s, i, [], args[0], ts);
      out, more, j := ArgsBack(s, i, [], args, redirs, rest);
      assert [] + out == out;
    }
    c := Wrap(Exec(out), more);
    ViewWrap(s, Exec(out), more);
    assert Slices(s, out) == args;
  }

  lemma NoParen(s: string, i: nat, redirs: seq<(string, Mode)>, rest: seq<Tok>)
    requires At(s, i, RedirToks(redirs) + rest) && Follows(rest, "|)&;")
    ensures !Peek(s, i, "(")
  {
    HeadPeek(s, i, RedirToks(redirs) + rest, "(");
    if redirs != [] {
      assert (RedirToks(redirs) + rest)[0] == RedirTok(redirs[0].1);
    } else {
      assert RedirToks(redirs) + rest == rest;
    }
  }

  // -------------------------------------------------------------- the round trip

  function Size(c: Cmd<string>): nat {
    match c
    case Exec(_) => 0
    case Redir(sub, _, _) => 1 + Size(sub)
    case Pipe(left, right) => 1 + Size(left) + Size(right)
    case List(left, right) => 1 + Size(left) + Size(right)
    case Back(sub) => 1 + Size(sub)
  }

  /** The command under the redirections, and they from the inside out. */
  function Base(c: Cmd<string>): (b: Cmd<string>)
    ensures !b.Redir? && Size(b) <= Size(c) && (c.Redir? ==> Size(b) < Size(c)) && (!c.Redir? ==> b == c)
    ensures Printable(c) ==> Printable(b)
  {
    if c.Redir? then Base(c.cmd) else c
  }

  function RedirsOf(c: Cmd<string>): seq<(string, Mode)> {
    if c.Redir? then RedirsOf(c.cmd) + [(c.file, c.mode)] else []
  }

  lemma {:induction false} RedirToksMore(redirs: seq<(string, Mode)>, r: (string, Mode))
    ensures RedirToks(redirs + [r]) == RedirToks(redirs) + [RedirTok(r.1), Word(r.0)]
  {
    if redirs == [] {
      assert redirs + [r] == [r];
    } else {
      RedirToksMore(redirs[1..], r);
      assert (redirs + [r])[1..] == redirs[1..] + [r];
    }
  }

  lemma {:induction false} Stripped(c: Cmd<string>)
    ensures c == Wrap(Base(c), RedirsOf(c)) && Toks(3, c) == Toks(3, Base(c)) + RedirToks(RedirsOf(c))
  {
    if c.Redir? {
      Stripped(c.cmd);
      var redirs := RedirsOf(c);
      assert redirs[..|redirs| - 1] == RedirsOf(c.cmd);
      RedirToksMore(RedirsOf(c.cmd), (c.file, c.mode));
    } else {
      assert Toks(3, c) + [] == Toks(3, c);
    }
  }

  /** Commands are parsed level by level; each level that needs parentheses comes
      before the level the command has by itself. */
  function Turn(c: Cmd<string>, level: nat): nat { (Level(c) + 4 - level) % 4 }

  /** One symbol, whatever is asked of the rest. */
  lemma HeadSym(s: string, i: nat, c: char, ts: seq<Tok>)
    requires At(s, i, [Sym(c)] + ts)
    ensures i + 2 <= |s| && Skip(s, i) == i && At(s, i + 2, ts) && Gettoken(s, i).next == i + 2
    ensures forall toks :: Peek(s, i, toks) <==> c in toks
  {
    HeadToken(s, i, Sym(c), ts);
    NoSpaceFirst(s, i, [Sym(c)] + ts);
    assert s[i] == s[i..i + 1][0] == c;
  }

  /** A block: parentheses around a line, then redirections. */
  lemma ParsesBlock(s: string, i: nat, inner: Cmd<Span>, j: nat, more: seq<(Span, Mode)>, k: nat, ts: seq<Tok>,
                    us: seq<Tok>)
    requires At(s, i, [Sym('(')] + ts) && At(s, j, [Sym(')')] + us) && i + 2 <= j && j + 2 <= |s|
    requires ParseLine(s, i + 2) == Ok(inner, j) && ParseRedirs(s, [], j + 2) == Ok(more, k)
    ensures ParseExec(s, i) == Ok(Wrap(inner, more), k)
  {
    hide At;
    hide ParseLine;
    hide ParseRedirs;
    HeadSym(s, i, '(', ts);
    HeadSym(s, j, ')', us);
  }

  lemma BlockEnds(s: string, i: nat, inner: Cmd<Span>, j: nat, redirs: seq<(string, Mode)>, ts: seq<Tok>,
                  rest: seq<Tok>) returns (c: Cmd<Span>, k: nat)
    requires At(s, i, [Sym('(')] + ts) && i + 2 <= j <= |s| && ParseLine(s, i + 2) == Ok(inner, j)
    requires At(s, j, [Sym(')')] + (RedirToks(redirs) + rest)) && Follows(rest, "|)&;")
    ensures i <= k <= |s| && ParseExec(s, i) == Ok(c, k) && At(s, k, rest) && View(s, c) == Wrap(View(s, inner), redirs)
  {
    hide At;
    hide ParseLine;
    hide ParseExec;
    hide ParseRedirs;
    hide Peek;
    hide Skip;
    HeadSym(s, j, ')', RedirToks(redirs) + rest);
    var more;
    more, k := RedirsBack(s, j + 2, [], redirs, rest);
    assert [] + more == more;
    c := Wrap(inner, more);
    ParsesBlock(s, i, inner, j, more, k, ts, RedirToks(redirs) + rest);
    ViewWrap(s, inner, more);
  }

  lemma Regroup(a: seq<Tok>, b: seq<Tok>, c: seq<Tok>, d: seq<Tok>, e: seq<Tok>)
    ensures a + b + c + d + e == a + (b + (c + (d + e)))
  {
  }

  lemma BlockToks(t: Cmd<string>, rest: seq<Tok>)
    requires !Base(t).Exec?
    ensures Toks(3, t) + rest == [Sym('(')] + (Toks(0, Base(t)) + ([Sym(')')] + (RedirToks(RedirsOf(t)) + rest)))
  {
    hide RedirToks;
    Stripped(t);
    Regroup([Sym('(')], Toks(0, Base(t)), [Sym(')')], RedirToks(RedirsOf(t)), rest);
  }

  lemma SimpleToks(t: Cmd<string>)
    requires Base(t).Exec?
    ensures Toks(3, t) == WordToks(Base(t).args) + RedirToks(RedirsOf(t))
  {
    Stripped(t);
  }

  lemma {:induction false} ExecBack(s: string, i: nat, t: Cmd<string>, rest: seq<Tok>) returns (c: Cmd<Span>, j: nat)
    requires Printable(t) && At(s, i, Toks(3, t) + rest) && Follows(rest, "|)&;")
    ensures i <= j <= |s| && ParseExec(s, i) == Ok(c, j) && At(s, j, rest) && View(s, c) == t
    decreases Size(t), Turn(t, 3)
  {
    hide At;
    hide ParseExec;
    hide ParseLine;
    hide Toks;
    hide RedirToks;
    var base, redirs := Base(t), RedirsOf(t);
    Stripped(t);
    if base.Exec? {
      SimpleToks(t);
      c, j := SimpleBack(s, i, base.args, redirs, rest);
    } else {
      var after := [Sym(')')] + (RedirToks(redirs) + rest);
      BlockToks(t, rest);
      HeadSym(s, i, '(', Toks(0, base) + after);
      var inner, k := LineBack(s, i + 2, base, after);
      c, j := BlockEnds(s, i, inner, k, redirs, Toks(0, base) + after, rest);
    }
  }

  lemma PipeStop(s: string, i: nat, c: Cmd<Span>, j: nat, rest: seq<Tok>)
    requires i <= j <= |s| && ParseExec(s, i) == Ok(c, j) && At(s, j, rest) && Follows(rest, ")&;")
    ensures ParsePipe(s, i) == Ok(c, j)
  {
    hide ParseExec;
    hide At;
    HeadPeek(s, j, rest, "|");
    NoSpaceFirst(s, j, rest);
  }

  lemma PipeMore(s: string, i: nat, c: Cmd<Span>, j: nat, d: Cmd<Span>, k: nat, ts: seq<Tok>)
    requires i <= j <= |s| && ParseExec(s, i) == Ok(c, j) && At(s, j, [Sym('|')] + ts)
    requires j + 2 <= |s| && ParsePipe(s, j + 2) == Ok(d, k)
    ensures ParsePipe(s, i) == Ok(Pipe(c, d), k)
  {
    hide ParseExec;
    hide At;
    HeadSym(s, j, '|', ts);
  }

  lemma PipeToks(t: Cmd<string>, rest: seq<Tok>)
    ensures t.Pipe? ==> Toks(2, t) + rest == Toks(3, t.left) + ([Sym('|')] + (Toks(2, t.right) + rest))
    ensures !t.Pipe? ==> Toks(2, t) == Toks(3, t)
  {
  }

  lemma {:induction false} PipeBack(s: string, i: nat, t: Cmd<string>, rest: seq<Tok>) returns (c: Cmd<Span>, j: nat)
    requires Printable(t) && At(s, i, Toks(2, t) + rest) && Follows(rest, ")&;")
    ensures i <= j <= |s| && ParsePipe(s, i) == Ok(c, j) && At(s, j, rest) && View(s, c) == t
    decreases Size(t), Turn(t, 2)
  {
    hide At;
    hide ParseExec;
    hide ParsePipe;
    hide Toks;
    hide Peek;
    hide Skip;
    PipeToks(t, rest);
    if t.Pipe? {
      var ts := Toks(2, t.right) + rest;
      var left, k := ExecBack(s, i, t.left, [Sym('|')] + ts);
      HeadSym(s, k, '|', ts);
      var right;
      right, j := PipeBack(s, k + 2, t.right, rest);
      c := Pipe(left, right);
      PipeMore(s, i, left, k, right, j, ts);
    } else {
      c, j := ExecBack(s, i, t, rest);
      PipeStop(s, i, c, j, rest);
    }
  }

  lemma LineIsBacks(s: string, i: nat, c: Cmd<Span>, j: nat)
    requires i <= j <= |s| && ParsePipe(s, i) == Ok(c, j)
    ensures ParseLine(s, i) == ParseBacks(s, c, j)
  {
    hide ParsePipe;
    hide ParseBacks;
  }

  lemma BacksMore(s: string, c: Cmd<Span>, k: nat, ts: seq<Tok>)
    requires k <= |s| && At(s, k, [Sym('&')] + ts)
    ensures k + 2 <= |s| && ParseBacks(s, c, k) == ParseBacks(s, Back(c), k + 2)
  {
    hide At;
    HeadSym(s, k, '&', ts);
  }

  lemma BacksList(s: string, c: Cmd<Span>, k: nat, d: Cmd<Span>, j: nat, ts: seq<Tok>)
    requires k + 2 <= |s| && At(s, k, [Sym(';')] + ts) && ParseLine(s, k + 2) == Ok(d, j)
    ensures ParseBacks(s, c, k) == Ok(List(c, d), j)
  {
    hide At;
    hide ParseLine;
    HeadSym(s, k, ';', ts);
  }

  lemma BacksStop(s: string, c: Cmd<Span>, k: nat, rest: seq<Tok>)
    requires k <= |s| && At(s, k, rest) && Follows(rest, ")")
    ensures ParseBacks(s, c, k) == Ok(c, k)
  {
    hide At;
    HeadPeek(s, k, rest, "&");
    HeadPeek(s, k, rest, ";");
    NoSpaceFirst(s, k, rest);
  }

  lemma BackToks(t: Cmd<string>, rest: seq<Tok>)
    ensures t.Back? ==> Toks(1, t) + rest == Toks(1, t.cmd) + ([Sym('&')] + rest)
    ensures !t.Back? ==> Toks(1, t) == Toks(2, t)
  {
  }

  /** Up to what & may follow, parseline has read t and goes on from j. */
  lemma {:induction false} BacksBack(s: string, i: nat, t: Cmd<string>, rest: seq<Tok>) returns (c: Cmd<Span>, j: nat)
    requires Printable(t) && At(s, i, Toks(1, t) + rest) && Follows(rest, ")&;")
    ensures i <= j <= |s| && ParseLine(s, i) == ParseBacks(s, c, j) && At(s, j, rest) && View(s, c) == t
    decreases Size(t), Turn(t, 1)
  {
    hide At;
    hide ParsePipe;
    hide ParseLine;
    hide ParseBacks;
    hide Toks;
    hide Peek;
    hide Skip;
    BackToks(t, rest);
    if t.Back? {
      var sub, k := BacksBack(s, i, t.cmd, [Sym('&')] + rest);
      HeadSym(s, k, '&', rest);
      BacksMore(s, sub, k, rest);
      c, j := Back(sub), k + 2;
    } else {
      c, j := PipeBack(s, i, t, rest);
      LineIsBacks(s, i, c, j);
    }
  }

  lemma LineToks(t: Cmd<string>, rest: seq<Tok>)
    ensures t.List? ==> Toks(0, t) + rest == Toks(1, t.left) + ([Sym(';')] + (Toks(0, t.right) + rest))
    ensures !t.List? ==> Toks(0, t) == Toks(1, t)
  {
  }

  lemma {:induction false} LineBack(s: string, i: nat, t: Cmd<string>, rest: seq<Tok>) returns (c: Cmd<Span>, j: nat)
    requires Printable(t) && At(s, i, Toks(0, t) + rest) && Follows(rest, ")")
    ensures i <= j <= |s| && ParseLine(s, i) == Ok(c, j) && At(s, j, rest) && View(s, c) == t
    decreases Size(t), Turn(t, 0)
  {
    hide At;
    hide ParseLine;
    hide ParseBacks;
    hide Toks;
    hide Peek;
    hide Skip;
    LineToks(t, rest);
    if t.List? {
      var ts := Toks(0, t.right) + rest;
      var left, k := BacksBack(s, i, t.left, [Sym(';')] + ts);
      HeadSym(s, k, ';', ts);
      var right;
      right, j := LineBack(s, k + 2, t.right, rest);
      c := List(left, right);
      BacksList(s, left, k, right, j, ts);
    } else {
      c, j := BacksBack(s, i, t, rest);
      BacksStop(s, c, j, rest);
    }
  }

  lemma GoodCat(a: seq<Tok>, b: seq<Tok>)
    requires GoodToks(a) && GoodToks(b)
    ensures GoodToks(a + b)
  {
  }

  lemma {:induction false} ToksGood(level: nat, c: Cmd<string>)
    requires Printable(c)
    ensures GoodToks(Toks(level, c))
    decreases c, level
  {
    hide GoodToks;
    SymsGood();
    if level > Level(c) {
      ToksGood(0, c);
      GoodCat([Sym('(')], Toks(0, c));
      GoodCat([Sym('(')] + Toks(0, c), [Sym(')')]);
    } else {
      match c
      case List(left, right) =>
        ToksGood(1, left);
        ToksGood(0, right);
        GoodCat(Toks(1, left), [Sym(';')]);
        GoodCat(Toks(1, left) + [Sym(';')], Toks(0, right));
      case Back(sub) =>
        ToksGood(1, sub);
        GoodCat(Toks(1, sub), [Sym('&')]);
      case Pipe(left, right) =>
        ToksGood(3, left);
        ToksGood(2, right);
        GoodCat(Toks(3, left), [Sym('|')]);
        GoodCat(Toks(3, left) + [Sym('|')], Toks(2, right));
      case Exec(args) =>
        WordsGood(args);
      case Redir(sub, file, mode) =>
        ToksGood(3, sub);
        RedirGood(file, mode);
        GoodCat(Toks(3, sub), [RedirTok(mode), Word(file)]);
    }
  }

  lemma SymsGood()
    ensures GoodToks([Sym('(')]) && GoodToks([Sym(')')]) && GoodToks([Sym(';')]) && GoodToks([Sym('&')])
            && GoodToks([Sym('|')])
  {
  }

  lemma WordsGood(args: seq<string>)
    requires forall i :: 0 <= i < |args| ==> GoodWord(args[i])
    ensures GoodToks(WordToks(args))
  {
  }

  lemma RedirGood(file: string, mode: Mode)
    requires GoodWord(file)
    ensures GoodToks([RedirTok(mode), Word(file)])
  {
  }

  /** Parsing the printed form of a command gives the command back. */
  lemma ParsePrint(t: Cmd<string>)
    requires Printable(t)
    ensures ParseCmd(Print(t)).Ok? && View(Print(t), ParseCmd(Print(t)).value) == t
  {
    hide ParseLine;
    var s := Print(t);
    ToksGood(0, t);
    assert Toks(0, t) + [] == Toks(0, t);
    assert s[0..] == s;
    var c, j := LineBack(s, 0, t, []);
    NoSpaceFirst(s, j, []);
  }

  lemma SliceGood(s: string, w: Span)
    requires NUL !in s && IsWord(s, w)
    ensures GoodWord(Slice(s, w))
  {
    forall i | 0 <= i < |Slice(s, w)|
      ensures IsWordChar(Slice(s, w)[i]) && Slice(s, w)[i] != NUL
    {
      assert Slice(s, w)[i] == s[w.q + i];
    }
  }

  lemma {:induction false} FormedPrintable(s: string, c: Cmd<Span>)
    requires NUL !in s && Formed(s, c)
    ensures Printable(View(s, c))
  {
    hide GoodWord;
    hide IsWord;
    match c
    case Exec(args) =>
      forall i | 0 <= i < |args|
        ensures GoodWord(Slices(s, args)[i])
      {
        SliceGood(s, args[i]);
      }
    case Redir(sub, file, _) => FormedPrintable(s, sub); SliceGood(s, file);
    case Pipe(left, right) => FormedPrintable(s, left); FormedPrintable(s, right);
    case List(left, right) => FormedPrintable(s, left); FormedPrintable(s, right);
    case Back(sub) => FormedPrintable(s, sub);
  }

  /** Every tree the parser returns can be printed, and parsing that gives it again. */
  lemma PrintParsed(s: string)
    requires NUL !in s && ParseCmd(s).Ok?
    ensures var t := View(s, ParseCmd(s).value);
            Printable(t) && ParseCmd(Print(t)).Ok? && View(Print(t), ParseCmd(Print(t)).value) == t
  {
    hide View;
    hide Printable;
    hide Print;
    LineFormed(s, 0);
    FormedPrintable(s, ParseCmd(s).value);
    ParsePrint(View(s, ParseCmd(s).value));
  }
}
