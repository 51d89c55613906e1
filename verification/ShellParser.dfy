/** The parser as sh.c runs it, moving a cursor through the command line in loops, and
    nulterminate, which ends every word in the line itself. */
module ShellParser {
  import opened Shell

  lemma SkipTwice(s: string, i: nat)
    requires i <= |s|
    ensures Skip(s, Skip(s, i)) == Skip(s, i)
    ensures Gettoken(s, Skip(s, i)) == Gettoken(s, i)
    ensures forall toks :: Peek(s, Skip(s, i), toks) == Peek(s, i, toks)
  {
  }

  lemma PeekedToken(s: string, i: nat, toks: string)
    requires i <= |s| && Peek(s, i, toks)
    ensures i < Gettoken(s, i).next
  {
  }

  class Parser {
    const s: string
    var ps: nat

    predicate Valid()
      reads this
    {
      ps <= |s|
    }

    constructor (s: string)
      ensures Valid() && this.s == s && ps == 0
    {
      this.s := s;
      ps := 0;
    }

    method SkipSpace()
      requires Valid()
      modifies this
      ensures Valid() && ps == Skip(s, old(ps))
    {
      while ps < |s| && IsSpace(s[ps])
        invariant Valid() && Skip(s, ps) == Skip(s, old(ps))
      {
        ps := ps + 1;
      }
    }

    method GetToken() returns (t: Token)
      requires Valid()
      modifies this
      ensures Valid() && t == Gettoken(s, old(ps)) && ps == t.next
    {
      SkipSpace();
      var q, kind := ps, NUL;
      if ps < |s| {
        kind := s[ps];
        if s[ps] == '|' || s[ps] == '(' || s[ps] == ')' || s[ps] == ';' || s[ps] == '&' || s[ps] == '<' {
          ps := ps + 1;
        } else if s[ps] == '>' {
          ps := ps + 1;
          if ps < |s| && s[ps] == '>' {
            kind := '+';
            ps := ps + 1;
          }
        } else {
          kind := 'a';
          while ps < |s| && !IsSpace(s[ps]) && !IsSymbol(s[ps])
            invariant Valid() && WordEnd(s, ps) == WordEnd(s, q)
          {
            ps := ps + 1;
          }
        }
      }
      var eq := ps;
      SkipSpace();
      return Token(kind, q, eq, ps);
    }

    method PeekAt(toks: string) returns (b: bool)
      requires Valid()
      modifies this
      ensures Valid() && b == Peek(s, old(ps), toks) && ps == Skip(s, old(ps))
    {
      SkipSpace();
      return ps < |s| && s[ps] in toks;
    }

    method Redirs(before: seq<(Span, Mode)>) returns (r: Result<seq<(Span, Mode)>>)
      requires Valid()
      modifies this
      ensures Valid() && r == ParseRedirs(s, before, old(ps)) && (r.Ok? ==> ps == r.next)
    {
      var done := before;
      while true
        invariant Valid() && ParseRedirs(s, done, ps) == ParseRedirs(s, before, old(ps))
        decreases |s| - ps
      {
        ghost var i := ps;
        SkipTwice(s, i);
        var more := PeekAt("<>");
        if !more {
          return Ok(done, ps);
        }
        PeekedToken(s, i, "<>");
        var tok := GetToken();
        var file := GetToken();
        if file.kind != 'a' {
          return Err;
        }
        done := done + [(Span(file.q, file.eq), if tok.kind == '<' then Input else Output)];
      }
    }

    method Line() returns (r: Result<Cmd<Span>>)
      requires Valid()
      modifies this
      ensures Valid() && r == ParseLine(s, old(ps)) && (r.Ok? ==> ps == r.next)
      decreases |s| - ps, 3
    {
      var first := Pipeline();
      if first.Err? {
        return Err;
      }
      ghost var j := ps;
      var c := first.value;
      while true
        invariant Valid() && old(ps) <= j <= ps && ParseBacks(s, c, ps) == ParseBacks(s, first.value, j)
        decreases |s| - ps
      {
        ghost var i := ps;
        SkipTwice(s, i);
        var amp := PeekAt("&");
        if !amp {
          break;
        }
        PeekedToken(s, i, "&");
        var _ := GetToken();
        c := Back(c);
      }
      SkipTwice(s, ps);
      var semi := PeekAt(";");
      if semi {
        PeekedToken(s, ps, ";");
        var _ := GetToken();
        var rest := Line();
        if rest.Err? {
          return Err;
        }
        return Ok(List(c, rest.value), ps);
      }
      return Ok(c, ps);
    }

    method Pipeline() returns (r: Result<Cmd<Span>>)
      requires Valid()
      modifies this
      ensures Valid() && r == ParsePipe(s, old(ps)) && (r.Ok? ==> ps == r.next)
      decreases |s| - ps, 2
    {
      var first := Simple();
      if first.Err? {
        return Err;
      }
      ghost var i := ps;
      SkipTwice(s, i);
      var bar := PeekAt("|");
      if !bar {
        return Ok(first.value, ps);
      }
      PeekedToken(s, i, "|");
      var _ := GetToken();
      var rest := Pipeline();
      if rest.Err? {
        return Err;
      }
      return Ok(Pipe(first.value, rest.value), ps);
    }

    method Block() returns (r: Result<Cmd<Span>>)
      requires Valid() && Peek(s, ps, "(")
      modifies this
      ensures Valid() && r == ParseBlock(s, old(ps)) && (r.Ok? ==> ps == r.next)
      decreases |s| - ps, 0
    {
      PeekedToken(s, ps, "(");
      var _ := GetToken();
      var inner := Line();
      if inner.Err? {
        return Err;
      }
      SkipTwice(s, ps);
      var close := PeekAt(")");
      if !close {
        return Err;
      }
      var _ := GetToken();
      var redirs := Redirs([]);
      if redirs.Err? {
        return Err;
      }
      return Ok(Wrap(inner.value, redirs.value), ps);
    }

    method Simple() returns (r: Result<Cmd<Span>>)
      requires Valid()
      modifies this
      ensures Valid() && r == ParseExec(s, old(ps)) && (r.Ok? ==> ps == r.next)
      decreases |s| - ps, 1
    {
      SkipTwice(s, ps);
      var open := PeekAt("(");
      if open {
        BlockSkip(s, old(ps));
        r := Block();
        return;
      }
      RedirsSkip(s, [], old(ps));
      var redirs := Redirs([]);
      if redirs.Err? {
        return Err;
      }
      ghost var j, first := ps, redirs.value;
      var args: seq<Span> := [];
      while true
        invariant Valid() && redirs.Ok? && ParseArgs(s, args, redirs.value, ps) == ParseArgs(s, [], first, j)
        decreases |s| - ps
      {
        SkipTwice(s, ps);
        var end := PeekAt("|)&;");
        if end {
          return Ok(Wrap(Exec(args), redirs.value), ps);
        }
        var tok := GetToken();
        if tok.kind == NUL {
          return Ok(Wrap(Exec(args), redirs.value), ps);
        }
        if tok.kind != 'a' {
          return Err;
        }
        args := args + [Span(tok.q, tok.eq)];
        if |args| >= MAXARGS {
          return Err;
        }
        redirs := Redirs(redirs.value);
        if redirs.Err? {
          return Err;
        }
      }
    }

    /** parsecmd, up to its call of nulterminate. */
    method Command() returns (r: Result<Cmd<Span>>)
      requires Valid() && ps == 0
      modifies this
      ensures Valid() && r == ParseCmd(s)
    {
      var line := Line();
      if line.Err? {
        return Err;
      }
      SkipTwice(s, ps);
      var _ := PeekAt("");
      if ps != |s| {
        return Err;
      }
      return Ok(line.value, ps);
    }
  }

  lemma BlockSkip(s: string, i: nat)
    requires i <= |s| && Peek(s, i, "(")
    ensures Peek(s, Skip(s, i), "(") && ParseBlock(s, Skip(s, i)) == ParseBlock(s, i)
  {
    SkipTwice(s, i);
  }

  lemma RedirsSkip(s: string, done: seq<(Span, Mode)>, i: nat)
    requires i <= |s|
    ensures ParseRedirs(s, done, Skip(s, i)) == ParseRedirs(s, done, i)
  {
    SkipTwice(s, i);
  }

  // ------------------------------------------------------------- nulterminate

  ghost function SpanSet(args: seq<Span>): set<Span> { set w | w in args }

  lemma SpanSetMore(args: seq<Span>, i: nat)
    requires i < |args|
    ensures SpanSet(args[..i + 1]) == SpanSet(args[..i]) + {args[i]}
  {
    assert args[..i + 1] == args[..i] + [args[i]];
  }

  /** The words of a command. */
  ghost function Words(c: Cmd<Span>): set<Span> {
    match c
    case Exec(args) => SpanSet(args)
    case Redir(sub, file, _) => Words(sub) + {file}
    case Pipe(left, right) => Words(left) + Words(right)
    case List(left, right) => Words(left) + Words(right)
    case Back(sub) => Words(sub)
  }

  /** The line with a NUL at the end of every word in ws. */
  ghost function Ended(text: string, ws: set<Span>): (t: string)
    ensures |t| == |text|
  {
    seq(|text|, i requires 0 <= i < |text| => if EndsAt(ws, i) then NUL else text[i])
  }

  ghost predicate EndsAt(ws: set<Span>, i: nat) { exists w :: w in ws && w.eq == i }

  lemma EndedTwice(text: string, ws: set<Span>, vs: set<Span>)
    ensures Ended(Ended(text, ws), vs) == Ended(text, ws + vs)
  {
    forall i | 0 <= i < |text|
      ensures Ended(Ended(text, ws), vs)[i] == Ended(text, ws + vs)[i]
    {
      if EndsAt(ws, i) {
        var w :| w in ws && w.eq == i;
        assert w in ws + vs;
      }
      if EndsAt(vs, i) {
        var w :| w in vs && w.eq == i;
        assert w in ws + vs;
      }
    }
  }

  lemma EndedOne(text: string, w: Span)
    requires w.eq < |text|
    ensures text[w.eq := NUL] == Ended(text, {w})
  {
    assert EndsAt({w}, w.eq);
  }

  lemma EndedNone(text: string)
    ensures Ended(text, {}) == text
  {
  }

  method NulTerminate(buf: array<char>, c: Cmd<Span>)
    requires forall w :: w in Words(c) ==> w.eq < buf.Length
    modifies buf
    ensures buf[..] == Ended(old(buf[..]), Words(c))
    decreases c
  {
    ghost var text := buf[..];
    match c
    case Exec(args) =>
      EndedNone(text);
      var i := 0;
      while i < |args|
        invariant 0 <= i <= |args| && buf[..] == Ended(text, SpanSet(args[..i]))
      {
        ghost var before := buf[..];
        assert args[i] in Words(c);
        buf[args[i].eq] := NUL;
        assert buf[..] == before[args[i].eq := NUL];
        EndedOne(before, args[i]);
        EndedTwice(text, SpanSet(args[..i]), {args[i]});
        SpanSetMore(args, i);
        i := i + 1;
      }
      assert args[..i] == args;
    case Redir(sub, file, _) =>
      NulTerminate(buf, sub);
      ghost var before := buf[..];
      buf[file.eq] := NUL;
      assert buf[..] == before[file.eq := NUL];
      EndedOne(before, file);
      EndedTwice(text, Words(sub), {file});
    case Pipe(left, right) =>
      NulTerminate(buf, left);
      NulTerminate(buf, right);
      EndedTwice(text, Words(left), Words(right));
    case List(left, right) =>
      NulTerminate(buf, left);
      NulTerminate(buf, right);
      EndedTwice(text, Words(left), Words(right));
    case Back(sub) =>
      NulTerminate(buf, sub);
  }

  // --------------------------------------------------- the words after parsing

  /** Every word of the tree is a word of the line, and there are few enough of them. */
  ghost predicate Formed(s: string, c: Cmd<Span>) {
    match c
    case Exec(args) => |args| < MAXARGS && forall i :: 0 <= i < |args| ==> IsWord(s, args[i])
    case Redir(sub, file, _) => Formed(s, sub) && IsWord(s, file)
    case Pipe(left, right) => Formed(s, left) && Formed(s, right)
    case List(left, right) => Formed(s, left) && Formed(s, right)
    case Back(sub) => Formed(s, sub)
  }

  ghost predicate RedirWords(s: string, redirs: seq<(Span, Mode)>) {
    forall i :: 0 <= i < |redirs| ==> IsWord(s, redirs[i].0)
  }

  lemma {:induction false} WrapFormed(s: string, c: Cmd<Span>, redirs: seq<(Span, Mode)>)
    requires Formed(s, c) && RedirWords(s, redirs)
    ensures Formed(s, Wrap(c, redirs))
    decreases |redirs|
  {
    if redirs != [] {
      WrapFormed(s, c, redirs[..|redirs| - 1]);
    }
  }

  lemma {:induction false} RedirsFormed(s: string, done: seq<(Span, Mode)>, i: nat)
    requires i <= |s| && RedirWords(s, done)
    ensures var r := ParseRedirs(s, done, i); r.Ok? ==> RedirWords(s, r.value)
    decreases |s| - i
  {
    if Peek(s, i, "<>") {
      var tok := Gettoken(s, i);
      var file := Gettoken(s, tok.next);
      if file.kind == 'a' {
        RedirsFormed(s, done + [(Span(file.q, file.eq), if tok.kind == '<' then Input else Output)], file.next);
      }
    }
  }

  lemma {:induction false} ArgsFormed(s: string, args: seq<Span>, redirs: seq<(Span, Mode)>, i: nat)
    requires i <= |s| && Formed(s, Exec(args)) && RedirWords(s, redirs)
    ensures var r := ParseArgs(s, args, redirs, i); r.Ok? ==> Formed(s, r.value)
    decreases |s| - i
  {
    WrapFormed(s, Exec(args), redirs);
    if !Peek(s, i, "|)&;") {
      var tok := Gettoken(s, i);
      if tok.kind == 'a' && |args| + 1 < MAXARGS {
        RedirsFormed(s, redirs, tok.next);
        var more := ParseRedirs(s, redirs, tok.next);
        if more.Ok? {
          ArgsFormed(s, args + [Span(tok.q, tok.eq)], more.value, more.next);
        }
      }
    }
  }

  lemma {:induction false} LineFormed(s: string, i: nat)
    requires i <= |s|
    ensures var r := ParseLine(s, i); r.Ok? ==> Formed(s, r.value)
    decreases |s| - i, 3
  {
    PipeFormed(s, i);
    var r := ParsePipe(s, i);
    if r.Ok? {
      BacksFormed(s, r.value, r.next);
    }
  }

  lemma {:induction false} BacksFormed(s: string, c: Cmd<Span>, i: nat)
    requires i <= |s| && Formed(s, c)
    ensures var r := ParseBacks(s, c, i); r.Ok? ==> Formed(s, r.value)
    decreases |s| - i, 0
  {
    if Peek(s, i, "&") {
      BacksFormed(s, Back(c), Gettoken(s, i).next);
    } else if Peek(s, i, ";") {
      LineFormed(s, Gettoken(s, i).next);
    }
  }

  lemma {:induction false} PipeFormed(s: string, i: nat)
    requires i <= |s|
    ensures var r := ParsePipe(s, i); r.Ok? ==> Formed(s, r.value)
    decreases |s| - i, 2
  {
    ExecFormed(s, i);
    var r := ParseExec(s, i);
    if r.Ok? && Peek(s, r.next, "|") {
      PipeFormed(s, Gettoken(s, r.next).next);
    }
  }

  lemma {:induction false} ExecFormed(s: string, i: nat)
    requires i <= |s|
    ensures var r := ParseExec(s, i); r.Ok? ==> Formed(s, r.value)
    decreases |s| - i, 1
  {
    if Peek(s, i, "(") {
      var r := ParseLine(s, Gettoken(s, i).next);
      LineFormed(s, Gettoken(s, i).next);
      if r.Ok? && Peek(s, r.next, ")") {
        RedirsFormed(s, [], Gettoken(s, r.next).next);
        var redirs := ParseRedirs(s, [], Gettoken(s, r.next).next);
        if redirs.Ok? {
          WrapFormed(s, r.value, redirs.value);
        }
      }
    } else {
      RedirsFormed(s, [], i);
      var redirs := ParseRedirs(s, [], i);
      if redirs.Ok? {
        ArgsFormed(s, [], redirs.value, redirs.next);
      }
    }
  }

  ghost predicate AllWords(s: string, ws: set<Span>) { forall w :: w in ws ==> IsWord(s, w) }

  lemma {:induction false} FormedWords(s: string, c: Cmd<Span>)
    requires Formed(s, c)
    ensures AllWords(s, Words(c))
  {
    match c
    case Exec(_) =>
    case Redir(sub, _, _) => FormedWords(s, sub);
    case Pipe(left, right) => FormedWords(s, left); FormedWords(s, right);
    case List(left, right) => FormedWords(s, left); FormedWords(s, right);
    case Back(sub) => FormedWords(s, sub);
  }

  /** The C string that starts at q. */
  function CString(text: string, q: nat): string
    decreases |text| - q
  {
    if q < |text| && text[q] != NUL then [text[q]] + CString(text, q + 1) else ""
  }

  lemma {:induction false} CStringUpTo(text: string, q: nat, eq: nat)
    requires q <= eq < |text| && text[eq] == NUL && forall k :: q <= k < eq ==> text[k] != NUL
    ensures CString(text, q) == text[q..eq]
    decreases eq - q
  {
    if q < eq {
      CStringUpTo(text, q + 1, eq);
      assert text[q..eq] == [text[q]] + text[q + 1..eq];
    }
  }

  /** A word's own characters are not the end of any word. */
  lemma InsideNoEnd(s: string, ws: set<Span>, w: Span, k: nat)
    requires AllWords(s, ws) && w in ws && w.q <= k < w.eq
    ensures k < |s| && !EndsAt(ws, k)
  {
    assert IsWord(s, w) && IsWordChar(s[k]);
  }

  /** After nulterminate every word of the command is the C string at its start: no
      word is damaged by the terminator of another. */
  lemma WordsSurvive(s: string, w: Span)
    requires NUL !in s && ParseCmd(s).Ok? && w in Words(ParseCmd(s).value)
    ensures w.q < w.eq <= |s| && CString(Ended(s + [NUL], Words(ParseCmd(s).value)), w.q) == s[w.q..w.eq]
  {
    hide AllWords;
    hide EndsAt;
    hide CString;
    var ws := Words(ParseCmd(s).value);
    LineFormed(s, 0);
    FormedWords(s, ParseCmd(s).value);
    WordAt(s, ws, w);
    var text := Ended(s + [NUL], ws);
    forall k | w.q <= k < w.eq
      ensures text[k] == s[k] && s[k] != NUL
    {
      InsideNoEnd(s, ws, w, k);
    }
    CStringUpTo(text, w.q, w.eq);
    assert text[w.q..w.eq] == s[w.q..w.eq];
  }

  lemma WordAt(s: string, ws: set<Span>, w: Span)
    requires AllWords(s, ws) && w in ws
    ensures w.q < w.eq <= |s| && EndsAt(ws, w.eq)
  {
    assert IsWord(s, w);
  }
}
