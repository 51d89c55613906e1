/** The shell's scanner and recursive-descent parser (sh.c). The text is the command
    line without its final NUL; panics and syntax errors are Err. */
module Shell {

  const MAXARGS: nat := 10

  const NUL: char := '\0'

  datatype Mode = Input | Output

  /** A command over words of type W. */
  datatype Cmd<W> =
    | Exec(args: seq<W>)
    | Redir(cmd: Cmd<W>, file: W, mode: Mode)
    | Pipe(left: Cmd<W>, right: Cmd<W>)
    | List(left: Cmd<W>, right: Cmd<W>)
    | Back(cmd: Cmd<W>)

  /** A word as the pair of pointers to its first character and past its last. */
  datatype Span = Span(q: nat, eq: nat)

  datatype Token = Token(kind: char, q: nat, eq: nat, next: nat)

  datatype Result<T> = Ok(value: T, next: nat) | Err

  predicate IsSpace(c: char) { c == ' ' || c == '\t' || c == '\r' || c == '\n' || c == '\U{000B}' }

  predicate IsSymbol(c: char) { c == '<' || c == '|' || c == '>' || c == '&' || c == ';' || c == '(' || c == ')' }

  predicate IsWordChar(c: char) { !IsSpace(c) && !IsSymbol(c) }

  // -------------------------------------------------------------- the scanner

  function Skip(s: string, i: nat): (j: nat)
    requires i <= |s|
    ensures i <= j <= |s| && (j < |s| ==> !IsSpace(s[j])) && forall k :: i <= k < j ==> IsSpace(s[k])
    decreases |s| - i
  {
    if i < |s| && IsSpace(s[i]) then Skip(s, i + 1) else i
  }

  function WordEnd(s: string, i: nat): (j: nat)
    requires i <= |s|
    ensures i <= j <= |s| && (j < |s| ==> !IsWordChar(s[j])) && forall k :: i <= k < j ==> IsWordChar(s[k])
    decreases |s| - i
  {
    if i < |s| && IsWordChar(s[i]) then WordEnd(s, i + 1) else i
  }

  function TokenEnd(s: string, q: nat): (eq: nat)
    requires q <= |s|
    ensures q <= eq <= |s| && (q < |s| && !IsSpace(s[q]) ==> q < eq)
  {
    if q == |s| then q
    else if s[q] == '>' then (if q + 1 < |s| && s[q + 1] == '>' then q + 2 else q + 1)
    else if IsSymbol(s[q]) then q + 1
    else WordEnd(s, q)
  }

  function KindAt(s: string, q: nat): char
    requires q <= |s|
  {
    if q == |s| then NUL
    else if s[q] == '>' then (if q + 1 < |s| && s[q + 1] == '>' then '+' else '>')
    else if IsSymbol(s[q]) then s[q]
    else 'a'
  }

  function Gettoken(s: string, i: nat): (t: Token)
    requires i <= |s|
    ensures i <= t.q <= t.eq <= t.next <= |s| && (t.q < |s| ==> i < t.next)
    ensures t.kind == 'a' ==> IsWord(s, Span(t.q, t.eq))
  {
    var q := Skip(s, i);
    var eq := TokenEnd(s, q);
    Token(KindAt(s, q), q, eq, Skip(s, eq))
  }

  /** The characters of a word, which ends where a word character does not follow. */
  ghost predicate IsWord(s: string, w: Span) {
    && w.q < w.eq <= |s| && (w.eq < |s| ==> !IsWordChar(s[w.eq]))
    && forall k :: w.q <= k < w.eq ==> IsWordChar(s[k])
  }

  predicate Peek(s: string, i: nat, toks: string)
    requires i <= |s|
  {
    Skip(s, i) < |s| && s[Skip(s, i)] in toks
  }

  // --------------------------------------------------------------- the parser

  function Wrap<W>(c: Cmd<W>, redirs: seq<(W, Mode)>): Cmd<W>
    decreases |redirs|
  {
    if redirs == [] then c else Redir(Wrap(c, redirs[..|redirs| - 1]), redirs[|redirs| - 1].0, redirs[|redirs| - 1].1)
  }

  /** The redirections from i on, after those in done. */
  function ParseRedirs(s: string, done: seq<(Span, Mode)>, i: nat): (r: Result<seq<(Span, Mode)>>)
    requires i <= |s|
    ensures r.Ok? ==> i <= r.next <= |s|
    decreases |s| - i
  {
    if !Peek(s, i, "<>") then Ok(done, Skip(s, i))
    else
      var tok := Gettoken(s, i);
      var file := Gettoken(s, tok.next);
      if file.kind != 'a' then Err
      else ParseRedirs(s, done + [(Span(file.q, file.eq), if tok.kind == '<' then Input else Output)], file.next)
  }

  function ParseArgs(s: string, args: seq<Span>, redirs: seq<(Span, Mode)>, i: nat): (r: Result<Cmd<Span>>)
    requires i <= |s|
    ensures r.Ok? ==> i <= r.next <= |s|
    decreases |s| - i
  {
    if Peek(s, i, "|)&;") then Ok(Wrap(Exec(args), redirs), Skip(s, i))
    else
      var tok := Gettoken(s, i);
      if tok.kind == NUL then Ok(Wrap(Exec(args), redirs), tok.next)
      else if tok.kind != 'a' || |args| + 1 >= MAXARGS then Err
      else
        match ParseRedirs(s, redirs, tok.next)
        case Err => Err
        case Ok(more, j) => ParseArgs(s, args + [Span(tok.q, tok.eq)], more, j)
  }

  function ParseLine(s: string, i: nat): (r: Result<Cmd<Span>>)
    requires i <= |s|
    ensures r.Ok? ==> i <= r.next <= |s|
    decreases |s| - i, 3
  {
    match ParsePipe(s, i)
    case Err => Err
    case Ok(c, j) => ParseBacks(s, c, j)
  }

  /** What follows a pipeline: any number of & and perhaps ; and another line. */
  function ParseBacks(s: string, c: Cmd<Span>, i: nat): (r: Result<Cmd<Span>>)
    requires i <= |s|
    ensures r.Ok? ==> i <= r.next <= |s|
    decreases |s| - i, 0
  {
    if Peek(s, i, "&") then ParseBacks(s, Back(c), Gettoken(s, i).next)
    else if Peek(s, i, ";") then
      match ParseLine(s, Gettoken(s, i).next)
      case Err => Err
      case Ok(rest, j) => Ok(List(c, rest), j)
    else Ok(c, Skip(s, i))
  }

  function ParsePipe(s: string, i: nat): (r: Result<Cmd<Span>>)
    requires i <= |s|
    ensures r.Ok? ==> i <= r.next <= |s|
    decreases |s| - i, 2
  {
    match ParseExec(s, i)
    case Err => Err
    case Ok(c, j) =>
      if !Peek(s, j, "|") then Ok(c, Skip(s, j))
      else
        match ParsePipe(s, Gettoken(s, j).next)
        case Err => Err
        case Ok(rest, k) => Ok(Pipe(c, rest), k)
  }

  function ParseExec(s: string, i: nat): (r: Result<Cmd<Span>>)
    requires i <= |s|
    ensures r.Ok? ==> i <= r.next <= |s|
    decreases |s| - i, 1
  {
    if Peek(s, i, "(") then ParseBlock(s, i)
    else
      match ParseRedirs(s, [], i)
      case Err => Err
      case Ok(redirs, j) => ParseArgs(s, [], redirs, j)
  }

  function ParseBlock(s: string, i: nat): (r: Result<Cmd<Span>>)
    requires i <= |s| && Peek(s, i, "(")
    ensures r.Ok? ==> i <= r.next <= |s|
    decreases |s| - i, 0
  {
    match ParseLine(s, Gettoken(s, i).next)
    case Err => Err
    case Ok(c, j) =>
      if !Peek(s, j, ")") then Err
      else
        match ParseRedirs(s, [], Gettoken(s, j).next)
        case Err => Err
        case Ok(redirs, k) => Ok(Wrap(c, redirs), k)
  }

  function ParseCmd(s: string): Result<Cmd<Span>> {
    match ParseLine(s, 0)
    case Err => Err
    case Ok(c, i) => if Skip(s, i) == |s| then Ok(c, |s|) else Err
  }
}
