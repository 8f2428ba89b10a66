/** The shell's grammar: tokens, the recursive-descent parser as a function of the text and
    a position, and the printing it undoes. */
module Shell {

  const MAXARGS: nat := 10

  predicate Blank(c: char) { c == ' ' || c == '\t' || c == '\r' || c == '\n' || c == '\U{0B}' }
  predicate Symbol(c: char) { c == '<' || c == '|' || c == '>' || c == '&' || c == ';' || c == '(' || c == ')' }
  predicate Plain(c: char) { !Blank(c) && !Symbol(c) && c != '\0' }

  /** A C string's text. */
  predicate Text(s: string) { '\0' !in s }

  datatype Mode = Input | Output | Append

  /** A command over words, which are stretches of text to the parser and strings to a reader. */
  datatype Cmd<W> =
    | Exec(args: seq<W>)
    | Redir(cmd: Cmd<W>, file: W, mode: Mode)
    | Pipe(left: Cmd<W>, right: Cmd<W>)
    | List(left: Cmd<W>, right: Cmd<W>)
    | Back(cmd: Cmd<W>)

  datatype Span = Span(q: nat, eq: nat)

  datatype Result<T> = Ok(value: T, pos: nat) | Panic

  // ------------------------------------------------------------- tokens

  function Skip(s: string, i: nat): (j: nat)
    requires i <= |s|
    ensures i <= j <= |s|
    decreases |s| - i
  {
    if i < |s| && Blank(s[i]) then Skip(s, i + 1) else i
  }

  lemma SkipNonblank(s: string, i: nat)
    requires i <= |s|
    ensures Skip(s, i) < |s| ==> !Blank(s[Skip(s, i)])
    decreases |s| - i
  {
  }

  lemma SkipTwice(s: string, i: nat)
    requires i <= |s|
    ensures Skip(s, Skip(s, i)) == Skip(s, i)
    decreases |s| - i
  {
  }

  function WordEnd(s: string, i: nat): (j: nat)
    requires i <= |s|
    ensures i <= j <= |s|
    decreases |s| - i
  {
    if i < |s| && !Blank(s[i]) && !Symbol(s[i]) then WordEnd(s, i + 1) else i
  }

  datatype Kind = End | Sym(c: char) | AppendTo | Word
  datatype Token = Token(kind: Kind, span: Span, next: nat)

  /** gettoken: the token at the first nonblank from i on, and where the next one starts. */
  function GetToken(s: string, i: nat): (t: Token)
    requires i <= |s|
    ensures i <= t.span.q <= t.span.eq <= t.next <= |s|
    ensures t.kind == End <==> t.span.q == |s|
    ensures t.kind != End ==> t.span.q < t.span.eq
  {
    var q := Skip(s, i);
    SkipNonblank(s, i);
    if q == |s| then Token(End, Span(q, q), q)
    else if s[q] == '>' then
      if q + 1 < |s| && s[q + 1] == '>' then Token(AppendTo, Span(q, q + 2), Skip(s, q + 2))
      else Token(Sym('>'), Span(q, q + 1), Skip(s, q + 1))
    else if Symbol(s[q]) then Token(Sym(s[q]), Span(q, q + 1), Skip(s, q + 1))
    else Token(Word, Span(q, WordEnd(s, q)), Skip(s, WordEnd(s, q)))
  }

  /** A maximal stretch of plain characters. */
  predicate IsWord(s: string, w: Span) {
    && w.q < w.eq <= |s|
    && (forall k :: w.q <= k < w.eq ==> !Blank(s[k]) && !Symbol(s[k]))
    && (w.eq < |s| ==> Blank(s[w.eq]) || Symbol(s[w.eq]))
  }

  // peek, at the position it leaves, for the sets of characters the parser looks for

  predicate PeekChar(s: string, j: nat, c: char)
    requires j <= |s|
  {
    j < |s| && s[j] == c
  }

  /** "<>" */
  predicate PeekRedir(s: string, j: nat)
    requires j <= |s|
  {
    j < |s| && (s[j] == '<' || s[j] == '>')
  }

  /** "|)&;" */
  predicate PeekStop(s: string, j: nat)
    requires j <= |s|
  {
    j < |s| && (s[j] == '|' || s[j] == ')' || s[j] == '&' || s[j] == ';')
  }

  // ------------------------------------------------------------ parsing

  function Wrap<W>(c: Cmd<W>, rs: seq<(W, Mode)>): Cmd<W> {
    if rs == [] then c else Redir(Wrap(c, rs[..|rs| - 1]), rs[|rs| - 1].0, rs[|rs| - 1].1)
  }

  type Redirs = seq<(Span, Mode)>

  function ModeOf(k: Kind): Mode { if k == Sym('<') then Input else if k == AppendTo then Append else Output }

  /** parseredirs: the redirections from i on, after those already read. */
  function ParseRedirs(s: string, i: nat, rs: Redirs): (r: Result<Redirs>)
    requires i <= |s|
    ensures r.Ok? ==> i <= r.pos <= |s|
    decreases |s| - i
  {
    var j := Skip(s, i);
    if !PeekRedir(s, j) then Ok(rs, j) else
    var op := GetToken(s, j);
    var file := GetToken(s, op.next);
    if file.kind != Word then Panic else ParseRedirs(s, file.next, rs + [(file.span, ModeOf(op.kind))])
  }

  /** parseexec's loop: words and redirections in any order. */
  function ParseArgs(s: string, i: nat, args: seq<Span>, rs: Redirs): (r: Result<Cmd<Span>>)
    requires i <= |s|
    ensures r.Ok? ==> i <= r.pos <= |s|
    decreases |s| - i
  {
    var j := Skip(s, i);
    if PeekStop(s, j) then Ok(Wrap(Exec(args), rs), j) else
    var t := GetToken(s, j);
    if t.kind == End then Ok(Wrap(Exec(args), rs), t.next)
    else if t.kind != Word then Panic
    else if |args| + 1 >= MAXARGS then Panic
    else
      match ParseRedirs(s, t.next, rs)
      case Panic => Panic
      case Ok(rs', k) => ParseArgs(s, k, args + [t.span], rs')
  }

  function ParseExec(s: string, i: nat): (r: Result<Cmd<Span>>)
    requires i <= |s|
    ensures r.Ok? ==> i <= r.pos <= |s|
    decreases |s| - i, 1
  {
    var j := Skip(s, i);
    if PeekChar(s, j, '(') then ParseBlock(s, j)
    else
      match ParseRedirs(s, j, [])
      case Panic => Panic
      case Ok(rs, k) => ParseArgs(s, k, [], rs)
  }

  function ParseBlock(s: string, i: nat): (r: Result<Cmd<Span>>)
    requires i < |s| && s[i] == '('
    ensures r.Ok? ==> i <= r.pos <= |s|
    decreases |s| - i, 0
  {
    match ParseLine(s, GetToken(s, i).next)
    case Panic => Panic
    case Ok(c, j) =>
      var k := Skip(s, j);
      if !PeekChar(s, k, ')') then Panic else
      match ParseRedirs(s, GetToken(s, k).next, [])
      case Panic => Panic
      case Ok(rs, m) => Ok(Wrap(c, rs), m)
  }

  function ParsePipe(s: string, i: nat): (r: Result<Cmd<Span>>)
    requires i <= |s|
    ensures r.Ok? ==> i <= r.pos <= |s|
    decreases |s| - i, 2
  {
    match ParseExec(s, i)
    case Panic => Panic
    case Ok(c, j) =>
      var k := Skip(s, j);
      if !PeekChar(s, k, '|') then Ok(c, k) else
      match ParsePipe(s, GetToken(s, k).next)
      case Panic => Panic
      case Ok(d, m) => Ok(Pipe(c, d), m)
  }

  /** parseline's loop over trailing ampersands. */
  function ParseBacks(s: string, i: nat, c: Cmd<Span>): (r: Result<Cmd<Span>>)
    requires i <= |s|
    ensures r.Ok? && i <= r.pos <= |s|
    decreases |s| - i
  {
    var j := Skip(s, i);
    if PeekChar(s, j, '&') then ParseBacks(s, GetToken(s, j).next, Back(c)) else Ok(c, j)
  }

  function ParseLine(s: string, i: nat): (r: Result<Cmd<Span>>)
    requires i <= |s|
    ensures r.Ok? ==> i <= r.pos <= |s|
    decreases |s| - i, 3
  {
    match ParsePipe(s, i)
    case Panic => Panic
    case Ok(c, j) =>
      var b := ParseBacks(s, j, c);
      var k := Skip(s, b.pos);
      if !PeekChar(s, k, ';') then Ok(b.value, k) else
      match ParseLine(s, GetToken(s, k).next)
      case Panic => Panic
      case Ok(d, m) => Ok(List(b.value, d), m)
  }

  /** parsecmd, before it terminates the words. */
  function ParseCmd(s: string): (r: Result<Cmd<Span>>) {
    match ParseLine(s, 0)
    case Panic => Panic
    case Ok(c, j) => if Skip(s, j) == |s| then Ok(c, |s|) else Panic
  }

  // ----------------------------------------------------------- printing

  function Join(words: seq<string>): string {
    if words == [] then "" else if |words| == 1 then words[0] else words[0] + " " + Join(words[1..])
  }

  function Op(m: Mode): string { match m case Input => "<" case Output => ">" case Append => ">>" }

  function Print(t: Cmd<string>): string
    decreases t, 0
  {
    match t
    case Exec(args) => Join(args)
    case Redir(c, f, m) => Paren(c) + Op(m) + f
    case Pipe(l, r) => Paren(l) + "|" + Paren(r)
    case List(l, r) => Paren(l) + ";" + Paren(r)
    case Back(c) => Paren(c) + "&"
  }

  function Paren(t: Cmd<string>): string
    decreases t, 1
  {
    "(" + Print(t) + ")"
  }

  predicate AllPlain(words: seq<string>) { forall k :: 0 <= k < |words| ==> PlainWord(words[k]) }

  predicate PlainWord(w: string) { w != "" && forall k :: 0 <= k < |w| ==> Plain(w[k]) }

  /** Trees the parser can produce from plain words. */
  predicate Good(t: Cmd<string>) {
    match t
    case Exec(args) => |args| < MAXARGS && AllPlain(args)
    case Redir(c, f, _) => Good(c) && PlainWord(f)
    case Pipe(l, r) => Good(l) && Good(r)
    case List(l, r) => Good(l) && Good(r)
    case Back(c) => Good(c)
  }

  /** The stretch w of s reads as word. */
  predicate Shows(s: string, w: Span, word: string) { w.q <= w.eq <= |s| && s[w.q..w.eq] == word }

  /** The parsed command c is the tree t. */
  predicate Same(s: string, c: Cmd<Span>, t: Cmd<string>) {
    match t
    case Exec(words) => c.Exec? && |c.args| == |words| && forall k :: 0 <= k < |words| ==> Shows(s, c.args[k], words[k])
    case Redir(t1, f, m) => c.Redir? && Same(s, c.cmd, t1) && Shows(s, c.file, f) && c.mode == m
    case Pipe(l, r) => c.Pipe? && Same(s, c.left, l) && Same(s, c.right, r)
    case List(l, r) => c.List? && Same(s, c.left, l) && Same(s, c.right, r)
    case Back(t1) => c.Back? && Same(s, c.cmd, t1)
  }

  /** p stands in s at i. */
  predicate At(s: string, i: nat, p: string) { i + |p| <= |s| && s[i..i + |p|] == p }

  lemma AtSplit(s: string, i: nat, p: string, q: string)
    requires At(s, i, p + q)
    ensures At(s, i, p) && At(s, i + |p|, q)
  {
    assert s[i..i + |p|] == (p + q)[..|p|];
    assert s[i + |p|..i + |p| + |q|] == (p + q)[|p|..];
  }

  /** A word ends here. */
  predicate Delim(s: string, i: nat) { i == |s| || (i < |s| && (Blank(s[i]) || Symbol(s[i]))) }

  /** Where a printed command ends: the text does, or a closing parenthesis follows. */
  predicate Stop(s: string, i: nat) { i == |s| || (i < |s| && s[i] == ')') }

  lemma {:induction false} WordAt(s: string, i: nat, w: string)
    requires At(s, i, w) && (forall k :: 0 <= k < |w| ==> Plain(w[k]))
    requires Delim(s, i + |w|)
    ensures WordEnd(s, i) == i + |w|
    decreases |w|
  {
    if w != "" {
      assert s[i] == w[0];
      assert At(s, i + 1, w[1..]) by {
        AtSplit(s, i, [w[0]], w[1..]);
        assert w == [w[0]] + w[1..];
      }
      WordAt(s, i + 1, w[1..]);
    }
  }

  /** The token of a word that stands at i. */
  lemma WordToken(s: string, i: nat, w: string)
    requires At(s, i, w) && PlainWord(w)
    requires Delim(s, i + |w|)
    ensures Skip(s, i) == i && !PeekRedir(s, i) && !PeekStop(s, i) && !PeekChar(s, i, '(')
    ensures GetToken(s, i) == Token(Word, Span(i, i + |w|), Skip(s, i + |w|)) && Shows(s, Span(i, i + |w|), w)
  {
    assert s[i] == w[0] && Plain(s[i]);
    WordAt(s, i, w);
  }

  lemma NoRedirs(s: string, i: nat, rs: Redirs)
    requires i <= |s| && (i < |s| ==> !Blank(s[i]) && s[i] != '<' && s[i] != '>')
    ensures ParseRedirs(s, i, rs) == Ok(rs, i)
  {
  }

  lemma ArgsEnd(s: string, i: nat, args: seq<Span>)
    requires Stop(s, i)
    ensures ParseArgs(s, i, args, []) == Ok(Exec(args), i)
  {
  }

  /** One round of the word loop. */
  lemma ArgStep(s: string, i: nat, w: string, k: nat, args: seq<Span>, more: seq<Span>)
    requires At(s, i, w) && PlainWord(w) && |args| + 1 < MAXARGS && more == args + [Span(i, i + |w|)]
    requires Delim(s, i + |w|)
    requires k == Skip(s, i + |w|) && (k < |s| ==> !Blank(s[k]) && s[k] != '<' && s[k] != '>')
    ensures ParseArgs(s, i, args, []) == ParseArgs(s, k, more, [])
  {
    WordToken(s, i, w);
    NoRedirs(s, k, []);
  }

  function Gap(rest: seq<string>): string { if rest == [] then "" else " " }

  /** Where the words of Join(words) stand when it is printed at i. */
  function Spans(i: nat, words: seq<string>): (r: seq<Span>)
    ensures |r| == |words|
    decreases |words|
  {
    if words == [] then []
    else [Span(i, i + |words[0]|)] + Spans(i + |words[0]| + |Gap(words[1..])|, words[1..])
  }

  lemma JoinSplit(s: string, i: nat, words: seq<string>)
    requires words != [] && At(s, i, Join(words))
    ensures
      && At(s, i, words[0]) && At(s, i + |words[0]|, Gap(words[1..]))
      && At(s, i + |words[0]| + |Gap(words[1..])|, Join(words[1..]))
    ensures |Join(words)| == |words[0]| + |Gap(words[1..])| + |Join(words[1..])|
  {
    var w, gap, tail := words[0], Gap(words[1..]), Join(words[1..]);
    assert Join(words) == w + (gap + tail);
    AtSplit(s, i, w, gap + tail);
    AtSplit(s, i + |w|, gap, tail);
  }

  lemma {:induction false} SpansShow(s: string, i: nat, words: seq<string>, k: nat)
    requires At(s, i, Join(words)) && k < |words|
    ensures Shows(s, Spans(i, words)[k], words[k])
    decreases |words|
  {
    JoinSplit(s, i, words);
    if k > 0 {
      SpansShow(s, i + |words[0]| + |Gap(words[1..])|, words[1..], k - 1);
    }
  }

  lemma {:induction false} ArgsParse(s: string, i: nat, words: seq<string>, args: seq<Span>, all: seq<Span>, end: nat)
    requires At(s, i, Join(words)) && end == i + |Join(words)| && Stop(s, end) && |args| + |words| < MAXARGS
    requires AllPlain(words) && all == args + Spans(i, words)
    ensures ParseArgs(s, i, args, []) == Ok(Exec(all), end)
    decreases |words|
  {
    if words == [] {
      assert all == args;
      ArgsEnd(s, i, args);
    } else {
      var w, rest := words[0], words[1..];
      var we := i + |w|;
      var k, more := we + |Gap(rest)|, args + [Span(i, we)];
      JoinSplit(s, i, words);
      PlainTail(words);
      NextWord(s, we, rest, k, end);
      SpansCons(i, words, k, args);
      ArgsParse(s, k, rest, more, all, end);
      ArgsThen(s, i, w, we, k, args, more, Exec(all), end);
    }
  }

  /** A word in front of words that parse. */
  lemma ArgsThen(s: string, i: nat, w: string, we: nat, k: nat, args: seq<Span>, more: seq<Span>, c: Cmd<Span>,
                 end: nat)
    requires
      && At(s, i, w) && PlainWord(w) && we == i + |w| && Delim(s, we) && |args| + 1 < MAXARGS
      && more == args + [Span(i, we)]
    requires k == Skip(s, we) && (k < |s| ==> !Blank(s[k]) && s[k] != '<' && s[k] != '>')
    requires ParseArgs(s, k, more, []) == Ok(c, end)
    ensures ParseArgs(s, i, args, []) == Ok(c, end)
  {
    ArgStep(s, i, w, k, args, more);
    assert ParseArgs(s, i, args, []) == ParseArgs(s, k, more, []);
  }

  lemma SpansCons(i: nat, words: seq<string>, k: nat, args: seq<Span>)
    requires words != [] && k == i + |words[0]| + |Gap(words[1..])|
    ensures args + Spans(i, words) == args + [Span(i, i + |words[0]|)] + Spans(k, words[1..])
  {
    var me, more, all := Span(i, i + |words[0]|), Spans(k, words[1..]), Spans(i, words);
    assert all == [me] + more;
    Regroup(args, me, more, all);
  }

  lemma PlainTail(words: seq<string>)
    requires words != [] && AllPlain(words)
    ensures PlainWord(words[0]) && AllPlain(words[1..])
  {
  }

  lemma Regroup(args: seq<Span>, me: Span, more: seq<Span>, all: seq<Span>)
    requires all == [me] + more
    ensures args + [me] + more == args + all
  {
  }

  /** After a word the parser stands at the next word or at the end of the command. */
  lemma NextWord(s: string, i: nat, rest: seq<string>, k: nat, end: nat)
    requires
      && At(s, i, Gap(rest)) && At(s, k, Join(rest)) && k == i + |Gap(rest)| && end == k + |Join(rest)| && Stop(s, end)
      && AllPlain(rest)
    ensures Delim(s, i) && Skip(s, i) == k
    ensures k < |s| ==> !Blank(s[k]) && s[k] != '<' && s[k] != '>'
  {
    if rest != [] {
      assert s[i] == ' ';
      JoinStart(rest);
      assert s[k] == Join(rest)[0];
      assert Plain(s[k]);
      assert Skip(s, k) == k;
    }
  }

  lemma JoinStart(words: seq<string>)
    requires words != [] && AllPlain(words)
    ensures Join(words) != "" && Plain(Join(words)[0])
  {
    assert PlainWord(words[0]) && Join(words)[0] == words[0][0];
  }

  // --------------------------------------------------- parsing undoes printing

  /** A symbol at i, and no blank after it. */
  lemma SymbolToken(s: string, i: nat, c: char)
    requires i < |s| && s[i] == c && Symbol(c) && c != '>' && (i + 1 < |s| ==> !Blank(s[i + 1]))
    ensures Skip(s, i) == i && GetToken(s, i) == Token(Sym(c), Span(i, i + 1), i + 1)
  {
  }

  /** What a printed command starts with. */
  lemma PrintStart(t: Cmd<string>)
    requires Good(t)
    ensures Print(t) != "" ==> !Blank(Print(t)[0]) && Print(t)[0] != '<' && Print(t)[0] != '>'
  {
    if t.Exec? && t.args != [] {
      JoinStart(t.args);
    }
  }

  /** A position where a printed command starts or ends shows no blank. */
  lemma NoBlankAt(s: string, i: nat, t: Cmd<string>, end: nat)
    requires Good(t) && At(s, i, Print(t)) && end == i + |Print(t)| && Stop(s, end)
    ensures i < |s| ==> !Blank(s[i]) && s[i] != '<' && s[i] != '>'
  {
    PrintStart(t);
    if Print(t) != "" {
      assert s[i] == Print(t)[0];
    }
  }

  /** The parts of a parenthesised command that stands at i. */
  lemma ParenAt(s: string, i: nat, t: Cmd<string>, close: nat)
    requires At(s, i, Paren(t)) && close == i + 1 + |Print(t)|
    ensures close < |s| && s[i] == '(' && At(s, i + 1, Print(t)) && s[close] == ')' && |Paren(t)| == close + 1 - i
  {
    assert Paren(t) == "(" + (Print(t) + ")");
    AtSplit(s, i, "(", Print(t) + ")");
    AtSplit(s, i + 1, Print(t), ")");
    assert s[i..i + 1][0] == '(';
    assert s[close..close + 1][0] == ')';
  }

  /** What follows a parenthesised command: nothing the shell would read as a redirection, or a blank. */
  predicate Follows(s: string, i: nat) { i <= |s| && (i < |s| ==> !Blank(s[i]) && s[i] != '<' && s[i] != '>') }

  /** A block without redirections is the command inside it. */
  lemma BlockIs(s: string, i: nat, c: Cmd<Span>, inner: nat, close: nat, after: nat)
    requires
      && i < close < |s| && inner == i + 1 && after == close + 1 && s[i] == '(' && s[close] == ')' && !Blank(s[inner])
      && Follows(s, after)
    requires ParseLine(s, inner) == Ok(c, close)
    ensures ParseExec(s, i) == Ok(c, after)
  {
    SymbolToken(s, i, '(');
    SymbolToken(s, close, ')');
    NoRedirs(s, after, []);
    BlockGives(s, i, c, inner, close, after, [], after);
  }

  /** What parseblock makes of its parts. */
  lemma BlockGives(s: string, i: nat, c: Cmd<Span>, inner: nat, close: nat, after: nat, rs: Redirs, end: nat)
    requires
      && i < |s| && s[i] == '(' && Skip(s, i) == i && GetToken(s, i).next == inner
      && ParseLine(s, inner) == Ok(c, close)
    requires
      && close < |s| && s[close] == ')' && Skip(s, close) == close && GetToken(s, close).next == after
      && ParseRedirs(s, after, []) == Ok(rs, end)
    ensures ParseExec(s, i) == Ok(Wrap(c, rs), end)
  {
    assert ParseBlock(s, i) == Ok(Wrap(c, rs), end);
    assert ParseExec(s, i) == ParseBlock(s, i);
  }

  /** A command alone, up to a closing parenthesis or the end. */
  lemma AloneIs(s: string, i: nat, c: Cmd<Span>, end: nat)
    requires i <= end && Stop(s, end) && ParseExec(s, i) == Ok(c, end)
    ensures ParsePipe(s, i) == Ok(c, end) && ParseLine(s, i) == Ok(c, end)
  {
    assert Skip(s, end) == end;
    assert ParsePipe(s, i) == Ok(c, end);
    assert ParseBacks(s, end, c) == Ok(c, end);
  }

  /** A redirection standing at j, at the end of a command. */
  lemma OneRedir(s: string, j: nat, m: Mode, f: string, q: nat, end: nat) returns (rs: Redirs)
    requires At(s, j, Op(m)) && q == j + |Op(m)| && At(s, q, f) && end == q + |f| && PlainWord(f) && Stop(s, end)
    ensures rs == [(Span(q, end), m)] && ParseRedirs(s, j, []) == Ok(rs, end) && Shows(s, Span(q, end), f)
  {
    rs := [(Span(q, end), m)];
    assert s[q] == f[0] && Plain(s[q]);
    assert s[j] == Op(m)[0] && (m == Append ==> s[j + 1] == Op(m)[1]);
    assert Skip(s, j) == j && Skip(s, q) == q && Skip(s, end) == end;
    WordToken(s, q, f);
    NoRedirs(s, end, rs);
    var none: Redirs := [];
    assert none + [(Span(q, end), m)] == rs;
    assert GetToken(s, j).next == q && ModeOf(GetToken(s, j).kind) == m;
    assert ParseRedirs(s, end, rs) == Ok(rs, end);
  }

  lemma WrapOne(c: Cmd<Span>, f: Span, m: Mode, rs: Redirs)
    requires rs == [(f, m)]
    ensures Wrap(c, rs) == Redir(c, f, m)
  {
    assert rs[..0] == [];
  }

  lemma RedirIs(s: string, i: nat, c: Cmd<Span>, inner: nat, close: nat, after: nat, rs: Redirs, end: nat)
    requires
      && i < close < |s| && inner == i + 1 && after == close + 1 && s[i] == '(' && s[close] == ')' && !Blank(s[inner])
    requires
      && (after < |s| ==> !Blank(s[after])) && ParseLine(s, inner) == Ok(c, close)
      && ParseRedirs(s, after, []) == Ok(rs, end)
    ensures ParseExec(s, i) == Ok(Wrap(c, rs), end)
  {
    SymbolToken(s, i, '(');
    SymbolToken(s, close, ')');
    BlockGives(s, i, c, inner, close, after, rs, end);
  }

  lemma PipeIs(s: string, i: nat, c: Cmd<Span>, mid: nat, right: nat, d: Cmd<Span>, end: nat)
    requires i <= mid < |s| && s[mid] == '|' && right == mid + 1 && (right < |s| ==> !Blank(s[right])) && Stop(s, end)
    requires ParseExec(s, i) == Ok(c, mid) && ParsePipe(s, right) == Ok(d, end)
    ensures ParseLine(s, i) == Ok(Pipe(c, d), end)
  {
    SymbolToken(s, mid, '|');
    assert ParsePipe(s, i) == Ok(Pipe(c, d), end);
    assert Skip(s, end) == end;
    assert ParseBacks(s, end, Pipe(c, d)) == Ok(Pipe(c, d), end);
  }

  lemma ListIs(s: string, i: nat, c: Cmd<Span>, mid: nat, right: nat, d: Cmd<Span>, end: nat)
    requires i <= mid < |s| && s[mid] == ';' && right == mid + 1 && (right < |s| ==> !Blank(s[right]))
    requires ParseExec(s, i) == Ok(c, mid) && ParseLine(s, right) == Ok(d, end)
    ensures ParseLine(s, i) == Ok(List(c, d), end)
  {
    SymbolToken(s, mid, ';');
    assert ParsePipe(s, i) == Ok(c, mid);
    assert ParseBacks(s, mid, c) == Ok(c, mid);
  }

  lemma BackIs(s: string, i: nat, c: Cmd<Span>, mid: nat, end: nat)
    requires i <= mid < |s| && s[mid] == '&' && end == mid + 1 && Stop(s, end) && ParseExec(s, i) == Ok(c, mid)
    ensures ParseLine(s, i) == Ok(Back(c), end)
  {
    SymbolToken(s, mid, '&');
    assert ParsePipe(s, i) == Ok(c, mid);
    assert Skip(s, end) == end;
    assert ParseBacks(s, end, Back(c)) == Ok(Back(c), end);
    assert ParseBacks(s, mid, c) == Ok(Back(c), end);
  }

  /** A block standing at i, given how its inside parses. */
  lemma BlockParses(t: Cmd<string>, s: string, i: nat, c: Cmd<Span>, inner: nat, close: nat, after: nat)
    requires
      && Good(t) && At(s, i, Paren(t)) && inner == i + 1 && close == inner + |Print(t)| && after == close + 1
      && Follows(s, after)
    requires ParseLine(s, inner) == Ok(c, close)
    ensures ParseExec(s, i) == Ok(c, after)
  {
    ParenAt(s, i, t, close);
    NoBlankAt(s, inner, t, close);
    BlockIs(s, i, c, inner, close, after);
    assert ParseExec(s, i) == Ok(c, after);
  }

  /** A printed command parses back, up to where it ends. */
  lemma {:induction false} LineParses(t: Cmd<string>, s: string, i: nat, end: nat) returns (c: Cmd<Span>)
    requires Good(t) && At(s, i, Print(t)) && end == i + |Print(t)| && Stop(s, end)
    ensures ParseLine(s, i) == Ok(c, end) && Same(s, c, t)
    decreases t, 2
  {
    match t
    case Exec(words) =>
      c := ExecParses(words, s, i, end);
    case Redir(t1, f, m) =>
      c := RedirParses(t1, f, m, s, i, end);
    case Pipe(l, r) =>
      var c1, c2, mid, right := BothParse(t, l, "|", r, s, i, end);
      PipeIs(s, i, c1, mid, right, c2, end);
      c := Cmd.Pipe(c1, c2);
    case List(l, r) =>
      var c1, c2, mid, right := BothParse(t, l, ";", r, s, i, end);
      ListIs(s, i, c1, mid, right, c2, end);
      c := Cmd.List(c1, c2);
    case Back(t1) =>
      c := BackParses(t1, s, i, end);
  }

  /** Both sides of a printed pair parse on their own; `mid` is where the symbol between them stands. */
  predicate BothParsed(s: string, i: nat, op: char, mid: nat, right: nat, end: nat, c1: Cmd<Span>, c2: Cmd<Span>) {
    && i <= mid < |s| && s[mid] == op && right == mid + 1 < |s| && !Blank(s[right]) && Stop(s, end)
    && ParseExec(s, i) == Ok(c1, mid) && ParsePipe(s, right) == Ok(c2, end) && ParseLine(s, right) == Ok(c2, end)
  }

  lemma BothParse(t: Cmd<string>, l: Cmd<string>, op: string, r: Cmd<string>, s: string, i: nat, end: nat)
    returns (c1: Cmd<Span>, c2: Cmd<Span>, mid: nat, right: nat)
    requires
      && l < t && r < t && Good(l) && Good(r) && At(s, i, Paren(l) + op + Paren(r)) && |op| == 1
      && (op[0] == '|' || op[0] == ';')
    requires end == i + |Paren(l) + op + Paren(r)| && Stop(s, end)
    ensures BothParsed(s, i, op[0], mid, right, end, c1, c2) && Same(s, c1, l) && Same(s, c2, r)
    decreases t, 1
  {
    mid := i + |Paren(l)|;
    right := mid + 1;
    var in1, in2, close1, close2 := i + 1, right + 1, mid - 1, end - 1;
    BothAt(s, i, l, op, r, mid, right, end);
    ParenAt(s, i, l, close1);
    ParenAt(s, right, r, close2);
    c1 := LineParses(l, s, in1, close1);
    BlockParses(l, s, i, c1, in1, close1, mid);
    c2 := LineParses(r, s, in2, close2);
    BlockParses(r, s, right, c2, in2, close2, end);
    AloneIs(s, right, c2, end);
  }

  lemma BackParses(t1: Cmd<string>, s: string, i: nat, end: nat) returns (c: Cmd<Span>)
    requires Good(t1) && At(s, i, Paren(t1) + "&") && end == i + |Paren(t1)| + 1 && Stop(s, end)
    ensures ParseLine(s, i) == Ok(c, end) && Same(s, c, Cmd.Back(t1))
    decreases t1, 3
  {
    var mid := i + |Paren(t1)|;
    AtSplit(s, i, Paren(t1), "&");
    assert s[mid..mid + 1][0] == '&';
    var inner, close := i + 1, mid - 1;
    ParenAt(s, i, t1, close);
    var c1 := LineParses(t1, s, inner, close);
    BlockParses(t1, s, i, c1, inner, close, mid);
    BackIs(s, i, c1, mid, end);
    c := Cmd.Back(c1);
  }

  /** Two parenthesised commands with a symbol between them. */
  lemma BothAt(s: string, i: nat, l: Cmd<string>, op: string, r: Cmd<string>, mid: nat, right: nat, end: nat)
    requires
      && At(s, i, Paren(l) + op + Paren(r)) && mid == i + |Paren(l)| && |op| == 1 && right == mid + 1
      && end == right + |Paren(r)|
    requires Symbol(op[0]) && op[0] != '<' && op[0] != '>' && Stop(s, end)
    ensures
      && At(s, i, Paren(l)) && mid < |s| && s[mid] == op[0] && At(s, right, Paren(r)) && Follows(s, mid)
      && Follows(s, end)
  {
    var left, tail := Paren(l), op + Paren(r);
    assert left + op + Paren(r) == left + tail;
    AtSplit(s, i, left, tail);
    AtSplit(s, mid, op, Paren(r));
    assert s[mid..mid + 1][0] == op[0];
  }

  lemma ExecParses(words: seq<string>, s: string, i: nat, end: nat) returns (c: Cmd<Span>)
    requires Good(Cmd.Exec(words)) && At(s, i, Join(words)) && end == i + |Join(words)| && Stop(s, end)
    ensures ParseLine(s, i) == Ok(c, end) && Same(s, c, Cmd.Exec(words))
  {
    c := Cmd.Exec(Spans(i, words));
    forall k | 0 <= k < |words|
      ensures Shows(s, Spans(i, words)[k], words[k])
    {
      SpansShow(s, i, words, k);
    }
    ExecStart(s, i, words, end);
    NoRedirs(s, i, []);
    assert [] + Spans(i, words) == Spans(i, words);
    ArgsParse(s, i, words, [], Spans(i, words), end);
    assert ParseArgs(s, i, [], []) == Ok(c, end);
    assert ParseExec(s, i) == Ok(c, end);
    AloneIs(s, i, c, end);
  }

  lemma ExecStart(s: string, i: nat, words: seq<string>, end: nat)
    requires AllPlain(words) && At(s, i, Join(words)) && end == i + |Join(words)| && Stop(s, end)
    ensures Skip(s, i) == i && !PeekChar(s, i, '(') && Follows(s, i)
  {
    if words != [] {
      JoinStart(words);
      assert s[i] == Join(words)[0];
    }
  }

  lemma RedirParses(t1: Cmd<string>, f: string, m: Mode, s: string, i: nat, end: nat) returns (c: Cmd<Span>)
    requires
      && Good(t1) && PlainWord(f) && At(s, i, Paren(t1) + Op(m) + f) && end == i + |Paren(t1) + Op(m) + f|
      && Stop(s, end)
    ensures ParseLine(s, i) == Ok(c, end) && Same(s, c, Cmd.Redir(t1, f, m))
    decreases t1, 3
  {
    var inner := i + 1;
    var close := inner + |Print(t1)|;
    var after := close + 1;
    var q := after + |Op(m)|;
    RedirAt(t1, f, m, s, i, inner, close, after, q, end);
    var c1 := LineParses(t1, s, inner, close);
    var rs := OneRedir(s, after, m, f, q, end);
    RedirIs(s, i, c1, inner, close, after, rs, end);
    WrapOne(c1, Span(q, end), m, rs);
    c := Cmd.Redir(c1, Span(q, end), m);
    AloneIs(s, i, c, end);
    assert ParseLine(s, i) == Ok(c, end);
  }

  lemma RedirAt(t1: Cmd<string>, f: string, m: Mode, s: string, i: nat, inner: nat, close: nat, after: nat, q: nat,
                end: nat)
    requires Good(t1) && At(s, i, Paren(t1) + Op(m) + f) && end == i + |Paren(t1) + Op(m) + f|
    requires inner == i + 1 && close == inner + |Print(t1)| && after == close + 1 && q == after + |Op(m)|
    ensures
      && i < close && after < |s| && s[i] == '(' && At(s, inner, Print(t1)) && s[close] == ')' && !Blank(s[inner])
      && !Blank(s[after])
    ensures At(s, after, Op(m)) && At(s, q, f) && end == q + |f|
  {
    var left, tail := Paren(t1), Op(m) + f;
    assert left + Op(m) + f == left + tail;
    AtSplit(s, i, left, tail);
    ParenAt(s, i, t1, close);
    AtSplit(s, after, Op(m), f);
    NoBlankAt(s, inner, t1, close);
    assert s[after] == Op(m)[0];
  }

  /** Parsing undoes printing: for every tree of plain words the printed text parses, to the same tree. */
  lemma ParsePrint(t: Cmd<string>) returns (c: Cmd<Span>)
    requires Good(t)
    ensures ParseCmd(Print(t)) == Ok(c, |Print(t)|) && Same(Print(t), c, t)
  {
    var s := Print(t);
    assert s[0..|s|] == s;
    c := LineParses(t, s, 0, |s|);
  }
}
