/** The shell's parser as it runs: a cursor advanced over the text, and the pass that
    terminates every word inside the text buffer. */
module ShellParser {
  import opened Common
  import opened Shell

  predicate In(c: char, toks: string) { c in toks }

  /** The words of a command, as stretches of the text. */
  function Words(c: Cmd<Span>): seq<Span> {
    match c
    case Exec(args) => args
    case Redir(c1, f, _) => Words(c1) + [f]
    case Pipe(l, r) => Words(l) + Words(r)
    case List(l, r) => Words(l) + Words(r)
    case Back(c1) => Words(c1)
  }

  class Parser {
    const s: string
    var pos: nat

    constructor (s: string)
      ensures this.s == s && pos == 0
    {
      this.s := s;
      pos := 0;
    }

    method SkipBlanks()
      requires pos <= |s|
      modifies this
      ensures pos == Skip(s, old(pos)) <= |s|
    {
      while pos < |s| && Blank(s[pos])
        invariant pos <= |s| && Skip(s, pos) == Skip(s, old(pos))
      {
        pos := pos + 1;
      }
    }

    method PeekAny(toks: string) returns (b: bool)
      requires pos <= |s|
      modifies this
      ensures pos == Skip(s, old(pos)) <= |s| && (b <==> pos < |s| && In(s[pos], toks))
    {
      SkipBlanks();
      b := pos < |s| && s[pos] in toks;
    }

    method NextToken() returns (kind: Kind, span: Span)
      requires pos <= |s|
      modifies this
      ensures Token(kind, span, pos) == GetToken(s, old(pos))
    {
      SkipBlanks();
      var q := pos;
      if pos == |s| {
        kind := End;
      } else if s[pos] == '>' {
        pos := pos + 1;
        kind := Sym('>');
        if pos < |s| && s[pos] == '>' {
          kind := AppendTo;
          pos := pos + 1;
        }
      } else if Symbol(s[pos]) {
        kind := Sym(s[pos]);
        pos := pos + 1;
      } else {
        kind := Word;
        while pos < |s| && !Blank(s[pos]) && !Symbol(s[pos])
          invariant q <= pos <= |s| && WordEnd(s, pos) == WordEnd(s, q)
        {
          pos := pos + 1;
        }
      }
      span := Span(q, pos);
      SkipBlanks();
    }

    method Redirections(rs0: Redirs) returns (r: Option<Redirs>)
      requires pos <= |s|
      modifies this
      ensures pos <= |s| && (r == None <==> ParseRedirs(s, old(pos), rs0).Panic?)
      ensures r.Some? ==> ParseRedirs(s, old(pos), rs0) == Ok(r.value, pos)
    {
      var rs := rs0;
      ghost var all := ParseRedirs(s, pos, rs);
      RedirsSkip(s, pos, rs);
      var more := PeekAny("<>");
      while more
        invariant pos <= |s| && Skip(s, pos) == pos && (more <==> PeekRedir(s, pos)) && all == ParseRedirs(s, pos, rs)
        decreases |s| - pos, more
      {
        var op, ignored := NextToken();
        var kind, file := NextToken();
        if kind != Word {
          return None;
        }
        rs := rs + [(file, ModeOf(op))];
        RedirsSkip(s, pos, rs);
        more := PeekAny("<>");
      }
      r := Some(rs);
    }

    /** parseexec's loop over words and redirections. */
    method Arguments(rs0: Redirs) returns (r: Option<Cmd<Span>>)
      requires pos <= |s|
      modifies this
      ensures pos <= |s| && (r == None <==> ParseArgs(s, old(pos), [], rs0).Panic?)
      ensures r.Some? ==> ParseArgs(s, old(pos), [], rs0) == Ok(r.value, pos)
    {
      var args: seq<Span> := [];
      var rs := rs0;
      ghost var all := ParseArgs(s, pos, args, rs);
      ArgsSkip(s, pos, args, rs);
      var stop := PeekAny("|)&;");
      while !stop
        invariant
          && pos <= |s| && Skip(s, pos) == pos && (stop <==> PeekStop(s, pos)) && all == ParseArgs(s, pos, args, rs)
        decreases |s| - pos, !stop
      {
        var kind, span := NextToken();
        if kind == End {
          break;
        }
        if kind != Word {
          return None;
        }
        args := args + [span];
        if |args| >= MAXARGS {
          return None;
        }
        var more := Redirections(rs);
        if more == None {
          return None;
        }
        rs := more.value;
        ArgsSkip(s, pos, args, rs);
        stop := PeekAny("|)&;");
      }
      r := Some(Wrap(Exec(args), rs));
    }

    method Execute() returns (r: Option<Cmd<Span>>)
      requires pos <= |s|
      modifies this
      ensures pos <= |s| && (r == None <==> ParseExec(s, old(pos)).Panic?)
      ensures r.Some? ==> ParseExec(s, old(pos)) == Ok(r.value, pos)
      decreases |s| - pos, 1
    {
      SkipTwice(s, pos);
      var open := PeekAny("(");
      if open {
        r := Block();
        return;
      }
      var rs := Redirections([]);
      if rs == None {
        return None;
      }
      r := Arguments(rs.value);
    }

    method Block() returns (r: Option<Cmd<Span>>)
      requires pos < |s| && s[pos] == '('
      modifies this
      ensures pos <= |s| && (r == None <==> ParseBlock(s, old(pos)).Panic?)
      ensures r.Some? ==> ParseBlock(s, old(pos)) == Ok(r.value, pos)
      decreases |s| - pos, 0
    {
      var kind, ignored := NextToken();
      r := Line();
      if r == None {
        return;
      }
      var close := PeekAny(")");
      if !close {
        return None;
      }
      kind, ignored := NextToken();
      var rs := Redirections([]);
      if rs == None {
        return None;
      }
      r := Some(Wrap(r.value, rs.value));
    }

    method Pipeline() returns (r: Option<Cmd<Span>>)
      requires pos <= |s|
      modifies this
      ensures pos <= |s| && (r == None <==> ParsePipe(s, old(pos)).Panic?)
      ensures r.Some? ==> ParsePipe(s, old(pos)) == Ok(r.value, pos)
      decreases |s| - pos, 2
    {
      r := Execute();
      if r == None {
        return;
      }
      var bar := PeekAny("|");
      if bar {
        var kind, ignored := NextToken();
        var d := Pipeline();
        if d == None {
          return None;
        }
        r := Some(Cmd.Pipe(r.value, d.value));
      }
    }

    /** parseline's loop over ampersands. */
    method Ampersands(c0: Cmd<Span>) returns (c: Cmd<Span>)
      requires pos <= |s|
      modifies this
      ensures ParseBacks(s, old(pos), c0) == Ok(c, pos) && pos <= |s|
    {
      c := c0;
      ghost var all := ParseBacks(s, pos, c);
      SkipTwice(s, pos);
      var amp := PeekAny("&");
      while amp
        invariant pos <= |s| && Skip(s, pos) == pos && (amp <==> PeekChar(s, pos, '&')) && all == ParseBacks(s, pos, c)
        decreases |s| - pos, amp
      {
        var kind, ignored := NextToken();
        c := Cmd.Back(c);
        SkipTwice(s, pos);
        amp := PeekAny("&");
      }
    }

    method Line() returns (r: Option<Cmd<Span>>)
      requires pos <= |s|
      modifies this
      ensures pos <= |s| && (r == None <==> ParseLine(s, old(pos)).Panic?)
      ensures r.Some? ==> ParseLine(s, old(pos)) == Ok(r.value, pos)
      decreases |s| - pos, 3
    {
      r := Pipeline();
      if r == None {
        return;
      }
      var c := Ampersands(r.value);
      r := Some(c);
      var semi := PeekAny(";");
      if semi {
        var kind, ignored := NextToken();
        var d := Line();
        if d == None {
          return None;
        }
        r := Some(Cmd.List(c, d.value));
      }
    }

    /** parsecmd up to the termination of the words. */
    method Command() returns (r: Option<Cmd<Span>>)
      requires pos == 0
      modifies this
      ensures r == None <==> ParseCmd(s).Panic?
      ensures r.Some? ==> ParseCmd(s) == Ok(r.value, |s|)
    {
      r := Line();
      if r == None {
        return;
      }
      SkipBlanks();
      if pos != |s| {
        return None;
      }
    }
  }

  lemma RedirsSkip(s: string, i: nat, rs: Redirs)
    requires i <= |s|
    ensures ParseRedirs(s, Skip(s, i), rs) == ParseRedirs(s, i, rs) && Skip(s, Skip(s, i)) == Skip(s, i)
  {
    SkipTwice(s, i);
  }

  lemma ArgsSkip(s: string, i: nat, args: seq<Span>, rs: Redirs)
    requires i <= |s|
    ensures ParseArgs(s, Skip(s, i), args, rs) == ParseArgs(s, i, args, rs) && Skip(s, Skip(s, i)) == Skip(s, i)
  {
    SkipTwice(s, i);
  }

  // --------------------------------------------- the words of a parsed command

  ghost predicate AllWords(s: string, ws: seq<Span>) { forall k :: 0 <= k < |ws| ==> IsWord(s, ws[k]) }

  function Files(rs: Redirs): seq<Span> { if rs == [] then [] else Files(rs[..|rs| - 1]) + [rs[|rs| - 1].0] }

  lemma WordEndIs(s: string, i: nat)
    requires i <= |s|
    ensures forall k :: i <= k < WordEnd(s, i) ==> !Blank(s[k]) && !Symbol(s[k])
    ensures WordEnd(s, i) < |s| ==> Blank(s[WordEnd(s, i)]) || Symbol(s[WordEnd(s, i)])
    decreases |s| - i
  {
  }

  lemma TokenIsWord(s: string, i: nat)
    requires i <= |s| && GetToken(s, i).kind == Word
    ensures IsWord(s, GetToken(s, i).span)
  {
    WordEndIs(s, Skip(s, i));
  }

  lemma {:induction false} WrapWords(c: Cmd<Span>, rs: Redirs)
    ensures Words(Wrap(c, rs)) == Words(c) + Files(rs)
    decreases |rs|
  {
    if rs != [] {
      WrapWords(c, rs[..|rs| - 1]);
    }
  }

  lemma FilesMore(rs: Redirs, f: Span, m: Mode)
    ensures Files(rs + [(f, m)]) == Files(rs) + [f]
  {
    assert (rs + [(f, m)])[..|rs|] == rs;
  }

  lemma {:induction false} RedirsWords(s: string, i: nat, rs: Redirs)
    requires i <= |s| && AllWords(s, Files(rs))
    ensures ParseRedirs(s, i, rs).Ok? ==> AllWords(s, Files(ParseRedirs(s, i, rs).value))
    decreases |s| - i
  {
    var j := Skip(s, i);
    if PeekRedir(s, j) {
      var op := GetToken(s, j);
      var file := GetToken(s, op.next);
      if file.kind == Word {
        TokenIsWord(s, op.next);
        FilesMore(rs, file.span, ModeOf(op.kind));
        RedirsWords(s, file.next, rs + [(file.span, ModeOf(op.kind))]);
      }
    }
  }

  lemma {:induction false} ArgsWords(s: string, i: nat, args: seq<Span>, rs: Redirs)
    requires i <= |s| && AllWords(s, args) && AllWords(s, Files(rs))
    ensures ParseArgs(s, i, args, rs).Ok? ==> AllWords(s, Words(ParseArgs(s, i, args, rs).value))
    decreases |s| - i
  {
    var j := Skip(s, i);
    WrapWords(Exec(args), rs);
    if !PeekStop(s, j) {
      var t := GetToken(s, j);
      if t.kind == Word && |args| + 1 < MAXARGS {
        TokenIsWord(s, j);
        RedirsWords(s, t.next, rs);
        var more := ParseRedirs(s, t.next, rs);
        if more.Ok? {
          ArgsWords(s, more.pos, args + [t.span], more.value);
        }
      }
    }
  }

  lemma {:induction false} ExecWords(s: string, i: nat)
    requires i <= |s|
    ensures ParseExec(s, i).Ok? ==> AllWords(s, Words(ParseExec(s, i).value))
    decreases |s| - i, 1
  {
    var j := Skip(s, i);
    if PeekChar(s, j, '(') {
      BlockWords(s, j);
    } else {
      RedirsWords(s, j, []);
      var rs := ParseRedirs(s, j, []);
      if rs.Ok? {
        ArgsWords(s, rs.pos, [], rs.value);
      }
    }
  }

  lemma {:induction false} BlockWords(s: string, i: nat)
    requires i < |s| && s[i] == '('
    ensures ParseBlock(s, i).Ok? ==> AllWords(s, Words(ParseBlock(s, i).value))
    decreases |s| - i, 0
  {
    LineWords(s, GetToken(s, i).next);
    var c := ParseLine(s, GetToken(s, i).next);
    if c.Ok? && PeekChar(s, Skip(s, c.pos), ')') {
      var next := GetToken(s, Skip(s, c.pos)).next;
      RedirsWords(s, next, []);
      var rs := ParseRedirs(s, next, []);
      if rs.Ok? {
        WrapWords(c.value, rs.value);
      }
    }
  }

  lemma {:induction false} PipeWords(s: string, i: nat)
    requires i <= |s|
    ensures ParsePipe(s, i).Ok? ==> AllWords(s, Words(ParsePipe(s, i).value))
    decreases |s| - i, 2
  {
    ExecWords(s, i);
    var c := ParseExec(s, i);
    if c.Ok? && PeekChar(s, Skip(s, c.pos), '|') {
      PipeWords(s, GetToken(s, Skip(s, c.pos)).next);
    }
  }

  lemma {:induction false} BacksWords(s: string, i: nat, c: Cmd<Span>)
    requires i <= |s|
    ensures Words(ParseBacks(s, i, c).value) == Words(c)
    decreases |s| - i
  {
    var j := Skip(s, i);
    if PeekChar(s, j, '&') {
      BacksWords(s, GetToken(s, j).next, Back(c));
    }
  }

  lemma {:induction false} LineWords(s: string, i: nat)
    requires i <= |s|
    ensures ParseLine(s, i).Ok? ==> AllWords(s, Words(ParseLine(s, i).value))
    decreases |s| - i, 3
  {
    PipeWords(s, i);
    var c := ParsePipe(s, i);
    if c.Ok? {
      BacksWords(s, c.pos, c.value);
      var b := ParseBacks(s, c.pos, c.value);
      if PeekChar(s, Skip(s, b.pos), ';') {
        LineWords(s, GetToken(s, Skip(s, b.pos)).next);
      }
    }
  }

  // -------------------------------------------------- terminating the words

  /** Some word of ws ends at k. */
  predicate EndsAt(ws: seq<Span>, k: nat) { exists j :: 0 <= j < |ws| && ws[j].eq == k }

  lemma EndsAtEither(a: seq<Span>, b: seq<Span>, k: nat)
    ensures EndsAt(a + b, k) <==> EndsAt(a, k) || EndsAt(b, k)
  {
    if j :| 0 <= j < |a| && a[j].eq == k {
      assert (a + b)[j].eq == k;
    }
    if j :| 0 <= j < |b| && b[j].eq == k {
      assert (a + b)[|a| + j].eq == k;
    }
  }

  /** The text with every word's end overwritten by a terminator. */
  predicate Ended(before: seq<char>, after: seq<char>, ws: seq<Span>) {
    && |after| == |before|
    && forall k: nat :: k < |before| ==> after[k] == if EndsAt(ws, k) then '\0' else before[k]
  }

  lemma EndedBoth(b0: seq<char>, b1: seq<char>, b2: seq<char>, v: seq<Span>, w: seq<Span>)
    requires Ended(b0, b1, v) && Ended(b1, b2, w)
    ensures Ended(b0, b2, v + w)
  {
    forall k: nat | k < |b0|
      ensures b2[k] == if EndsAt(v + w, k) then '\0' else b0[k]
    {
      EndsAtEither(v, w, k);
    }
  }

  predicate Fits(ws: seq<Span>, n: nat) { forall j :: 0 <= j < |ws| ==> ws[j].eq < n }

  /** nulterminate. */
  method NulTerminate(c: Cmd<Span>, buf: array<char>)
    requires Fits(Words(c), buf.Length)
    modifies buf
    ensures Ended(old(buf[..]), buf[..], Words(c))
    decreases c, 1
  {
    match c
    case Exec(args) =>
      EndArgs(args, buf);
    case Redir(c1, f, _) =>
      assert forall j :: 0 <= j < |Words(c1)| ==> Words(c)[j] == Words(c1)[j];
      assert Words(c)[|Words(c1)|] == f;
      NulTerminate(c1, buf);
      ghost var mid := buf[..];
      buf[f.eq] := '\0';
      assert Ended(mid, buf[..], [f]) by {
        assert [f][0] == f;
        assert forall k: nat :: EndsAt([f], k) <==> k == f.eq;
      }
      EndedBoth(old(buf[..]), mid, buf[..], Words(c1), [f]);
    case Pipe(l, r) =>
      BothEnd(c, l, r, buf);
    case List(l, r) =>
      BothEnd(c, l, r, buf);
    case Back(c1) =>
      NulTerminate(c1, buf);
  }

  method EndArgs(args: seq<Span>, buf: array<char>)
    requires Fits(args, buf.Length)
    modifies buf
    ensures Ended(old(buf[..]), buf[..], args)
  {
    var i := 0;
    while i < |args|
      invariant 0 <= i <= |args| && Ended(old(buf[..]), buf[..], args[..i])
    {
      ghost var before := buf[..];
      buf[args[i].eq] := '\0';
      assert Ended(before, buf[..], [args[i]]) by {
        assert [args[i]][0] == args[i];
        assert forall k: nat :: EndsAt([args[i]], k) <==> k == args[i].eq;
      }
      EndedBoth(old(buf[..]), before, buf[..], args[..i], [args[i]]);
      assert args[..i] + [args[i]] == args[..i + 1];
      i := i + 1;
    }
    assert args[..|args|] == args;
  }

  method BothEnd(ghost c: Cmd<Span>, l: Cmd<Span>, r: Cmd<Span>, buf: array<char>)
    requires l < c && r < c && Fits(Words(l) + Words(r), buf.Length)
    modifies buf
    ensures Ended(old(buf[..]), buf[..], Words(l) + Words(r))
    decreases c, 0
  {
    assert forall j :: 0 <= j < |Words(l)| ==> (Words(l) + Words(r))[j] == Words(l)[j];
    assert forall j :: 0 <= j < |Words(r)| ==> (Words(l) + Words(r))[|Words(l)| + j] == Words(r)[j];
    NulTerminate(l, buf);
    ghost var mid := buf[..];
    NulTerminate(r, buf);
    EndedBoth(old(buf[..]), mid, buf[..], Words(l), Words(r));
  }

  /** A C string with this text starts at q. */
  predicate StringAt(buf: seq<char>, q: nat, text: string) {
    q + |text| < |buf| && buf[q..q + |text|] == text && buf[q + |text|] == '\0' && '\0' !in text
  }

  /** After parsing and termination every argument and file name reads as exactly its token. */
  lemma WordsRead(s: string, c: Cmd<Span>, after: seq<char>, k: nat)
    requires Text(s) && ParseCmd(s) == Ok(c, |s|) && Ended(s + "\0", after, Words(c)) && k < |Words(c)|
    ensures Words(c)[k].q < Words(c)[k].eq <= |s|
    ensures StringAt(after, Words(c)[k].q, s[Words(c)[k].q..Words(c)[k].eq])
  {
    LineWords(s, 0);
    var ws := Words(c);
    var w := ws[k];
    assert IsWord(s, w);
    assert EndsAt(ws, w.eq);
    forall j: nat | w.q <= j < w.eq
      ensures after[j] == s[j]
    {
      assert !EndsAt(ws, j);
    }
    assert after[w.q..w.eq] == s[w.q..w.eq];
  }
}
