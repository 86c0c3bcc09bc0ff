/** The shell's parser on its line buffer: a cursor that advances, words as stretches of the line, and nulterminate. */
module Shell {
  import opened ShellGrammar

  /** The characters from q up to eq of the line. */
  datatype Span = Span(q: nat, eq: nat)

  function SpanText(b: string, sp: Span): string {
    if sp.q <= sp.eq <= |b| then b[sp.q..sp.eq] else []
  }

  /** A whole word of the line: word characters, and a break right behind them. */
  ghost predicate WordAt(b: string, sp: Span) {
    && sp.q < sp.eq <= |b| && (forall i: nat :: sp.q <= i < sp.eq ==> IsWordChar(b[i]))
    && (sp.eq == |b| || !IsWordChar(b[sp.eq]))
  }

  ghost function Texts(b: string, argv: seq<Span>): (r: seq<string>)
    ensures |r| == |argv| && forall i: nat :: i < |argv| ==> r[i] == SpanText(b, argv[i])
  {
    seq(|argv|, i requires 0 <= i < |argv| => SpanText(b, argv[i]))
  }

  ghost function RedirTexts(b: string, rs: seq<Redirection<Span>>): (r: seq<Redirection<string>>)
    ensures |r| == |rs| && forall i: nat :: i < |rs| ==> r[i] == Redirection(SpanText(b, rs[i].file), rs[i].out)
  {
    seq(|rs|, i requires 0 <= i < |rs| => Redirection(SpanText(b, rs[i].file), rs[i].out))
  }

  /** The command with the text of its words. */
  ghost function Text(b: string, c: Cmd<Span>): Cmd<string> {
    match c
    case Exec(argv) => Exec(Texts(b, argv))
    case Redir(c', file, out) => Redir(Text(b, c'), SpanText(b, file), out)
    case Pipe(l, r) => Pipe(Text(b, l), Text(b, r))
    case List(l, r) => List(Text(b, l), Text(b, r))
    case Back(c') => Back(Text(b, c'))
  }

  /** Span sp is an argument or file name of c. */
  ghost predicate Has(c: Cmd<Span>, sp: Span) {
    match c
    case Exec(argv) => exists i: nat :: i < |argv| && argv[i] == sp
    case Redir(c', file, _) => file == sp || Has(c', sp)
    case Pipe(l, r) => Has(l, sp) || Has(r, sp)
    case List(l, r) => Has(l, sp) || Has(r, sp)
    case Back(c') => Has(c', sp)
  }

  ghost predicate Words(b: string, c: Cmd<Span>) { forall sp: Span :: Has(c, sp) ==> WordAt(b, sp) }

  ghost predicate FileWords(b: string, rs: seq<Redirection<Span>>) {
    forall i: nat :: i < |rs| ==> WordAt(b, rs[i].file)
  }

  /** Some word of c ends at k. */
  ghost predicate EndsAt(c: Cmd<Span>, k: nat) { exists sp: Span :: Has(c, sp) && sp.eq == k }

  lemma {:induction false} WrapTexts(b: string, c: Cmd<Span>, rs: seq<Redirection<Span>>)
    ensures Text(b, Wrap(c, rs)) == Wrap(Text(b, c), RedirTexts(b, rs))
    ensures Words(b, c) && FileWords(b, rs) ==> Words(b, Wrap(c, rs))
    decreases |rs|
  {
    if rs != [] {
      var c' := Redir(c, rs[0].file, rs[0].out);
      WrapTexts(b, c', rs[1..]);
      assert RedirTexts(b, rs)[1..] == RedirTexts(b, rs[1..]);
      if Words(b, c) && FileWords(b, rs) {
        assert WordAt(b, rs[0].file);
        assert Words(b, c');
      }
    }
  }

  // ---- The cursor --------------------------------------------------------------------------------------------

  lemma {:induction false} SkipStep(b: string, i: nat)
    requires i < |b|
    ensures Skip(b[i..]) == if IsSpace(b[i]) then Skip(b[i + 1..]) else b[i..]
  {
    assert b[i..][1..] == b[i + 1..];
  }

  lemma {:induction false} WordStep(b: string, i: nat)
    requires i < |b|
    ensures WordLen(b[i..]) == if IsWordChar(b[i]) then 1 + WordLen(b[i + 1..]) else 0
  {
    assert b[i..][1..] == b[i + 1..];
  }

  class Parser {
    /** The line, with the NUL behind it. */
    const line: array<char>
    const es: nat
    /** The cursor. */
    var s: nat

    /** The start of parsecmd, on a C string of n characters. */
    constructor (buffer: array<char>, n: nat)
      requires n < buffer.Length && buffer[n] == '\0' && forall i: nat :: i < n ==> buffer[i] != '\0'
      ensures Valid() && s == 0 && line == buffer && es == n
    {
      line, es, s := buffer, n, 0;
    }

    ghost predicate Valid()
      reads this, line
    {
      s <= es < line.Length && line[es] == '\0' && forall i: nat :: i < es ==> line[i] != '\0'
    }

    /** The line as text. */
    ghost function B(): string
      requires es <= line.Length
      reads line
    {
      line[..es]
    }

    ghost function Rest(): string
      requires s <= es <= line.Length
      reads this, line
    {
      B()[s..]
    }

    /** The loops that skip white space. */
    method SkipSpace()
      requires Valid()
      modifies `s
      ensures Valid() && Rest() == Skip(old(Rest())) && s >= old(s)
    {
      hide Skip, IsSpace;
      while s < es && IsSpace(line[s])
        invariant Valid() && s >= old(s) && Skip(Rest()) == Skip(old(Rest()))
      {
        SkipStep(B(), s);
        s := s + 1;
      }
      if s < es {
        SkipStep(B(), s);
      } else {
        SkipNone();
      }
    }

    /** peek. */
    method Peek(toks: string) returns (b: bool)
      requires Valid()
      modifies `s
      ensures Valid() && s >= old(s) && Rest() == Skip(old(Rest()))
      ensures b <==> First(old(Rest())) != '\0' && First(old(Rest())) in toks
    {
      hide Skip;
      SkipSpace();
      b := line[s] != '\0' && line[s] in toks;
    }

    /** The loop of gettoken over a word. */
    method TakeWord() returns (eq: nat)
      requires Valid()
      modifies `s
      ensures Valid() && eq == s == old(s) + WordLen(old(Rest()))
      ensures old(s) < eq ==> WordAt(B(), Span(old(s), eq))
    {
      hide WordLen, IsWordChar, IsSpace, IsSymbol;
      while s < es && !IsSpace(line[s]) && !IsSymbol(line[s])
        invariant Valid() && old(s) <= s && WordLen(old(Rest())) == (s - old(s)) + WordLen(Rest())
        invariant forall i: nat :: old(s) <= i < s ==> IsWordChar(B()[i])
      {
        WordStep(B(), s);
        NotBreak(line[s]);
        s := s + 1;
      }
      eq := s;
      if s < es {
        NotBreak(line[s]);
        WordStep(B(), s);
      } else {
        WordNone();
      }
    }

    /** The switch of gettoken, at a character that is no space: step over the token. */
    method StepOver() returns (kind: char)
      requires Valid() && (s < es ==> !IsSpace(line[s]))
      modifies `s
      ensures Valid() && kind == KindOf(old(Rest())) && s == old(s) + TokLen(old(Rest()))
      ensures kind == 'a' ==> WordAt(B(), Span(old(s), s))
    {
      hide WordLen, Skip, IsSpace;
      kind := line[s];
      if kind == '\0' {
      } else if kind == '|' || kind == '(' || kind == ')' || kind == ';' || kind == '&' || kind == '<' {
        s := s + 1;
      } else if kind == '>' {
        s := s + 1;
        if line[s] == '>' {
          kind := '+';
          s := s + 1;
        }
      } else {
        kind := 'a';
        FirstOfWord(Rest());
        var _ := TakeWord();
      }
    }

    /** gettoken. */
    method GetToken() returns (kind: char, q: nat, eq: nat)
      requires Valid()
      modifies `s
      ensures Valid() && s >= old(s)
      ensures kind == Tok(old(Rest())).kind && Rest() == Tok(old(Rest())).rest && (kind != '\0' ==> s > old(s))
      ensures SpanText(B(), Span(q, eq)) == Tok(old(Rest())).text
      ensures kind == 'a' ==> WordAt(B(), Span(q, eq))
    {
      hide Tok, Skip, KindOf, TokLen, IsSpace, WordAt;
      ghost var b, t := B(), Rest();
      SkipSpace();
      q := s;
      kind := StepOver();
      eq := s;
      SkipSpace();
      TokParts(t);
      Pieces(b, q, eq);
    }

    /** parseredirs, up to wrapping the command in what it found. */
    method ParseRedirs() returns (ok: bool, rs: seq<Redirection<Span>>)
      requires Valid()
      modifies `s
      ensures Valid() && s >= old(s) && (ok <==> Redirs(old(Rest())).Ok?)
      ensures ok ==> Redirs(old(Rest())) == Ok(RedirTexts(B(), rs), Rest()) && FileWords(B(), rs)
    {
      hide Tok, First, Skip, SpanText, Redirs, WordAt;
      ghost var b, t := B(), Rest();
      rs := [];
      ok := true;
      SkipAll(Rest());
      var more := Peek("<>");
      PrependNone(Redirs(t), RedirTexts(b, rs));
      while ok && more
        invariant Valid() && s >= old(s) && B() == b
        invariant ok ==> Redirs(t) == Prepend(RedirTexts(b, rs), Redirs(Rest())) && FileWords(b, rs)
        invariant ok ==> (more <==> First(Rest()) == '<' || First(Rest()) == '>') && Rest() == Skip(Rest())
        invariant !ok ==> Redirs(t).Err?
        decreases es - s, ok
      {
        ghost var u := Rest();
        RedirsUnfold(u);
        var tok, _, _ := GetToken();
        var kind, q, eq := GetToken();
        if kind != 'a' {
          ok := false;
        } else {
          rs := rs + [Redirection(Span(q, eq), tok != '<')];
          PrependOne(b, rs, Redirs(Rest()));
          SkipAll(Rest());
          more := Peek("<>");
        }
      }
      if ok {
        RedirsUnfold(Rest());
        PrependEnd(RedirTexts(b, rs), Rest());
      }
    }

    /** The loop of parseexec. */
    method ParseArgs(first: seq<Redirection<Span>>) returns (ok: bool, argv: seq<Span>, rs: seq<Redirection<Span>>)
      requires Valid() && FileWords(B(), first)
      modifies `s
      ensures Valid() && s >= old(s)
      ensures var r := ExecLoop(old(Rest()), Args([], RedirTexts(B(), first)));
              && (ok <==> r.Ok?)
              && (ok ==> r == Ok(Args(Texts(B(), argv), RedirTexts(B(), rs)), Rest())
                         && FileWords(B(), rs) && forall i: nat :: i < |argv| ==> WordAt(B(), argv[i]))
    {
      hide Tok, First, Skip, SpanText, Redirs, WordAt, ExecLoop;
      ghost var b, t := B(), Rest();
      ghost var goal := ExecLoop(t, Args([], RedirTexts(b, first)));
      argv, rs, ok := [], first, true;
      assert Texts(b, argv) == [];
      var going := true;
      while ok && going
        invariant Valid() && s >= old(s) && B() == b
        invariant ok && going ==> goal == ExecLoop(Rest(), Args(Texts(b, argv), RedirTexts(b, rs)))
        invariant ok && !going ==> goal == Ok(Args(Texts(b, argv), RedirTexts(b, rs)), Rest())
        invariant ok ==> FileWords(b, rs) && forall i: nat :: i < |argv| ==> WordAt(b, argv[i])
        invariant !ok ==> goal.Err?
        decreases es - s, ok && going
      {
        ghost var u := Rest();
        LoopUnfold(u, Args(Texts(b, argv), RedirTexts(b, rs)));
        SkipAll(u);
        var stop := Peek("|)&;");
        if stop {
          going := false;
        } else {
          var kind, q, eq := GetToken();
          if kind == '\0' {
            going := false;
          } else if kind != 'a' || |argv| + 1 >= MAXARGS {
            ok := false;
          } else {
            ghost var argv0, rs0 := argv, rs;
            argv := argv + [Span(q, eq)];
            var more: seq<Redirection<Span>>;
            ok, more := ParseRedirs();
            rs := rs + more;
            Appended(b, argv0, Span(q, eq), rs0, more);
          }
        }
      }
    }

    /** parseexec. Not ok stands for its panics. */
    method ParseExec() returns (ok: bool, c: Cmd<Span>)
      requires Valid()
      modifies `s
      ensures Valid() && s >= old(s) && Parsed(ok, c, B(), ShellGrammar.ParseExec(old(Rest())), Rest())
      decreases es - s, 1
    {
      hide Tok, First, Skip, Redirs, ExecLoop, Words, Text, Wrap, ShellGrammar.ParseLine, ShellGrammar.ParseBlock;
      ghost var b, t := B(), Rest();
      SkipAll(t);
      SkipBlock(t);
      var block := Peek("(");
      if block {
        ok, c := ParseBlock();
      } else {
        c := Exec([]);
        var rs, argv;
        ok, rs := ParseRedirs();
        if ok {
          ok, argv, rs := ParseArgs(rs);
          c := Wrap(Exec(argv), rs);
          WrapTexts(b, Exec(argv), rs);
          ExecText(b, argv);
        }
      }
    }

    /** parseblock. */
    method ParseBlock() returns (ok: bool, c: Cmd<Span>)
      requires Valid() && First(Rest()) == '('
      modifies `s
      ensures Valid() && s >= old(s) && Parsed(ok, c, B(), ShellGrammar.ParseBlock(old(Rest())), Rest())
      decreases es - s, 0
    {
      hide Tok, First, Skip, Redirs, Words, Text, Wrap, ShellGrammar.ParseLine;
      ghost var b, t := B(), Rest();
      TokOfFirst(t, '(');
      var _, _, _ := GetToken();
      ok, c := ParseLine();
      if ok {
        SkipAll(Rest());
        var close := Peek(")");
        if !close {
          ok := false;
        } else {
          TokOfFirst(Rest(), ')');
          var rs;
          var _, _, _ := GetToken();
          ok, rs := ParseRedirs();
          WrapTexts(b, c, rs);
          c := Wrap(c, rs);
        }
      }
    }

    /** parsepipe. */
    method ParsePipe() returns (ok: bool, c: Cmd<Span>)
      requires Valid()
      modifies `s
      ensures Valid() && s >= old(s) && Parsed(ok, c, B(), ShellGrammar.ParsePipe(old(Rest())), Rest())
      decreases es - s, 2
    {
      hide Tok, First, Skip, Words, ShellGrammar.ParseExec;
      ghost var b := B();
      ok, c := ParseExec();
      if ok {
        SkipAll(Rest());
        var bar := Peek("|");
        if bar {
          TokOfFirst(Rest(), '|');
          var _, _, _ := GetToken();
          var right;
          ok, right := ParsePipe();
          Both(b, c, right);
          c := Pipe(c, right);
        }
      }
    }

    /** parseline. */
    method ParseLine() returns (ok: bool, c: Cmd<Span>)
      requires Valid()
      modifies `s
      ensures Valid() && s >= old(s) && Parsed(ok, c, B(), ShellGrammar.ParseLine(old(Rest())), Rest())
      decreases es - s, 3
    {
      hide Tok, First, Skip, Words, ShellGrammar.ParsePipe, Backs;
      ghost var b := B();
      ok, c := ParsePipe();
      if ok {
        c := ParseBacks(c);
        SkipAll(Rest());
        var semi := Peek(";");
        if semi {
          TokOfFirst(Rest(), ';');
          var _, _, _ := GetToken();
          var right;
          ok, right := ParseLine();
          Both(b, c, right);
          c := List(c, right);
        }
      }
    }

    /** The loop of parseline over '&'. */
    method ParseBacks(c0: Cmd<Span>) returns (c: Cmd<Span>)
      requires Valid() && Words(B(), c0)
      modifies `s
      ensures Valid() && s >= old(s) && Words(B(), c) && Backs(old(Rest()), Text(B(), c0)) == Ok(Text(B(), c), Rest())
    {
      hide Tok, First, Skip, Words, Backs, Text;
      ghost var b, t := B(), Rest();
      c := c0;
      SkipAll(Rest());
      var amp := Peek("&");
      BacksSkip(t, Text(b, c));
      while amp
        invariant Valid() && s >= old(s) && B() == b && Words(b, c) && Rest() == Skip(Rest())
        invariant Backs(t, Text(b, c0)) == Backs(Rest(), Text(b, c)) && (amp <==> First(Rest()) == '&')
        decreases es - s
      {
        TokOfFirst(Rest(), '&');
        BacksUnfold(Rest(), Text(b, c));
        var _, _, _ := GetToken();
        OneBack(b, c);
        c := Back(c);
        BacksSkip(Rest(), Text(b, c));
        SkipAll(Rest());
        amp := Peek("&");
      }
      BacksUnfold(Rest(), Text(b, c));
    }

    /** nulterminate. */
    method NulTerminate(c: Cmd<Span>)
      requires forall sp: Span :: Has(c, sp) ==> sp.eq < line.Length
      modifies line
      ensures forall k: nat :: k < line.Length ==> line[k] == if EndsAt(c, k) then '\0' else old(line[k])
      decreases c
    {
      match c
      case Exec(argv) =>
        var i := 0;
        while i < |argv|
          invariant i <= |argv|
          invariant forall k: nat :: k < line.Length ==> line[k] == if EndIn(argv, i, k) then '\0' else old(line[k])
        {
          assert Has(c, argv[i]);
          line[argv[i].eq] := '\0';
          i := i + 1;
        }
        ArgEnds(c, argv);
      case Redir(c', file, out) =>
        assert Has(c, file);
        NulTerminate(c');
        line[file.eq] := '\0';
        RedirEnds(c', file, out);
      case Pipe(l, r) =>
        NulTerminate(l);
        NulTerminate(r);
        PairEnds(l, r);
      case List(l, r) =>
        NulTerminate(l);
        NulTerminate(r);
        PairEnds(l, r);
      case Back(c') =>
        NulTerminate(c');
        BackEnds(c');
    }

    /** nulterminate on the command of a whole line. */
    method Finish(c: Cmd<Span>)
      requires Valid() && Words(B(), c)
      modifies line
      ensures forall sp: Span :: Has(c, sp) ==> IsCString(line[..], sp.q, SpanText(old(B()), sp))
    {
      hide Words, WordAt, Has, EndsAt, IsCString, SpanText;
      ghost var b, before := B(), line[..];
      assert forall i: nat :: i < |b| ==> before[i] == b[i];
      EndsFit(b, c);
      NulTerminate(c);
      Terminated(b, before, line[..], c);
    }

    /** parsecmd. Afterwards every argument and file name is a C string that is exactly its word of the line. */
    method ParseCmd() returns (ok: bool, c: Cmd<Span>)
      requires Valid() && s == 0
      modifies `s, line
      ensures ok <==> ShellGrammar.ParseCmd(old(B())).Ok?
      ensures ok ==> ShellGrammar.ParseCmd(old(B())) == Ok(Text(old(B()), c), [])
      ensures ok ==> forall sp: Span :: Has(c, sp) ==> IsCString(line[..], sp.q, SpanText(old(B()), sp))
    {
      hide Skip, ShellGrammar.ParseLine, Text, Tok, First, Words, WordAt, Has, EndsAt, IsCString, SpanText;
      ghost var b := B();
      assert b[0..] == b;
      ok, c := ParseLine();
      if ok {
        var _ := Peek("");
        if s != es {
          ok := false;
        } else {
          Finish(c);
        }
      }
    }
  }

  lemma {:induction false} SkipNone()
    ensures Skip([]) == []
  {
  }

  lemma {:induction false} WordNone()
    ensures WordLen([]) == 0
  {
  }

  lemma {:induction false} NotBreak(c: char)
    ensures IsWordChar(c) <==> !IsSpace(c) && !IsSymbol(c)
  {
  }

  ghost function Prepend(rs: seq<Redirection<string>>,
                         r: Result<seq<Redirection<string>>>): Result<seq<Redirection<string>>> {
    if r.Err? then Err else Ok(rs + r.value, r.rest)
  }

  lemma {:induction false} PrependNone(r: Result<seq<Redirection<string>>>, none: seq<Redirection<string>>)
    requires none == []
    ensures Prepend(none, r) == r
  {
    if r.Ok? {
      assert none + r.value == r.value;
    }
  }

  lemma {:induction false} PrependOne(b: string, rs: seq<Redirection<Span>>, r: Result<seq<Redirection<string>>>)
    requires rs != []
    ensures var x := rs[|rs| - 1];
            Prepend(RedirTexts(b, rs[..|rs| - 1]), Prepend([Redirection(SpanText(b, x.file), x.out)], r))
                == Prepend(RedirTexts(b, rs), r)
  {
    var x := rs[|rs| - 1];
    var one := [Redirection(SpanText(b, x.file), x.out)];
    assert RedirTexts(b, rs) == RedirTexts(b, rs[..|rs| - 1]) + one;
    if r.Ok? {
      assert RedirTexts(b, rs[..|rs| - 1]) + (one + r.value) == RedirTexts(b, rs) + r.value;
    }
  }

  lemma {:induction false} PrependEnd(rs: seq<Redirection<string>>, rest: string)
    ensures Prepend(rs, Ok([], rest)) == Ok(rs, rest)
  {
    assert rs + [] == rs;
  }

  /** Leading spaces do not matter. */
  lemma {:induction false} SkipAll(t: string)
    ensures Skip(Skip(t)) == Skip(t) && First(Skip(t)) == First(t) && Tok(Skip(t)) == Tok(t)
            && Redirs(Skip(t)) == Redirs(t)
  {
  }

  /** One round of parseredirs. */
  lemma {:induction false} RedirsUnfold(u: string)
    ensures First(u) == '<' || First(u) == '>' ==>
              var op, file := Tok(u), Tok(Tok(u).rest);
              Redirs(u) == if file.kind != 'a' then Err
              else Prepend([Redirection(file.text, op.kind != '<')], Redirs(file.rest))
    ensures !(First(u) == '<' || First(u) == '>') ==> Redirs(u) == Ok([], Skip(u))
  {
  }

  /** The method's outcome is that of the grammar's function. */
  ghost predicate Parsed(ok: bool, c: Cmd<Span>, b: string, r: Result<Cmd<string>>, rest: string) {
    (ok <==> r.Ok?) && (ok ==> r == Ok(Text(b, c), rest) && Words(b, c))
  }

  /** One round of the loop of parseexec. */
  lemma {:induction false} LoopUnfold(u: string, a: Args<string>)
    ensures First(u) == '|' || First(u) == ')' || First(u) == '&' || First(u) == ';' ==>
              ExecLoop(u, a) == Ok(a, Skip(u))
    ensures !(First(u) == '|' || First(u) == ')' || First(u) == '&' || First(u) == ';') ==>
              var k := Tok(u);
              ExecLoop(u, a) == if k.kind == '\0' then Ok(a, k.rest)
                                else if k.kind != 'a' || |a.argv| + 1 >= MAXARGS then Err
                                else match Redirs(k.rest)
                                     case Err => Err
                                     case Ok(rs, rest) => ExecLoop(rest, Args(a.argv + [k.text], a.redirs + rs))
  {
  }

  lemma {:induction false} Appended(b: string, argv: seq<Span>, sp: Span, rs: seq<Redirection<Span>>,
                                    more: seq<Redirection<Span>>)
    ensures Texts(b, argv + [sp]) == Texts(b, argv) + [SpanText(b, sp)]
    ensures RedirTexts(b, rs + more) == RedirTexts(b, rs) + RedirTexts(b, more)
  {
  }

  lemma {:induction false} ExecText(b: string, argv: seq<Span>)
    ensures Text(b, Exec(argv)) == Exec(Texts(b, argv))
    ensures (forall i: nat :: i < |argv| ==> WordAt(b, argv[i])) ==> Words(b, Exec(argv))
  {
  }

  lemma {:induction false} SkipBlock(t: string)
    ensures First(t) == '(' ==> First(Skip(t)) == '(' && ShellGrammar.ParseBlock(Skip(t)) == ShellGrammar.ParseBlock(t)
  {
    SkipAll(t);
  }

  lemma {:induction false} TokOfFirst(t: string, c: char)
    requires First(t) == c && IsSymbol(c)
    ensures Tok(t).kind != '\0'
  {
  }

  lemma {:induction false} Both(b: string, l: Cmd<Span>, r: Cmd<Span>)
    ensures Words(b, l) && Words(b, r) ==> Words(b, Pipe(l, r)) && Words(b, List(l, r))
  {
  }

  lemma {:induction false} OneBack(b: string, c: Cmd<Span>)
    ensures Text(b, Back(c)) == Back(Text(b, c)) && (Words(b, c) ==> Words(b, Back(c)))
  {
  }

  /** One round of the loop of parseline over '&'. */
  lemma {:induction false} BacksUnfold(t: string, c: Cmd<string>)
    ensures Backs(t, c) == if First(t) == '&' then Backs(Tok(t).rest, Back(c)) else Ok(c, Skip(t))
  {
  }

  lemma {:induction false} BacksSkip(t: string, c: Cmd<string>)
    ensures Backs(Skip(t), c) == Backs(t, c)
  {
    SkipAll(t);
  }

  // ---- nulterminate ------------------------------------------------------------------------------------------

  ghost predicate EndIn(argv: seq<Span>, n: nat, k: nat) { exists i: nat :: i < n && i < |argv| && argv[i].eq == k }

  lemma {:induction false} ArgEnds(c: Cmd<Span>, argv: seq<Span>)
    requires c == Exec(argv)
    ensures forall k: nat :: EndsAt(c, k) <==> EndIn(argv, |argv|, k)
  {
    forall k: nat
      ensures EndsAt(c, k) <==> EndIn(argv, |argv|, k)
    {
      if EndIn(argv, |argv|, k) {
        var i: nat :| i < |argv| && argv[i].eq == k;
        assert Has(c, argv[i]);
      }
    }
  }

  lemma {:induction false} RedirEnds(c: Cmd<Span>, file: Span, out: bool)
    ensures forall k: nat :: EndsAt(Redir(c, file, out), k) <==> EndsAt(c, k) || k == file.eq
  {
    forall k: nat
      ensures EndsAt(Redir(c, file, out), k) <==> EndsAt(c, k) || k == file.eq
    {
      assert Has(Redir(c, file, out), file);
      if sp: Span :| Has(c, sp) && sp.eq == k {
        assert Has(Redir(c, file, out), sp);
      }
    }
  }

  lemma {:induction false} PairEnds(l: Cmd<Span>, r: Cmd<Span>)
    ensures forall k: nat :: EndsAt(Pipe(l, r), k) <==> EndsAt(l, k) || EndsAt(r, k)
    ensures forall k: nat :: EndsAt(List(l, r), k) <==> EndsAt(l, k) || EndsAt(r, k)
  {
    forall sp: Span
      ensures Has(Pipe(l, r), sp) <==> Has(l, sp) || Has(r, sp)
      ensures Has(List(l, r), sp) <==> Has(l, sp) || Has(r, sp)
    {
    }
    hide Has;
    forall k: nat
      ensures EndsAt(Pipe(l, r), k) <==> EndsAt(l, k) || EndsAt(r, k)
      ensures EndsAt(List(l, r), k) <==> EndsAt(l, k) || EndsAt(r, k)
    {
      if sp: Span :| (Has(l, sp) || Has(r, sp)) && sp.eq == k {
        assert Has(Pipe(l, r), sp) && Has(List(l, r), sp);
      }
    }
  }

  lemma {:induction false} BackEnds(c: Cmd<Span>)
    ensures forall k: nat :: EndsAt(Back(c), k) <==> EndsAt(c, k)
  {
    assert forall sp: Span :: Has(Back(c), sp) <==> Has(c, sp);
  }

  /** The C string at q is w. */
  ghost predicate IsCString(a: seq<char>, q: nat, w: string) {
    q + |w| < |a| && a[q..q + |w|] == w && a[q + |w|] == '\0' && '\0' !in w
  }

  lemma {:induction false} EndsFit(b: string, c: Cmd<Span>)
    requires Words(b, c)
    ensures forall sp: Span :: Has(c, sp) ==> sp.eq <= |b|
  {
    hide Has;
    assert forall sp: Span :: WordAt(b, sp) ==> sp.eq <= |b|;
  }

  /** No NUL lands inside a word, because words end at breaks. */
  lemma {:induction false} Terminated(b: string, before: seq<char>, after: seq<char>, c: Cmd<Span>)
    requires Words(b, c) && |b| < |before| == |after| && '\0' !in b
    requires forall i: nat :: i < |b| ==> before[i] == b[i]
    requires forall k: nat :: k < |after| ==> after[k] == if EndsAt(c, k) then '\0' else before[k]
    ensures forall sp: Span :: Has(c, sp) ==> IsCString(after, sp.q, SpanText(b, sp))
  {
    forall sp: Span | Has(c, sp)
      ensures IsCString(after, sp.q, SpanText(b, sp))
    {
      assert WordAt(b, sp) && EndsAt(c, sp.eq);
      forall i: nat | sp.q <= i < sp.eq
        ensures after[i] == b[i]
      {
        assert forall sp': Span :: Has(c, sp') ==> WordAt(b, sp');
      }
    }
  }

  /** The kind and length of the token that starts u. */
  function KindOf(u: string): char {
    if u == [] then '\0' else if u[0] == '>' && |u| > 1 && u[1] == '>' then '+' else if IsSymbol(u[0]) then u[0]
    else 'a'
  }

  function TokLen(u: string): (n: nat)
    ensures n <= |u|
  {
    if u == [] then 0 else if u[0] == '>' && |u| > 1 && u[1] == '>' then 2 else if IsSymbol(u[0]) then 1 else WordLen(u)
  }

  lemma {:induction false} TokParts(t: string)
    ensures var u := Skip(t);
            && Tok(t) == Token(KindOf(u), u[..TokLen(u)], Skip(u[TokLen(u)..]))
            && (KindOf(u) != '\0' ==> TokLen(u) > 0)
  {
  }

  lemma {:induction false} FirstOfWord(u: string)
    requires u != [] && !IsSpace(u[0]) && !IsSymbol(u[0])
    ensures WordLen(u) > 0
  {
  }

  lemma {:induction false} Pieces(b: string, q: nat, eq: nat)
    requires q <= eq <= |b|
    ensures b[q..eq] == b[q..][..eq - q] && b[eq..] == b[q..][eq - q..]
  {
  }
}
