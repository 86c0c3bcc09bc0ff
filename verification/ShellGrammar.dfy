/**
 * The command language of the shell as sh.c parses it, on strings: the parser as functions, a printed form
 * for every command, and the proof that printing and parsing are inverse.
 */
module ShellGrammar {

  /** A command; T is what stands for a word. out: opened for writing as descriptor 1, else for reading as 0. */
  datatype Cmd<T> =
    | Exec(argv: seq<T>)
    | Redir(cmd: Cmd<T>, file: T, out: bool)
    | Pipe(left: Cmd<T>, right: Cmd<T>)
    | List(left: Cmd<T>, right: Cmd<T>)
    | Back(cmd: Cmd<T>)

  const MAXARGS := 10

  predicate IsSpace(c: char) { c == ' ' || c == '\t' || c == '\r' || c == '\n' || c == '\U{000B}' }

  predicate IsSymbol(c: char) { c == '<' || c == '|' || c == '>' || c == '&' || c == ';' || c == '(' || c == ')' }

  predicate IsWordChar(c: char) { !IsSpace(c) && !IsSymbol(c) }

  // ---- Tokens ----------------------------------------------------------------------------------------

  function Skip(t: string): (r: string)
    ensures |r| <= |t| && (r == [] || !IsSpace(r[0]))
  {
    if t != [] && IsSpace(t[0]) then Skip(t[1..]) else t
  }

  function WordLen(t: string): (n: nat)
    ensures n <= |t| && (t != [] && IsWordChar(t[0]) ==> n > 0)
  {
    if t != [] && IsWordChar(t[0]) then 1 + WordLen(t[1..]) else 0
  }

  /** kind is 'a' for a word, '+' for >>, the symbol itself, or NUL at the end of the line. */
  datatype Token = Token(kind: char, text: string, rest: string)

  function Tok(t: string): (k: Token)
    ensures |k.rest| <= |t| && (k.kind != '\0' ==> |k.rest| < |t|)
  {
    var u := Skip(t);
    if u == [] then Token('\0', [], [])
    else if u[0] == '>' && |u| > 1 && u[1] == '>' then Token('+', u[..2], Skip(u[2..]))
    else if IsSymbol(u[0]) then Token(u[0], u[..1], Skip(u[1..]))
    else Token('a', u[..WordLen(u)], Skip(u[WordLen(u)..]))
  }

  /** The character that peek looks at: the first that is no space, or NUL at the end. */
  function First(t: string): char { if Skip(t) == [] then '\0' else Skip(t)[0] }

  // ---- The parser ---------------------------------------------------------------------------------------

  /** Err stands for the parser's panics. */
  datatype Result<T> = Ok(value: T, rest: string) | Err

  datatype Redirection<T> = Redirection(file: T, out: bool)

  function Wrap<T>(c: Cmd<T>, rs: seq<Redirection<T>>): Cmd<T>
    decreases |rs|
  {
    if rs == [] then c else Wrap(Redir(c, rs[0].file, rs[0].out), rs[1..])
  }

  /** The loop of parseredirs. */
  function Redirs(t: string): (r: Result<seq<Redirection<string>>>)
    ensures r.Ok? ==> |r.rest| <= |t|
    decreases |t|
  {
    if First(t) == '<' || First(t) == '>' then
      var op := Tok(t);
      var file := Tok(op.rest);
      if file.kind != 'a' then Err
      else match Redirs(file.rest)
           case Err => Err
           case Ok(rs, rest) => Ok([Redirection(file.text, op.kind != '<')] + rs, rest)
    else Ok([], Skip(t))
  }

  /** What the loop of parseexec has collected: words and redirections. */
  datatype Args<T> = Args(argv: seq<T>, redirs: seq<Redirection<T>>)

  /** The loop of parseexec, with a already collected. */
  function ExecLoop(t: string, a: Args<string>): (r: Result<Args<string>>)
    ensures r.Ok? ==> |r.rest| <= |t|
    decreases |t|
  {
    if First(t) == '|' || First(t) == ')' || First(t) == '&' || First(t) == ';' then Ok(a, Skip(t))
    else
      var k := Tok(t);
      if k.kind == '\0' then Ok(a, k.rest)
      else if k.kind != 'a' || |a.argv| + 1 >= MAXARGS then Err
      else match Redirs(k.rest)
           case Err => Err
           case Ok(rs, rest) => ExecLoop(rest, Args(a.argv + [k.text], a.redirs + rs))
  }

  function ParseExec(t: string): (r: Result<Cmd<string>>)
    ensures r.Ok? ==> |r.rest| <= |t|
    decreases |t|, 1
  {
    if First(t) == '(' then ParseBlock(t)
    else match Redirs(t)
         case Err => Err
         case Ok(rs, rest) =>
           match ExecLoop(rest, Args([], rs))
           case Err => Err
           case Ok(a, rest') => Ok(Wrap(Exec(a.argv), a.redirs), rest')
  }

  function ParseBlock(t: string): (r: Result<Cmd<string>>)
    requires First(t) == '('
    ensures r.Ok? ==> |r.rest| <= |t|
    decreases |t|, 0
  {
    match ParseLine(Tok(t).rest)
    case Err => Err
    case Ok(c, rest) =>
      if First(rest) != ')' then Err
      else match Redirs(Tok(rest).rest)
           case Err => Err
           case Ok(rs, rest') => Ok(Wrap(c, rs), rest')
  }

  function ParsePipe(t: string): (r: Result<Cmd<string>>)
    ensures r.Ok? ==> |r.rest| <= |t|
    decreases |t|, 2
  {
    match ParseExec(t)
    case Err => Err
    case Ok(c, rest) =>
      if First(rest) == '|' then
        match ParsePipe(Tok(rest).rest)
        case Err => Err
        case Ok(c', rest') => Ok(Pipe(c, c'), rest')
      else Ok(c, Skip(rest))
  }

  /** The loop of parseline over '&'. */
  function Backs(t: string, c: Cmd<string>): (r: Result<Cmd<string>>)
    ensures r.Ok? && |r.rest| <= |t|
    decreases |t|
  {
    if First(t) == '&' then Backs(Tok(t).rest, Back(c)) else Ok(c, Skip(t))
  }

  function ParseLine(t: string): (r: Result<Cmd<string>>)
    ensures r.Ok? ==> |r.rest| <= |t|
    decreases |t|, 3
  {
    match ParsePipe(t)
    case Err => Err
    case Ok(c, rest) =>
      var b := Backs(rest, c);
      if First(b.rest) == ';' then
        match ParseLine(Tok(b.rest).rest)
        case Err => Err
        case Ok(c', rest') => Ok(List(b.value, c'), rest')
      else Ok(b.value, Skip(b.rest))
  }

  function ParseCmd(t: string): Result<Cmd<string>> {
    match ParseLine(t)
    case Err => Err
    case Ok(c, rest) => if Skip(rest) != [] then Err else Ok(c, [])
  }

  // ---- The printed form ------------------------------------------------------------------------------------

  function Join(argv: seq<string>): string { if argv == [] then [] else argv[0] + " " + Join(argv[1..]) }

  /** s in parentheses, and what follows. */
  function Parens(s: string, t: string): string { "(" + s + ")" + t }

  lemma {:induction false} ParensMore(s: string, t: string, t': string)
    ensures Parens(s, t) + t' == Parens(s, t + t')
  {
  }

  lemma {:induction false} ParensPair(a: string, c: char, b: string, t: string)
    ensures Parens(a, [c] + Parens(b, "")) + t == Parens(a, [c] + Parens(b, t))
  {
    ParensMore(a, [c] + Parens(b, ""), t);
    ParensMore(b, "", t);
    assert ([c] + Parens(b, "")) + t == [c] + (Parens(b, "") + t);
    assert "" + t == t;
  }

  /** Every part in parentheses. */
  function Print(c: Cmd<string>): string {
    match c
    case Exec(argv) => Join(argv)
    case Redir(c', file, out) => Parens(Print(c'), (if out then ">" else "<") + file)
    case Pipe(l, r) => Parens(Print(l), "|" + Parens(Print(r), ""))
    case List(l, r) => Parens(Print(l), ";" + Parens(Print(r), ""))
    case Back(c') => Parens(Print(c'), "&")
  }

  predicate IsWord(w: string) { w != [] && forall i: nat :: i < |w| ==> IsWordChar(w[i]) }

  /** Words are words, and no command has as many as MAXARGS. */
  predicate Printable(c: Cmd<string>) {
    match c
    case Exec(argv) => |argv| < MAXARGS && forall i: nat :: i < |argv| ==> IsWord(argv[i])
    case Redir(c', file, _) => Printable(c') && IsWord(file)
    case Pipe(l, r) => Printable(l) && Printable(r)
    case List(l, r) => Printable(l) && Printable(r)
    case Back(c') => Printable(c')
  }

  /** Where a line may stop: at its end or before a closing parenthesis. */
  predicate Stop(t: string) { t == [] || t[0] == ')' }

  lemma {:induction false} WordLenOf(w: string, t: string)
    requires IsWord(w) && (t == [] || !IsWordChar(t[0]))
    ensures WordLen(w + t) == |w|
  {
    if |w| == 1 {
      assert (w + t)[1..] == t;
    } else {
      assert (w + t)[1..] == w[1..] + t;
      WordLenOf(w[1..], t);
    }
  }

  lemma {:induction false} TokWord(w: string, t: string)
    requires IsWord(w) && (t == [] || !IsWordChar(t[0]))
    ensures Tok(w + t) == Token('a', w, Skip(t)) && First(w + t) == w[0] && IsWordChar(w[0])
  {
    WordLenOf(w, t);
    assert (w + t)[..|w|] == w && (w + t)[|w|..] == t && (w + t)[0] == w[0];
  }

  lemma {:induction false} TokSymbol(c: char, t: string)
    requires IsSymbol(c) && (c != '>' || t == [] || t[0] != '>')
    ensures Tok([c] + t) == Token(c, [c], Skip(t)) && First([c] + t) == c
  {
    assert ([c] + t)[1..] == t && ([c] + t)[..1] == [c];
  }

  /** No space and no redirection in front. */
  predicate Clean(t: string) { t == [] || (!IsSpace(t[0]) && t[0] != '<' && t[0] != '>') }

  lemma {:induction false} NoRedirs(t: string)
    requires Clean(t)
    ensures Redirs(t) == Ok([], t) && Skip(t) == t && First(t) == if t == [] then '\0' else t[0]
  {
  }

  lemma {:induction false} JoinClean(argv: seq<string>, t: string)
    requires Stop(t) && forall i: nat :: i < |argv| ==> IsWord(argv[i])
    ensures Clean(Join(argv) + t) && (Join(argv) + t == [] || (Join(argv) + t)[0] != '(')
  {
    if argv != [] {
      assert (Join(argv) + t)[0] == argv[0][0];
    } else {
      assert Join(argv) + t == t;
    }
  }

  lemma {:induction false} SkipOne(t: string)
    requires Clean(t)
    ensures Skip(" " + t) == t
  {
    assert (" " + t)[1..] == t;
  }

  lemma {:induction false} JoinText(argv: seq<string>, done: seq<string>, t: string)
    requires argv != []
    ensures Join(argv) + t == argv[0] + (" " + (Join(argv[1..]) + t))
    ensures (done + [argv[0]]) + argv[1..] == done + argv
  {
  }

  lemma {:induction false} JoinParses(argv: seq<string>, done: seq<string>, t: string)
    requires Stop(t) && |done| + |argv| < MAXARGS && forall i: nat :: i < |argv| ==> IsWord(argv[i])
    ensures ExecLoop(Join(argv) + t, Args(done, [])) == Ok(Args(done + argv, []), t)
  {
    hide Tok, First, Skip, Redirs, IsWord, Join;
    if argv == [] {
      assert Join(argv) + t == t && done + argv == done by {
        JoinNone(t);
      }
      NoRedirs(t);
      EndOfLine();
    } else {
      var w, more := argv[0], Join(argv[1..]) + t;
      JoinText(argv, done, t);
      TokWord(w, " " + more);
      JoinClean(argv[1..], t);
      NoRedirs(more);
      SkipOne(more);
      ExecRound(w + (" " + more), done, w, more);
      JoinParses(argv[1..], done + [w], t);
    }
  }

  lemma {:induction false} JoinNone(t: string)
    ensures Join([]) + t == t
  {
  }

  /** One round of the loop of parseexec takes one word. */
  lemma {:induction false} ExecRound(u: string, done: seq<string>, w: string, more: string)
    requires IsWordChar(First(u)) && Tok(u) == Token('a', w, more) && Redirs(more) == Ok([], more)
             && |done| + 1 < MAXARGS
    ensures ExecLoop(u, Args(done, [])) == ExecLoop(more, Args(done + [w], []))
  {
    hide Tok, First, Skip, Redirs;
    var none: seq<Redirection<string>> := [];
    assert none + none == none;
  }

  lemma {:induction false} EndOfLine()
    ensures Tok([]) == Token('\0', [], [])
  {
  }

  lemma {:induction false} PrintClean(c: Cmd<string>, t: string)
    requires Printable(c) && Stop(t)
    ensures Clean(Print(c) + t)
  {
    if c.Exec? {
      JoinClean(c.argv, t);
    } else {
      assert (Print(c) + t)[0] == '(';
    }
  }

  /** A command in parentheses and what follows it. */
  function Block(c: Cmd<string>, t: string): string { Parens(Print(c), t) }

  /** It parses to the command, wrapped in the redirections that follow. */
  lemma {:induction false} BlockParses(c: Cmd<string>, t: string)
    requires Printable(c)
    requires ParseLine(Print(c) + (")" + t)) == Ok(c, ")" + t)
    ensures ParseExec(Block(c, t)) == match Redirs(t) case Err => Err case Ok(rs, rest) => Ok(Wrap(c, rs), rest)
    ensures Clean(Block(c, t))
  {
    var u, v := Block(c, t), Print(c) + (")" + t);
    assert u == "(" + v;
    TokSymbol('(', v);
    PrintClean(c, ")" + t);
    NoRedirs(v);
    TokSymbol(')', t);
    SkipRedirs(t);
    hide Tok, First, Skip, Redirs, Print, ParseLine;
  }

  lemma {:induction false} SkipRedirs(t: string)
    ensures Redirs(Skip(t)) == Redirs(t)
  {
    assert Skip(Skip(t)) == Skip(t) && Tok(Skip(t)) == Tok(t);
  }

  lemma {:induction false} PrintParses(c: Cmd<string>, t: string)
    requires Printable(c) && Stop(t)
    ensures ParseLine(Print(c) + t) == Ok(c, t)
    decreases c
  {
    match c
    case Exec(argv) => ExecParses(argv, t);
    case Redir(c', file, out) =>
      PrintParses(c', ")" + Target(file, out, t));
      RedirParses(c', file, out, t);
    case Pipe(l, r) =>
      PrintParses(l, ")" + ("|" + Block(r, t)));
      PrintParses(r, ")" + t);
      PipeParses(l, r, t);
    case List(l, r) =>
      PrintParses(l, ")" + (";" + Block(r, t)));
      PrintParses(r, ")" + t);
      ListParses(l, r, t);
    case Back(c') =>
      PrintParses(c', ")" + ("&" + t));
      BackParses(c', t);
  }

  lemma {:induction false} ExecParses(argv: seq<string>, t: string)
    requires Printable(Exec(argv)) && Stop(t)
    ensures ParseLine(Join(argv) + t) == Ok(Exec(argv), t)
  {
    var u := Join(argv) + t;
    JoinClean(argv, t);
    NoRedirs(u);
    JoinParses(argv, [], t);
    assert [] + argv == argv;
    assert ParseExec(u) == Ok(Exec(argv), t) by {
      hide ExecLoop, Redirs, First, Join;
    }
    PlainLine(u, Exec(argv), t);
  }

  /** The text of a redirection. */
  function Target(file: string, out: bool, t: string): string { (if out then ">" else "<") + (file + t) }

  lemma {:induction false} FileParses(file: string, out: bool, t: string)
    requires IsWord(file) && Stop(t)
    ensures Redirs(Target(file, out, t)) == Ok([Redirection(file, out)], t)
  {
    var c := if out then '>' else '<';
    assert Target(file, out, t) == [c] + (file + t);
    assert (file + t)[0] == file[0];
    TokWord(file, t);
    TokSymbol(c, file + t);
    NoRedirs(t);
    assert Tok(Skip(file + t)) == Tok(file + t);
    hide Tok, First, Skip, IsWord;
    assert [Redirection(file, out)] + [] == [Redirection(file, out)];
  }

  lemma {:induction false} RedirParses(c: Cmd<string>, file: string, out: bool, t: string)
    requires Printable(c) && IsWord(file) && Stop(t)
    requires ParseLine(Print(c) + (")" + Target(file, out, t))) == Ok(c, ")" + Target(file, out, t))
    ensures ParseLine(Print(Redir(c, file, out)) + t) == Ok(Redir(c, file, out), t)
  {
    var s := Target(file, out, t);
    var u := Print(Redir(c, file, out)) + t;
    ParensMore(Print(c), (if out then ">" else "<") + file, t);
    assert ((if out then ">" else "<") + file) + t == s;
    BlockParses(c, s);
    FileParses(file, out, t);
    assert Wrap(c, [Redirection(file, out)]) == Redir(c, file, out);
    PlainLine(u, Redir(c, file, out), t);
  }

  /** A line that is one command. */
  lemma {:induction false} PlainLine(u: string, c: Cmd<string>, t: string)
    requires ParseExec(u) == Ok(c, t) && Stop(t)
    ensures ParseLine(u) == Ok(c, t) && ParsePipe(u) == Ok(c, t)
  {
    NoRedirs(t);
    hide First, Skip, ParseExec;
  }

  lemma {:induction false} Unfolded(u: string, l: Cmd<string>, s: string, r: Cmd<string>, t: string)
    requires ParseExec(u) == Ok(l, s) && Skip(s) == s && Stop(t) && Skip(t) == t
    requires First(t) != '&' && First(t) != ';'
    ensures First(s) == '|' && ParsePipe(Tok(s).rest) == Ok(r, t) ==> ParseLine(u) == Ok(Pipe(l, r), t)
    ensures First(s) == ';' && ParseLine(Tok(s).rest) == Ok(r, t) ==> ParseLine(u) == Ok(List(l, r), t)
  {
    hide Tok, First, Skip, ParseExec;
  }

  lemma {:induction false} TwoBlocks(c: char, l: Cmd<string>, r: Cmd<string>, t: string)
    requires Printable(l) && Printable(r) && Stop(t) && (c == '|' || c == ';')
    requires ParseLine(Print(l) + (")" + ([c] + Block(r, t)))) == Ok(l, ")" + ([c] + Block(r, t)))
    requires ParseLine(Print(r) + (")" + t)) == Ok(r, ")" + t)
    ensures ParseLine(Block(l, [c] + Block(r, t))) == Ok(if c == '|' then Pipe(l, r) else List(l, r), t)
  {
    hide Block, Print, Tok, First, Skip, ParseExec, Redirs, ParseLine, ParsePipe;
    var v := Block(r, t);
    var s := [c] + v;
    BlockParses(l, s);
    BlockParses(r, t);
    NoRedirs(s);
    NoRedirs(t);
    NoRedirs(v);
    PlainLine(v, r, t);
    TokSymbol(c, v);
    Unfolded(Block(l, s), l, s, r, t);
  }

  lemma {:induction false} PipeParses(l: Cmd<string>, r: Cmd<string>, t: string)
    requires Printable(l) && Printable(r) && Stop(t)
    requires ParseLine(Print(l) + (")" + ("|" + Block(r, t)))) == Ok(l, ")" + ("|" + Block(r, t)))
    requires ParseLine(Print(r) + (")" + t)) == Ok(r, ")" + t)
    ensures ParseLine(Print(Pipe(l, r)) + t) == Ok(Pipe(l, r), t)
  {
    hide ParseLine, Parens;
    TwoBlocks('|', l, r, t);
    ParensPair(Print(l), '|', Print(r), t);
  }

  lemma {:induction false} ListParses(l: Cmd<string>, r: Cmd<string>, t: string)
    requires Printable(l) && Printable(r) && Stop(t)
    requires ParseLine(Print(l) + (")" + (";" + Block(r, t)))) == Ok(l, ")" + (";" + Block(r, t)))
    requires ParseLine(Print(r) + (")" + t)) == Ok(r, ")" + t)
    ensures ParseLine(Print(List(l, r)) + t) == Ok(List(l, r), t)
  {
    hide ParseLine, Parens;
    TwoBlocks(';', l, r, t);
    ParensPair(Print(l), ';', Print(r), t);
  }

  lemma {:induction false} BackParses(c: Cmd<string>, t: string)
    requires Printable(c) && Stop(t) && ParseLine(Print(c) + (")" + ("&" + t))) == Ok(c, ")" + ("&" + t))
    ensures ParseLine(Print(Back(c)) + t) == Ok(Back(c), t)
  {
    var s := "&" + t;
    var u := Print(Back(c)) + t;
    ParensMore(Print(c), "&", t);
    BlockParses(c, s);
    NoRedirs(s);
    NoRedirs(t);
    TokSymbol('&', t);
    hide Block, Print, Tok, First, Skip, ParseExec, Redirs;
    assert ParsePipe(u) == Ok(c, s);
    hide ParsePipe;
    assert Backs(t, Back(c)) == Ok(Back(c), t);
  }

  /** Every command within the argument limit has a printed form that parses back to it. */
  lemma {:induction false} RoundTrip(c: Cmd<string>)
    requires Printable(c)
    ensures ParseCmd(Print(c)) == Ok(c, [])
  {
    PrintParses(c, []);
    assert Print(c) + [] == Print(c);
  }

  // ---- Every parse is printable -------------------------------------------------------------------------------

  lemma {:induction false} WordLenWord(t: string)
    ensures forall i: nat :: i < WordLen(t) ==> IsWordChar(t[i])
    ensures WordLen(t) == |t| || !IsWordChar(t[WordLen(t)])
  {
    if t != [] && IsWordChar(t[0]) {
      WordLenWord(t[1..]);
    }
  }

  lemma {:induction false} TokIsWord(t: string)
    requires Tok(t).kind == 'a'
    ensures IsWord(Tok(t).text)
  {
    WordLenWord(Skip(t));
  }

  ghost predicate Files(rs: seq<Redirection<string>>) { forall i: nat :: i < |rs| ==> IsWord(rs[i].file) }

  lemma {:induction false} RedirsPrintable(t: string)
    requires Redirs(t).Ok?
    ensures Files(Redirs(t).value)
    decreases |t|
  {
    if First(t) == '<' || First(t) == '>' {
      var file := Tok(Tok(t).rest);
      TokIsWord(Tok(t).rest);
      RedirsPrintable(file.rest);
    }
  }

  lemma {:induction false} WrapPrintable(c: Cmd<string>, rs: seq<Redirection<string>>)
    requires Printable(c) && Files(rs)
    ensures Printable(Wrap(c, rs))
    decreases |rs|
  {
    if rs != [] {
      assert IsWord(rs[0].file);
      WrapPrintable(Redir(c, rs[0].file, rs[0].out), rs[1..]);
    }
  }

  lemma {:induction false} LoopPrintable(t: string, a: Args<string>)
    requires ExecLoop(t, a).Ok? && Printable(Exec(a.argv)) && Files(a.redirs)
    ensures var r := ExecLoop(t, a).value; Printable(Exec(r.argv)) && Files(r.redirs)
    decreases |t|
  {
    if First(t) == '|' || First(t) == ')' || First(t) == '&' || First(t) == ';' {
    } else if Tok(t).kind == 'a' {
      var k := Tok(t);
      TokIsWord(t);
      RedirsPrintable(k.rest);
      hide Tok, First, Redirs, IsWord;
      LoopPrintable(Redirs(k.rest).rest, Args(a.argv + [k.text], a.redirs + Redirs(k.rest).value));
    }
  }

  lemma {:induction false} BacksPrintable(t: string, c: Cmd<string>)
    requires Printable(c)
    ensures Printable(Backs(t, c).value)
    decreases |t|
  {
    if First(t) == '&' {
      BacksPrintable(Tok(t).rest, Back(c));
    }
  }

  lemma {:induction false} ExecPrintable(t: string)
    requires ParseExec(t).Ok?
    ensures Printable(ParseExec(t).value)
    decreases |t|, 1
  {
    if First(t) == '(' {
      var line := ParseLine(Tok(t).rest);
      LinePrintable(Tok(t).rest);
      var after := Tok(line.rest).rest;
      RedirsPrintable(after);
      WrapPrintable(line.value, Redirs(after).value);
    } else {
      RedirsPrintable(t);
      var start := Args([], Redirs(t).value);
      LoopPrintable(Redirs(t).rest, start);
      var a := ExecLoop(Redirs(t).rest, start).value;
      WrapPrintable(Exec(a.argv), a.redirs);
    }
  }

  lemma {:induction false} PipePrintable(t: string)
    requires ParsePipe(t).Ok?
    ensures Printable(ParsePipe(t).value)
    decreases |t|, 2
  {
    ExecPrintable(t);
    var rest := ParseExec(t).rest;
    if First(rest) == '|' {
      PipePrintable(Tok(rest).rest);
    }
  }

  lemma {:induction false} LinePrintable(t: string)
    requires ParseLine(t).Ok?
    ensures Printable(ParseLine(t).value)
    decreases |t|, 3
  {
    PipePrintable(t);
    var p := ParsePipe(t);
    BacksPrintable(p.rest, p.value);
    var b := Backs(p.rest, p.value);
    if First(b.rest) == ';' {
      LinePrintable(Tok(b.rest).rest);
    }
  }

  /** A command is the parse of some line exactly if it is within the argument limit and its words are words. */
  lemma {:induction false} ParseRange(c: Cmd<string>)
    ensures Printable(c) <==> exists t: string :: ParseCmd(t) == Ok(c, [])
  {
    if Printable(c) {
      RoundTrip(c);
    }
    if t: string :| ParseCmd(t) == Ok(c, []) {
      LinePrintable(t);
    }
  }

  // ---- Appending is writing -----------------------------------------------------------------------------

  /** The line with a space for the second character of every >>. */
  function OneArrow(t: string): (r: string)
    ensures |r| == |t| && (t != [] ==> r[0] == t[0])
  {
    if t == [] then []
    else if t[0] == '>' && |t| > 1 && t[1] == '>' then "> " + OneArrow(t[2..])
    else [t[0]] + OneArrow(t[1..])
  }

  function ArrowRest<T>(r: Result<T>): Result<T> { if r.Ok? then Ok(r.value, OneArrow(r.rest)) else Err }

  lemma {:induction false} ArrowSkip(t: string)
    ensures Skip(OneArrow(t)) == OneArrow(Skip(t))
  {
    if t != [] && IsSpace(t[0]) {
      assert OneArrow(t)[1..] == OneArrow(t[1..]);
      ArrowSkip(t[1..]);
    }
  }

  lemma {:induction false} ArrowFirst(t: string)
    ensures First(OneArrow(t)) == First(t)
  {
    ArrowSkip(t);
  }

  lemma {:induction false} ArrowWord(t: string)
    ensures WordLen(OneArrow(t)) == WordLen(t)
    ensures OneArrow(t)[..WordLen(t)] == t[..WordLen(t)] && OneArrow(t)[WordLen(t)..] == OneArrow(t[WordLen(t)..])
  {
    if t != [] && IsWordChar(t[0]) {
      assert OneArrow(t)[1..] == OneArrow(t[1..]);
      ArrowWord(t[1..]);
      var n := WordLen(t[1..]);
      assert t[..1 + n] == [t[0]] + t[1..][..n] && t[1 + n..] == t[1..][n..];
      assert OneArrow(t)[1 + n..] == OneArrow(t)[1..][n..];
    }
  }

  lemma {:induction false} ArrowTok(t: string)
    ensures var k, k' := Tok(t), Tok(OneArrow(t));
            && k'.kind == (if k.kind == '+' then '>' else k.kind) && (k.kind == 'a' ==> k'.text == k.text)
            && k'.rest == OneArrow(k.rest)
  {
    ArrowSkip(t);
    var u := Skip(t);
    var v := OneArrow(u);
    if u != [] && !IsSymbol(u[0]) {
      ArrowWord(u);
      ArrowSkip(u[WordLen(u)..]);
    } else if u != [] && u[0] == '>' && |u| > 1 && u[1] == '>' {
      assert v[1..] == " " + OneArrow(u[2..]) && v[1..][1..] == OneArrow(u[2..]);
      assert v[1] == ' ';
      ArrowSkip(u[2..]);
    } else if u != [] {
      assert v[1..] == OneArrow(u[1..]);
      ArrowSkip(u[1..]);
    }
  }

  lemma {:induction false} ArrowRedirs(t: string)
    ensures Redirs(OneArrow(t)) == ArrowRest(Redirs(t))
    decreases |t|
  {
    ArrowFirst(t);
    ArrowSkip(t);
    if First(t) == '<' || First(t) == '>' {
      OpKind(t);
      ArrowTok(t);
      ArrowTok(Tok(t).rest);
      hide Tok, First, Skip, OneArrow;
      if Tok(Tok(t).rest).kind == 'a' {
        ArrowRedirs(Tok(Tok(t).rest).rest);
      }
    }
  }

  lemma {:induction false} OpKind(t: string)
    requires First(t) == '<' || First(t) == '>'
    ensures Tok(t).kind == '<' <==> First(t) == '<'
  {
  }

  lemma {:induction false} ArrowExecLoop(t: string, a: Args<string>)
    ensures ExecLoop(OneArrow(t), a) == ArrowRest(ExecLoop(t, a))
    decreases |t|
  {
    ArrowFirst(t);
    ArrowSkip(t);
    ArrowTok(t);
    hide Tok, First, Skip, OneArrow, Redirs;
    var k := Tok(t);
    if k.kind == 'a' {
      ArrowRedirs(k.rest);
      if Redirs(k.rest).Ok? {
        ArrowExecLoop(Redirs(k.rest).rest, Args(a.argv + [k.text], a.redirs + Redirs(k.rest).value));
      }
    }
  }

  lemma {:induction false} ArrowExec(t: string)
    ensures ParseExec(OneArrow(t)) == ArrowRest(ParseExec(t))
    decreases |t|, 1
  {
    ArrowFirst(t);
    hide Tok, First, Skip, OneArrow, Redirs, ExecLoop, ParseBlock;
    if First(t) == '(' {
      ArrowBlock(t);
    } else {
      ArrowRedirs(t);
      if Redirs(t).Ok? {
        ArrowExecLoop(Redirs(t).rest, Args([], Redirs(t).value));
      }
    }
  }

  lemma {:induction false} ArrowBlock(t: string)
    requires First(t) == '('
    ensures First(OneArrow(t)) == '(' && ParseBlock(OneArrow(t)) == ArrowRest(ParseBlock(t))
    decreases |t|, 0
  {
    ArrowFirst(t);
    ArrowTok(t);
    assert |Tok(t).rest| < |t|;
    hide Tok, First, Skip, OneArrow, Redirs, ParseLine;
    ArrowLine(Tok(t).rest);
    var r := ParseLine(Tok(t).rest);
    if r.Ok? {
      ArrowFirst(r.rest);
      ArrowTok(r.rest);
      ArrowRedirs(Tok(r.rest).rest);
    }
  }

  lemma {:induction false} ArrowPipe(t: string)
    ensures ParsePipe(OneArrow(t)) == ArrowRest(ParsePipe(t))
    decreases |t|, 2
  {
    hide Skip, OneArrow, ParseExec;
    ArrowExec(t);
    var r := ParseExec(t);
    if r.Ok? {
      ArrowFirst(r.rest);
      ArrowSkip(r.rest);
      if First(r.rest) == '|' {
        ArrowTok(r.rest);
        assert |Tok(r.rest).rest| < |r.rest|;
        hide Tok, First;
        ArrowPipe(Tok(r.rest).rest);
      }
    }
  }

  lemma {:induction false} ArrowBacks(t: string, c: Cmd<string>)
    ensures Backs(OneArrow(t), c) == ArrowRest(Backs(t, c))
    decreases |t|
  {
    ArrowFirst(t);
    ArrowSkip(t);
    if First(t) == '&' {
      ArrowTok(t);
      assert |Tok(t).rest| < |t|;
      hide Tok, First, Skip, OneArrow;
      ArrowBacks(Tok(t).rest, Back(c));
    }
  }

  lemma {:induction false} ArrowLine(t: string)
    ensures ParseLine(OneArrow(t)) == ArrowRest(ParseLine(t))
    decreases |t|, 3
  {
    hide Skip, OneArrow, ParsePipe, Backs;
    ArrowPipe(t);
    var r := ParsePipe(t);
    if r.Ok? {
      ArrowBacks(r.rest, r.value);
      var b := Backs(r.rest, r.value);
      ArrowFirst(b.rest);
      ArrowSkip(b.rest);
      if First(b.rest) == ';' {
        ArrowTok(b.rest);
        assert |Tok(b.rest).rest| < |b.rest|;
        hide Tok, First;
        ArrowLine(Tok(b.rest).rest);
      }
    }
  }

  /** The parser does not tell >> from >: any line parses as the line with > for every >>. */
  lemma {:induction false} AppendIsWrite(t: string)
    ensures ParseCmd(OneArrow(t)) == ParseCmd(t)
  {
    ArrowLine(t);
    var r := ParseLine(t);
    hide ParseLine;
    if r.Ok? {
      ArrowSkip(r.rest);
    }
  }
}
