/**
 * The command language of the shell as it is typed: words, redirections and white space wherever it may stand,
 * parentheses only where they are wanted. A line is in the language exactly if the parser accepts it, and then the
 * command is the one that the written form stands for.
 */
module ShellSyntax {
  import opened ShellGrammar

  /** A word, or with an operator a redirection, and the white space before either. */
  datatype Item = Item(gap: string, op: string, gap2: string, word: string)

  /** What stands between bars: words and redirections in any order, or a line in parentheses with redirections. */
  datatype Elem = Simple(items: seq<Item>) | Sub(gap: string, line: Line, gap2: string, redirs: seq<Item>)

  datatype Pipeline = One(e: Elem) | Bar(e: Elem, gap: string, rest: Pipeline)

  /** A pipeline, an ampersand behind each gap in backs, and perhaps a semicolon and another line. */
  datatype Line = Line(pipe: Pipeline, backs: seq<string>, more: More)

  datatype More = End | Then(gap: string, line: Line)

  // ---- The text ----------------------------------------------------------------------------------------

  /** The items and behind them t. */
  function ItemsText(items: seq<Item>, t: string): string {
    if items == [] then t
    else items[0].gap + (items[0].op + (items[0].gap2 + (items[0].word + ItemsText(items[1..], t))))
  }

  function ElemText(e: Elem, t: string): string {
    match e
    case Simple(items) => ItemsText(items, t)
    case Sub(gap, line, gap2, redirs) => gap + ("(" + LineText(line, gap2 + (")" + ItemsText(redirs, t))))
  }

  function PipeText(p: Pipeline, t: string): string {
    match p
    case One(e) => ElemText(e, t)
    case Bar(e, gap, rest) => ElemText(e, gap + ("|" + PipeText(rest, t)))
  }

  function BacksText(backs: seq<string>, t: string): string {
    if backs == [] then t else backs[0] + ("&" + BacksText(backs[1..], t))
  }

  function MoreText(m: More, t: string): string {
    match m
    case End => t
    case Then(gap, line) => gap + (";" + LineText(line, t))
  }

  function LineText(l: Line, t: string): string { PipeText(l.pipe, BacksText(l.backs, MoreText(l.more, t))) }

  // ---- What is well formed -----------------------------------------------------------------------------

  ghost predicate Spaces(s: string) { forall i: nat :: i < |s| ==> IsSpace(s[i]) }

  /** A word has white space before it, unless it is the first. */
  ghost predicate GoodItem(x: Item, first: bool) {
    && Spaces(x.gap) && IsWord(x.word) && Spaces(x.gap2)
    && (if x.op == "" then x.gap2 == "" && (first || x.gap != "") else x.op == "<" || x.op == ">" || x.op == ">>")
  }

  ghost predicate GoodItems(items: seq<Item>, first: bool) {
    items == [] || (GoodItem(items[0], first) && GoodItems(items[1..], false))
  }

  predicate AllRedirs(items: seq<Item>) { forall i: nat :: i < |items| ==> items[i].op != "" }

  ghost predicate GoodElem(e: Elem) {
    match e
    case Simple(items) => GoodItems(items, true) && |Words(items)| < MAXARGS
    case Sub(gap, line, gap2, redirs) =>
      Spaces(gap) && GoodLine(line) && Spaces(gap2) && GoodItems(redirs, false) && AllRedirs(redirs)
  }

  ghost predicate GoodPipe(p: Pipeline) {
    match p
    case One(e) => GoodElem(e)
    case Bar(e, gap, rest) => GoodElem(e) && Spaces(gap) && GoodPipe(rest)
  }

  ghost predicate GoodMore(m: More) {
    match m
    case End => true
    case Then(gap, line) => Spaces(gap) && GoodLine(line)
  }

  ghost predicate GoodLine(l: Line) {
    GoodPipe(l.pipe) && (forall i: nat :: i < |l.backs| ==> Spaces(l.backs[i])) && GoodMore(l.more)
  }

  // ---- What it means -----------------------------------------------------------------------------------

  function OwnWords(x: Item): seq<string> { if x.op == "" then [x.word] else [] }

  function Words(items: seq<Item>): seq<string> {
    if items == [] then [] else OwnWords(items[0]) + Words(items[1..])
  }

  function OwnTargets(x: Item): seq<Redirection<string>> {
    if x.op == "" then [] else [Redirection(x.word, x.op != "<")]
  }

  function Targets(items: seq<Item>): seq<Redirection<string>> {
    if items == [] then [] else OwnTargets(items[0]) + Targets(items[1..])
  }

  /** The last redirection is outermost. */
  function Redirected(c: Cmd<string>, rs: seq<Redirection<string>>): Cmd<string> {
    if rs == [] then c
    else Redir(Redirected(c, rs[..|rs| - 1]), rs[|rs| - 1].file, rs[|rs| - 1].out)
  }

  function ElemTree(e: Elem): Cmd<string> {
    match e
    case Simple(items) => Redirected(Exec(Words(items)), Targets(items))
    case Sub(_, line, _, redirs) => Redirected(LineTree(line), Targets(redirs))
  }

  /** Bars nest to the right. */
  function PipeTree(p: Pipeline): Cmd<string> {
    match p
    case One(e) => ElemTree(e)
    case Bar(e, _, rest) => Pipe(ElemTree(e), PipeTree(rest))
  }

  function Backed(c: Cmd<string>, n: nat): Cmd<string> { if n == 0 then c else Back(Backed(c, n - 1)) }

  /** Semicolons nest to the right, and ampersands apply to the pipeline before them. */
  function LineTree(l: Line): Cmd<string> {
    var c := Backed(PipeTree(l.pipe), |l.backs|);
    match l.more
    case End => c
    case Then(_, line) => List(c, LineTree(line))
  }

  // ---- White space ---------------------------------------------------------------------------------------

  lemma {:induction false} GapSkip(g: string, u: string)
    requires Spaces(g)
    ensures Skip(g + u) == Skip(u) && Tok(g + u) == Tok(u) && First(g + u) == First(u)
  {
    if g == [] {
      assert g + u == u;
    } else {
      assert (g + u)[1..] == g[1..] + u && (g + u)[0] == g[0];
      GapSkip(g[1..], u);
    }
  }

  lemma {:induction false} SkipSplit(t: string) returns (g: string)
    ensures Spaces(g) && t == g + Skip(t)
  {
    if t != [] && IsSpace(t[0]) {
      g := SkipSplit(t[1..]);
      g := [t[0]] + g;
    } else {
      g := [];
    }
  }

  lemma {:induction false} SkipTok(t: string)
    ensures Skip(Skip(t)) == Skip(t) && Tok(Skip(t)) == Tok(t) && First(Skip(t)) == First(t)
  {
  }

  lemma {:induction false} SkipLoop(t: string, a: Args<string>)
    ensures ExecLoop(Skip(t), a) == ExecLoop(t, a)
  {
    SkipTok(t);
  }

  lemma {:induction false} SkipBacks(t: string, c: Cmd<string>)
    ensures Backs(Skip(t), c) == Backs(t, c)
  {
    SkipTok(t);
  }

  lemma {:induction false} SkipLine(t: string)
    ensures ParseExec(Skip(t)) == ParseExec(t) && ParsePipe(Skip(t)) == ParsePipe(t)
    ensures ParseLine(Skip(t)) == ParseLine(t)
  {
    SkipTok(t);
    SkipRedirs(t);
    hide Skip, Tok, First, Redirs;
  }

  // ---- Items ---------------------------------------------------------------------------------------------

  /** No word goes on into t. */
  predicate Apart(t: string) { t == [] || !IsWordChar(t[0]) }

  lemma {:induction false} ItemsApart(items: seq<Item>, t: string)
    requires GoodItems(items, false) && Apart(t)
    ensures Apart(ItemsText(items, t))
  {
    if items != [] {
      var x, rest := items[0], ItemsText(items[1..], t);
      if x.gap != [] {
        assert ItemsText(items, t)[0] == x.gap[0];
      } else {
        assert ItemsText(items, t) == x.op + (x.gap2 + (x.word + rest));
        assert ItemsText(items, t)[0] == x.op[0];
      }
    }
  }

  /** A redirection is two tokens. */
  lemma {:induction false} RedirTokens(x: Item, u: string)
    requires GoodItem(x, false) && x.op != "" && Apart(u)
    ensures var t := x.gap + (x.op + (x.gap2 + (x.word + u)));
            && First(t) == x.op[0] && (First(t) == '<' || First(t) == '>')
            && (Tok(t).kind == '<' <==> x.op == "<")
            && Tok(Tok(t).rest) == Token('a', x.word, Skip(u))
  {
    var v := x.gap2 + (x.word + u);
    var w := x.op + v;
    GapSkip(x.gap, w);
    OpToken(x, v);
    GapSkip(x.gap2, x.word + u);
    TokWord(x.word, u);
    SkipTok(v);
  }

  lemma {:induction false} OpToken(x: Item, v: string)
    requires x.op == "<" || x.op == ">" || x.op == ">>"
    requires v != [] && v[0] != '>'
    ensures Skip(x.op + v) == x.op + v && Tok(x.op + v).rest == Skip(v)
    ensures Tok(x.op + v).kind == if x.op == "<" then '<' else if x.op == ">" then '>' else '+'
  {
    var w := x.op + v;
    if x.op == ">>" {
      assert w[0] == '>' && w[1] == '>' && w[2..] == v;
    } else {
      assert w[1..] == v && w[0] == x.op[0] && w[1] == v[0];
    }
  }

  lemma {:induction false} WordToken(x: Item, u: string)
    requires GoodItem(x, true) && x.op == "" && Apart(u)
    ensures var t := x.gap + (x.op + (x.gap2 + (x.word + u)));
            Tok(t) == Token('a', x.word, Skip(u)) && First(t) == x.word[0] && IsWordChar(First(t))
  {
    assert x.op + (x.gap2 + (x.word + u)) == x.word + u;
    GapSkip(x.gap, x.word + u);
    TokWord(x.word, u);
  }

  /** How many redirections come before the first word. */
  function Lead(items: seq<Item>): (n: nat)
    ensures n <= |items| && AllRedirs(items[..n]) && (n < |items| ==> items[n].op == "")
  {
    if items == [] || items[0].op == "" then 0
    else
      var n := 1 + Lead(items[1..]);
      assert items[..n] == [items[0]] + items[1..][..n - 1];
      n
  }

  /** Where a simple command may stop: at the end or before a symbol that is no redirection and opens nothing. */
  predicate Tail(t: string) {
    Skip(t) == [] || Skip(t)[0] == '|' || Skip(t)[0] == '&' || Skip(t)[0] == ';' || Skip(t)[0] == ')'
  }

  lemma {:induction false} TailFacts(t: string)
    requires Tail(t)
    ensures Apart(t) && Redirs(t) == Ok([], Skip(t)) && First(t) != '('
  {
    if Skip(t) == [] {
      assert Tok(t) == Token('\0', [], []);
      if t != [] {
        assert IsSpace(t[0]);
      }
    } else {
      assert First(t) == Skip(t)[0];
    }
  }

  lemma {:induction false} LoopStops(t: string, a: Args<string>)
    requires Tail(t)
    ensures ExecLoop(t, a) == Ok(a, Skip(t))
  {
    if Skip(t) == [] {
      assert Tok(t) == Token('\0', [], []);
    } else {
      assert First(t) == Skip(t)[0];
    }
  }

  lemma {:induction false} TargetsLead(items: seq<Item>, n: nat)
    requires n <= |items| && AllRedirs(items[..n])
    ensures Targets(items) == Targets(items[..n]) + Targets(items[n..]) && Words(items) == Words(items[n..])
    ensures Words(items[..n]) == []
  {
    if n > 0 {
      assert items[..n][0].op != "";
      assert items[1..][..n - 1] == items[..n][1..] && items[1..][n - 1..] == items[n..];
      TargetsLead(items[1..], n - 1);
    } else {
      assert items[..n] == [] && items[n..] == items;
    }
  }

  /** parseredirs takes the redirections up to the first word. */
  lemma {:induction false} LeadParses(items: seq<Item>, t: string, first: bool)
    requires GoodItems(items, first) && Tail(t)
    ensures var n := Lead(items);
            Redirs(ItemsText(items, t)) == Ok(Targets(items[..n]), Skip(ItemsText(items[n..], t)))
  {
    TailFacts(t);
    hide Tail, Skip, Tok, First, Redirs, GoodItems;
    if items == [] {
    } else if items[0].op == "" {
      FirstWord(items, t, first);
      NoArrow(ItemsText(items, t));
    } else {
      var more, n := items[1..], Lead(items);
      hide ItemsText;
      FirstRedir(items, t, first);
      LeadParses(more, t, false);
      LeadMore(items);
      SkipRedirs(ItemsText(more, t));
      hide Lead, Targets;
      RedirRound(ItemsText(items, t), items[0], ItemsText(more, t));
      TargetsMore(items[0], items[..n]);
    }
  }

  lemma {:induction false} NoArrow(t: string)
    requires IsWordChar(First(t))
    ensures Redirs(t) == Ok([], Skip(t))
  {
  }

  lemma {:induction false} LeadMore(items: seq<Item>)
    requires items != [] && items[0].op != ""
    ensures var n := Lead(items);
            && n == 1 + Lead(items[1..]) && items[..n][1..] == items[1..][..n - 1] && items[n..] == items[1..][n - 1..]
  {
  }

  lemma {:induction false} FirstRedir(items: seq<Item>, t: string, first: bool)
    requires GoodItems(items, first) && Apart(t) && items != [] && items[0].op != ""
    ensures GoodItems(items[1..], false)
    ensures var u, v := ItemsText(items, t), ItemsText(items[1..], t);
            && (First(u) == '<' || First(u) == '>') && (Tok(u).kind == '<' <==> items[0].op == "<")
            && Tok(Tok(u).rest) == Token('a', items[0].word, Skip(v))
  {
    ItemsApart(items[1..], t);
    RedirTokens(items[0], ItemsText(items[1..], t));
  }

  lemma {:induction false} FirstWord(items: seq<Item>, t: string, first: bool)
    requires GoodItems(items, first) && Apart(t) && items != [] && items[0].op == ""
    ensures GoodItems(items[1..], false) && IsWordChar(First(ItemsText(items, t)))
    ensures Tok(ItemsText(items, t)) == Token('a', items[0].word, Skip(ItemsText(items[1..], t)))
    ensures Words(items) == [items[0].word] + Words(items[1..]) && Targets(items) == Targets(items[1..])
  {
    ItemsApart(items[1..], t);
    WordToken(items[0], ItemsText(items[1..], t));
  }

  lemma {:induction false} TargetsMore(x: Item, items: seq<Item>)
    requires items != [] && items[0] == x && x.op != ""
    ensures Targets(items) == [Redirection(x.word, x.op != "<")] + Targets(items[1..])
  {
  }

  /** One round of the loop of parseredirs. */
  lemma {:induction false} RedirRound(t: string, x: Item, u: string)
    requires (First(t) == '<' || First(t) == '>') && (Tok(t).kind == '<' <==> x.op == "<")
    requires Tok(Tok(t).rest) == Token('a', x.word, Skip(u)) && Redirs(Skip(u)) == Redirs(u) && Redirs(u).Ok?
    ensures Redirs(t) == Ok([Redirection(x.word, x.op != "<")] + Redirs(u).value, Redirs(u).rest)
  {
    hide Skip, Tok, First;
  }

  /** A word and the redirections behind it. */
  lemma {:induction false} LoopStep(items: seq<Item>, t: string, a: Args<string>, first: bool)
    requires GoodItems(items, first) && Tail(t) && items != [] && items[0].op == "" && |a.argv| + 1 < MAXARGS
    ensures var more, n := items[1..], Lead(items[1..]);
            ExecLoop(ItemsText(items, t), a)
            == ExecLoop(ItemsText(more[n..], t), Args(a.argv + [items[0].word], a.redirs + Targets(more[..n])))
  {
    TailFacts(t);
    hide Skip, Tok, First, Tail, Lead, Targets, Words, GoodItems, Redirs, ExecLoop, ItemsText;
    FirstWord(items, t, first);
    var more, n := items[1..], Lead(items[1..]);
    LeadParses(more, t, false);
    SkipRedirs(ItemsText(more, t));
    LoopRound(ItemsText(items, t), a, items[0].word, Skip(ItemsText(more, t)), Targets(more[..n]),
              Skip(ItemsText(more[n..], t)));
    SkipLoop(ItemsText(more[n..], t), Args(a.argv + [items[0].word], a.redirs + Targets(more[..n])));
  }

  lemma {:induction false} Associates<T>(a: seq<T>, b: seq<T>, c: seq<T>)
    ensures (a + b) + c == a + (b + c)
  {
  }

  /** The loop of parseexec takes the rest. */
  lemma {:induction false} LoopParses(items: seq<Item>, t: string, a: Args<string>, first: bool)
    requires GoodItems(items, first) && Tail(t) && (items == [] || items[0].op == "")
    requires |a.argv| + |Words(items)| < MAXARGS
    ensures ExecLoop(ItemsText(items, t), a) == Ok(Args(a.argv + Words(items), a.redirs + Targets(items)), Skip(t))
    decreases |items|
  {
    hide Skip, Tok, First, GoodItems, Redirs, ExecLoop;
    if items == [] {
      LoopStops(t, a);
      assert a.argv + [] == a.argv && a.redirs + [] == a.redirs;
    } else {
      hide Targets, Words, ItemsText;
      TailFacts(t);
      hide Tail;
      FirstWord(items, t, first);
      var more, n := items[1..], Lead(items[1..]);
      LoopStep(items, t, a, first);
      TargetsLead(more, n);
      GoodRest(more, n);
      var a1 := Args(a.argv + [items[0].word], a.redirs + Targets(more[..n]));
      LoopParses(more[n..], t, a1, false);
      Associates(a.argv, [items[0].word], Words(more[n..]));
      Associates(a.redirs, Targets(more[..n]), Targets(more[n..]));
    }
  }

  /** One round of the loop of parseexec. */
  lemma {:induction false} LoopRound(t: string, a: Args<string>, w: string, v: string, rs: seq<Redirection<string>>,
                                     r: string)
    requires IsWordChar(First(t)) && Tok(t) == Token('a', w, v) && Redirs(v) == Ok(rs, r) && |a.argv| + 1 < MAXARGS
    ensures ExecLoop(t, a) == ExecLoop(r, Args(a.argv + [w], a.redirs + rs))
  {
    hide Skip, Tok, First, Redirs;
  }

  lemma {:induction false} GoodRest(items: seq<Item>, n: nat)
    requires GoodItems(items, false) && n <= |items|
    ensures GoodItems(items[n..], false)
  {
    if n > 0 {
      GoodRest(items[1..], n - 1);
      assert items[1..][n - 1..] == items[n..];
    } else {
      assert items[n..] == items;
    }
  }

  // ---- What is written parses to what it means --------------------------------------------------------------

  lemma {:induction false} WrapIsRedirected(c: Cmd<string>, rs: seq<Redirection<string>>)
    ensures Wrap(c, rs) == Redirected(c, rs)
    decreases |rs|
  {
    if rs != [] {
      WrapIsRedirected(Redir(c, rs[0].file, rs[0].out), rs[1..]);
      RedirectedFirst(c, rs);
    }
  }

  lemma {:induction false} RedirectedFirst(c: Cmd<string>, rs: seq<Redirection<string>>)
    requires rs != []
    ensures Redirected(c, rs) == Redirected(Redir(c, rs[0].file, rs[0].out), rs[1..])
    decreases |rs|
  {
    var n := |rs| - 1;
    if n > 0 {
      RedirectedFirst(c, rs[..n]);
      assert rs[..n][1..] == rs[1..][..n - 1];
    } else {
      assert rs[..n] == [] && rs[1..] == [];
    }
  }

  lemma {:induction false} SimpleParses(items: seq<Item>, t: string)
    requires GoodElem(Simple(items)) && Tail(t)
    ensures ParseExec(ItemsText(items, t)) == Ok(ElemTree(Simple(items)), Skip(t))
  {
    var n, u := Lead(items), ItemsText(items, t);
    NoParen(items, t);
    LeadParses(items, t, true);
    TargetsLead(items, n);
    GoodLater(items, n);
    var a := Args([], Targets(items[..n]));
    SkipLoop(ItemsText(items[n..], t), a);
    LoopParses(items[n..], t, a, n == 0);
    hide Skip, Tok, First, Tail, Targets, Words, GoodItems, Redirs, ExecLoop, ItemsText, Wrap, Redirected;
    assert [] + Words(items) == Words(items);
    WrapIsRedirected(Exec(Words(items)), Targets(items));
  }

  lemma {:induction false} GoodLater(items: seq<Item>, n: nat)
    requires GoodItems(items, true) && n <= |items|
    ensures GoodItems(items[n..], n == 0)
  {
    if n > 0 {
      GoodRest(items[1..], n - 1);
      assert items[1..][n - 1..] == items[n..];
    } else {
      assert items[n..] == items;
    }
  }

  lemma {:induction false} NoParen(items: seq<Item>, t: string)
    requires GoodItems(items, true) && Tail(t)
    ensures First(ItemsText(items, t)) != '('
  {
    TailFacts(t);
    if items != [] && items[0].op == "" {
      FirstWord(items, t, true);
    } else if items != [] {
      FirstRedir(items, t, true);
    }
  }

  /** Redirections behind a parenthesis. */
  lemma {:induction false} RedirsParse(items: seq<Item>, t: string)
    requires GoodItems(items, false) && AllRedirs(items) && Tail(t)
    ensures Redirs(ItemsText(items, t)) == Ok(Targets(items), Skip(t))
  {
    LeadParses(items, t, false);
    assert Lead(items) == |items|;
    assert items[..|items|] == items && items[|items|..] == [];
  }

  lemma {:induction false} SymbolAfterGap(g: string, c: char, u: string)
    requires Spaces(g) && IsSymbol(c) && c != '>'
    ensures var t := g + ([c] + u); Tok(t) == Token(c, [c], Skip(u)) && First(t) == c && Skip(t) == [c] + u
  {
    GapSkip(g, [c] + u);
    TokSymbol(c, u);
  }

  /** A line in parentheses. */
  lemma {:induction false} SubParses(e: Elem, t: string)
    requires e.Sub? && GoodElem(e) && Tail(t)
    requires var s := e.gap2 + (")" + ItemsText(e.redirs, t));
             ParseLine(LineText(e.line, s)) == Ok(LineTree(e.line), Skip(s))
    ensures ParseExec(ElemText(e, t)) == Ok(ElemTree(e), Skip(t))
  {
    var r := ItemsText(e.redirs, t);
    var s := e.gap2 + (")" + r);
    var u := LineText(e.line, s);
    SymbolAfterGap(e.gap, '(', u);
    SymbolAfterGap(e.gap2, ')', r);
    SkipLine(u);
    SkipTok(s);
    RedirsParse(e.redirs, t);
    SkipRedirs(r);
    WrapIsRedirected(LineTree(e.line), Targets(e.redirs));
    hide Skip, Tok, First, Tail, Targets, GoodItems, Redirs, ItemsText, LineText, LineTree, ParseLine, Wrap, Redirected;
    BlockIs(ElemText(e, t), u, LineTree(e.line), Skip(s), r);
  }

  /** What parseblock makes of its parts. */
  lemma {:induction false} BlockIs(t: string, u: string, c: Cmd<string>, s: string, r: string)
    requires First(t) == '(' && Tok(t).rest == Skip(u) && ParseLine(Skip(u)) == Ok(c, s)
    requires First(s) == ')' && Tok(s).rest == Skip(r) && Redirs(Skip(r)).Ok?
    ensures ParseExec(t) == Ok(Wrap(c, Redirs(Skip(r)).value), Redirs(Skip(r)).rest)
  {
    hide Skip, Tok, First, Redirs, ParseLine, Wrap;
  }

  lemma {:induction false} ElemParses(e: Elem, t: string)
    requires GoodElem(e) && Tail(t)
    ensures ParseExec(ElemText(e, t)) == Ok(ElemTree(e), Skip(t))
    decreases e, 0
  {
    match e
    case Simple(items) => SimpleParses(items, t);
    case Sub(gap, line, gap2, redirs) =>
      var s := gap2 + (")" + ItemsText(redirs, t));
      SymbolAfterGap(gap2, ')', ItemsText(redirs, t));
      LineParses(line, s);
      SubParses(e, t);
  }

  lemma {:induction false} PipelineParses(p: Pipeline, t: string)
    requires GoodPipe(p) && Tail(t) && First(t) != '|'
    ensures ParsePipe(PipeText(p, t)) == Ok(PipeTree(p), Skip(t))
    decreases p, 1
  {
    SkipTok(t);
    match p
    case One(e) =>
      ElemParses(e, t);
      hide Skip, Tok, First, ParseExec, ElemText, ElemTree;
    case Bar(e, gap, rest) =>
      var u := PipeText(rest, t);
      var s := gap + ("|" + u);
      SymbolAfterGap(gap, '|', u);
      ElemParses(e, s);
      PipelineParses(rest, t);
      SkipLine(u);
      SkipTok(s);
      hide Skip, Tok, First, ParseExec, ElemText, ElemTree;
  }

  lemma {:induction false} BackedInside(c: Cmd<string>, n: nat)
    ensures Backed(Back(c), n) == Backed(c, n + 1)
  {
    if n > 0 {
      BackedInside(c, n - 1);
    }
  }

  lemma {:induction false} BacksParse(backs: seq<string>, c: Cmd<string>, t: string)
    requires (forall i: nat :: i < |backs| ==> Spaces(backs[i])) && First(t) != '&'
    ensures Backs(BacksText(backs, t), c) == Ok(Backed(c, |backs|), Skip(t))
  {
    if backs != [] {
      var u := BacksText(backs[1..], t);
      SymbolAfterGap(backs[0], '&', u);
      BacksParse(backs[1..], Back(c), t);
      SkipBacks(u, Back(c));
      BackedInside(c, |backs| - 1);
      hide Skip, Tok, First, Backed, Spaces;
    }
  }

  /** Where a line may stop: at the end or before a closing parenthesis. */
  predicate LineEnd(t: string) { Skip(t) == [] || Skip(t)[0] == ')' }

  lemma {:induction false} MoreEnds(m: More, t: string)
    requires GoodMore(m) && LineEnd(t)
    ensures var u := MoreText(m, t); Tail(u) && First(u) != '|' && First(u) != '&' && (First(u) == ';' <==> m.Then?)
  {
    if m.Then? {
      SymbolAfterGap(m.gap, ';', LineText(m.line, t));
    }
  }

  lemma {:induction false} BacksEnd(backs: seq<string>, t: string)
    requires (forall i: nat :: i < |backs| ==> Spaces(backs[i])) && Tail(t) && First(t) != '|'
    ensures Tail(BacksText(backs, t)) && First(BacksText(backs, t)) != '|'
  {
    if backs != [] {
      SymbolAfterGap(backs[0], '&', BacksText(backs[1..], t));
    }
  }

  lemma {:induction false} LineParses(l: Line, t: string)
    requires GoodLine(l) && LineEnd(t)
    ensures ParseLine(LineText(l, t)) == Ok(LineTree(l), Skip(t))
    decreases l, 2
  {
    var m := MoreText(l.more, t);
    MoreEnds(l.more, t);
    BacksEnd(l.backs, m);
    PipelineParses(l.pipe, BacksText(l.backs, m));
    BacksParse(l.backs, PipeTree(l.pipe), m);
    SkipBacks(BacksText(l.backs, m), PipeTree(l.pipe));
    SkipTok(m);
    if l.more.Then? {
      var u := LineText(l.more.line, t);
      SymbolAfterGap(l.more.gap, ';', u);
      LineParses(l.more.line, t);
      SkipLine(u);
    }
    hide Skip, Tok, First, ParsePipe, Backs, PipeText, PipeTree, BacksText, Backed, GoodLine, LineEnd, Tail;
  }

  /** A well-formed line parses to what it means. */
  lemma {:induction false} TypedParses(l: Line, g: string)
    requires GoodLine(l) && Spaces(g)
    ensures ParseCmd(LineText(l, g)) == Ok(LineTree(l), [])
  {
    GapSkip(g, []);
    assert g + [] == g && Skip(g) == [];
    LineParses(l, g);
  }

  // ---- Whatever parses has been written that way -------------------------------------------------------------

  lemma {:induction false} WordSplit(t: string) returns (g: string, r: string)
    requires Tok(t).kind == 'a'
    ensures t == g + (Tok(t).text + r) && Spaces(g) && Skip(r) == Tok(t).rest && IsWord(Tok(t).text) && Apart(r)
    ensures Apart(t) ==> g != []
    ensures |r| < |t|
  {
    g := SkipSplit(t);
    var u := Skip(t);
    WordLenWord(u);
    TokIsWord(t);
    r := u[WordLen(u)..];
    assert u == Tok(t).text + r;
    if g == [] {
      assert t == u;
    }
  }

  lemma {:induction false} SymbolSplit(t: string, c: char) returns (g: string, r: string)
    requires First(t) == c && IsSymbol(c) && c != '>'
    ensures t == g + ([c] + r) && Spaces(g) && Skip(r) == Tok(t).rest && |r| < |t|
  {
    g := SkipSplit(t);
    var u := Skip(t);
    r := u[1..];
    assert u == [c] + r;
  }

  lemma {:induction false} OpSplit(t: string) returns (g: string, op: string, r: string)
    requires First(t) == '<' || First(t) == '>'
    ensures t == g + (op + r) && Spaces(g) && Skip(r) == Tok(t).rest && |r| < |t|
    ensures (op == "<" || op == ">" || op == ">>") && (op == "<" <==> Tok(t).kind == '<')
  {
    g := SkipSplit(t);
    var u := Skip(t);
    var n := if u[0] == '>' && |u| > 1 && u[1] == '>' then 2 else 1;
    op, r := u[..n], u[n..];
    assert u == op + r;
  }

  lemma {:induction false} RedirSplit(t: string) returns (x: Item, r: string)
    requires (First(t) == '<' || First(t) == '>') && Tok(Tok(t).rest).kind == 'a'
    ensures GoodItem(x, false) && x.op != "" && (x.op == "<" <==> Tok(t).kind == '<') && x.word == Tok(Tok(t).rest).text
    ensures t == x.gap + (x.op + (x.gap2 + (x.word + r))) && Skip(r) == Tok(Tok(t).rest).rest && Apart(r) && |r| < |t|
  {
    var g, op, v := OpSplit(t);
    SkipTok(v);
    var g2, r2 := WordSplit(v);
    x, r := Item(g, op, g2, Tok(v).text), r2;
  }

  lemma {:induction false} RedirsOf(t: string) returns (items: seq<Item>, r: string)
    requires Redirs(t).Ok?
    ensures t == ItemsText(items, r) && GoodItems(items, false) && AllRedirs(items)
    ensures Targets(items) == Redirs(t).value && Skip(r) == Redirs(t).rest
    ensures if items == [] then r == t else Apart(r) && |r| < |t|
    decreases |t|
  {
    if First(t) == '<' || First(t) == '>' {
      var x, u := RedirSplit(t);
      SkipRedirs(u);
      var more;
      more, r := RedirsOf(u);
      items := [x] + more;
      hide Skip, Tok, First, GoodItem;
      assert items[1..] == more;
    } else {
      items, r := [], t;
    }
  }

  lemma {:induction false} ItemsJoin(xs: seq<Item>, ys: seq<Item>, t: string, first: bool)
    ensures ItemsText(xs + ys, t) == ItemsText(xs, ItemsText(ys, t))
    ensures Words(xs + ys) == Words(xs) + Words(ys) && Targets(xs + ys) == Targets(xs) + Targets(ys)
    ensures GoodItems(xs, first) && GoodItems(ys, first && xs == []) ==> GoodItems(xs + ys, first)
  {
    TextJoin(xs, ys, t);
    WordsJoin(xs, ys);
    TargetsJoin(xs, ys);
    GoodJoin(xs, ys, first);
  }

  lemma {:induction false} TextJoin(xs: seq<Item>, ys: seq<Item>, t: string)
    ensures ItemsText(xs + ys, t) == ItemsText(xs, ItemsText(ys, t))
  {
    if xs == [] {
      assert xs + ys == ys;
    } else {
      assert (xs + ys)[1..] == xs[1..] + ys && (xs + ys)[0] == xs[0];
      TextJoin(xs[1..], ys, t);
    }
  }

  lemma {:induction false} WordsJoin(xs: seq<Item>, ys: seq<Item>)
    ensures Words(xs + ys) == Words(xs) + Words(ys)
  {
    hide OwnWords;
    if xs == [] {
      assert xs + ys == ys && [] + Words(ys) == Words(ys);
    } else {
      assert (xs + ys)[1..] == xs[1..] + ys && (xs + ys)[0] == xs[0];
      WordsJoin(xs[1..], ys);
      Associates(OwnWords(xs[0]), Words(xs[1..]), Words(ys));
    }
  }

  lemma {:induction false} TargetsJoin(xs: seq<Item>, ys: seq<Item>)
    ensures Targets(xs + ys) == Targets(xs) + Targets(ys)
  {
    hide OwnTargets;
    if xs == [] {
      assert xs + ys == ys && [] + Targets(ys) == Targets(ys);
    } else {
      assert (xs + ys)[1..] == xs[1..] + ys && (xs + ys)[0] == xs[0];
      TargetsJoin(xs[1..], ys);
      Associates(OwnTargets(xs[0]), Targets(xs[1..]), Targets(ys));
    }
  }

  lemma {:induction false} GoodJoin(xs: seq<Item>, ys: seq<Item>, first: bool)
    ensures GoodItems(xs, first) && GoodItems(ys, first && xs == []) ==> GoodItems(xs + ys, first)
  {
    hide GoodItem;
    if xs == [] {
      assert xs + ys == ys;
    } else {
      assert (xs + ys)[1..] == xs[1..] + ys && (xs + ys)[0] == xs[0];
      GoodJoin(xs[1..], ys, false);
    }
  }

  lemma {:induction false} FirstGood(items: seq<Item>)
    requires GoodItems(items, false)
    ensures GoodItems(items, true)
  {
  }

  lemma {:induction false} RedirsOnly(items: seq<Item>)
    requires AllRedirs(items)
    ensures Words(items) == []
  {
    if items != [] {
      RedirsOnly(items[1..]);
    }
  }

  /** A word and what follows it, up to the next word. */
  lemma {:induction false} WordOf(t: string, first: bool) returns (items: seq<Item>, r: string)
    requires Tok(t).kind == 'a' && Redirs(Tok(t).rest).Ok? && (first || Apart(t))
    ensures t == ItemsText(items, r) && GoodItems(items, first) && items != [] && items[0].op == ""
    ensures Words(items) == [Tok(t).text] && Targets(items) == Redirs(Tok(t).rest).value
    ensures Skip(r) == Redirs(Tok(t).rest).rest && Apart(r) && |r| < |t|
  {
    var g, u := WordSplit(t);
    var x := Item(g, "", "", Tok(t).text);
    SkipRedirs(u);
    var more;
    more, r := RedirsOf(u);
    RedirsOnly(more);
    items := [x] + more;
    assert items[1..] == more;
    assert x.op + (x.gap2 + (x.word + u)) == x.word + u;
    hide Skip, Tok, First, Redirs;
  }

  lemma {:induction false} LoopOf(t: string, a: Args<string>, first: bool) returns (items: seq<Item>, r: string)
    requires ExecLoop(t, a).Ok? && (first || Apart(t)) && |a.argv| < MAXARGS
    ensures t == ItemsText(items, r) && GoodItems(items, first) && Skip(r) == ExecLoop(t, a).rest
    ensures ExecLoop(t, a).value == Args(a.argv + Words(items), a.redirs + Targets(items))
    ensures |a.argv| + |Words(items)| < MAXARGS
    decreases |t|
  {
    if Tok(t).kind != 'a' || First(t) == '|' || First(t) == ')' || First(t) == '&' || First(t) == ';' {
      LoopEnds(t, a);
      items, r := [], t;
      assert a.argv + [] == a.argv && a.redirs + [] == a.redirs;
    } else {
      LoopGoesOn(t, a);
      var xs, u := WordOf(t, first);
      var a1 := Args(a.argv + [Tok(t).text], a.redirs + Redirs(Tok(t).rest).value);
      hide Skip, Tok, First, Redirs, ExecLoop, ItemsText, GoodItems, Words, Targets;
      SkipLoop(u, a1);
      var ys;
      ys, r := LoopOf(u, a1, false);
      items := xs + ys;
      ItemsJoin(xs, ys, r, first);
      Associates(a.argv, Words(xs), Words(ys));
      Associates(a.redirs, Targets(xs), Targets(ys));
    }
  }

  lemma {:induction false} LoopEnds(t: string, a: Args<string>)
    requires ExecLoop(t, a).Ok?
    requires Tok(t).kind != 'a' || First(t) == '|' || First(t) == ')' || First(t) == '&' || First(t) == ';'
    ensures ExecLoop(t, a) == Ok(a, Skip(t))
  {
  }

  lemma {:induction false} LoopGoesOn(t: string, a: Args<string>)
    requires ExecLoop(t, a).Ok? && Tok(t).kind == 'a'
    requires First(t) != '|' && First(t) != ')' && First(t) != '&' && First(t) != ';'
    ensures Redirs(Tok(t).rest).Ok? && |a.argv| + 1 < MAXARGS
    ensures ExecLoop(t, a) == ExecLoop(Redirs(Tok(t).rest).rest,
                                       Args(a.argv + [Tok(t).text], a.redirs + Redirs(Tok(t).rest).value))
  {
    hide Skip, Tok, First, Redirs;
  }

  lemma {:induction false} SimpleOf(t: string) returns (e: Elem, r: string)
    requires ParseExec(t).Ok? && First(t) != '('
    ensures t == ElemText(e, r) && GoodElem(e) && ElemTree(e) == ParseExec(t).value && Skip(r) == ParseExec(t).rest
  {
    var xs, u := RedirsOf(t);
    var a := Args([], Redirs(t).value);
    SkipLoop(u, a);
    var ys;
    ys, r := LoopOf(u, a, xs == []);
    RedirsOnly(xs);
    FirstGood(xs);
    ItemsJoin(xs, ys, r, true);
    e := Simple(xs + ys);
    var b := ExecLoop(u, a).value;
    assert [] + Words(ys) == Words(ys);
    assert ParseExec(t) == Ok(Wrap(Exec(b.argv), b.redirs), ExecLoop(u, a).rest) by {
      hide Skip, Tok, First, ItemsText, GoodItems, Words, Targets, Wrap;
    }
    hide Skip, Tok, First, Redirs, ExecLoop, ItemsText, GoodItems, Words, Targets, ParseExec, Wrap, Redirected;
    WrapIsRedirected(Exec(b.argv), b.redirs);
  }

  lemma {:induction false} ElemOf(t: string) returns (e: Elem, r: string)
    requires ParseExec(t).Ok?
    ensures t == ElemText(e, r) && GoodElem(e) && ElemTree(e) == ParseExec(t).value && Skip(r) == ParseExec(t).rest
    decreases |t|, 0
  {
    if First(t) != '(' {
      e, r := SimpleOf(t);
    } else {
      var g, u := SymbolSplit(t, '(');
      SkipLine(u);
      BlockGoesOn(t);
      var line, s := LineOf(u);
      SkipTok(s);
      var g2, v := SymbolSplit(s, ')');
      SkipRedirs(v);
      var redirs;
      redirs, r := RedirsOf(v);
      e := Sub(g, line, g2, redirs);
      hide Skip, Tok, First, Redirs, ParseExec, ParseLine, ItemsText, LineText, GoodItems, Targets, Wrap, Redirected;
      WrapIsRedirected(LineTree(line), Targets(redirs));
    }
  }

  lemma {:induction false} BlockGoesOn(t: string)
    requires ParseExec(t).Ok? && First(t) == '('
    ensures var l := ParseLine(Tok(t).rest);
            && l.Ok? && First(l.rest) == ')' && Redirs(Tok(l.rest).rest).Ok?
            && ParseExec(t) == Ok(Wrap(l.value, Redirs(Tok(l.rest).rest).value), Redirs(Tok(l.rest).rest).rest)
  {
    hide Skip, Tok, First, Redirs, ParseLine, Wrap;
  }

  lemma {:induction false} PipeOf(t: string) returns (p: Pipeline, r: string)
    requires ParsePipe(t).Ok?
    ensures t == PipeText(p, r) && GoodPipe(p) && PipeTree(p) == ParsePipe(t).value && Skip(r) == ParsePipe(t).rest
    decreases |t|, 1
  {
    var e, s := ElemOf(t);
    SkipTok(s);
    ElemShorter(e, s);
    if First(s) == '|' {
      var g, u := SymbolSplit(s, '|');
      SkipLine(u);
      PipeGoesOn(t);
      var rest;
      rest, r := PipeOf(u);
      p := Bar(e, g, rest);
      hide Skip, Tok, First, ParseExec, ParsePipe, ElemText, ElemTree, GoodElem;
    } else {
      PipeGoesOn(t);
      p, r := One(e), s;
      hide Skip, Tok, First, ParseExec, ElemText, ElemTree, GoodElem;
    }
  }

  lemma {:induction false} PipeGoesOn(t: string)
    requires ParsePipe(t).Ok?
    ensures var x := ParseExec(t);
            && x.Ok?
            && if First(x.rest) == '|' then
                 var y := ParsePipe(Tok(x.rest).rest); y.Ok? && ParsePipe(t) == Ok(Pipe(x.value, y.value), y.rest)
               else ParsePipe(t) == Ok(x.value, Skip(x.rest))
  {
    hide Skip, Tok, First, ParseExec;
  }

  lemma {:induction false} BacksOf(t: string, c: Cmd<string>) returns (backs: seq<string>, r: string)
    ensures t == BacksText(backs, r) && (forall i: nat :: i < |backs| ==> Spaces(backs[i])) && First(r) != '&'
    ensures Backs(t, c) == Ok(Backed(c, |backs|), Skip(r)) && |r| <= |t|
    decreases |t|
  {
    if First(t) == '&' {
      var g, u := SymbolSplit(t, '&');
      SkipBacks(u, Back(c));
      var more;
      more, r := BacksOf(u, Back(c));
      BackedInside(c, |more|);
      backs := [g] + more;
      hide Skip, Tok, First, Backed, Spaces;
      assert backs[1..] == more;
    } else {
      backs, r := [], t;
    }
  }

  lemma {:induction false} LineOf(t: string) returns (l: Line, r: string)
    requires ParseLine(t).Ok?
    ensures t == LineText(l, r) && GoodLine(l) && LineTree(l) == ParseLine(t).value && Skip(r) == ParseLine(t).rest
    decreases |t|, 2
  {
    LineGoesOn(t);
    var p, s := PipeOf(t);
    PipeShorter(p, s);
    var c := PipeTree(p);
    SkipBacks(s, c);
    var backs, v := BacksOf(s, c);
    SkipTok(v);
    if First(v) == ';' {
      var g, u := SymbolSplit(v, ';');
      SkipLine(u);
      var line;
      line, r := LineOf(u);
      l := Line(p, backs, Then(g, line));
    } else {
      l, r := Line(p, backs, End), v;
    }
    hide Skip, Tok, First, ParsePipe, ParseLine, Backs, PipeText, PipeTree, GoodPipe, BacksText, Backed, Spaces;
  }

  lemma {:induction false} LineGoesOn(t: string)
    requires ParseLine(t).Ok?
    ensures var x := ParsePipe(t);
            && x.Ok?
            && var b := Backs(x.rest, x.value);
            && if First(b.rest) == ';' then
                 var y := ParseLine(Tok(b.rest).rest); y.Ok? && ParseLine(t) == Ok(List(b.value, y.value), y.rest)
               else ParseLine(t) == Ok(b.value, Skip(b.rest))
  {
    hide Skip, Tok, First, ParsePipe, Backs;
  }

  lemma {:induction false} ItemsShorter(items: seq<Item>, t: string)
    ensures |t| <= |ItemsText(items, t)|
  {
    if items != [] {
      ItemsShorter(items[1..], t);
    }
  }

  lemma {:induction false} ElemShorter(e: Elem, t: string)
    ensures |t| <= |ElemText(e, t)|
    decreases e, 0
  {
    match e
    case Simple(items) => ItemsShorter(items, t);
    case Sub(gap, line, gap2, redirs) =>
      ItemsShorter(redirs, t);
      LineShorter(line, gap2 + (")" + ItemsText(redirs, t)));
  }

  lemma {:induction false} PipeShorter(p: Pipeline, t: string)
    ensures |t| <= |PipeText(p, t)|
    decreases p, 1
  {
    match p
    case One(e) => ElemShorter(e, t);
    case Bar(e, gap, rest) =>
      PipeShorter(rest, t);
      ElemShorter(e, gap + ("|" + PipeText(rest, t)));
  }

  lemma {:induction false} BacksShorter(backs: seq<string>, t: string)
    ensures |t| <= |BacksText(backs, t)|
  {
    if backs != [] {
      BacksShorter(backs[1..], t);
    }
  }

  lemma {:induction false} LineShorter(l: Line, t: string)
    ensures |t| <= |LineText(l, t)|
    decreases l, 2
  {
    var m := MoreText(l.more, t);
    if l.more.Then? {
      LineShorter(l.more.line, t);
    }
    BacksShorter(l.backs, m);
    PipeShorter(l.pipe, BacksText(l.backs, m));
  }

  /** The parser accepts exactly the well-formed lines, and gives each the command it stands for. */
  lemma {:induction false} ParserIsGrammar(t: string, c: Cmd<string>)
    ensures ParseCmd(t) == Ok(c, []) <==>
              exists l: Line, g: string :: GoodLine(l) && Spaces(g) && t == LineText(l, g) && LineTree(l) == c
  {
    if ParseCmd(t) == Ok(c, []) {
      var l, r := LineOf(t);
      SkipTok(r);
      var g := SkipSplit(r);
      assert r == g;
    }
    if l: Line, g: string :| GoodLine(l) && Spaces(g) && t == LineText(l, g) && LineTree(l) == c {
      TypedParses(l, g);
    }
  }
}
