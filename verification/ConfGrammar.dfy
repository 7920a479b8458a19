/**
  What configuration text is read as: words with and without quotes, blanks and
  comments between them, and what ends a directive or a block.
 */
module ConfGrammar {
  import opened ConfToken

  // ----- how things are written

  /** A character as it stands, or a character behind a backslash. */
  datatype Letter = Lit(c: char) | Esc(c: char)

  function Spell(l: Letter): string {
    match l
    case Lit(c) => [c]
    case Esc(c) => ['\\', c]
  }

  /** A backslash stands for itself, unless a quote, a backslash or the name of a control character follows. */
  function Mean(l: Letter): string {
    match l
    case Lit(c) => [c]
    case Esc(c) =>
      if c == 't' then "\t" else if c == 'r' then "\r" else if c == 'n' then "\n"
      else if c == '"' || c == '\'' || c == '\\' then [c] else ['\\', c]
  }

  datatype List<T> = Nil | Cons(head: T, tail: List<T>)

  function SpellAll(ls: List<Letter>): string {
    match ls
    case Nil => ""
    case Cons(l, rest) => Spell(l) + SpellAll(rest)
  }

  function MeanAll(ls: List<Letter>): string {
    match ls
    case Nil => ""
    case Cons(l, rest) => Mean(l) + MeanAll(rest)
  }

  /** A word without quotes, or between two quotes of the same kind. */
  datatype Word = Bare(ls: List<Letter>) | Quoted(mark: char, ls: List<Letter>)

  function Written(w: Word): string {
    match w
    case Bare(ls) => SpellAll(ls)
    case Quoted(mark, ls) => [mark] + SpellAll(ls) + [mark]
  }

  function Value(w: Word): string {
    MeanAll(w.ls)
  }

  predicate BlankChar(c: char) {
    c == ' ' || c == '\t' || c == '\r' || c == '\n'
  }

  /** What begins something else than a word without quotes. */
  predicate Special(c: char) {
    c == '{' || c == '}' || c == '#' || c == '"' || c == '\''
  }

  /** Whether a brace may follow: behind a dollar sign, or behind another such brace. */
  function Open(v: bool, l: Letter): bool {
    l.Lit? && (l.c == '$' || (l.c == '{' && v))
  }

  function OpenAfter(v: bool, ls: List<Letter>): bool
    decreases ls
  {
    match ls
    case Nil => v
    case Cons(l, rest) => OpenAfter(Open(v, l), rest)
  }

  /** A letter that does not end a word without quotes. */
  predicate BareLetter(v: bool, l: Letter) {
    l.Lit? ==> l.c != '\\' && !BlankChar(l.c) && l.c != ';' && (l.c == '{' ==> v)
  }

  predicate BareLetters(v: bool, ls: List<Letter>)
    decreases ls
  {
    match ls
    case Nil => true
    case Cons(l, rest) => BareLetter(v, l) && BareLetters(Open(v, l), rest)
  }

  predicate QuotedLetters(mark: char, ls: List<Letter>) {
    match ls
    case Nil => true
    case Cons(l, rest) => (l.Lit? ==> l.c != '\\' && l.c != mark) && QuotedLetters(mark, rest)
  }

  /** The words that can be written: those without quotes do not begin like something else. */
  predicate WordOk(w: Word) {
    match w
    case Bare(ls) => ls.Cons? && BareLetters(false, ls) && (ls.head.Lit? ==> !Special(ls.head.c))
    case Quoted(mark, ls) => (mark == '"' || mark == '\'') && QuotedLetters(mark, ls)
  }

  /** A blank, or a comment with the end of its line. */
  datatype Piece = Space(c: char) | Line(text: string)

  predicate PieceOk(p: Piece) {
    match p
    case Space(c) => BlankChar(c)
    case Line(t) => forall i :: 0 <= i < |t| ==> t[i] != '\n'
  }

  predicate PiecesOk(ps: List<Piece>) {
    match ps
    case Nil => true
    case Cons(p, rest) => PieceOk(p) && PiecesOk(rest)
  }

  function Drawn(p: Piece): string {
    match p
    case Space(c) => [c]
    case Line(t) => "#" + t + "\n"
  }

  function Fill(ps: List<Piece>): string {
    match ps
    case Nil => ""
    case Cons(p, rest) => Drawn(p) + Fill(rest)
  }

  /** A word and what stands before it. */
  datatype Item = Item(gap: List<Piece>, word: Word)

  /** The text of a directive: words, something to fill the space behind them, and its end. */
  function Layout(items: List<Item>, tail: List<Piece>, end: char): string {
    match items
    case Nil => Fill(tail) + [end]
    case Cons(it, rest) => Fill(it.gap) + (Written(it.word) + Layout(rest, tail, end))
  }

  function Values(items: List<Item>): seq<string> {
    match items
    case Nil => []
    case Cons(it, rest) => [Value(it.word)] + Values(rest)
  }

  /** A blank comes between words; only a closing parenthesis may follow a quote at once. */
  predicate Separate(w: Word, next: Item) {
    || (next.gap.Cons? && next.gap.head.Space?)
    || (next.gap.Nil? && w.Quoted? && next.word.Bare? && next.word.ls.Cons? && next.word.ls.head == Lit(')'))
  }

  /**
    A blank comes between the last word and a comment; an opening brace at once behind
    a variable, and a closing brace at once behind any word without quotes, belong to it.
   */
  predicate Ending(w: Word, tail: List<Piece>, end: char) {
    && (end == ';' || end == '{' || end == '}')
    && if tail.Cons? then tail.head.Space?
       else w.Bare? ==> end != '}' && (end == '{' ==> !OpenAfter(false, w.ls))
  }

  predicate Directive(items: List<Item>, tail: List<Piece>, end: char) {
    match items
    case Nil => false
    case Cons(it, rest) =>
      && PiecesOk(it.gap) && WordOk(it.word)
      && if rest.Nil? then PiecesOk(tail) && Ending(it.word, tail, end)
         else Separate(it.word, rest.head) && Directive(rest, tail, end)
  }

  // ----- from one place to another

  /**
    A relation between places of the reader.  The laws are proved for every relation
    that holds from a place to itself and to the one behind its next character, and
    that is transitive; `Leads` is one.
   */
  type Rel = (Config, Config) -> bool

  ghost predicate Reading(to: Rel, text: string) {
    (Still(to, text) && Onwards(to) && Going(to, text) && Parenthesis(to, text)) == true
  }

  ghost predicate Still(to: Rel, text: string) {
    forall c :: Proper(text, c) ==> to(c, c)
  }

  ghost predicate Onwards(to: Rel) {
    forall c, d, e :: to(c, d) && to(d, e) ==> to(c, e)
  }

  /** What the reader does at a place. */
  ghost predicate Does(text: string, c: Config, move: Move) {
    c.start <= c.pos < |text| && Step(text, c.st, c.start, c.pos) == move
  }

  ghost predicate Going(to: Rel, text: string) {
    forall c, st, at :: Does(text, c, Go(st, at)) ==> to(c, Config(st, NewStart(at, c.start, c.pos), c.pos + 1))
  }

  /** Behind a quote, a closing parenthesis is read as between words. */
  ghost predicate Parenthesis(to: Rel, text: string) {
    forall args, start: nat, pos: nat :: start <= pos < |text| && text[pos] == ')' ==>
      to(Config(Closed(args), start, pos), Config(Ready(args), start, pos))
  }

  lemma Stay(to: Rel, text: string, c: Config)
    requires Reading(to, text) && Proper(text, c)
    ensures to(c, c)
  {
    assert Still(to, text);
  }

  lemma Trans(to: Rel, text: string, c: Config, d: Config, e: Config)
    requires Reading(to, text) && to(c, d) && to(d, e)
    ensures to(c, e)
  {
    assert Onwards(to);
  }

  lemma Go1(to: Rel, text: string, st: St, start: nat, p: nat, st': St, at: Where)
    requires Reading(to, text) && start <= p < |text| && Step(text, st, start, p) == Go(st', at)
    ensures to(Config(st, start, p), Config(st', NewStart(at, start, p), p + 1))
  {
    assert Going(to, text);
    assert Does(text, Config(st, start, p), Go(st', at));
  }

  lemma LeadsReads(text: string)
    ensures Reading((c, d) => Leads(text, c, d), text)
  {
    var to: Rel := (c, d) => Leads(text, c, d);
    assert Still(to, text) by {
      forall c | Proper(text, c) ensures to(c, c) {
        LeadsSame(text, c);
      }
    }
    assert Onwards(to) by {
      forall c, d, e | to(c, d) && to(d, e) ensures to(c, e) {
        LeadsTrans(text, c, d, e);
      }
    }
    assert Going(to, text) by {
      forall c, st, at | Does(text, c, Go(st, at)) ensures to(c, Config(st, NewStart(at, c.start, c.pos), c.pos + 1)) {
        LeadsGo(text, c, st, at);
      }
    }
    assert Parenthesis(to, text) by {
      forall args, start: nat, pos: nat | start <= pos < |text| && text[pos] == ')'
        ensures to(Config(Closed(args), start, pos), Config(Ready(args), start, pos))
      {
        LeadsParen(text, args, start, pos);
      }
    }
  }

  lemma LeadsGo(text: string, c: Config, st: St, at: Where)
    requires Does(text, c, Go(st, at))
    ensures Leads(text, c, Config(st, NewStart(at, c.start, c.pos), c.pos + 1))
  {
    LexGo(text, c.st, c.start, c.pos, Step(text, c.st, c.start, c.pos), st, at);
    LeadsStep(text, c, Config(st, NewStart(at, c.start, c.pos), c.pos + 1));
  }

  lemma LeadsParen(text: string, args: seq<string>, start: nat, pos: nat)
    requires start <= pos < |text| && text[pos] == ')'
    ensures Leads(text, Config(Closed(args), start, pos), Config(Ready(args), start, pos))
  {
    assert Step(text, Closed(args), start, pos) == Step(text, Ready(args), start, pos);
    assert Agree(text, Config(Closed(args), start, pos), Config(Ready(args), start, pos));
  }

  /** The text at p. */
  ghost predicate On(text: string, p: nat, s: string) {
    At(text, p, s) == true
  }

  lemma OnFirst(text: string, p: nat, s: string)
    requires On(text, p, s)
    ensures p + |s| <= |text| && (s != [] ==> text[p] == s[0]) && (|s| > 1 ==> text[p + 1] == s[1])
  {
    AtFirst(text, p, s);
  }

  /** The text is made of two parts. */
  lemma Cut(text: string, p: nat, all: string, a: string, b: string)
    requires On(text, p, all) && all == a + b
    ensures On(text, p, a) && On(text, p + |a|, b) && |all| == |a| + |b| && p + |all| <= |text|
  {
    AtConcat(text, p, a, b);
  }

  // ----- blanks and comments

  lemma CommentChar(text: string, p: nat, t: string, i: nat)
    requires On(text, p, t) && i < |t| && PieceOk(Line(t))
    ensures p + i < |text| && text[p + i] != '\n'
  {
    assert text[p + i] == text[p..p + |t|][i] == t[i];
  }

  lemma CommentStep(to: Rel, text: string, args: seq<string>, start: nat, p: nat)
    requires Reading(to, text)
    requires start <= p < |text| && text[p] != '\n'
    ensures to(Config(St(args, Comment, false, false), start, p), Config(St(args, Comment, false, false), start, p + 1))
  {
    var st := St(args, Comment, false, false);
    Go1(to, text, st, start, p, st, Keep);
  }

  /** The characters of a comment do not matter. */
  lemma {:induction false} InComment(to: Rel, text: string, args: seq<string>, start: nat, p: nat, t: string, n: nat)
    requires Reading(to, text)
    requires start <= p <= |text| && On(text, p, t) && n <= |t| && PieceOk(Line(t))
    ensures to(Config(St(args, Comment, false, false), start, p),
                  Config(St(args, Comment, false, false), start, p + n))
  {
    var st := St(args, Comment, false, false);
    if n == 0 {
      Stay(to, text, Config(st, start, p));
    } else {
      InComment(to, text, args, start, p, t, n - 1);
      CommentChar(text, p, t, n - 1);
      CommentStep(to, text, args, start, p + n - 1);
      Trans(to, text, Config(st, start, p), Config(st, start, p + n - 1), Config(st, start, p + n));
    }
  }

  lemma LineParts(text: string, p: nat, t: string)
    requires On(text, p, "#" + t + "\n")
    ensures p + 1 + |t| < |text| && text[p] == '#' && On(text, p + 1, t) && text[p + 1 + |t|] == '\n'
  {
    Cut(text, p, "#" + t + "\n", "#" + t, "\n");
    Cut(text, p, "#" + t, "#", t);
    OnFirst(text, p, "#");
    OnFirst(text, p + 1 + |t|, "\n");
  }

  function Remark(args: seq<string>): St {
    St(args, Comment, false, false)
  }

  lemma OpenLine(to: Rel, text: string, args: seq<string>, start: nat, p: nat)
    requires Reading(to, text)
    requires start <= p < |text| && text[p] == '#'
    ensures to(Config(Ready(args), start, p), Config(Remark(args), p, p + 1))
  {
    Go1(to, text, Ready(args), start, p, Remark(args), Here);
  }

  lemma CloseLine(to: Rel, text: string, args: seq<string>, start: nat, p: nat)
    requires Reading(to, text)
    requires start <= p < |text| && text[p] == '\n'
    ensures to(Config(Remark(args), start, p), Config(Ready(args), p, p + 1))
  {
    Go1(to, text, Remark(args), start, p, Ready(args), Here);
  }

  lemma RestOfLine(to: Rel, text: string, args: seq<string>, start: nat, p: nat, t: string, e: nat)
    requires Reading(to, text)
    requires start <= p <= e < |text| && SpannedTo(text, p, t, e) && text[e] == '\n'
    ensures to(Config(Remark(args), start, p), Config(Ready(args), e, e + 1))
  {
    InComment(to, text, args, start, p, t, |t|);
    CloseLine(to, text, args, start, e);
    Trans(to, text, Config(Remark(args), start, p), Config(Remark(args), start, e), Config(Ready(args), e, e + 1));
  }

  ghost predicate DrawnTo(text: string, p: nat, piece: Piece, q: nat) {
    (On(text, p, Drawn(piece)) && q == p + |Drawn(piece)| && q <= |text| && PieceOk(piece)) == true
  }

  lemma LineAt(text: string, p: nat, t: string, q: nat) returns (e: nat)
    requires DrawnTo(text, p, Line(t), q)
    ensures p + 1 <= e < |text| && q == e + 1 && text[p] == '#' && text[e] == '\n' && SpannedTo(text, p + 1, t, e)
  {
    e := p + 1 + |t|;
    LineDrawn(text, p, t, q);
    LineParts(text, p, t);
  }

  lemma LineDrawn(text: string, p: nat, t: string, q: nat)
    requires DrawnTo(text, p, Line(t), q)
    ensures On(text, p, "#" + t + "\n") && q == p + |t| + 2 <= |text|
  {
    assert |"#" + t + "\n"| == |t| + 2;
  }

  ghost predicate SpannedTo(text: string, p: nat, t: string, e: nat) {
    (On(text, p, t) && PieceOk(Line(t)) && e == p + |t|) == true
  }

  lemma WholeLine(to: Rel, text: string, args: seq<string>, start: nat, p: nat, t: string, e: nat)
    requires Reading(to, text)
    requires start <= p < e < |text| && text[p] == '#' && text[e] == '\n' && SpannedTo(text, p + 1, t, e)
    ensures to(Config(Ready(args), start, p), Config(Ready(args), e, e + 1))
  {
    OpenLine(to, text, args, start, p);
    RestOfLine(to, text, args, p, p + 1, t, e);
    Trans(to, text, Config(Ready(args), start, p), Config(Remark(args), p, p + 1), Config(Ready(args), e, e + 1));
  }

  lemma FillLine(to: Rel, text: string, args: seq<string>, start: nat, p: nat, t: string, q: nat) returns (e: nat)
    requires Reading(to, text)
    requires start <= p && DrawnTo(text, p, Line(t), q)
    ensures e <= q && to(Config(Ready(args), start, p), Config(Ready(args), e, q))
  {
    e := LineAt(text, p, t, q);
    WholeLine(to, text, args, start, p, t, e);
  }

  lemma FillSpace(to: Rel, text: string, args: seq<string>, start: nat, p: nat, c: char, q: nat)
    requires Reading(to, text)
    requires start <= p && DrawnTo(text, p, Space(c), q)
    ensures q == p + 1 && to(Config(Ready(args), start, p), Config(Ready(args), p, q))
  {
    OnFirst(text, p, [c]);
    Go1(to, text, Ready(args), start, p, Ready(args), Here);
  }

  lemma FillOne(to: Rel, text: string, args: seq<string>, start: nat, p: nat, piece: Piece, q: nat) returns (s: nat)
    requires Reading(to, text)
    requires start <= p < q && DrawnTo(text, p, piece, q)
    ensures s <= q && to(Config(Ready(args), start, p), Config(Ready(args), s, q))
  {
    match piece {
      case Space(c) =>
        s := p;
        FillSpace(to, text, args, start, p, c, q);
      case Line(t) =>
        s := FillLine(to, text, args, start, p, t, q);
    }
  }

  /** The reader stands before blanks and comments that end at `end`. */
  ghost predicate FilledTo(text: string, p: nat, ps: List<Piece>, end: nat) {
    (On(text, p, Fill(ps)) && PiecesOk(ps) && end == p + |Fill(ps)| && end <= |text|) == true
  }

  lemma FillParts(text: string, p: nat, first: Piece, rest: List<Piece>, end: nat) returns (q: nat)
    requires FilledTo(text, p, Cons(first, rest), end)
    ensures DrawnTo(text, p, first, q) && FilledTo(text, q, rest, end) && p < q
  {
    q := p + |Drawn(first)|;
    Cut(text, p, Fill(Cons(first, rest)), Drawn(first), Fill(rest));
  }

  /** Blanks and comments between words do not matter. */
  lemma {:induction false} FillAll(to: Rel, text: string, args: seq<string>, start: nat, p: nat, ps: List<Piece>,
                                   end: nat) returns (s: nat)
    requires Reading(to, text)
    requires start <= p && FilledTo(text, p, ps, end)
    ensures s <= end && to(Config(Ready(args), start, p), Config(Ready(args), s, end))
    decreases ps
  {
    match ps {
      case Nil =>
        s := start;
        Stay(to, text, Config(Ready(args), start, p));
      case Cons(first, rest) =>
        var q := FillParts(text, p, first, rest, end);
        var s1 := FillOne(to, text, args, start, p, first, q);
        s := FillAll(to, text, args, s1, q, rest, end);
        Trans(to, text, Config(Ready(args), start, p), Config(Ready(args), s1, q), Config(Ready(args), s, end));
    }
  }

  // ----- the letters of a word

  /** A letter that does not end a word. */
  predicate LetterOk(mode: Mode, v: bool, l: Letter) {
    match mode
    case Plain => BareLetter(v, l)
    case Single => l.Lit? ==> l.c != '\\' && l.c != '\''
    case Double => l.Lit? ==> l.c != '\\' && l.c != '"'
    case _ => false
  }

  lemma LitStep(to: Rel, text: string, args: seq<string>, mode: Mode, v: bool, start: nat, p: nat, c: char)
    requires Reading(to, text) && start <= p < |text| && text[p] == c && LetterOk(mode, v, Lit(c))
    ensures to(Config(InWord(args, mode, v), start, p), Config(InWord(args, mode, Open(v, Lit(c))), start, p + 1))
  {
    Go1(to, text, InWord(args, mode, v), start, p, InWord(args, mode, Open(v, Lit(c))), Keep);
  }

  lemma EscStep(to: Rel, text: string, args: seq<string>, mode: Mode, v: bool, start: nat, p: nat)
    requires Reading(to, text) && start <= p && p + 1 < |text| && text[p] == '\\'
    requires mode == Plain || mode == Single || mode == Double
    ensures to(Config(InWord(args, mode, v), start, p), Config(InWord(args, mode, false), start, p + 2))
  {
    var st := St(args, mode, false, true);
    Go1(to, text, InWord(args, mode, v), start, p, st, Keep);
    Go1(to, text, st, start, p + 1, InWord(args, mode, false), Keep);
    Trans(to, text, Config(InWord(args, mode, v), start, p), Config(st, start, p + 1),
          Config(InWord(args, mode, false), start, p + 2));
  }

  lemma OneLetter(to: Rel, text: string, args: seq<string>, mode: Mode, v: bool, start: nat, p: nat, l: Letter)
    requires Reading(to, text) && start <= p && On(text, p, Spell(l)) && LetterOk(mode, v, l)
    ensures to(Config(InWord(args, mode, v), start, p), Config(InWord(args, mode, Open(v, l)), start, p + |Spell(l)|))
  {
    OnFirst(text, p, Spell(l));
    match l {
      case Lit(c) => LitStep(to, text, args, mode, v, start, p, c);
      case Esc(c) => EscStep(to, text, args, mode, v, start, p);
    }
  }

  ghost predicate LettersOk(mode: Mode, v: bool, ls: List<Letter>)
    decreases ls
  {
    match ls
    case Nil => true
    case Cons(l, rest) => LetterOk(mode, v, l) && LettersOk(mode, Open(v, l), rest)
  }

  /** The reader stands before letters that end at `end`. */
  ghost predicate SpeltTo(text: string, p: nat, ls: List<Letter>, end: nat) {
    (On(text, p, SpellAll(ls)) && end == p + |SpellAll(ls)| && end <= |text|) == true
  }

  lemma LetterParts(text: string, p: nat, l: Letter, rest: List<Letter>, end: nat)
    requires SpeltTo(text, p, Cons(l, rest), end)
    ensures On(text, p, Spell(l)) && SpeltTo(text, p + |Spell(l)|, rest, end) && p + |Spell(l)| <= end <= |text|
  {
    Cut(text, p, SpellAll(Cons(l, rest)), Spell(l), SpellAll(rest));
  }

  function InWord(args: seq<string>, mode: Mode, v: bool): St {
    St(args, mode, v, false)
  }

  lemma {:induction false} Letters(to: Rel, text: string, args: seq<string>, mode: Mode, v: bool, start: nat, p: nat,
                                   ls: List<Letter>, end: nat, v': bool)
    requires Reading(to, text)
    requires start <= p && SpeltTo(text, p, ls, end) && LettersOk(mode, v, ls) && v' == OpenAfter(v, ls)
    ensures to(Config(InWord(args, mode, v), start, p), Config(InWord(args, mode, v'), start, end))
    decreases ls
  {
    match ls {
      case Nil => Stay(to, text, Config(InWord(args, mode, v), start, p));
      case Cons(l, rest) =>
        var u, q := Open(v, l), p + |Spell(l)|;
        LetterParts(text, p, l, rest, end);
        OneLetter(to, text, args, mode, v, start, p, l);
        Letters(to, text, args, mode, u, start, q, rest, end, v');
        Trans(to, text, Config(InWord(args, mode, v), start, p), Config(InWord(args, mode, u), start, q),
                   Config(InWord(args, mode, v'), start, end));
    }
  }

  lemma {:induction false} BareAreOk(v: bool, ls: List<Letter>)
    requires BareLetters(v, ls)
    ensures LettersOk(Plain, v, ls) && Spelled(ls)
    decreases ls
  {
    if ls.Cons? {
      BareAreOk(Open(v, ls.head), ls.tail);
    }
  }

  lemma {:induction false} QuotedAreOk(mark: char, mode: Mode, v: bool, ls: List<Letter>)
    requires QuotedLetters(mark, ls) && MarkMode(mark, mode)
    ensures LettersOk(mode, v, ls) && Spelled(ls)
    decreases ls
  {
    if ls.Cons? {
      QuotedAreOk(mark, mode, Open(v, ls.head), ls.tail);
    }
  }

  predicate MarkMode(mark: char, mode: Mode) {
    (mark == '"' && mode == Double) || (mark == '\'' && mode == Single)
  }

  /** No backslash stands for itself alone. */
  predicate Spelled(ls: List<Letter>) {
    match ls
    case Nil => true
    case Cons(l, rest) => (l.Lit? ==> l.c != '\\') && Spelled(rest)
  }

  lemma UnescapeLetter(text: string, p: nat, end: nat, l: Letter, rest: string)
    requires On(text, p, Spell(l)) && p + |Spell(l)| <= end < |text| && (l.Lit? ==> l.c != '\\')
    requires Unescape(text, p + |Spell(l)|, end) == rest
    ensures Unescape(text, p, end) == Mean(l) + rest
  {
    OnFirst(text, p, Spell(l));
    if l.Esc? && !IsEscape(l.c) {
      assert Unescape(text, p + 1, end) == [l.c] + rest;
      assert Unescape(text, p, end) == ['\\'] + ([l.c] + rest);
      assert ['\\', l.c] + rest == ['\\'] + ([l.c] + rest);
    }
  }

  /** The copying loop gives every letter its meaning. */
  lemma {:induction false} UnescapeAll(text: string, p: nat, ls: List<Letter>, end: nat)
    requires SpeltTo(text, p, ls, end) && end < |text| && Spelled(ls)
    ensures Unescape(text, p, end) == MeanAll(ls)
    decreases ls
  {
    match ls {
      case Nil =>
      case Cons(l, rest) =>
        LetterParts(text, p, l, rest, end);
        UnescapeAll(text, p + |Spell(l)|, rest, end);
        UnescapeLetter(text, p, end, l, MeanAll(rest));
    }
  }

  // ----- words

  /** Where the reader is behind a word. */
  ghost predicate Behind1(text: string, args: seq<string>, w: Word, d: Config) {
    match w
    case Bare(ls) =>
      && d.start <= d.pos < |text| && d.st == St(args, Plain, OpenAfter(false, ls), false)
      && Unescape(text, d.start, d.pos) == Value(w)
    case Quoted(_, _) => d.start <= d.pos <= |text| && d.st == Closed(args + [Value(w)])
  }

  lemma QuotedParts(text: string, p: nat, w: Word, e: nat)
    requires w.Quoted? && On(text, p, Written(w)) && e == p + 1 + |SpellAll(w.ls)|
    ensures SpeltTo(text, p + 1, w.ls, e) && e < |text| && text[p] == w.mark == text[e] && p + |Written(w)| == e + 1
  {
    Cut(text, p, Written(w), [w.mark] + SpellAll(w.ls), [w.mark]);
    Cut(text, p, [w.mark] + SpellAll(w.ls), [w.mark], SpellAll(w.ls));
    OnFirst(text, p, [w.mark]);
    OnFirst(text, e, [w.mark]);
  }

  lemma OpenQuote(to: Rel, text: string, args: seq<string>, start: nat, p: nat, mode: Mode)
    requires Reading(to, text)
    requires start <= p < |text| && MarkMode(text[p], mode)
    ensures to(Config(Ready(args), start, p), Config(InWord(args, mode, false), p + 1, p + 1))
  {
    Go1(to, text, Ready(args), start, p, InWord(args, mode, false), Where.Next);
  }

  lemma CloseQuote(to: Rel, text: string, args: seq<string>, v: bool, start: nat, p: nat, mode: Mode, value: string)
    requires Reading(to, text)
    requires start <= p < |text| && MarkMode(text[p], mode) && Unescape(text, start, p) == value
    ensures to(Config(InWord(args, mode, v), start, p), Config(Closed(args + [value]), start, p + 1))
  {
    Go1(to, text, InWord(args, mode, v), start, p, Closed(args + [value]), Keep);
  }

  /** From behind the opening quote to behind the closing one. */
  lemma QuotedBody(to: Rel, text: string, args: seq<string>, p: nat, w: Word, e: nat, mode: Mode, v: bool)
    requires Reading(to, text)
    requires w.Quoted? && WordOk(w) && SpeltTo(text, p, w.ls, e) && e < |text| && text[e] == w.mark
    requires MarkMode(w.mark, mode) && v == OpenAfter(false, w.ls)
    ensures to(Config(InWord(args, mode, false), p, p), Config(Closed(args + [Value(w)]), p, e + 1))
  {
    QuotedAreOk(w.mark, mode, false, w.ls);
    Letters(to, text, args, mode, false, p, p, w.ls, e, v);
    UnescapeAll(text, p, w.ls, e);
    CloseQuote(to, text, args, v, p, e, mode, Value(w));
    Trans(to, text, Config(InWord(args, mode, false), p, p), Config(InWord(args, mode, v), p, e),
               Config(Closed(args + [Value(w)]), p, e + 1));
  }

  lemma QuotedWord(to: Rel, text: string, args: seq<string>, start: nat, p: nat, w: Word, e: nat)
    requires Reading(to, text)
    requires start <= p && w.Quoted? && WordOk(w) && On(text, p, Written(w)) && e == p + 1 + |SpellAll(w.ls)|
    ensures p + |Written(w)| == e + 1
    ensures to(Config(Ready(args), start, p), Config(Closed(args + [Value(w)]), p + 1, e + 1))
  {
    var mode := if w.mark == '"' then Double else Single;
    QuotedParts(text, p, w, e);
    OpenQuote(to, text, args, start, p, mode);
    QuotedBody(to, text, args, p + 1, w, e, mode, OpenAfter(false, w.ls));
    Trans(to, text, Config(Ready(args), start, p), Config(InWord(args, mode, false), p + 1, p + 1),
               Config(Closed(args + [Value(w)]), p + 1, e + 1));
  }

  lemma BareLit(to: Rel, text: string, args: seq<string>, start: nat, p: nat, c: char)
    requires Reading(to, text)
    requires start <= p < |text| && text[p] == c && BareLetter(false, Lit(c)) && !Special(c)
    ensures to(Config(Ready(args), start, p), Config(InWord(args, Plain, c == '$'), p, p + 1))
  {
    Go1(to, text, Ready(args), start, p, InWord(args, Plain, c == '$'), Here);
  }

  lemma BareEsc(to: Rel, text: string, args: seq<string>, start: nat, p: nat)
    requires Reading(to, text)
    requires start <= p && p + 1 < |text| && text[p] == '\\'
    ensures to(Config(Ready(args), start, p), Config(InWord(args, Plain, false), p, p + 2))
  {
    var st := St(args, Plain, false, true);
    Go1(to, text, Ready(args), start, p, st, Here);
    Go1(to, text, st, p, p + 1, InWord(args, Plain, false), Keep);
    Trans(to, text, Config(Ready(args), start, p), Config(st, p, p + 1), Config(InWord(args, Plain, false), p, p + 2));
  }

  /** The first letter of a word without quotes. */
  lemma BareHead(to: Rel, text: string, args: seq<string>, start: nat, p: nat, l: Letter, q: nat, v: bool)
    requires Reading(to, text)
    requires start <= p && On(text, p, Spell(l)) && BareLetter(false, l) && (l.Lit? ==> !Special(l.c))
    requires q == p + |Spell(l)| && v == Open(false, l)
    ensures to(Config(Ready(args), start, p), Config(InWord(args, Plain, v), p, q))
  {
    OnFirst(text, p, Spell(l));
    match l {
      case Lit(c) => BareLit(to, text, args, start, p, c);
      case Esc(c) => BareEsc(to, text, args, start, p);
    }
  }

  lemma BareWord(to: Rel, text: string, args: seq<string>, start: nat, p: nat, l: Letter, rest: List<Letter>, e: nat,
                 v: bool)
    requires Reading(to, text)
    requires start <= p && SpeltTo(text, p, Cons(l, rest), e) && WordOk(Bare(Cons(l, rest)))
    requires v == OpenAfter(Open(false, l), rest)
    ensures to(Config(Ready(args), start, p), Config(InWord(args, Plain, v), p, e))
  {
    var q, u := p + |Spell(l)|, Open(false, l);
    LetterParts(text, p, l, rest, e);
    BareHead(to, text, args, start, p, l, q, u);
    BareAreOk(u, rest);
    Letters(to, text, args, Plain, u, p, q, rest, e, v);
    Trans(to, text, Config(Ready(args), start, p), Config(InWord(args, Plain, u), p, q),
               Config(InWord(args, Plain, v), p, e));
  }

  lemma AnyWord(to: Rel, text: string, args: seq<string>, start: nat, p: nat, w: Word, e: nat) returns (d: Config)
    requires Reading(to, text)
    requires start <= p && WordOk(w) && On(text, p, Written(w)) && e == p + |Written(w)| < |text|
    ensures to(Config(Ready(args), start, p), d) && Behind1(text, args, w, d) && d.pos == e
  {
    match w {
      case Bare(ls) =>
        BareWord(to, text, args, start, p, ls.head, ls.tail, e, OpenAfter(false, ls));
        BareAreOk(false, ls);
        UnescapeAll(text, p, ls, e);
        d := Config(InWord(args, Plain, OpenAfter(false, ls)), p, e);
      case Quoted(_, ls) =>
        QuotedWord(to, text, args, start, p, w, p + 1 + |SpellAll(ls)|);
        d := Config(Closed(args + [Value(w)]), p + 1, e);
    }
  }

  // ----- behind a word

  lemma ThenBlank(to: Rel, text: string, args: seq<string>, w: Word, d: Config)
    requires Reading(to, text)
    requires Behind1(text, args, w, d) && d.pos < |text| && BlankChar(text[d.pos])
    ensures to(d, Config(Ready(args + [Value(w)]), d.start, d.pos + 1))
  {
    Go1(to, text, d.st, d.start, d.pos, Ready(args + [Value(w)]), Keep);
  }

  /** A semicolon ends a directive, an opening brace starts a block, and a closing brace is wrong behind words. */
  function Ended(end: char): Outcome {
    if end == ';' then Ok else if end == '{' then BlockStart else Error
  }

  /** Behind a quote, a closing parenthesis begins a word. */
  lemma ThenParen(to: Rel, text: string, args: seq<string>, d: Config)
    requires Reading(to, text) && d.start <= d.pos < |text| && text[d.pos] == ')' && d.st == Closed(args)
    ensures to(d, Config(Ready(args), d.start, d.pos))
  {
    assert Parenthesis(to, text);
  }

  // ----- directives

  /** What stands behind the last word ends the directive. */
  lemma LastEnd(to: Rel, text: string, args: seq<string>, start: nat, p: nat, tail: List<Piece>, end: char, e: nat)
      returns (z: Config)
    requires Reading(to, text)
    requires start <= p && On(text, p, Fill(tail) + [end]) && e == p + |Fill(tail)|
    requires PiecesOk(tail) && args != [] && (end == ';' || end == '{' || end == '}')
    ensures to(Config(Ready(args), start, p), z) && Does(text, z, Stop(Ended(end), args)) && z.pos == e
  {
    Cut(text, p, Fill(tail) + [end], Fill(tail), [end]);
    OnFirst(text, e, [end]);
    var s := FillAll(to, text, args, start, p, tail, e);
    z := Config(Ready(args), s, e);
  }

  /** A first piece that is a blank leaves the others. */
  lemma DropSpace(text: string, p: nat, c: char, ps: List<Piece>, rest: string)
    requires On(text, p, Fill(Cons(Space(c), ps)) + rest)
    ensures p < |text| && text[p] == c && On(text, p + 1, Fill(ps) + rest)
    ensures |Fill(Cons(Space(c), ps))| == 1 + |Fill(ps)|
  {
    Regroup3(c, Fill(ps), rest);
    Cut(text, p, Fill(Cons(Space(c), ps)) + rest, [c], Fill(ps) + rest);
    OnFirst(text, p, [c]);
  }

  lemma Regroup3(c: char, a: string, b: string)
    ensures [c] + a + b == [c] + (a + b)
  {
  }

  /** Behind the last word. */
  lemma BehindLast(to: Rel, text: string, args: seq<string>, w: Word, d: Config, tail: List<Piece>, end: char, e: nat)
      returns (z: Config)
    requires Reading(to, text)
    requires Behind1(text, args, w, d) && On(text, d.pos, Fill(tail) + [end]) && e == d.pos + |Fill(tail)|
    requires PiecesOk(tail) && Ending(w, tail, end)
    ensures to(d, z) && Does(text, z, Stop(Ended(end), args + [Value(w)])) && z.pos == e
  {
    match tail {
      case Nil =>
        assert Fill(tail) + [end] == [end];
        OnFirst(text, d.pos, [end]);
        Stay(to, text, d);
        z := d;
      case Cons(first, rest) =>
        var all := args + [Value(w)];
        DropSpace(text, d.pos, first.c, rest, [end]);
        ThenBlank(to, text, args, w, d);
        z := LastEnd(to, text, all, d.start, d.pos + 1, rest, end, e);
        Trans(to, text, d, Config(Ready(all), d.start, d.pos + 1), z);
    }
  }

  /** The reader stands before a directive that ends at e. */
  ghost predicate Before(text: string, p: nat, items: List<Item>, tail: List<Piece>, end: char, e: nat) {
    (On(text, p, Layout(items, tail, end)) && Directive(items, tail, end)
     && e + 1 == p + |Layout(items, tail, end)|) == true
  }

  /** The reader stands behind a word, and before the rest of a directive that ends at e. */
  ghost predicate Rest(text: string, rest: List<Item>, tail: List<Piece>, end: char, r: nat, e: nat) {
    (On(text, r, Layout(rest, tail, end)) && e + 1 == r + |Layout(rest, tail, end)|) == true
  }

  lemma {:induction false} LayoutNotEmpty(items: List<Item>, tail: List<Piece>, end: char)
    ensures |Layout(items, tail, end)| > 0
  {
    if items.Cons? {
      LayoutNotEmpty(items.tail, tail, end);
    }
  }

  lemma FirstParts(text: string, p: nat, it: Item, rest: List<Item>, tail: List<Piece>, end: char, e: nat)
      returns (q: nat, r: nat)
    requires Before(text, p, Cons(it, rest), tail, end, e)
    ensures WordOk(it.word) && FilledTo(text, p, it.gap, q) && On(text, q, Written(it.word))
    ensures r == q + |Written(it.word)| < |text| && Rest(text, rest, tail, end, r, e)
  {
    var a, b, c := Fill(it.gap), Written(it.word), Layout(rest, tail, end);
    q := p + |a|;
    r := q + |b|;
    LayoutNotEmpty(rest, tail, end);
    Cut(text, p, Layout(Cons(it, rest), tail, end), a, b + c);
    Cut(text, q, b + c, b, c);
  }

  /** The reader gets to the end of the first word. */
  lemma FirstWord(to: Rel, text: string, args: seq<string>, start: nat, p: nat, it: Item, rest: List<Item>,
                  tail: List<Piece>, end: char, e: nat) returns (d: Config)
    requires Reading(to, text) && start <= p && Before(text, p, Cons(it, rest), tail, end, e)
    ensures to(Config(Ready(args), start, p), d) && Behind1(text, args, it.word, d)
    ensures Rest(text, rest, tail, end, d.pos, e)
  {
    var q, r := FirstParts(text, p, it, rest, tail, end, e);
    var s := FillAll(to, text, args, start, p, it.gap, q);
    d := AnyWord(to, text, args, s, q, it.word, r);
    Trans(to, text, Config(Ready(args), start, p), Config(Ready(args), s, q), d);
  }

  lemma Regroup(args: seq<string>, x: string, rest: seq<string>)
    ensures args + ([x] + rest) == args + [x] + rest && args + ([x] + []) == args + [x]
  {
  }

  /** The words from one that the reader stands before. */
  lemma {:induction false} LexItems(to: Rel, text: string, args: seq<string>, start: nat, p: nat, it: Item,
                                    rest: List<Item>, tail: List<Piece>, end: char, e: nat) returns (z: Config)
    requires Reading(to, text) && start <= p && Before(text, p, Cons(it, rest), tail, end, e)
    ensures to(Config(Ready(args), start, p), z) && z.pos == e
    ensures Does(text, z, Stop(Ended(end), args + ([Value(it.word)] + Values(rest))))
    decreases rest, 1
  {
    var d := FirstWord(to, text, args, start, p, it, rest, tail, end, e);
    Regroup(args, Value(it.word), Values(rest));
    Parts(text, p, it, rest, tail, end, e);
    match rest {
      case Nil => z := BehindLast(to, text, args, it.word, d, tail, end, e);
      case Cons(next, more) => z := BehindMore(to, text, args, it.word, next, more, tail, end, d, e);
    }
    Trans(to, text, Config(Ready(args), start, p), d, z);
  }

  lemma Parts(text: string, p: nat, it: Item, rest: List<Item>, tail: List<Piece>, end: char, e: nat)
    requires Before(text, p, Cons(it, rest), tail, end, e)
    ensures rest.Nil? ==> PiecesOk(tail) && Ending(it.word, tail, end)
    ensures rest.Cons? ==> Separate(it.word, rest.head) && Directive(rest, tail, end)
  {
  }

  /** Behind a word that is not the last. */
  lemma {:induction false} BehindMore(to: Rel, text: string, args: seq<string>, w: Word, next: Item, more: List<Item>,
                                      tail: List<Piece>, end: char, d: Config, e: nat) returns (z: Config)
    requires Reading(to, text) && Behind1(text, args, w, d) && Rest(text, Cons(next, more), tail, end, d.pos, e)
    requires Separate(w, next) && Directive(Cons(next, more), tail, end)
    ensures to(d, z) && z.pos == e
    ensures Does(text, z, Stop(Ended(end), args + [Value(w)] + ([Value(next.word)] + Values(more))))
    decreases more, 2
  {
    var all := args + [Value(w)];
    if next.gap.Cons? {
      var less := next.(gap := next.gap.tail);
      GapDropped(text, d.pos, next, more, tail, end, less, e);
      ThenBlank(to, text, args, w, d);
      z := LexItems(to, text, all, d.start, d.pos + 1, less, more, tail, end, e);
      Trans(to, text, d, Config(Ready(all), d.start, d.pos + 1), z);
    } else {
      ParenFirst(text, d.pos, next, more, tail, end, e);
      ThenParen(to, text, all, d);
      z := LexItems(to, text, all, d.start, d.pos, next, more, tail, end, e);
      Trans(to, text, d, Config(Ready(all), d.start, d.pos), z);
    }
  }

  lemma GapDropped(text: string, p: nat, next: Item, more: List<Item>, tail: List<Piece>, end: char, less: Item, e: nat)
    requires next.gap.Cons? && next.gap.head.Space? && less == next.(gap := next.gap.tail)
    requires Rest(text, Cons(next, more), tail, end, p, e) && Directive(Cons(next, more), tail, end)
    ensures p < |text| && BlankChar(text[p]) && Before(text, p + 1, Cons(less, more), tail, end, e)
    ensures Value(less.word) == Value(next.word)
  {
    assert next.gap == Cons(Space(next.gap.head.c), next.gap.tail);
    DropSpace(text, p, next.gap.head.c, next.gap.tail, Written(next.word) + Layout(more, tail, end));
  }

  lemma ParenFirst(text: string, p: nat, next: Item, more: List<Item>, tail: List<Piece>, end: char, e: nat)
    requires next.gap.Nil? && next.word.Bare? && next.word.ls.Cons? && next.word.ls.head == Lit(')')
    requires Rest(text, Cons(next, more), tail, end, p, e) && Directive(Cons(next, more), tail, end)
    ensures p < |text| && text[p] == ')' && Before(text, p, Cons(next, more), tail, end, e)
  {
    assert Before(text, p, Cons(next, more), tail, end, e);
    var q, r := FirstParts(text, p, next, more, tail, end, e);
    var ls := next.word.ls;
    Cut(text, q, SpellAll(ls), Spell(ls.head), SpellAll(ls.tail));
    OnFirst(text, q, Spell(ls.head));
  }

  /** What is read when the reader stops. */
  lemma Stops(text: string, p: nat, z: Config, outcome: Outcome, args: seq<string>)
    requires Leads(text, Config(BEGIN, p, p), z) && Does(text, z, Stop(outcome, args))
    ensures Lex(text, BEGIN, p, p) == Token(outcome, args, z.pos + 1)
  {
    assert Gives(text, z, Token(outcome, args, z.pos + 1));
    LeadsYields(text, Config(BEGIN, p, p), z, Token(outcome, args, z.pos + 1));
    assert Gives(text, Config(BEGIN, p, p), Token(outcome, args, z.pos + 1));
  }

  /**
    A directive is read as the meanings of its words, whatever blanks and comments
    stand between them, and its end says whether a block starts.
   */
  lemma DirectiveLaw(text: string, p: nat, items: List<Item>, tail: List<Piece>, end: char)
    requires Directive(items, tail, end) && At(text, p, Layout(items, tail, end))
    ensures Lex(text, BEGIN, p, p)
         == Token(Ended(end), Values(items), p + |Layout(items, tail, end)|)
  {
    var e := p + |Layout(items, tail, end)| - 1;
    LayoutNotEmpty(items, tail, end);
    LeadsReads(text);
    var z := LexItems((c, d) => Leads(text, c, d), text, [], p, p, items.head, items.tail, tail, end, e);
    assert [] + ([Value(items.head.word)] + Values(items.tail)) == Values(items) && Ready([]) == BEGIN;
    Stops(text, p, z, Ended(end), Values(items));
  }

  /** The reader gives the same, unless a word or a comment is too long for its buffer. */
  lemma DirectiveRead(text: string, p: nat, items: List<Item>, tail: List<Piece>, end: char,
                      outcome: Outcome, args: seq<string>, pos: int)
    requires Directive(items, tail, end) && At(text, p, Layout(items, tail, end))
    requires Answered(text, p, outcome, args, pos)
    ensures outcome == TooLong
      || (outcome == Ended(end) && args == Values(items) && pos == p + |Layout(items, tail, end)|)
  {
    DirectiveLaw(text, p, items, tail, end);
    assert RightAnswer(text, p, outcome, args, pos);
  }

  // ----- without words, and what is not a directive

  /** Blanks and comments at the beginning. */
  lemma Beginning(text: string, p: nat, ps: List<Piece>, e: nat) returns (s: nat)
    requires FilledTo(text, p, ps, e)
    ensures s <= e && Leads(text, Config(BEGIN, p, p), Config(BEGIN, s, e))
  {
    LeadsReads(text);
    s := FillAll((c, d) => Leads(text, c, d), text, [], p, p, ps, e);
    assert Ready([]) == BEGIN;
  }

  /** Behind blanks and comments, `}` ends a block, and an end without words is an error. */
  lemma NoWords(text: string, p: nat, ps: List<Piece>, end: char)
    requires PiecesOk(ps) && At(text, p, Fill(ps) + [end]) && (end == ';' || end == '{' || end == '}')
    ensures Lex(text, BEGIN, p, p) == Token(if end == '}' then BlockDone else Error, [], p + |Fill(ps)| + 1)
  {
    var e := p + |Fill(ps)|;
    Cut(text, p, Fill(ps) + [end], Fill(ps), [end]);
    OnFirst(text, e, [end]);
    var s := Beginning(text, p, ps, e);
    Stops(text, p, Config(BEGIN, s, e), if end == '}' then BlockDone else Error, []);
  }

  /** A comment up to the end of the file, without the end of its line. */
  predicate OpenComment(comment: string) {
    comment == "" || (comment[0] == '#' && PieceOk(Line(comment)))
  }

  /** Only blanks and comments up to the end of the file. */
  lemma NothingLeft(text: string, p: nat, ps: List<Piece>, comment: string)
    requires PiecesOk(ps) && p <= |text| && text[p..] == Fill(ps) + comment && OpenComment(comment)
    ensures Lex(text, BEGIN, p, p) == Token(FileDone, [], |text|)
  {
    var e := p + |Fill(ps)|;
    assert text[p..p + |Fill(ps) + comment|] == Fill(ps) + comment;
    Cut(text, p, Fill(ps) + comment, Fill(ps), comment);
    var s := Beginning(text, p, ps, e);
    var c, k := Config(BEGIN, s, e), Token(FileDone, [], |text|);
    if comment == "" {
      assert Gives(text, c, k);
    } else {
      LeadsReads(text);
      var d := ToTheEnd((c, d) => Leads(text, c, d), text, s, e, comment);
      assert Gives(text, d, k);
      LeadsYields(text, c, d, k);
    }
    LeadsYields(text, Config(BEGIN, p, p), c, k);
    assert Gives(text, Config(BEGIN, p, p), k);
  }

  lemma ToTheEnd(to: Rel, text: string, start: nat, p: nat, comment: string) returns (d: Config)
    requires Reading(to, text) && start <= p && On(text, p, comment) && p + |comment| == |text| && comment != ""
    requires OpenComment(comment)
    ensures to(Config(BEGIN, start, p), d) && d == Config(Remark([]), p, |text|) && p <= |text|
  {
    var t := comment[1..];
    assert comment == "#" + t;
    Cut(text, p, comment, "#", t);
    OnFirst(text, p, "#");
    OpenLine(to, text, [], start, p);
    InComment(to, text, [], p, p + 1, t, |t|);
    d := Config(Remark([]), p, |text|);
    Trans(to, text, Config(BEGIN, start, p), Config(Remark([]), p, p + 1), d);
  }

  /** A reader that has a word, or is in one, does not find the end of the configuration. */
  lemma {:induction false} NotDone(text: string, st: St, start: nat, pos: nat)
    requires start <= pos <= |text| && (st.args != [] || st.mode == Plain || st.mode == Single || st.mode == Double)
    ensures Lex(text, st, start, pos).outcome != FileDone
    decreases |text| - pos
  {
    if pos < |text| {
      match Step(text, st, start, pos) {
        case Go(st', at) => NotDone(text, st', NewStart(at, start, pos), pos + 1);
        case Stop(_, _) =>
      }
    }
  }

  /** What is left is blanks and comments, the last of which need not end. */
  ghost predicate Leaves(left: string, ps: List<Piece>, comment: string) {
    PiecesOk(ps) && OpenComment(comment) && left == Fill(ps) + comment
  }

  /** Where a comment ends: behind it comes the end of its line or of the text. */
  lemma {:induction false} LineEnd(t: string) returns (n: nat)
    ensures n <= |t| && PieceOk(Line(t[..n])) && (n < |t| ==> t[n] == '\n')
  {
    n := 0;
    if t != "" && t[0] != '\n' {
      n := LineEnd(t[1..]);
      n := n + 1;
      assert forall i :: 1 <= i < n ==> t[i] == t[1..][..n - 1][i - 1];
    }
  }

  /** Something that is no blank and no comment. */
  predicate Other(s: string) {
    s != "" && !BlankChar(s[0]) && s[0] != '#'
  }

  lemma OneMorePiece(s: string, c: Piece, rest: string, ps: List<Piece>, tail: string)
    requires PieceOk(c) && PiecesOk(ps) && s == Drawn(c) + rest && rest == Fill(ps) + tail
    ensures PiecesOk(Cons(c, ps)) && s == Fill(Cons(c, ps)) + tail
  {
    assert Drawn(c) + (Fill(ps) + tail) == Drawn(c) + Fill(ps) + tail;
  }

  /** Every text is blanks and comments, and then an open comment or something else. */
  lemma {:induction false} Stripped(s: string) returns (ps: List<Piece>, tail: string)
    ensures PiecesOk(ps) && s == Fill(ps) + tail && (OpenComment(tail) || Other(tail))
    decreases |s|
  {
    if s == "" || Other(s) {
      ps, tail := Nil, s;
    } else if BlankChar(s[0]) {
      ps, tail := Stripped(s[1..]);
      OneMorePiece(s, Space(s[0]), s[1..], ps, tail);
      ps := Cons(Space(s[0]), ps);
    } else {
      var t := s[1..];
      var n := LineEnd(t);
      if n == |t| {
        assert t[..n] == t && PieceOk(Line(t));
        OpenIsOpen(s, t);
        ps, tail := Nil, s;
      } else {
        ps, tail := Stripped(t[n + 1..]);
        assert s == "#" + t[..n] + "\n" + t[n + 1..];
        OneMorePiece(s, Line(t[..n]), t[n + 1..], ps, tail);
        ps := Cons(Line(t[..n]), ps);
      }
    }
  }

  lemma OpenIsOpen(s: string, t: string)
    requires s == "#" + t && PieceOk(Line(t))
    ensures OpenComment(s)
  {
    assert forall i :: 0 < i < |s| ==> s[i] == t[i - 1];
  }

  lemma NotDoneHere(text: string, start: nat, pos: nat)
    requires start <= pos < |text| && !BlankChar(text[pos]) && text[pos] != '#'
    ensures Lex(text, BEGIN, start, pos).outcome != FileDone
  {
    match Step(text, BEGIN, start, pos) {
      case Go(st', at) => NotDone(text, st', NewStart(at, start, pos), pos + 1);
      case Stop(_, _) =>
    }
  }

  /** Behind blanks and comments, anything else begins a word or is an end. */
  lemma NotDoneBehind(text: string, p: nat, ps: List<Piece>, tail: string)
    requires p <= |text| && PiecesOk(ps) && text[p..] == Fill(ps) + tail && Other(tail)
    ensures Lex(text, BEGIN, p, p).outcome != FileDone
  {
    var e := p + |Fill(ps)|;
    assert text[p..p + |Fill(ps) + tail|] == Fill(ps) + tail;
    Cut(text, p, Fill(ps) + tail, Fill(ps), tail);
    OnFirst(text, e, tail);
    var s := Beginning(text, p, ps, e);
    NotDoneHere(text, s, e);
    var k := Lex(text, BEGIN, s, e);
    assert Gives(text, Config(BEGIN, s, e), k);
    LeadsYields(text, Config(BEGIN, p, p), Config(BEGIN, s, e), k);
    assert Gives(text, Config(BEGIN, p, p), k);
  }

  /** The end of the configuration is found exactly behind nothing but blanks and comments. */
  lemma FileDoneExactly(text: string, p: nat)
    requires p <= |text|
    ensures Lex(text, BEGIN, p, p).outcome == FileDone <==> exists ps, comment :: Leaves(text[p..], ps, comment)
  {
    var ps, tail := Stripped(text[p..]);
    if OpenComment(tail) {
      assert Leaves(text[p..], ps, tail);
      NothingLeft(text, p, ps, tail);
    } else {
      NotDoneBehind(text, p, ps, tail);
      if ps', comment :| Leaves(text[p..], ps', comment) {
        NothingLeft(text, p, ps', comment);
      }
    }
  }

  /** Behind a quoted word only a blank, an end or a closing parenthesis is right. */
  lemma AfterQuote(text: string, p: nat, gap: List<Piece>, w: Word, c: char)
    requires PiecesOk(gap) && w.Quoted? && WordOk(w) && At(text, p, Fill(gap) + (Written(w) + [c]))
    requires !BlankChar(c) && c != ';' && c != '{' && c != ')'
    ensures Lex(text, BEGIN, p, p) == Token(Error, [Value(w)], p + |Fill(gap)| + |Written(w)| + 1)
  {
    var q := p + |Fill(gap)|;
    var r := q + |Written(w)|;
    Cut(text, p, Fill(gap) + (Written(w) + [c]), Fill(gap), Written(w) + [c]);
    Cut(text, q, Written(w) + [c], Written(w), [c]);
    OnFirst(text, r, [c]);
    var s := Beginning(text, p, gap, q);
    LeadsReads(text);
    var d := AnyWord((c, d) => Leads(text, c, d), text, [], s, q, w, r);
    LeadsTrans(text, Config(BEGIN, p, p), Config(BEGIN, s, q), d);
    assert [] + [Value(w)] == [Value(w)];
    Stops(text, p, d, Error, [Value(w)]);
  }
}
