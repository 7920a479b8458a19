/**
  The reader of configuration words: a state machine over characters that takes
  them from a buffer of fixed size, refilled from the file while a word is kept.
  Lines are not counted, reading does not fail.
 */
module ConfToken {

  /** NGX_CONF_BUFFER */
  const BUFFER: int := 4096

  datatype Outcome = Ok | BlockStart | BlockDone | FileDone | Error | TooLong

  /**
    Where the reader is: between words (last_space), in a comment (sharp_comment),
    behind a closing quote (need_space), or in a word without quotes, in single
    quotes (s_quoted) or in double quotes (d_quoted).
   */
  datatype Mode = Blank | Comment | After | Plain | Single | Double

  /** The words so far, the mode, and the flags `variable` and `quoted` of ngx_conf_read_token. */
  datatype St = St(args: seq<string>, mode: Mode, variable: bool, quoted: bool)

  /** Where the current word starts after a character: where it did, at the character, or behind it. */
  datatype Where = Keep | Here | Next

  datatype Move = Go(st: St, at: Where) | Stop(outcome: Outcome, args: seq<string>)

  function NewStart(at: Where, start: int, pos: int): int {
    match at
    case Keep => start
    case Here => pos
    case Next => pos + 1
  }

  predicate IsSpace(c: char) {
    c == ' ' || c == '\t' || c == '\r' || c == '\n'
  }

  // ----- one character

  /** The characters that stand for themselves or for a control character behind a backslash. */
  predicate IsEscape(c: char) {
    c == '"' || c == '\'' || c == '\\' || c == 't' || c == 'r' || c == 'n'
  }

  function Resolve(c: char): char {
    if c == 't' then '\t' else if c == 'r' then '\r' else if c == 'n' then '\n' else c
  }

  /** A word with its escapes resolved, from i up to the character that ended it. */
  function Unescape(text: string, i: int, end: int): string
    requires 0 <= i && end < |text|
    decreases end - i
  {
    if i >= end then ""
    else if text[i] == '\\' && IsEscape(text[i + 1]) then [Resolve(text[i + 1])] + Unescape(text, i + 2, end)
    else [text[i]] + Unescape(text, i + 1, end)
  }

  /** A character between words. */
  function Between(ch: char, args: seq<string>): Move {
    if IsSpace(ch) then Go(St(args, Blank, false, false), Here)
    else if ch == ';' || ch == '{' then
      Stop(if args == [] then Error else if ch == '{' then BlockStart else Ok, args)
    else if ch == '}' then Stop(if args != [] then Error else BlockDone, args)
    else if ch == '#' then Go(St(args, Comment, false, false), Here)
    else if ch == '"' then Go(St(args, Double, false, false), Next)
    else if ch == '\'' then Go(St(args, Single, false, false), Next)
    else Go(St(args, Plain, ch == '$', ch == '\\'), Here)
  }

  /** A character behind a closing quote. */
  function Behind(ch: char, args: seq<string>): Move {
    if IsSpace(ch) then Go(St(args, Blank, false, false), Keep)
    else if ch == ';' then Stop(Ok, args)
    else if ch == '{' then Stop(BlockStart, args)
    else if ch == ')' then Between(ch, args)
    else Stop(Error, args)
  }

  predicate Ends(ch: char, mode: Mode) {
    match mode
    case Double => ch == '"'
    case Single => ch == '\''
    case _ => IsSpace(ch) || ch == ';' || ch == '{'
  }

  /** A character of a word; `word` is what has been read of it so far. */
  function Within(ch: char, st: St, word: string): Move {
    if ch == '{' && st.variable then Go(st, Keep)
    else if ch == '\\' || ch == '$' || !Ends(ch, st.mode) then Go(St(st.args, st.mode, ch == '$', ch == '\\'), Keep)
    else if st.mode != Plain then Go(St(st.args + [word], After, false, false), Keep)
    else if ch == ';' then Stop(Ok, st.args + [word])
    else if ch == '{' then Stop(BlockStart, st.args + [word])
    else Go(St(st.args + [word], Blank, false, false), Keep)
  }

  /** The body of the loop of ngx_conf_read_token. */
  function React(ch: char, st: St, word: string): Move {
    if st.mode == Comment && ch != '\n' then Go(st, Keep)
    else if st.quoted then Go(st.(quoted := false), Keep)
    else
      match st.mode
      case Blank => Between(ch, st.args)
      case Comment => Between(ch, st.args)
      case After => Behind(ch, st.args)
      case _ => Within(ch, st, word)
  }

  /** The reaction to the character at `pos`, when the current word starts at `start`. */
  function Step(text: string, st: St, start: nat, pos: nat): Move
    requires start <= pos < |text|
  {
    React(text[pos], st, Unescape(text, start, pos))
  }

  // ----- the reference: the whole text at once

  datatype Token = Token(outcome: Outcome, args: seq<string>, pos: int)

  function AtEnd(st: St): Outcome {
    if st.args != [] || (st.mode != Blank && st.mode != Comment) then Error else FileDone
  }

  function Lex(text: string, st: St, start: nat, pos: nat): Token
    requires start <= pos <= |text|
    decreases |text| - pos
  {
    if pos == |text| then Token(AtEnd(st), st.args, pos)
    else
      match Step(text, st, start, pos)
      case Go(st', at) => Lex(text, st', NewStart(at, start, pos), pos + 1)
      case Stop(outcome, args) => Token(outcome, args, pos + 1)
  }

  /** No word and no comment is as long as the buffer while there is more to read. */
  ghost predicate Fits(text: string, st: St, start: nat, pos: nat)
    requires start <= pos <= |text|
    decreases |text| - pos
  {
    pos == |text| || (pos - start < BUFFER &&
      match Step(text, st, start, pos)
      case Go(st', at) => Fits(text, st', NewStart(at, start, pos), pos + 1)
      case Stop(_, _) => true)
  }

  const BEGIN := St([], Blank, false, false)

  // ----- the buffer does not matter

  /** The buffer holds the part of the text from `base` on. */
  ghost predicate Window(text: string, buffer: string, base: nat) {
    base + |buffer| <= |text| && forall i :: 0 <= i < |buffer| ==> buffer[i] == text[base + i]
  }

  lemma {:induction false} UnescapeShift(text: string, buffer: string, base: nat, i: int, end: int)
    requires Window(text, buffer, base) && 0 <= i && end < |buffer|
    ensures Unescape(buffer, i, end) == Unescape(text, base + i, base + end)
    decreases end - i
  {
    if i < end {
      assert buffer[i] == text[base + i] && buffer[i + 1] == text[base + i + 1];
      UnescapeShift(text, buffer, base, if buffer[i] == '\\' && IsEscape(buffer[i + 1]) then i + 2 else i + 1, end);
    }
  }

  /** A step in the buffer is the step in the text. */
  lemma StepShift(text: string, buffer: string, base: nat, st: St, start: nat, pos: nat)
    requires Window(text, buffer, base) && start <= pos < |buffer|
    ensures Step(text, st, base + start, base + pos) == Step(buffer, st, start, pos)
  {
    UnescapeShift(text, buffer, base, start, pos);
  }

  /** Two places from which the text reads the same. */
  ghost predicate Same(text: string, st: St, start: nat, pos: nat, first: nat)
    requires start <= pos <= |text| && first <= |text|
  {
    && (Fits(text, st, start, pos) <==> Fits(text, BEGIN, first, first))
    && Lex(text, st, start, pos) == Lex(text, BEGIN, first, first)
  }

  ghost predicate Reads(text: string, st: St, start: nat, pos: nat, first: nat) {
    start <= pos <= |text| && first <= |text| && Same(text, st, start, pos, first) == true
  }

  /** The answer of a reader that starts at `first` and stops at `pos`: that of the whole text, if everything fits. */
  ghost predicate RightAnswer(text: string, first: nat, outcome: Outcome, args: seq<string>, pos: int) {
    && first <= |text|
    && (outcome == TooLong <==> !Fits(text, BEGIN, first, first))
    && (outcome != TooLong ==> Token(outcome, args, pos) == Lex(text, BEGIN, first, first))
  }

  ghost predicate Answered(text: string, first: nat, outcome: Outcome, args: seq<string>, pos: int) {
    RightAnswer(text, first, outcome, args, pos) == true
  }

  ghost predicate Seen(text: string, st: St, start: nat, pos: nat, move: Move) {
    (start <= pos < |text| && Step(text, st, start, pos) == move) == true
  }

  lemma SameGo(text: string, st: St, start: nat, pos: nat, first: nat, st': St, at: Where)
    requires Reads(text, st, start, pos, first) && pos - start < BUFFER && Seen(text, st, start, pos, Go(st', at))
    ensures Reads(text, st', NewStart(at, start, pos), pos + 1, first)
  {
    assert Same(text, st, start, pos, first);
    assert Same(text, st', NewStart(at, start, pos), pos + 1, first);
  }

  lemma SameStop(text: string, st: St, start: nat, pos: nat, first: nat, o: Outcome, a: seq<string>)
    requires Reads(text, st, start, pos, first) && pos - start < BUFFER && Seen(text, st, start, pos, Stop(o, a))
    ensures Answered(text, first, o, a, pos + 1)
  {
    assert Same(text, st, start, pos, first);
    NoTooLong(text[pos], st, Unescape(text, start, pos));
    assert RightAnswer(text, first, o, a, pos + 1);
  }

  lemma SameEnd(text: string, st: St, start: nat, pos: nat, first: nat)
    requires Reads(text, st, start, pos, first)
    ensures pos == |text| ==> Answered(text, first, AtEnd(st), st.args, pos)
    ensures pos < |text| && pos - start >= BUFFER ==> Answered(text, first, TooLong, st.args, pos)
  {
    assert Same(text, st, start, pos, first);
    if pos == |text| {
      assert RightAnswer(text, first, AtEnd(st), st.args, pos);
    } else if pos - start >= BUFFER {
      assert RightAnswer(text, first, TooLong, st.args, pos);
    }
  }

  lemma StartShift(at: Where, start: nat, pos: nat, base: nat)
    requires start <= pos
    ensures NewStart(at, base + start, base + pos) == base + NewStart(at, start, pos)
    ensures 0 <= NewStart(at, start, pos) <= pos + 1
  {
  }

  // ----- the code

  class Reader {
    const text: string
    var offset: nat
    var buffer: string
    var pos: nat

    /** The buffer holds what was read last from the file. */
    ghost predicate Valid()
      reads this
    {
      pos <= |buffer| <= BUFFER && |buffer| <= offset && Window(text, buffer, offset - |buffer|) && offset <= |text|
    }

    /** Where the buffer starts in the text. */
    ghost function Base(): int
      reads this
    {
      offset - |buffer|
    }

    constructor (text: string)
      ensures Valid() && Base() + pos == 0 && this.text == text
    {
      this.text, offset, buffer, pos := text, 0, "", 0;
    }

    /** The text from `start` on is kept, and as much as there is room for is read behind it. */
    method Refill(start: nat)
      requires Valid() && pos == |buffer| && start <= pos && pos - start < BUFFER && offset < |text|
      modifies this`offset, this`buffer, this`pos
      ensures Valid() && pos == old(pos) - start < |buffer| && Base() == old(Base()) + start
    {
      var len := pos - start;
      var size := |text| - offset;
      if size > BUFFER - len {
        size := BUFFER - len;
      }
      buffer := buffer[start..pos] + text[offset..offset + size];
      pos := len;
      offset := offset + size;
    }

    /**
      ngx_conf_read_token: the words and the outcome are those of the whole text,
      wherever the buffer is refilled, exactly unless a word or comment is too long.
     */
    method ReadToken() returns (outcome: Outcome, args: seq<string>)
      requires Valid()
      modifies this`offset, this`buffer, this`pos
      ensures Valid() && Answered(text, old(Base() + pos), outcome, args, Base() + pos)
    {
      ghost var first := Base() + pos;
      assert Same(text, BEGIN, first, first, first);
      var st, start, done := BEGIN, pos, false;
      outcome, args := Error, [];
      while !done
        invariant Valid() && 0 <= start <= pos
        invariant if done then Answered(text, first, outcome, args, Base() + pos)
          else Reads(text, st, Base() + start, Base() + pos, first)
        decreases !done, |text| - Base() - pos
      {
        done, outcome, args, st, start := Next(st, start, first);
      }
    }

    /** One round of the loop: the buffer is refilled if it is used up, and the next character is looked at. */
    method Next(st: St, start: nat, ghost first: nat)
        returns (done: bool, outcome: Outcome, args: seq<string>, st': St, start': nat)
      requires Valid() && start <= pos && Reads(text, st, Base() + start, Base() + pos, first)
      modifies this`offset, this`buffer, this`pos
      ensures Valid() && start' <= pos
      ensures done ==> Answered(text, first, outcome, args, Base() + pos)
      ensures !done ==> Reads(text, st', Base() + start', Base() + pos, first) && Base() + pos == old(Base() + pos) + 1
    {
      ghost var s, p := Base() + start, Base() + pos;
      st' := st;
      done, outcome, args, start' := Supply(st, start, first);
      if !done {
        done, outcome, args, st', start' := Act(st, start', s, p, first);
      }
    }

    /** The next character is taken from the buffer. */
    method Act(st: St, start: nat, ghost s: nat, ghost p: nat, ghost first: nat)
        returns (done: bool, outcome: Outcome, args: seq<string>, st': St, start': nat)
      requires Valid() && start <= pos < |buffer| && pos - start < BUFFER && s == Base() + start && p == Base() + pos
      requires Reads(text, st, s, p, first)
      modifies this`pos
      ensures Valid() && start' <= pos && Base() + pos == p + 1
      ensures done ==> Answered(text, first, outcome, args, p + 1)
      ensures !done ==> Reads(text, st', Base() + start', p + 1, first)
    {
      var move := Look(st, start, s, p);
      done, outcome, args, st', start' := false, Error, [], st, start;
      match move {
        case Go(st1, at) =>
          SameGo(text, st, s, p, first, st1, at);
          StartShift(at, start, pos, Base());
          st', start' := st1, NewStart(at, start, pos);
        case Stop(o, a) =>
          SameStop(text, st, s, p, first, o, a);
          done, outcome, args := true, o, a;
      }
      pos := pos + 1;
    }

    /** There is a next character in the buffer, unless the text ends or the word is too long. */
    method Supply(st: St, start: nat, ghost first: nat)
        returns (done: bool, outcome: Outcome, args: seq<string>, start': nat)
      requires Valid() && start <= pos && Reads(text, st, Base() + start, Base() + pos, first)
      modifies this`offset, this`buffer, this`pos
      ensures Valid() && start' <= pos && Base() + pos == old(Base() + pos) && Base() + start' == old(Base()) + start
      ensures done ==> Answered(text, first, outcome, args, Base() + pos)
      ensures !done ==> pos < |buffer| && pos - start' < BUFFER
    {
      SameEnd(text, st, Base() + start, Base() + pos, first);
      done, outcome, args, start' := false, Error, st.args, start;
      if pos >= |buffer| {
        if offset >= |text| {
          done, outcome := true, AtEnd(st);
        } else if pos - start == BUFFER {
          done, outcome := true, TooLong;
        } else {
          Refill(start);
          start' := 0;
        }
      }
    }

    /** The next character of the buffer is the one of the text. */
    method Look(st: St, start: nat, ghost s: nat, ghost p: nat) returns (move: Move)
      requires Valid() && start <= pos < |buffer| && s == Base() + start && p == Base() + pos
      ensures Seen(text, st, s, p, move) && p < |text|
    {
      StepShift(text, buffer, Base(), st, start, pos);
      move := Step(buffer, st, start, pos);
    }
  }

  lemma NoTooLong(ch: char, st: St, word: string)
    ensures React(ch, st, word).Stop? ==> React(ch, st, word).outcome != TooLong
  {
  }

  // ----- quoted words are read back

  /** A word as it is written between double quotes. */
  function Escape(w: string): string {
    if w == [] then ""
    else if w[0] == '"' || w[0] == '\\' then ['\\', w[0]] + Escape(w[1..])
    else [w[0]] + Escape(w[1..])
  }

  /** Words in double quotes, with a space between them and a semicolon at the end. */
  function Quote(ws: seq<string>): string
    requires ws != []
  {
    "\"" + Escape(ws[0]) + if |ws| == 1 then "\";" else "\" " + Quote(ws[1..])
  }

  ghost predicate At(text: string, p: nat, s: string) {
    p + |s| <= |text| && text[p..p + |s|] == s
  }

  lemma AtConcat(text: string, p: nat, a: string, b: string)
    requires At(text, p, a + b)
    ensures At(text, p, a) && At(text, p + |a|, b)
  {
    var s := text[p..p + |a + b|];
    assert text[p..p + |a|] == s[..|a|];
    assert text[p + |a|..p + |a| + |b|] == s[|a|..];
  }

  lemma AtFirst(text: string, p: nat, s: string)
    requires At(text, p, s)
    ensures s != [] ==> text[p] == s[0]
    ensures |s| > 1 ==> text[p + 1] == s[1]
  {
    assert s != [] ==> text[p] == text[p..p + |s|][0];
    assert |s| > 1 ==> text[p + 1] == text[p..p + |s|][1];
  }

  /** The first character of a word as it is written. */
  lemma EscapeHead(text: string, p: nat, w: string)
    requires w != [] && At(text, p, Escape(w)) && p + |Escape(w)| < |text|
    ensures var n := if w[0] == '"' || w[0] == '\\' then 2 else 1;
      && |Escape(w)| == n + |Escape(w[1..])| && At(text, p + n, Escape(w[1..]))
      && text[p] == (if n == 2 then '\\' else w[0]) && (n == 2 ==> text[p + 1] == w[0])
  {
    var e := if w[0] == '"' || w[0] == '\\' then ['\\', w[0]] else [w[0]];
    AtConcat(text, p, e, Escape(w[1..]));
    AtFirst(text, p, e);
  }

  lemma UnescapePair(text: string, p: nat, end: nat, rest: string)
    requires p + 1 < end < |text| && text[p] == '\\' && (text[p + 1] == '"' || text[p + 1] == '\\')
    requires Unescape(text, p + 2, end) == rest
    ensures Unescape(text, p, end) == [text[p + 1]] + rest
  {
  }

  lemma UnescapePlain(text: string, p: nat, end: nat, rest: string)
    requires p < end < |text| && text[p] != '\\' && Unescape(text, p + 1, end) == rest
    ensures Unescape(text, p, end) == [text[p]] + rest
  {
  }

  lemma {:induction false} UnescapeEscape(text: string, p: nat, w: string)
    requires At(text, p, Escape(w)) && p + |Escape(w)| < |text|
    ensures Unescape(text, p, p + |Escape(w)|) == w
    decreases |w|
  {
    if w != [] {
      var end := p + |Escape(w)|;
      EscapeHead(text, p, w);
      if w[0] == '"' || w[0] == '\\' {
        UnescapeEscape(text, p + 2, w[1..]);
        UnescapePair(text, p, end, w[1..]);
      } else {
        UnescapeEscape(text, p + 1, w[1..]);
        UnescapePlain(text, p, end, w[1..]);
      }
      HeadTail(w);
    }
  }

  lemma HeadTail(w: string)
    requires w != []
    ensures [w[0]] + w[1..] == w
  {
  }

  /** A reader at a position. */
  datatype Config = Config(st: St, start: nat, pos: nat)

  ghost predicate Proper(text: string, c: Config) {
    c.start <= c.pos <= |text|
  }

  /**
    From both configurations the same is read, and if everything fits behind the
    second, and the way there is not longer than the buffer, it fits from the first.
   */
  ghost predicate Leads(text: string, c: Config, d: Config) {
    Proper(text, c) && Proper(text, d) && c.start <= d.start && c.pos <= d.pos && Agree(text, c, d) == true
  }

  ghost predicate Agree(text: string, c: Config, d: Config)
    requires Proper(text, c) && Proper(text, d)
  {
    && Lex(text, c.st, c.start, c.pos) == Lex(text, d.st, d.start, d.pos)
    && (d.pos - c.start <= BUFFER && Fits(text, d.st, d.start, d.pos) ==> Fits(text, c.st, c.start, c.pos))
  }

  lemma LeadsTrans(text: string, c: Config, d: Config, e: Config)
    requires Leads(text, c, d) && Leads(text, d, e)
    ensures Leads(text, c, e)
  {
    assert Agree(text, c, d) && Agree(text, d, e);
    assert Agree(text, c, e);
  }

  lemma LeadsSame(text: string, c: Config)
    requires Proper(text, c)
    ensures Leads(text, c, c)
  {
    assert Agree(text, c, c);
  }

  /** One step. */
  lemma LeadsStep(text: string, c: Config, d: Config)
    requires Proper(text, c) && Proper(text, d) && c.start <= d.start && d.pos == c.pos + 1
    requires Lex(text, c.st, c.start, c.pos) == Lex(text, d.st, d.start, d.pos)
    requires c.pos - c.start < BUFFER && Fits(text, d.st, d.start, d.pos) ==> Fits(text, c.st, c.start, c.pos)
    ensures Leads(text, c, d)
  {
    assert Agree(text, c, d);
  }

  lemma LexGo(text: string, st: St, start: nat, pos: nat, move: Move, st': St, at: Where)
    requires start <= pos < |text| && move == Step(text, st, start, pos) && move == Go(st', at)
    ensures Lex(text, st, start, pos) == Lex(text, st', NewStart(at, start, pos), pos + 1)
    ensures Fits(text, st, start, pos) <==> pos - start < BUFFER && Fits(text, st', NewStart(at, start, pos), pos + 1)
  {
  }

  /** Inside double quotes. */
  function Inside(args: seq<string>, variable: bool): St {
    St(args, Double, variable, false)
  }

  /** Behind the closing quote. */
  function Closed(args: seq<string>): St {
    St(args, After, false, false)
  }

  function Ready(args: seq<string>): St {
    St(args, Blank, false, false)
  }

  lemma LexPair(text: string, args: seq<string>, v: bool, start: nat, p: nat)
    requires start <= p && p + 1 < |text| && text[p] == '\\'
    ensures Leads(text, Config(Inside(args, v), start, p), Config(Inside(args, false), start, p + 2))
  {
    var st := Inside(args, false).(quoted := true);
    LexGo(text, Inside(args, v), start, p, Step(text, Inside(args, v), start, p), st, Keep);
    LeadsStep(text, Config(Inside(args, v), start, p), Config(st, start, p + 1));
    LexGo(text, st, start, p + 1, Step(text, st, start, p + 1), Inside(args, false), Keep);
    LeadsStep(text, Config(st, start, p + 1), Config(Inside(args, false), start, p + 2));
    LeadsTrans(text, Config(Inside(args, v), start, p), Config(st, start, p + 1),
      Config(Inside(args, false), start, p + 2));
  }

  lemma LexPlain(text: string, args: seq<string>, v: bool, start: nat, p: nat, u: bool)
    requires start <= p < |text| && text[p] != '\\' && text[p] != '"' && u == (text[p] == '$' || (text[p] == '{' && v))
    ensures Leads(text, Config(Inside(args, v), start, p), Config(Inside(args, u), start, p + 1))
  {
    LexGo(text, Inside(args, v), start, p, Step(text, Inside(args, v), start, p), Inside(args, u), Keep);
    LeadsStep(text, Config(Inside(args, v), start, p), Config(Inside(args, u), start, p + 1));
  }

  /** The characters of an escaped word do not end it. */
  lemma {:induction false} LexEscape(text: string, args: seq<string>, v: bool, start: nat, p: nat, w: string)
      returns (v': bool)
    requires At(text, p, Escape(w)) && p + |Escape(w)| < |text| && start <= p
    ensures Leads(text, Config(Inside(args, v), start, p), Config(Inside(args, v'), start, p + |Escape(w)|))
    decreases |w|
  {
    if w == [] {
      LeadsSame(text, Config(Inside(args, v), start, p));
      return v;
    }
    var u, n := LexHead(text, args, v, start, p, w);
    v' := LexEscape(text, args, u, start, p + n, w[1..]);
    LeadsTrans(text, Config(Inside(args, v), start, p), Config(Inside(args, u), start, p + n),
               Config(Inside(args, v'), start, p + |Escape(w)|));
  }

  lemma LexHead(text: string, args: seq<string>, v: bool, start: nat, p: nat, w: string) returns (u: bool, n: nat)
    requires w != [] && At(text, p, Escape(w)) && p + |Escape(w)| < |text| && start <= p
    ensures |Escape(w)| == n + |Escape(w[1..])| && At(text, p + n, Escape(w[1..]))
    ensures Leads(text, Config(Inside(args, v), start, p), Config(Inside(args, u), start, p + n))
  {
    EscapeHead(text, p, w);
    if w[0] == '"' || w[0] == '\\' {
      u, n := false, 2;
      LexPair(text, args, v, start, p);
    } else {
      u, n := w[0] == '$' || (w[0] == '{' && v), 1;
      LexPlain(text, args, v, start, p, u);
    }
  }

  lemma LexOpen(text: string, args: seq<string>, start: nat, p: nat)
    requires start <= p < |text| && text[p] == '"'
    ensures Leads(text, Config(Ready(args), start, p), Config(Inside(args, false), p + 1, p + 1))
  {
    LexGo(text, Ready(args), start, p, Step(text, Ready(args), start, p), Inside(args, false), Next);
    LeadsStep(text, Config(Ready(args), start, p), Config(Inside(args, false), p + 1, p + 1));
  }

  lemma LexClose(text: string, args: seq<string>, v: bool, start: nat, p: nat, w: string)
    requires start <= p < |text| && text[p] == '"' && Unescape(text, start, p) == w
    ensures Leads(text, Config(Inside(args, v), start, p), Config(Closed(args + [w]), start, p + 1))
  {
    LexGo(text, Inside(args, v), start, p, Step(text, Inside(args, v), start, p), Closed(args + [w]), Keep);
    LeadsStep(text, Config(Inside(args, v), start, p), Config(Closed(args + [w]), start, p + 1));
  }

  /** A quoted word behind its opening quote, up to and with its closing quote. */
  lemma LexBody(text: string, args: seq<string>, p: nat, w: string, end: nat)
    requires At(text, p, Escape(w)) && end == p + |Escape(w)| < |text| && text[end] == '"'
    ensures Leads(text, Config(Inside(args, false), p, p), Config(Closed(args + [w]), p, end + 1))
  {
    var v := LexEscape(text, args, false, p, p, w);
    UnescapeEscape(text, p, w);
    LexClose(text, args, v, p, end, w);
    LeadsTrans(text, Config(Inside(args, false), p, p), Config(Inside(args, v), p, end),
      Config(Closed(args + [w]), p, end + 1));
  }

  lemma WordHead(text: string, p: nat, w: string)
    requires At(text, p, "\"" + Escape(w))
    ensures text[p] == '"' && At(text, p + 1, Escape(w))
  {
    AtConcat(text, p, "\"", Escape(w));
    AtFirst(text, p, "\"");
  }

  /** A quoted word. */
  lemma LexWord(text: string, args: seq<string>, start: nat, p: nat, w: string, end: nat)
    requires start <= p && At(text, p, "\"" + Escape(w)) && end == p + 1 + |Escape(w)| < |text| && text[end] == '"'
    ensures Leads(text, Config(Ready(args), start, p), Config(Closed(args + [w]), p + 1, end + 1))
  {
    WordHead(text, p, w);
    LexOpen(text, args, start, p);
    LexBody(text, args, p + 1, w, end);
    LeadsTrans(text, Config(Ready(args), start, p), Config(Inside(args, false), p + 1, p + 1),
               Config(Closed(args + [w]), p + 1, end + 1));
  }

  lemma QuoteHead(text: string, p: nat, w: string, rest: string, all: string)
    requires At(text, p, all) && all == "\"" + Escape(w) + rest
    ensures At(text, p, "\"" + Escape(w)) && At(text, p + 1 + |Escape(w)|, rest)
    ensures |all| == 1 + |Escape(w)| + |rest|
  {
    AtConcat(text, p, "\"" + Escape(w), rest);
  }

  /** What is read from a configuration. */
  ghost predicate Yields(text: string, c: Config, k: Token) {
    Proper(text, c) && Gives(text, c, k) == true
  }

  ghost predicate Gives(text: string, c: Config, k: Token)
    requires Proper(text, c)
  {
    Lex(text, c.st, c.start, c.pos) == k
  }

  lemma LeadsYields(text: string, c: Config, d: Config, k: Token)
    requires Leads(text, c, d) && Yields(text, d, k)
    ensures Yields(text, c, k)
  {
    assert Agree(text, c, d) && Gives(text, d, k);
    assert Gives(text, c, k);
  }

  lemma LexSemicolon(text: string, args: seq<string>, start: nat, p: nat)
    requires start <= p < |text| && text[p] == ';'
    ensures Yields(text, Config(Closed(args), start, p), Token(Ok, args, p + 1))
  {
    assert Step(text, Closed(args), start, p) == Stop(Ok, args);
    assert Gives(text, Config(Closed(args), start, p), Token(Ok, args, p + 1));
  }

  lemma LexSpace(text: string, args: seq<string>, start: nat, p: nat)
    requires start <= p < |text| && text[p] == ' '
    ensures Leads(text, Config(Closed(args), start, p), Config(Ready(args), start, p + 1))
  {
    LexGo(text, Closed(args), start, p, Step(text, Closed(args), start, p), Ready(args), Keep);
    LeadsStep(text, Config(Closed(args), start, p), Config(Ready(args), start, p + 1));
  }

  /** The last word. */
  lemma LexLast(text: string, args: seq<string>, start: nat, p: nat, w: string, q: nat)
    requires start <= p && At(text, p, "\"" + Escape(w)) && q == p + 1 + |Escape(w)| && At(text, q, "\";")
    ensures Yields(text, Config(Ready(args), start, p), Token(Ok, args + [w], q + 2))
  {
    AtFirst(text, q, "\";");
    LexWord(text, args, start, p, w, q);
    LexSemicolon(text, args + [w], p + 1, q + 1);
    LeadsYields(text, Config(Ready(args), start, p), Config(Closed(args + [w]), p + 1, q + 1),
      Token(Ok, args + [w], q + 2));
  }

  /** A word that is not the last. */
  lemma LexMore(text: string, args: seq<string>, start: nat, p: nat, w: string, q: nat, k: Token)
    requires start <= p && At(text, p, "\"" + Escape(w)) && q == p + 1 + |Escape(w)| && At(text, q, "\" ")
    requires Yields(text, Config(Ready(args + [w]), p + 1, q + 2), k)
    ensures Yields(text, Config(Ready(args), start, p), k)
  {
    AtFirst(text, q, "\" ");
    LexWord(text, args, start, p, w, q);
    LexSpace(text, args + [w], p + 1, q + 1);
    LeadsYields(text, Config(Closed(args + [w]), p + 1, q + 1), Config(Ready(args + [w]), p + 1, q + 2), k);
    LeadsYields(text, Config(Ready(args), start, p), Config(Closed(args + [w]), p + 1, q + 1), k);
  }

  lemma QuoteLast(text: string, p: nat, ws: seq<string>, q: nat)
    requires |ws| == 1 && At(text, p, Quote(ws)) && q == p + 1 + |Escape(ws[0])|
    ensures At(text, p, "\"" + Escape(ws[0])) && At(text, q, "\";") && p + |Quote(ws)| == q + 2
  {
    QuoteHead(text, p, ws[0], "\";", Quote(ws));
  }

  lemma QuoteMore(text: string, p: nat, ws: seq<string>, q: nat)
    requires |ws| > 1 && At(text, p, Quote(ws)) && q == p + 1 + |Escape(ws[0])|
    ensures At(text, p, "\"" + Escape(ws[0])) && At(text, q, "\" ") && At(text, q + 2, Quote(ws[1..]))
    ensures p + |Quote(ws)| == q + 2 + |Quote(ws[1..])|
  {
    QuoteHead(text, p, ws[0], "\" " + Quote(ws[1..]), Quote(ws));
    AtConcat(text, q, "\" ", Quote(ws[1..]));
  }

  lemma {:induction false} LexQuote(text: string, args: seq<string>, start: nat, p: nat, ws: seq<string>, end: nat)
    requires start <= p && ws != [] && At(text, p, Quote(ws)) && end == p + |Quote(ws)|
    ensures Yields(text, Config(Ready(args), start, p), Token(Ok, args + ws, end))
    decreases |ws|
  {
    var q := p + 1 + |Escape(ws[0])|;
    if |ws| == 1 {
      QuoteLast(text, p, ws, q);
      LexLast(text, args, start, p, ws[0], q);
      assert ws == [ws[0]];
    } else {
      QuoteMore(text, p, ws, q);
      LexQuote(text, args + [ws[0]], p + 1, q + 2, ws[1..], end);
      Joined(args, ws);
      LexMore(text, args, start, p, ws[0], q, Token(Ok, args + ws, end));
    }
  }

  lemma Joined(args: seq<string>, ws: seq<string>)
    requires ws != []
    ensures args + [ws[0]] + ws[1..] == args + ws
  {
  }

  /** Words in double quotes, with quotes and backslashes escaped, are read back as they are, wherever they stand. */
  lemma QuoteRoundTrip(text: string, p: nat, ws: seq<string>)
    requires ws != [] && At(text, p, Quote(ws))
    ensures Lex(text, BEGIN, p, p) == Token(Ok, ws, p + |Quote(ws)|)
  {
    LexQuote(text, [], p, p, ws, p + |Quote(ws)|);
    assert [] + ws == ws;
    assert Gives(text, Config(Ready([]), p, p), Token(Ok, ws, p + |Quote(ws)|));
    assert Ready([]) == BEGIN;
  }

  // ----- quoted words fit

  ghost predicate Sound(text: string, c: Config) {
    Proper(text, c) && Fits(text, c.st, c.start, c.pos) == true
  }

  lemma SoundBack(text: string, c: Config, d: Config)
    requires Leads(text, c, d) && Sound(text, d) && d.pos - c.start <= BUFFER
    ensures Sound(text, c)
  {
    assert Agree(text, c, d);
  }

  /** A quoted word fits, if what stands behind it does. */
  lemma FitsWord(text: string, args: seq<string>, start: nat, p: nat, w: string, end: nat)
    requires start <= p && At(text, p, "\"" + Escape(w)) && end == p + 1 + |Escape(w)| < |text| && text[end] == '"'
    requires p - start < BUFFER && |Escape(w)| + 1 < BUFFER && Sound(text, Config(Closed(args + [w]), p + 1, end + 1))
    ensures Sound(text, Config(Ready(args), start, p))
  {
    WordHead(text, p, w);
    LexOpen(text, args, start, p);
    LexBody(text, args, p + 1, w, end);
    SoundBack(text, Config(Inside(args, false), p + 1, p + 1), Config(Closed(args + [w]), p + 1, end + 1));
    SoundBack(text, Config(Ready(args), start, p), Config(Inside(args, false), p + 1, p + 1));
  }

  lemma FitsSemicolon(text: string, args: seq<string>, start: nat, p: nat)
    requires start <= p < |text| && text[p] == ';' && p - start < BUFFER
    ensures Sound(text, Config(Closed(args), start, p))
  {
    assert Step(text, Closed(args), start, p) == Stop(Ok, args);
    assert Fits(text, Closed(args), start, p);
  }

  /** Every word leaves room in the buffer for the quote and the character behind it. */
  ghost predicate ShortWords(ws: seq<string>) {
    forall i :: 0 <= i < |ws| ==> |Escape(ws[i])| + 2 < BUFFER
  }

  lemma {:induction false} FitsQuote(text: string, args: seq<string>, start: nat, p: nat, ws: seq<string>)
    requires start <= p && p - start < BUFFER && ws != [] && At(text, p, Quote(ws)) && ShortWords(ws)
    ensures Sound(text, Config(Ready(args), start, p))
    decreases |ws|
  {
    var w := ws[0];
    var q := p + 1 + |Escape(w)|;
    if |ws| == 1 {
      QuoteLast(text, p, ws, q);
      AtFirst(text, q, "\";");
      FitsSemicolon(text, args + [w], p + 1, q + 1);
    } else {
      QuoteMore(text, p, ws, q);
      AtFirst(text, q, "\" ");
      FitsQuote(text, args + [w], p + 1, q + 2, ws[1..]);
      LexSpace(text, args + [w], p + 1, q + 1);
      SoundBack(text, Config(Closed(args + [w]), p + 1, q + 1), Config(Ready(args + [w]), p + 1, q + 2));
    }
    FitsWord(text, args, start, p, w, q);
  }

  /** A reader that stands at short quoted words returns them, wherever its buffer is refilled. */
  lemma QuotedWordsRead(text: string, p: nat, ws: seq<string>, outcome: Outcome, args: seq<string>, pos: int)
    requires ws != [] && At(text, p, Quote(ws)) && ShortWords(ws) && Answered(text, p, outcome, args, pos)
    ensures outcome == Ok && args == ws && pos == p + |Quote(ws)|
  {
    QuoteRoundTrip(text, p, ws);
    FitsQuote(text, [], p, p, ws);
    assert Ready([]) == BEGIN;
    assert RightAnswer(text, p, outcome, args, pos);
  }
}
