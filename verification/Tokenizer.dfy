/** The SQL tokenizer, and re-reading tokens joined by spaces. */
module Tokenizer {
  import opened Basics

  /** Unicode White_Space. */
  predicate IsWhitespace(c: char) {
    || 0x09 as char <= c <= 0x0D as char || c == ' ' || c == 0x85 as char || c == 0xA0 as char || c == 0x1680 as char
    || 0x2000 as char <= c <= 0x200A as char || c == 0x2028 as char || c == 0x2029 as char
    || c == 0x202F as char || c == 0x205F as char || c == 0x3000 as char
  }

  predicate IsPunctuation(c: char) {
    c == '(' || c == ')' || c == ',' || c == '*'
  }

  /** The tokens finished so far, the one being read, and whether a quoted
      string is open. */
  datatype Lexed = Lexed(tokens: seq<string>, current: string, open: bool)

  function Flush(current: string): seq<string> {
    if current == "" then [] else [current]
  }

  function Emit(tokens: seq<string>, r: Lexed): Lexed {
    r.(tokens := tokens + r.tokens)
  }

  /** The token an operator character starts, given what follows it. */
  function OperatorAt(s: string): (tok: string)
    requires s != ""
    ensures 1 <= |tok| <= 2 && tok <= s
  {
    if |s| > 1 && (s[1] == '=' || (s[0] == '<' && s[1] == '>')) then s[..2] else s[..1]
  }

  function Lex(s: string, current: string, open: bool): Lexed
    decreases |s|
  {
    if s == "" then Lexed([], current, open)
    else if open then
      if s[0] != '\'' then Lex(s[1..], current + [s[0]], true)
      else if |s| > 1 && s[1] == '\'' then Lex(s[2..], current + "''", true)
      else Emit(["'" + current + "'"], Lex(s[1..], "", false))
    else if s[0] == '\'' then Emit(Flush(current), Lex(s[1..], "", true))
    else if IsPunctuation(s[0]) then Emit(Flush(current) + [[s[0]]], Lex(s[1..], "", false))
    else if s[0] == '!' && |s| > 1 && s[1] == '=' then Emit(Flush(current) + ["!="], Lex(s[2..], "", false))
    else if s[0] == '<' || s[0] == '>' then
      Emit(Flush(current) + [OperatorAt(s)], Lex(s[|OperatorAt(s)|..], "", false))
    else if s[0] == '=' then Emit(Flush(current) + ["="], Lex(s[1..], "", false))
    else if IsWhitespace(s[0]) then Emit(Flush(current), Lex(s[1..], "", false))
    else Lex(s[1..], current + [s[0]], false)
  }

  function Finish(r: Lexed): seq<string> {
    r.tokens + Flush(r.current)
  }

  function Tokens(s: string): seq<string> {
    Finish(Lex(s, "", false))
  }

  // ----- The loop -----

  /** One turn: the next character, with one of lookahead, updates the state. */
  method Turn(tokens: seq<string>, current: string, inString: bool, ch: char, next: Option<char>, ghost s: string)
    returns (tokens': seq<string>, current': string, inString': bool, used: nat)
    requires s != "" && s[0] == ch && next == if |s| > 1 then Some(s[1]) else None
    ensures 1 <= used <= 2 && used <= |s|
    ensures tokens' + Finish(Lex(s[used..], current', inString')) == tokens + Finish(Lex(s, current, inString))
  {
    hide Lex, Flush, Finish;
    LexStep(s, current, inString);
    tokens', current', inString', used := tokens, current, inString, 1;
    if inString {
      if ch == '\'' {
        if next == Some('\'') {
          used := 2;
          current' := current + "''";
        } else {
          tokens' := tokens + ["'" + current + "'"];
          current', inString' := "", false;
          Regroup(tokens, [], "'" + current + "'", Finish(Lex(s[1..], "", false)));
        }
      } else {
        current' := current + [ch];
      }
      return;
    }
    if ch == '\'' || IsPunctuation(ch) || ch == '!' || ch == '<' || ch == '>' || ch == '=' || IsWhitespace(ch) {
      tokens', current', inString', used := Break(tokens, current, ch, next, s);
    } else {
      current' := current + [ch];
    }
  }

  lemma Regroup(tokens: seq<string>, flushed: seq<string>, tok: string, rest: seq<string>)
    ensures tokens + flushed + [tok] + rest == tokens + (flushed + [tok] + rest)
    ensures tokens + flushed + rest == tokens + (flushed + rest)
  {
  }

  /** The characters that may end a word, outside a string. */
  method Break(tokens: seq<string>, current: string, ch: char, next: Option<char>, ghost s: string)
    returns (tokens': seq<string>, current': string, inString': bool, used: nat)
    requires s != "" && s[0] == ch && next == if |s| > 1 then Some(s[1]) else None
    requires ch == '\'' || IsPunctuation(ch) || ch == '!' || ch == '<' || ch == '>' || ch == '=' || IsWhitespace(ch)
    ensures 1 <= used <= 2 && used <= |s|
    ensures tokens' + Finish(Lex(s[used..], current', inString')) == tokens + Finish(Lex(s, current, false))
  {
    hide Lex, Flush, Finish;
    LexStep(s, current, false);
    var flushed := tokens + Flush(current);
    var tok: string;
    if ch == '\'' {
      Regroup(tokens, Flush(current), "", Finish(Lex(s[1..], "", true)));
      return flushed, "", true, 1;
    } else if IsPunctuation(ch) {
      tok, used := [ch], 1;
    } else if ch == '!' {
      if next == Some('=') {
        tok, used := "!=", 2;
      } else {
        return tokens, current + [ch], false, 1;
      }
    } else if ch == '<' || ch == '>' {
      if next == Some('=') || (ch == '<' && next == Some('>')) {
        tok, used := [ch, next.value], 2;
      } else {
        tok, used := [ch], 1;
      }
    } else if ch == '=' {
      tok, used := "=", 1;
    } else {
      Regroup(tokens, Flush(current), "", Finish(Lex(s[1..], "", false)));
      return flushed, "", false, 1;
    }
    Regroup(tokens, Flush(current), tok, Finish(Lex(s[used..], "", false)));
    return flushed + [tok], "", false, used;
  }

  method Tokenize(input: string) returns (tokens: seq<string>)
    ensures tokens == Tokens(input)
  {
    hide Lex, Flush, Finish;
    var current, inString, i := "", false, 0;
    tokens := [];
    assert input[0..] == input;
    while i < |input|
      invariant 0 <= i <= |input|
      invariant tokens + Finish(Lex(input[i..], current, inString)) == Tokens(input)
    {
      var next := if i + 1 < |input| then Some(input[i + 1]) else None;
      var used;
      tokens, current, inString, used := Turn(tokens, current, inString, input[i], next, input[i..]);
      assert input[i..][used..] == input[i + used..];
      i := i + used;
    }
    assert input[i..] == "";
    assert Finish(Lex("", current, inString)) == Flush(current) by { LexEnd(current, inString); }
    tokens := tokens + Flush(current);
  }

  lemma LexEnd(current: string, open: bool)
    ensures Finish(Lex("", current, open)) == Flush(current)
  {
  }

  lemma FinishEmit(tokens: seq<string>, r: Lexed)
    ensures Finish(Emit(tokens, r)) == tokens + Finish(r)
  {
  }

  /** What one turn of the loop does to the tokens still to come. */
  lemma LexStep(s: string, current: string, open: bool)
    requires s != ""
    ensures Finish(Lex(s, current, open)) ==
      if open then
        if s[0] != '\'' then Finish(Lex(s[1..], current + [s[0]], true))
        else if |s| > 1 && s[1] == '\'' then Finish(Lex(s[2..], current + "''", true))
        else ["'" + current + "'"] + Finish(Lex(s[1..], "", false))
      else if s[0] == '\'' then Flush(current) + Finish(Lex(s[1..], "", true))
      else if IsPunctuation(s[0]) then Flush(current) + [[s[0]]] + Finish(Lex(s[1..], "", false))
      else if s[0] == '!' && |s| > 1 && s[1] == '=' then Flush(current) + ["!="] + Finish(Lex(s[2..], "", false))
      else if s[0] == '<' || s[0] == '>' then
        if |s| > 1 && (s[1] == '=' || (s[0] == '<' && s[1] == '>'))
            then Flush(current) + [[s[0], s[1]]] + Finish(Lex(s[2..], "", false))
        else Flush(current) + [[s[0]]] + Finish(Lex(s[1..], "", false))
      else if s[0] == '=' then Flush(current) + ["="] + Finish(Lex(s[1..], "", false))
      else if IsWhitespace(s[0]) then Flush(current) + Finish(Lex(s[1..], "", false))
      else Finish(Lex(s[1..], current + [s[0]], false))
  {
    hide Flush, Finish, Emit;
    forall ts, r ensures Finish(Emit(ts, r)) == ts + Finish(r) {
      FinishEmit(ts, r);
    }
    if !open && (s[0] == '<' || s[0] == '>') {
      assert |s| > 1 ==> s[..2] == [s[0], s[1]];
      assert s[..1] == [s[0]];
    }
  }

  // ----- Reading a text in two parts -----

  /** The characters `a` ends with and `c` do not belong together. */
  predicate Separate(a: string, c: char) {
    c != '\'' && (a != "" && a[|a| - 1] in {'<', '>', '!'} ==> c != '=' && c != '>')
  }

  lemma EmitTwice(x: seq<string>, y: seq<string>, r: Lexed)
    ensures Emit(x, Emit(y, r)) == Emit(x + y, r)
  {
    assert x + (y + r.tokens) == (x + y) + r.tokens;
  }

  /** How far the first turn on a text goes, what it emits and what it leaves. */
  function FirstTurn(s: string, current: string, open: bool): (r: (nat, seq<string>, string, bool))
    requires s != ""
    ensures 1 <= r.0 <= |s|
  {
    if open then
      if s[0] != '\'' then (1, [], current + [s[0]], true)
      else if |s| > 1 && s[1] == '\'' then (2, [], current + "''", true)
      else (1, ["'" + current + "'"], "", false)
    else if s[0] == '\'' then (1, Flush(current), "", true)
    else if IsPunctuation(s[0]) then (1, Flush(current) + [[s[0]]], "", false)
    else if s[0] == '!' && |s| > 1 && s[1] == '=' then (2, Flush(current) + ["!="], "", false)
    else if s[0] == '<' || s[0] == '>' then (|OperatorAt(s)|, Flush(current) + [OperatorAt(s)], "", false)
    else if s[0] == '=' then (1, Flush(current) + ["="], "", false)
    else if IsWhitespace(s[0]) then (1, Flush(current), "", false)
    else (1, [], current + [s[0]], false)
  }

  lemma LexTurn(s: string, current: string, open: bool)
    requires s != ""
    ensures var (n, ts, next, o) := FirstTurn(s, current, open);
            Lex(s, current, open) == Emit(ts, Lex(s[n..], next, o))
  {
    hide Flush, IsPunctuation, IsWhitespace, OperatorAt;
    var r := Lex(s[1..], current + [s[0]], open);
    assert [] + r.tokens == r.tokens;
    if |s| > 1 {
      var q := Lex(s[2..], current + "''", true);
      assert [] + q.tokens == q.tokens;
    }
  }

  lemma SameFirstTurn(a: string, rest: string, current: string, open: bool)
    requires a != "" && rest != "" && Separate(a, rest[0])
    ensures FirstTurn(a + rest, current, open) == FirstTurn(a, current, open)
  {
    hide Flush, IsPunctuation, IsWhitespace;
    var s := a + rest;
    assert s[0] == a[0] && (|a| > 1 ==> s[1] == a[1]) && (|a| == 1 ==> s[1] == rest[0]);
    assert s[..1] == a[..1];
    assert |a| > 1 ==> s[..2] == a[..2];
  }

  /** A text is read by reading its first part and then the rest from there. */
  lemma {:induction false} LexConcat(a: string, rest: string, current: string, open: bool)
    requires rest != "" && Separate(a, rest[0])
    ensures var r := Lex(a, current, open);
            Lex(a + rest, current, open) == Emit(r.tokens, Lex(rest, r.current, r.open))
    decreases |a|
  {
    hide Lex, FirstTurn;
    if a == "" {
      NothingRead(current, open);
      assert a + rest == rest;
      var q := Lex(rest, current, open);
      assert [] + q.tokens == q.tokens;
    } else {
      SameFirstTurn(a, rest, current, open);
      LexTurn(a + rest, current, open);
      LexTurn(a, current, open);
      var (n, ts, next, o) := FirstTurn(a, current, open);
      assert (a + rest)[n..] == a[n..] + rest;
      LexConcat(a[n..], rest, next, o);
      var r := Lex(a[n..], next, o);
      EmitTwice(ts, r.tokens, Lex(rest, r.current, r.open));
    }
  }

  lemma NothingRead(current: string, open: bool)
    ensures Lex("", current, open) == Lexed([], current, open)
  {
  }

  const PUNCTUATION := "(),*"

  /** Outside a string, blanks separate tokens and are dropped. */
  lemma BlankSplits(a: string, c: char, b: string)
    requires Quotes(a) % 2 == 0 && (IsWhitespace(c) || c in " \t\r\n")
    ensures Tokens(a + [c] + b) == Tokens(a) + Tokens(b)
  {
    hide Lex, Quotes;
    SplitAt(a, [c] + b);
    var r := Lex(a, "", false);
    BlankTurn(c, b, r.current);
    assert a + [c] + b == a + ([c] + b);
  }

  /** Parentheses, commas and stars are tokens of their own. */
  lemma PunctuationSplits(a: string, c: char, b: string)
    requires Quotes(a) % 2 == 0 && c in PUNCTUATION
    ensures Tokens(a + [c] + b) == Tokens(a) + [[c]] + Tokens(b)
  {
    hide Lex, Quotes;
    SplitAt(a, [c] + b);
    var r := Lex(a, "", false);
    SymbolTurn([c], b, r.current);
    assert a + [c] + b == a + ([c] + b);
  }

  predicate IsOperator(op: string) {
    op in ["=", "<", ">", "<=", ">=", "<>", "!="]
  }

  /** The next character makes a longer operator. */
  predicate Grows(op: string, b: string) {
    b != "" && (op == "<" || op == ">") && (b[0] == '=' || b[0] == '>')
  }

  lemma OperatorStart(a: string, op: string, b: string)
    requires IsOperator(op) && (a != "" ==> a[|a| - 1] !in {'<', '>', '!'})
    ensures op + b != "" && Separate(a, (op + b)[0])
  {
    assert (op + b)[0] == op[0];
  }

  /** So are the operators, the longest one where two would do. */
  lemma OperatorSplits(a: string, op: string, b: string)
    requires Quotes(a) % 2 == 0 && IsOperator(op)
    requires a != "" ==> a[|a| - 1] !in {'<', '>', '!'}
    requires !Grows(op, b)
    ensures Tokens(a + op + b) == Tokens(a) + [op] + Tokens(b)
  {
    hide Lex, Quotes, IsOperator, Separate, Flush, Grows;
    OperatorStart(a, op, b);
    SplitAt(a, op + b);
    var r := Lex(a, "", false);
    SymbolTurn(op, b, r.current);
    assert a + op + b == a + (op + b);
    Regroup(r.tokens, Flush(r.current), op, Tokens(b));
  }

  /** Any other characters make up one word. */
  lemma WordIsWhole(w: string)
    requires w != ""
    requires forall i | 0 <= i < |w| :: !IsWhitespace(w[i]) && w[i] !in PUNCTUATION && w[i] !in "'<>=!"
    ensures Tokens(w) == [w]
  {
    WordIsToken(w);
    ReadToken(w, "");
    assert w + "" == w;
  }

  lemma SplitAt(a: string, rest: string)
    requires Quotes(a) % 2 == 0 && rest != "" && Separate(a, rest[0])
    ensures var r := Lex(a, "", false);
            !r.open && Tokens(a + rest) == r.tokens + Finish(Lex(rest, r.current, false))
  {
    hide Lex, Quotes;
    OpenIffOdd(a, "", false);
    LexConcat(a, rest, "", false);
  }

  lemma BlankTurn(c: char, b: string, current: string)
    requires IsWhitespace(c) || c in " \t\r\n"
    ensures Finish(Lex([c] + b, current, false)) == Flush(current) + Tokens(b)
  {
    hide Flush, Finish;
    LexStep([c] + b, current, false);
    assert ([c] + b)[1..] == b;
  }

  lemma SymbolTurn(op: string, b: string, current: string)
    requires IsOperator(op) || (|op| == 1 && op[0] in PUNCTUATION)
    requires !Grows(op, b)
    ensures Finish(Lex(op + b, current, false)) == Flush(current) + [op] + Tokens(b)
  {
    hide Flush, Finish, Lex;
    var s := op + b;
    LexStep(s, current, false);
    assert s[0] == op[0] && (|op| == 2 ==> s[1] == op[1]) && (|op| == 1 && b != "" ==> s[1] == b[0]);
    assert s[|op|..] == b && op == if |op| == 1 then [op[0]] else [op[0], op[1]];
  }

  // ----- The shape of tokens -----

  predicate IsWordChar(c: char) {
    c != '\'' && !IsPunctuation(c) && c != '<' && c != '>' && c != '=' && !IsWhitespace(c)
  }

  predicate IsWord(s: string) {
    s != "" && forall i | 0 <= i < |s| :: IsWordChar(s[i])
  }

  /** Text in which every quote is doubled. */
  predicate IsBody(s: string) {
    if s == "" then true
    else if s[0] != '\'' then IsBody(s[1..])
    else |s| > 1 && s[1] == '\'' && IsBody(s[2..])
  }

  predicate IsQuoted(s: string) {
    |s| >= 2 && s[0] == '\'' && s[|s| - 1] == '\'' && IsBody(s[1..|s| - 1])
  }

  predicate IsSymbol(s: string) {
    s in ["(", ")", ",", "*", "!=", "<=", ">=", "<>", "<", ">", "="]
  }

  predicate IsToken(s: string) {
    IsWord(s) || IsQuoted(s) || IsSymbol(s)
  }

  predicate AllTokens(ts: seq<string>) {
    forall i | 0 <= i < |ts| :: IsToken(ts[i])
  }

  /** The state the loop can be in: an open string holds a body, otherwise the
      current token is a word or empty. */
  predicate GoodState(current: string, open: bool) {
    if open then IsBody(current) else current == "" || IsWord(current)
  }

  lemma {:induction false} BodyConcat(a: string, b: string)
    requires IsBody(a) && IsBody(b)
    ensures IsBody(a + b)
  {
    if a == "" {
      assert a + b == b;
    } else if a[0] != '\'' {
      BodyConcat(a[1..], b);
      assert (a + b)[1..] == a[1..] + b;
    } else {
      BodyConcat(a[2..], b);
      assert (a + b)[2..] == a[2..] + b;
    }
  }

  lemma QuotedBody(body: string)
    requires IsBody(body)
    ensures IsQuoted("'" + body + "'")
  {
    var q := "'" + body + "'";
    assert q[1..|q| - 1] == body;
  }

  lemma BodyPieces()
    ensures IsBody("") && IsBody("''")
    ensures forall c | c != '\'' :: IsBody([c])
  {
    assert "''"[2..] == "";
    forall c | c != '\'' ensures IsBody([c]) {
      assert [c][1..] == "";
    }
  }

  /** Every finished token has one of the three shapes, and the loop ends in a
      good state. */
  lemma {:induction false} LexShape(s: string, current: string, open: bool)
    requires GoodState(current, open)
    ensures var r := Lex(s, current, open); AllTokens(r.tokens) && GoodState(r.current, r.open)
    decreases |s|
  {
    hide IsQuoted, IsBody, IsWord;
    BodyPieces();
    if s == "" {
    } else if open {
      if s[0] != '\'' {
        BodyConcat(current, [s[0]]);
        LexShape(s[1..], current + [s[0]], true);
      } else if |s| > 1 && s[1] == '\'' {
        BodyConcat(current, "''");
        LexShape(s[2..], current + "''", true);
      } else {
        QuotedBody(current);
        LexShape(s[1..], "", false);
      }
    } else {
      ShapeOutside(s, current);
      if s[0] == '\'' {
        LexShape(s[1..], "", true);
      } else if IsPunctuation(s[0]) || s[0] == '=' || IsWhitespace(s[0]) {
        LexShape(s[1..], "", false);
      } else if s[0] == '!' && |s| > 1 && s[1] == '=' {
        LexShape(s[2..], "", false);
      } else if s[0] == '<' || s[0] == '>' {
        LexShape(s[|OperatorAt(s)|..], "", false);
      } else {
        LexShape(s[1..], current + [s[0]], false);
      }
    }
  }

  /** A character outside a string either extends a word or gives a symbol. */
  lemma ShapeOutside(s: string, current: string)
    requires s != "" && (current == "" || IsWord(current))
    ensures AllTokens(Flush(current))
    ensures IsPunctuation(s[0]) || s[0] == '=' ==> IsSymbol([s[0]])
    ensures s[0] == '<' || s[0] == '>' ==> IsSymbol(OperatorAt(s))
    ensures IsWordChar(s[0]) ==> IsWord(current + [s[0]])
  {
    if s[0] == '<' || s[0] == '>' {
      assert OperatorAt(s) == if |s| > 1 && (s[1] == '=' || (s[0] == '<' && s[1] == '>')) then [s[0], s[1]] else [s[0]];
    }
  }

  // ----- Reading a token back -----

  lemma {:induction false} ReadWord(w: string, current: string, rest: string)
    requires forall i | 0 <= i < |w| :: IsWordChar(w[i])
    requires current + w != "" && (rest == "" || rest[0] == ' ')
    ensures Finish(Lex(w + rest, current, false))
            == [current + w] + (if rest == "" then [] else Finish(Lex(rest[1..], "", false)))
    decreases |w|
  {
    hide Lex, Finish;
    if w == "" {
      assert w + rest == rest && current + w == current;
      if rest == "" {
        LexEnd(current, false);
      } else {
        LexStep(rest, current, false);
      }
    } else {
      var s := w + rest;
      assert s[0] == w[0] && s[1..] == w[1..] + rest;
      LexStep(s, current, false);
      ReadWord(w[1..], current + [w[0]], rest);
      assert current + [w[0]] + w[1..] == current + w;
      assert s[0] == '!' ==> !(|s| > 1 && s[1] == '=') by {
        if |w| > 1 { assert s[1] == w[1]; } else if rest != "" { assert s[1] == rest[0]; }
      }
    }
  }

  lemma {:induction false} ReadBody(body: string, current: string, rest: string)
    requires IsBody(body) && (rest == "" || rest[0] != '\'')
    ensures Finish(Lex(body + "'" + rest, current, true)) == ["'" + current + body + "'"] + Finish(Lex(rest, "", false))
    decreases |body|
  {
    hide Finish, Lex;
    var s := body + "'" + rest;
    LexStep(s, current, true);
    if body == "" {
      assert s == "'" + rest && s[1..] == rest;
      assert |s| > 1 ==> s[1] == rest[0];
      assert "'" + current + body + "'" == "'" + current + "'";
    } else if body[0] != '\'' {
      assert s[1..] == body[1..] + "'" + rest;
      ReadBody(body[1..], current + [body[0]], rest);
      assert "'" + (current + [body[0]]) + body[1..] + "'" == "'" + current + body + "'";
    } else {
      assert s[1] == '\'' && s[2..] == body[2..] + "'" + rest;
      ReadBody(body[2..], current + "''", rest);
      assert "'" + (current + "''") + body[2..] + "'" == "'" + current + body + "'";
    }
  }

  lemma ReadQuoted(tok: string, rest: string)
    requires IsQuoted(tok) && (rest == "" || rest[0] != '\'')
    ensures Finish(Lex(tok + rest, "", false)) == [tok] + Finish(Lex(rest, "", false))
  {
    hide Finish, Lex, IsBody;
    var body := tok[1..|tok| - 1];
    var s := tok + rest;
    BodyOf(tok);
    assert s[1..] == tok[1..] + rest;
    LexStep(s, "", false);
    ReadBody(body, "", rest);
  }

  lemma BodyOf(tok: string)
    requires |tok| >= 2 && tok[0] == '\'' && tok[|tok| - 1] == '\''
    ensures tok[1..] == tok[1..|tok| - 1] + "'" && "'" + "" + tok[1..|tok| - 1] + "'" == tok
  {
    var body := tok[1..|tok| - 1];
    assert tok == [tok[0]] + body + [tok[|tok| - 1]];
    assert "'" + "" == "'";
  }

  lemma ReadSymbol(tok: string, rest: string)
    requires IsSymbol(tok) && (rest == "" || rest[0] == ' ')
    ensures Finish(Lex(tok + rest, "", false)) == [tok] + Finish(Lex(rest, "", false))
  {
    hide Finish, Lex, IsWhitespace;
    var s := tok + rest;
    assert |s| > |tok| ==> s[|tok|] == ' ';
    assert s[|tok|..] == rest;
    LexStep(s, "", false);
    assert tok == if |tok| == 1 then [s[0]] else [s[0], s[1]];
  }

  /** A token is read back whole at the end of the text or before a space. */
  lemma ReadToken(tok: string, rest: string)
    requires IsToken(tok) && (rest == "" || rest[0] == ' ')
    ensures Finish(Lex(tok + rest, "", false)) == [tok] + (if rest == "" then [] else Finish(Lex(rest[1..], "", false)))
  {
    hide IsQuoted, IsSymbol, Lex, Finish;
    if IsWord(tok) {
      ReadWord(tok, "", rest);
      assert "" + tok == tok;
    } else {
      if IsQuoted(tok) {
        ReadQuoted(tok, rest);
      } else {
        ReadSymbol(tok, rest);
      }
      if rest == "" {
        LexEnd("", false);
      } else {
        LexStep(rest, "", false);
      }
    }
  }

  function Join(ts: seq<string>): string {
    if ts == [] then "" else if |ts| == 1 then ts[0] else ts[0] + " " + Join(ts[1..])
  }

  /** Tokens joined by spaces are read back as they are; so is any slice of
      them, as set operations, EXPLAIN and subqueries need. The text after the
      tokens is read on its own. */
  lemma {:induction false} RelexBefore(ts: seq<string>, tail: string)
    requires AllTokens(ts)
    ensures Tokens(Join(ts + [tail])) == ts + Tokens(tail)
  {
    hide IsToken, Lex, Finish;
    if ts == [] {
      assert ts + [tail] == [tail];
    } else {
      var all := ts + [tail];
      assert all[1..] == ts[1..] + [tail];
      RelexBefore(ts[1..], tail);
      var rest := " " + Join(all[1..]);
      assert Join(all) == ts[0] + rest;
      assert rest[1..] == Join(all[1..]);
      ReadToken(ts[0], rest);
      assert [ts[0]] + ts[1..] == ts;
    }
  }

  lemma Relex(ts: seq<string>)
    requires AllTokens(ts)
    ensures Tokens(Join(ts)) == ts
  {
    hide IsToken, Lex, Finish;
    if ts == [] {
      assert Tokens("") == [] by { LexEnd("", false); assert Flush("") == []; }
    } else {
      var n := |ts| - 1;
      RelexBefore(ts[..n], ts[n]);
      assert ts[..n] + [ts[n]] == ts;
      assert ts[n] + "" == ts[n];
      ReadToken(ts[n], "");
    }
  }

  /** Exactly the token shapes are read as one token. */
  lemma OneTokenIff(s: string)
    ensures Tokens(s) == [s] <==> IsToken(s)
  {
    if IsToken(s) {
      assert s + "" == s;
      ReadToken(s, "");
    }
    if Tokens(s) == [s] {
      var r := Lex(s, "", false);
      LexShape(s, "", false);
      LexShorter(s, "", false);
      var all := r.tokens + Flush(r.current);
      assert all == [s];
      if r.current == "" {
        assert all[0] == r.tokens[0];
      } else {
        assert all[|r.tokens|] == r.current;
        assert |r.tokens| == 0 && r.current == s;
        assert !r.open;
      }
    }
  }

  /** An opening quote is never part of the text of an open string. */
  lemma {:induction false} LexShorter(s: string, current: string, open: bool)
    ensures var r := Lex(s, current, open);
            |r.current| <= |current| + |s| && (r.open && !open ==> |r.current| < |s|)
    decreases |s|
  {
    if s != "" {
      if open {
        if s[0] != '\'' {
          LexShorter(s[1..], current + [s[0]], true);
        } else if |s| > 1 && s[1] == '\'' {
          LexShorter(s[2..], current + "''", true);
        } else {
          LexShorter(s[1..], "", false);
        }
      } else if s[0] == '\'' {
        LexShorter(s[1..], "", true);
      } else if IsPunctuation(s[0]) || s[0] == '=' || IsWhitespace(s[0]) {
        LexShorter(s[1..], "", false);
      } else if s[0] == '!' && |s| > 1 && s[1] == '=' {
        LexShorter(s[2..], "", false);
      } else if s[0] == '<' || s[0] == '>' {
        LexShorter(s[|OperatorAt(s)|..], "", false);
      } else {
        LexShorter(s[1..], current + [s[0]], false);
      }
    }
  }

  // ----- Which texts can be re-read -----

  function Quotes(s: string): nat {
    if s == "" then 0 else Quotes(s[..|s| - 1]) + if s[|s| - 1] == '\'' then 1 else 0
  }

  lemma {:induction false} QuotesConcat(a: string, b: string)
    ensures Quotes(a + b) == Quotes(a) + Quotes(b)
    decreases |b|
  {
    if b == "" {
      assert a + b == a;
    } else {
      var n := |b| - 1;
      assert (a + b)[..|a + b| - 1] == a + b[..n];
      QuotesConcat(a, b[..n]);
    }
  }

  lemma QuotesFrom(s: string, i: nat)
    requires i <= |s|
    ensures Quotes(s) == Quotes(s[..i]) + Quotes(s[i..])
  {
    assert s == s[..i] + s[i..];
    QuotesConcat(s[..i], s[i..]);
  }

  lemma QuotesHead(s: string)
    requires s != ""
    ensures Quotes(s) == (if s[0] == '\'' then 1 else 0) + Quotes(s[1..])
    ensures |s| > 1 ==> Quotes(s) == (if s[0] == '\'' then 1 else 0) + (if s[1] == '\'' then 1 else 0) + Quotes(s[2..])
  {
    QuotesFrom(s, 1);
    assert s[..1][..0] == "";
    if |s| > 1 {
      QuotesFrom(s, 2);
      assert s[..2][..1] == s[..1];
    }
  }

  lemma {:induction false} BodyQuotesEven(s: string)
    requires IsBody(s)
    ensures Quotes(s) % 2 == 0
    decreases |s|
  {
    if s != "" {
      QuotesHead(s);
      BodyQuotesEven(if s[0] != '\'' then s[1..] else s[2..]);
    }
  }

  /** A string that is open and only sees doubled quotes stays open. */
  lemma {:induction false} BodyStaysOpen(s: string, current: string)
    requires IsBody(s)
    ensures Lex(s, current, true) == Lexed([], current + s, true)
    decreases |s|
  {
    if s == "" {
      assert current + s == current;
    } else if s[0] != '\'' {
      BodyStaysOpen(s[1..], current + [s[0]]);
      assert current + [s[0]] + s[1..] == current + s;
    } else {
      BodyStaysOpen(s[2..], current + "''");
      assert current + "''" + s[2..] == current + s;
    }
  }

  /** How far one turn of the loop outside a string reads, and what it leaves. */
  function Eaten(s: string): (n: nat)
    requires s != ""
    ensures 1 <= n <= |s|
  {
    if s[0] == '!' && |s| > 1 && s[1] == '=' then 2
    else if s[0] == '<' || s[0] == '>' then |OperatorAt(s)|
    else 1
  }

  /** Outside a string only a quote opens one; nothing else reads a quote. */
  lemma TurnOutside(s: string, current: string) returns (next: string)
    requires s != "" && s[0] != '\''
    ensures Lex(s, current, false).open == Lex(s[Eaten(s)..], next, false).open
    ensures Lex(s, current, false).current == Lex(s[Eaten(s)..], next, false).current
    ensures forall i | 0 <= i < Eaten(s) :: s[i] != '\''
    ensures next == "" || next == current + [s[0]]
  {
    hide IsWhitespace;
    if IsPunctuation(s[0]) || s[0] == '=' || IsWhitespace(s[0]) {
      next := "";
    } else if s[0] == '!' && |s| > 1 && s[1] == '=' {
      next := "";
    } else if s[0] == '<' || s[0] == '>' {
      next := "";
    } else {
      next := current + [s[0]];
    }
  }

  lemma {:induction false} NoQuotes(s: string)
    requires forall i | 0 <= i < |s| :: s[i] != '\''
    ensures Quotes(s) == 0
  {
    if s != "" {
      NoQuotes(s[..|s| - 1]);
    }
  }

  lemma {:induction false} OpenIffOdd(s: string, current: string, open: bool)
    ensures Lex(s, current, open).open <==> (Quotes(s) + if open then 1 else 0) % 2 == 1
    decreases |s|
  {
    hide IsWhitespace, IsPunctuation;
    if s != "" {
      QuotesHead(s);
      if open {
        if s[0] != '\'' {
          OpenIffOdd(s[1..], current + [s[0]], true);
        } else if |s| > 1 && s[1] == '\'' {
          OpenIffOdd(s[2..], current + "''", true);
        } else {
          OpenIffOdd(s[1..], "", false);
        }
      } else if s[0] == '\'' {
        OpenIffOdd(s[1..], "", true);
      } else {
        var next := TurnOutside(s, current);
        QuotesFrom(s, Eaten(s));
        NoQuotes(s[..Eaten(s)]);
        OpenIffOdd(s[Eaten(s)..], next, false);
      }
    }
  }

  /** The text of an open string is the end of the input, after a quote. */
  predicate EndsAfterQuote(s: string, t: string) {
    |t| < |s| && s[|s| - |t| - 1] == '\'' && s[|s| - |t|..] == t
  }

  lemma EndsFurther(s: string, n: nat, t: string)
    requires n <= |s| && EndsAfterQuote(s[n..], t)
    ensures EndsAfterQuote(s, t)
  {
    var u := s[n..];
    assert u[|u| - |t|..] == s[|s| - |t|..];
  }

  lemma {:induction false} OpenTextIsEnd(s: string, current: string, open: bool)
    requires Lex(s, current, open).open
    ensures var t := Lex(s, current, open).current; (open && t == current + s) || EndsAfterQuote(s, t)
    decreases |s|
  {
    hide IsWhitespace, IsPunctuation;
    var t := Lex(s, current, open).current;
    if s == "" {
      assert current + s == current;
    } else if open {
      if s[0] != '\'' {
        OpenTextIsEnd(s[1..], current + [s[0]], true);
        assert current + [s[0]] + s[1..] == current + s;
        if EndsAfterQuote(s[1..], t) { EndsFurther(s, 1, t); }
      } else if |s| > 1 && s[1] == '\'' {
        OpenTextIsEnd(s[2..], current + "''", true);
        assert current + "''" + s[2..] == current + s;
        if EndsAfterQuote(s[2..], t) { EndsFurther(s, 2, t); }
      } else {
        OpenTextIsEnd(s[1..], "", false);
        EndsFurther(s, 1, t);
      }
    } else if s[0] == '\'' {
      OpenTextIsEnd(s[1..], "", true);
      assert "" + s[1..] == s[1..];
      if EndsAfterQuote(s[1..], t) { EndsFurther(s, 1, t); }
    } else {
      var next := TurnOutside(s, current);
      OpenTextIsEnd(s[Eaten(s)..], next, false);
      EndsFurther(s, Eaten(s), t);
    }
  }

  /** A quote after an even number of quotes, with only doubled quotes after it. */
  predicate Opens(s: string, i: nat) {
    i < |s| && s[i] == '\'' && Quotes(s[..i]) % 2 == 0 && IsBody(s[i + 1..])
  }

  /** The quote that opens the string the text ends in. */
  predicate LastOpening(s: string, i: nat) {
    Opens(s, i) && forall j | 0 <= j < i :: !Opens(s, j)
  }

  /** The state in which `s[j]` is read would open a string there. */
  predicate CanOpen(s: string, j: nat, open: bool) {
    j < |s| && s[j] == '\'' && (Quotes(s[..j]) + if open then 1 else 0) % 2 == 0 && IsBody(s[j + 1..])
  }

  lemma CanOpenLater(s: string, j: nat, open: bool, n: nat, open': bool)
    requires CanOpen(s, j, open) && n <= j
    requires (Quotes(s[..n]) + (if open then 1 else 0) + if open' then 1 else 0) % 2 == 0
    ensures CanOpen(s[n..], j - n, open')
  {
    hide IsBody;
    QuotesFrom(s[..j], n);
    assert s[..j][..n] == s[..n] && s[..j][n..] == s[n..][..j - n];
    assert s[n..][j - n + 1..] == s[j + 1..];
  }

  /** So the text of the open string reaches back at least that far. */
  lemma {:induction false} OpenTextIsLong(s: string, current: string, open: bool, j: nat)
    requires CanOpen(s, j, open)
    ensures |Lex(s, current, open).current| >= |s| - j - 1
    decreases |s|
  {
    hide IsWhitespace, IsPunctuation, IsBody, CanOpen;
    CanOpenFacts(s, j, open);
    if open {
      if s[0] != '\'' {
        Prefixes(s);
        CanOpenLater(s, j, true, 1, true);
        OpenTextIsLong(s[1..], current + [s[0]], true, j - 1);
      } else if |s| > 1 && s[1] == '\'' {
        if j == 1 {
          BodyStaysOpen(s[2..], current + "''");
        } else {
          Prefixes(s);
          CanOpenLater(s, j, true, 2, true);
          OpenTextIsLong(s[2..], current + "''", true, j - 2);
        }
      } else {
        Prefixes(s);
        CanOpenLater(s, j, true, 1, false);
        OpenTextIsLong(s[1..], "", false, j - 1);
      }
    } else if s[0] == '\'' {
      if j == 0 {
        BodyStaysOpen(s[1..], "");
      } else {
        Prefixes(s);
        CanOpenLater(s, j, false, 1, true);
        OpenTextIsLong(s[1..], "", true, j - 1);
      }
    } else {
      var next := TurnOutside(s, current);
      NoQuotes(s[..Eaten(s)]);
      CanOpenLater(s, j, false, Eaten(s), false);
      OpenTextIsLong(s[Eaten(s)..], next, false, j - Eaten(s));
    }
  }

  lemma CanOpenFacts(s: string, j: nat, open: bool)
    requires CanOpen(s, j, open)
    ensures j < |s| && s[j] == '\'' && IsBody(s[j + 1..]) && (open ==> j > 0)
  {
    hide IsBody;
    assert s[..0] == "";
  }

  lemma Prefixes(s: string)
    requires s != ""
    ensures Quotes(s[..1]) == if s[0] == '\'' then 1 else 0
    ensures |s| > 1 ==> Quotes(s[..2]) == (if s[0] == '\'' then 1 else 0) + if s[1] == '\'' then 1 else 0
  {
    assert s[..1][..0] == "";
    if |s| > 1 {
      assert s[..2][..1] == s[..1];
    }
  }

  /** A text ends inside a string exactly when its quotes are odd in number, and
      that string's text is what follows its opening quote. */
  lemma OpenText(s: string)
    ensures Lex(s, "", false).open <==> Quotes(s) % 2 == 1
    ensures Quotes(s) % 2 == 1 <==> exists i: nat :: LastOpening(s, i)
    ensures forall i: nat | LastOpening(s, i) :: Lex(s, "", false).current == s[i + 1..]
  {
    hide Lex, IsBody, Quotes;
    var r := Lex(s, "", false);
    OpenIffOdd(s, "", false);
    if r.open {
      OpenTextIsEnd(s, "", false);
      var o := |s| - |r.current| - 1;
      assert s[o + 1..] == r.current;
      LexShape(s, "", false);
      QuotesFrom(s, o);
      QuotesFrom(s[o..], 1);
      BodyQuotesEven(r.current);
      assert s[o..][1..] == r.current && s[o..][..1] == "'";
      assert Quotes("'") == 1 by { Prefixes("'"); assert "'"[..1] == "'"; }
      assert Opens(s, o);
      forall j: nat | Opens(s, j) ensures o <= j {
        OpenTextIsLong(s, "", false, j);
      }
      assert LastOpening(s, o);
      forall i: nat | LastOpening(s, i) ensures i == o {
        assert o <= i;
      }
    } else {
      forall i: nat ensures !LastOpening(s, i) {
        if Opens(s, i) {
          OpensIsOdd(s, i);
        }
      }
    }
  }

  lemma OpensIsOdd(s: string, i: nat)
    requires Opens(s, i)
    ensures Quotes(s) % 2 == 1
  {
    hide IsBody, Quotes;
    QuotesFrom(s, i);
    QuotesFrom(s[i..], 1);
    assert s[i..][1..] == s[i + 1..] && s[i..][..1] == "'";
    assert Quotes("'") == 1 by { Prefixes("'"); assert "'"[..1] == "'"; }
    BodyQuotesEven(s[i + 1..]);
  }

  /** The text ends inside a string whose text is neither empty nor a token. */
  ghost predicate LosesItsEnd(s: string) {
    exists i: nat :: LastOpening(s, i) && s[i + 1..] != "" && !IsToken(s[i + 1..])
  }

  lemma LosesItsEndIff(s: string)
    ensures var r := Lex(s, "", false); LosesItsEnd(s) <==> r.open && r.current != "" && !IsToken(r.current)
  {
    hide Lex, IsToken, LastOpening, Quotes;
    OpenText(s);
  }

  /** A slice of a text's tokens, joined by spaces, is read back exactly when it
      is empty, stops before the last token, or the text does not end inside a
      string that looks like no token. */
  lemma RelexSliceIff(s: string, a: nat, b: nat)
    requires a <= b <= |Tokens(s)|
    ensures Tokens(Join(Tokens(s)[a..b])) == Tokens(s)[a..b] <==> a == b || b < |Tokens(s)| || !LosesItsEnd(s)
  {
    hide IsToken, Lex, LosesItsEnd, Join;
    var r, ts := Lex(s, "", false), Tokens(s);
    LexShape(s, "", false);
    LosesItsEndIff(s);
    if r.current != "" && !r.open {
      WordIsToken(r.current);
    }
    if a == b || b < |ts| || r.current == "" || IsToken(r.current) {
      assert AllTokens(ts[a..b]) by {
        forall i | a <= i < b ensures IsToken(ts[i]) {
          if i < |r.tokens| { assert ts[i] == r.tokens[i]; } else { assert ts[i] == r.current; }
        }
      }
      Relex(ts[a..b]);
    } else {
      var init := r.tokens[a..];
      assert ts[a..b] == init + [r.current];
      assert AllTokens(init);
      RelexBefore(init, r.current);
      OneTokenIff(r.current);
      SameAfter(init, Tokens(r.current), [r.current]);
    }
  }

  lemma SameAfter(init: seq<string>, x: seq<string>, y: seq<string>)
    ensures init + x == init + y <==> x == y
  {
    assert (init + x)[|init|..] == x && (init + y)[|init|..] == y;
  }

  /** Re-reading all of a text's tokens. */
  lemma RelexIff(s: string)
    ensures Tokens(Join(Tokens(s))) == Tokens(s) <==> !LosesItsEnd(s)
  {
    hide IsToken, Lex, Finish, LosesItsEnd;
    assert Tokens(s)[0..|Tokens(s)|] == Tokens(s);
    RelexSliceIff(s, 0, |Tokens(s)|);
    if Tokens(s) == [] {
      NoTokensNoLoss(s);
    }
  }

  lemma NoTokensNoLoss(s: string)
    requires Tokens(s) == []
    ensures !LosesItsEnd(s)
  {
    hide Lex, IsToken, LosesItsEnd;
    LosesItsEndIff(s);
  }

  lemma Blank(c: char)
    requires IsWhitespace(c)
    ensures Tokens([c]) == [] && c != '\''
  {
    hide Lex, Finish;
    assert [c][1..] == "";
    LexStep([c], "", false);
    LexEnd("", false);
    assert Flush("") == [];
  }

  lemma OpenBlank(c: char)
    requires c != '\''
    ensures Finish(Lex([c], "", true)) == [[c]]
  {
    assert [c][1..] == "" && "" + [c] == [c];
  }

  /** A quote opened before a blank and never closed: the blank is a token, and
      is gone once re-read. */
  lemma UnclosedStringIsLost(c: char)
    requires IsWhitespace(c)
    ensures Tokens(['\'', c]) == [[c]] && Tokens(Join([[c]])) == []
  {
    hide Lex, Finish, IsWhitespace;
    var s := ['\'', c];
    assert s[1..] == [c];
    Blank(c);
    OpenBlank(c);
    LexStep(s, "", false);
    assert Flush("") == [];
  }

  lemma WordIsToken(s: string)
    requires IsWord(s)
    ensures IsToken(s)
  {
  }

  // ----- Quoting text -----

  function Escape(s: string): string {
    if s == "" then "" else (if s[0] == '\'' then "''" else [s[0]]) + Escape(s[1..])
  }

  /** Replaces each pair of quotes by one, from the left. */
  function Unescape(s: string): string {
    if s == "" then ""
    else if |s| > 1 && s[0] == '\'' && s[1] == '\'' then "'" + Unescape(s[2..])
    else [s[0]] + Unescape(s[1..])
  }

  function Quote(s: string): string {
    "'" + Escape(s) + "'"
  }

  /** Any text quoted is one token, and reading it gives the text back. */
  lemma {:induction false} EscapeRoundTrip(s: string)
    ensures IsBody(Escape(s)) && Unescape(Escape(s)) == s
  {
    if s != "" {
      EscapeRoundTrip(s[1..]);
      var e := Escape(s);
      if s[0] == '\'' {
        assert e[2..] == Escape(s[1..]) && e[0] == e[1] == '\'';
        assert s == "'" + s[1..];
      } else {
        assert e[1..] == Escape(s[1..]) && e[0] == s[0];
        assert s == [s[0]] + s[1..];
      }
    }
  }

  lemma QuoteIsToken(s: string)
    ensures IsToken(Quote(s)) && Tokens(Quote(s)) == [Quote(s)]
  {
    EscapeRoundTrip(s);
    QuotedBody(Escape(s));
    OneTokenIff(Quote(s));
  }
}
